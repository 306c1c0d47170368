/** The chunks of an evbuffer (`struct evbuffer_chain`) and the part of the C heap that holds them.
    A chunk's bytes are allocated in one block with its header, so they are part of the chunk.
    Shared, pinned and file-backed chunks are not modelled. */
module Chunks {
  import opened Bytes
  import opened Addresses

  /** sizeof(struct evbuffer_chain) on a 64-bit target. */
  const CHAIN_HEADER: nat := 48
  const CHAIN_MAX: nat := SSIZE_MAX
  const MIN_BUFFER_SIZE: nat := 1024

  /** `mem` is the block of buffer_len bytes, of which `off` bytes from `misalign` on are in use. */
  datatype Chunk = Chunk(next: Ptr, mem: seq<byte>, misalign: nat, off: nat) {

    predicate Ok() {
      misalign + off <= |mem| <= CHAIN_MAX - CHAIN_HEADER
    }

    /** The bytes stored in the chunk. */
    function Data(): (d: seq<byte>)
      requires Ok()
    {
      mem[misalign..misalign + off]
    }

    /** CHAIN_SPACE_LEN: room after the stored bytes. */
    function Space(): nat
      requires Ok()
    {
      |mem| - (misalign + off)
    }

    /** Copies `data` into the room after the stored bytes. */
    function Append(data: seq<byte>): (c: Chunk)
      requires Ok() && |data| <= Space()
      ensures c.Ok() && c.Data() == Data() + data && c.next == next
      ensures c.Space() == Space() - |data| && |c.mem| == |mem|
    {
      var at := misalign + off;
      assert Memcpy(mem, at, data)[misalign..at + |data|] == mem[misalign..at] + data;
      this.(mem := Memcpy(mem, at, data), off := off + |data|)
    }

    /** Copies `data` into the unused bytes before the stored ones. */
    function PrependInPlace(data: seq<byte>): (c: Chunk)
      requires Ok() && |data| <= misalign
      ensures c.Ok() && c.Data() == data + Data() && c.next == next
      ensures c.misalign == misalign - |data|
    {
      var at := misalign - |data|;
      assert Memcpy(mem, at, data)[at..misalign + off] == data + mem[misalign..misalign + off];
      this.(mem := Memcpy(mem, at, data), misalign := at, off := off + |data|)
    }

    /** evbuffer_chain_align: moves the stored bytes to the start of the block. */
    function Align(): (c: Chunk)
      requires Ok()
      ensures c.Ok() && c.Data() == Data() && c.next == next && |c.mem| == |mem|
      ensures c.Space() == |mem| - off
    {
      this.(mem := Memcpy(mem, 0, Data()), misalign := 0)
    }

    /** Discards the first `n` stored bytes. */
    function Consume(n: nat): (c: Chunk)
      requires Ok() && n <= off
      ensures c.Ok() && c.Data() == Data()[n..] && c.next == next
    {
      this.(misalign := misalign + n, off := off - n)
    }

    /** evbuffer_chain_should_realign. */
    predicate ShouldRealign(datlen: nat)
      requires Ok()
    {
      datlen <= |mem| - off && off < |mem| / 2 && off <= 2048
    }
  }

  /** memcpy or memmove of `src` into the block `dst`. */
  function Memcpy(dst: seq<byte>, at: nat, src: seq<byte>): (r: seq<byte>)
    requires at + |src| <= |dst|
    ensures |r| == |dst| && r[at..at + |src|] == src
    ensures r[..at] == dst[..at] && r[at + |src|..] == dst[at + |src|..]
  {
    dst[..at] + src + dst[at + |src|..]
  }

  /** How many bytes evbuffer_chain_new asks the allocator for, header included. */
  method AllocationSize(size: nat) returns (toAlloc: nat)
    requires size <= CHAIN_MAX - CHAIN_HEADER
    ensures size + CHAIN_HEADER <= toAlloc <= CHAIN_MAX
    ensures toAlloc == MIN_BUFFER_SIZE || MIN_BUFFER_SIZE < toAlloc < 2 * (size + CHAIN_HEADER)
  {
    var total := size + CHAIN_HEADER;
    if total < CHAIN_MAX / 2 {
      toAlloc := MIN_BUFFER_SIZE;
      while toAlloc < total
        invariant toAlloc == MIN_BUFFER_SIZE || MIN_BUFFER_SIZE < toAlloc < 2 * total
        decreases 2 * total - toAlloc
      {
        toAlloc := toAlloc * 2;
      }
    } else {
      toAlloc := total;
    }
  }

  /** The heap blocks holding chunks; a freed chunk is no longer in the map. */
  class Heap {
    var m: map<Ptr, Chunk>

    constructor ()
      ensures m == map[]
    {
      m := map[];
    }

    /** evbuffer_chain_new; `mem` says whether the allocator can serve the request. */
    method ChainNew(size: nat, mem: bool) returns (chain: Ptr)
      modifies this
      ensures chain == NULL <==> !mem || size > CHAIN_MAX - CHAIN_HEADER
      ensures chain == NULL ==> m == old(m)
      ensures chain != NULL ==> chain !in old(m) && chain in m && m == old(m)[chain := m[chain]]
      ensures chain != NULL ==> m[chain].Ok() && m[chain].next == NULL
      ensures chain != NULL ==> m[chain].misalign == 0 && m[chain].off == 0
      ensures chain != NULL ==> size <= |m[chain].mem| <= CHAIN_MAX - CHAIN_HEADER && |m[chain].mem| > 0
    {
      if size > CHAIN_MAX - CHAIN_HEADER {
        return NULL;
      }
      var toAlloc := AllocationSize(size);
      if !mem {
        return NULL;
      }
      UnusedAddress(m.Keys, NULL);
      chain :| chain > NULL && chain !in m;
      m := m[chain := Chunk(NULL, seq(toAlloc - CHAIN_HEADER, _ => 0), 0, 0)];
    }

    /** evbuffer_chain_free on an unshared, unpinned chunk. */
    method ChainFree(chain: Ptr)
      requires chain in m
      modifies this
      ensures m == old(m) - {chain}
    {
      m := m - {chain};
    }
  }
}
