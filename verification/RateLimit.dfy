/** Rate limiting of a single bufferevent: suspend flags, the backend they switch on and off, and
    the timer that refills the bucket. */
module RateLimits {
  import opened Bytes
  import opened Options
  import opened TokenBuckets

  /** The BEV_SUSPEND_* flags. */
  datatype Reason = WM | BW | BW_GROUP | LOOKUP | FILT_READ

  /** struct ev_token_bucket_cfg; compared by address, so a class. */
  class BucketCfg {
    const read: Rate
    const write: Rate

    constructor (r: Rate, w: Rate)
      requires r.Valid() && w.Valid()
      ensures read == r && write == w
    {
      read, write := r, w;
    }

    predicate Valid() {
      read.Valid() && write.Valid()
    }
  }

  /** Whether event_add succeeds, on the refill timer and on the backend's events. */
  datatype Luck = Luck(timer: bool, read: bool, write: bool)

  /** What a bufferevent sees of its group. */
  datatype Group = Group(suspended: bool, limit: int, members: nat, minShare: int)

  /** C's division by a positive number. */
  function Quotient(x: int, n: nat): int
    requires n > 0
  {
    if x >= 0 then x / n else -((-x) / n)
  }

  /** A member's share of the group's bucket; no limit without a group. */
  function Share(g: Option<Group>): (share: int)
    requires g.Some? ==> g.value.members > 0
    ensures g.None? ==> share == SSIZE_MAX
    ensures g.Some? && g.value.suspended ==> share == 0
    ensures g.Some? && !g.value.suspended ==> share >= g.value.minShare
  {
    if g.None? then SSIZE_MAX
    else if g.value.suspended then 0
    else if Quotient(g.value.limit, g.value.members) < g.value.minShare then g.value.minShare
    else Quotient(g.value.limit, g.value.members)
  }

  /** The shares of all members together are the group's limit, up to less than one byte each, unless each is to have
      more at least. */
  lemma ShareDivides(g: Group)
    requires g.members > 0 && !g.suspended && g.minShare >= 0
    ensures var share := Share(Some(g));
      if g.members * g.minShare <= g.limit then g.members * share <= g.limit < g.members * share + g.members
      else share == g.minShare
  {
    var n, k := g.members, g.minShare;
    var q := Quotient(g.limit, n);
    if g.limit >= 0 {
      assert n * q <= g.limit < n * q + n;
      if q < k {
        MulMonotone(n, q + 1, k);
      } else {
        MulMonotone(n, k, q);
      }
    } else {
      MulMonotone(n, 0, k);
    }
  }

  /** The flags and limits of a bufferevent, and whether its timer is pending; the backend follows from it. */
  datatype Flow = Flow(
    readSuspended: set<Reason>, writeSuspended: set<Reason>, readEnabled: bool, writeEnabled: bool,
    record: bool, cfg: BucketCfg?, readLimit: int, writeLimit: int, last: nat, pending: bool)

  class Bufferevent {
    var readSuspended: set<Reason>
    var writeSuspended: set<Reason>
    var readEnabled: bool
    var writeEnabled: bool
    /** Whether the backend's events are pending. */
    var readArmed: bool
    var writeArmed: bool
    var connecting: bool
    /** Whether there is a rate_limiting record. */
    var record: bool
    var cfg: BucketCfg?
    var readLimit: int
    var writeLimit: int
    var lastUpdated: nat
    /** Whether refill_bucket_event is pending. */
    var refillPending: bool

    function View(): Flow
      reads this
    {
      Flow(readSuspended, writeSuspended, readEnabled, writeEnabled, record, cfg, readLimit, writeLimit, lastUpdated,
           refillPending)
    }

    /** A direction that is disabled or suspended is not armed; writing is watched also to connect. */
    predicate ArmedSafe()
      reads this
    {
      && (readArmed ==> readEnabled && readSuspended == {})
      && (writeArmed ==> connecting || (writeEnabled && writeSuspended == {}))
    }

    /** Reading goes on when it should. */
    predicate ReadsOn()
      reads this
    {
      readEnabled && readSuspended == {} ==> readArmed
    }

    /** The limits are in range. */
    predicate InRange()
      reads this
    {
      cfg != null ==>
        && cfg.Valid() && lastUpdated < TWO32
        && SSIZE_MIN <= readLimit <= cfg.read.maximum && SSIZE_MIN <= writeLimit <= cfg.write.maximum
    }

    /** An exhausted bucket suspends its direction; the timer does not run for nothing. */
    predicate Flagged()
      reads this
    {
      && (cfg != null ==> record && (readLimit <= 0 ==> BW in readSuspended) && (writeLimit <= 0 ==>
        BW in writeSuspended))
      && (cfg == null ==> BW !in readSuspended && BW !in writeSuspended)
      && (refillPending ==> BW in readSuspended || BW in writeSuspended)
    }

    /** A direction that is suspended for bandwidth has the timer pending that will wake it up. */
    predicate WakesUp()
      reads this
    {
      BW in readSuspended || BW in writeSuspended ==> refillPending
    }

    predicate Valid()
      reads this
    {
      ArmedSafe() && InRange() && Flagged()
    }

    constructor ()
      ensures Valid() && ReadsOn() && WakesUp() && View() == Flow({}, {}, false, true, false, null, 0, 0, 0, false)
    {
      readSuspended, writeSuspended, readEnabled, writeEnabled := {}, {}, false, true;
      readArmed, writeArmed, connecting, record, cfg, refillPending := false, false, false, false, null, false;
      readLimit, writeLimit, lastUpdated := 0, 0, 0;
    }

    /** bufferevent_suspend_read_. */
    method SuspendRead(what: Reason)
      requires ArmedSafe()
      modifies this`readSuspended, this`readArmed
      ensures ArmedSafe() && ReadsOn() && !readArmed && readSuspended == old(readSuspended) + {what}
    {
      if readSuspended == {} {
        readArmed := false;
      }
      readSuspended := readSuspended + {what};
    }

    /** bufferevent_unsuspend_read_. */
    method UnsuspendRead(what: Reason, luck: Luck)
      requires ArmedSafe()
      modifies this`readSuspended, this`readArmed
      ensures ArmedSafe() && readSuspended == old(readSuspended) - {what}
      ensures old(ReadsOn()) && luck.read ==> ReadsOn()
    {
      readSuspended := readSuspended - {what};
      if readSuspended == {} && readEnabled && luck.read {
        readArmed := true;
      }
    }

    /** bufferevent_suspend_write_; while connecting the backend goes on watching. */
    method SuspendWrite(what: Reason)
      requires ArmedSafe()
      modifies this`writeSuspended, this`writeArmed
      ensures ArmedSafe() && (writeArmed ==> connecting) && writeSuspended == old(writeSuspended) + {what}
    {
      if writeSuspended == {} && !connecting {
        writeArmed := false;
      }
      writeSuspended := writeSuspended + {what};
    }

    /** bufferevent_unsuspend_write_. */
    method UnsuspendWrite(what: Reason, luck: Luck)
      requires ArmedSafe()
      modifies this`writeSuspended, this`writeArmed
      ensures ArmedSafe() && writeSuspended == old(writeSuspended) - {what}
      ensures luck.write && writeEnabled && writeSuspended == {} ==> writeArmed
    {
      writeSuspended := writeSuspended - {what};
      if writeSuspended == {} && writeEnabled && luck.write {
        writeArmed := true;
      }
    }

    /** bufferevent_enable, with be_socket_enable. */
    method Enable(read: bool, write: bool, luck: Luck) returns (r: int)
      requires ArmedSafe()
      modifies this`readEnabled, this`writeEnabled, this`readArmed, this`writeArmed
      ensures ArmedSafe() && readEnabled == (old(readEnabled) || read) && writeEnabled == (old(writeEnabled) || write)
      ensures r == 0 && old(ReadsOn()) ==> ReadsOn()
      ensures r == 0 && write && writeSuspended == {} ==> writeArmed
      ensures r == if (read && readSuspended == {} && !luck.read) || (write && writeSuspended == {} && !luck.write)
        then -1 else 0
    {
      var implRead, implWrite := read && readSuspended == {}, write && writeSuspended == {};
      readEnabled, writeEnabled := readEnabled || read, writeEnabled || write;
      if implRead {
        if !luck.read {
          return -1;
        }
        readArmed := true;
      }
      if implWrite {
        if !luck.write {
          return -1;
        }
        writeArmed := true;
      }
      return 0;
    }

    /** bufferevent_disable, with be_socket_disable. */
    method Disable(read: bool, write: bool)
      requires ArmedSafe()
      modifies this`readEnabled, this`writeEnabled, this`readArmed, this`writeArmed
      ensures ArmedSafe() && (old(ReadsOn()) ==> ReadsOn())
      ensures readEnabled == (old(readEnabled) && !read) && writeEnabled == (old(writeEnabled) && !write)
    {
      readEnabled, writeEnabled := readEnabled && !read, writeEnabled && !write;
      if read {
        readArmed := false;
      }
      if write && !connecting {
        writeArmed := false;
      }
    }

    /** The backend starts writing when there is data, and stops when there is none left. */
    method OutputChanged(empty: bool, luck: Luck)
      requires ArmedSafe()
      modifies this`writeArmed
      ensures ArmedSafe() && (empty ==> !writeArmed)
      ensures !empty && luck.write && writeEnabled && writeSuspended == {} ==> writeArmed
    {
      if empty {
        writeArmed := false;
      } else if writeEnabled && !writeArmed && writeSuspended == {} && luck.write {
        writeArmed := true;
      }
    }

    /** A connection is being made: the socket is watched for writing, suspended or not. */
    method Connect(luck: Luck)
      requires ArmedSafe()
      modifies this`connecting, this`writeArmed
      ensures ArmedSafe() && (luck.write ==> connecting && writeArmed)
    {
      if luck.write {
        writeArmed, connecting := true, true;
      }
    }

    /** The connection has been made: writing goes on only if it may. */
    method Connected()
      requires ArmedSafe()
      modifies this`connecting, this`writeArmed
      ensures ArmedSafe() && !connecting
    {
      connecting := false;
      if !writeEnabled || writeSuspended != {} {
        writeArmed := false;
      }
    }

    /** ev_token_bucket_update_ on the bufferevent's own bucket. */
    method UpdateBucket(tick: nat) returns (updated: bool)
      requires InRange() && cfg != null && tick < TWO32
      modifies this`readLimit, this`writeLimit, this`lastUpdated
      ensures InRange() && View() == Refilled(old(View()), tick)
      ensures readLimit >= old(readLimit) && writeLimit >= old(writeLimit)
      ensures updated <==> 0 < (tick - old(lastUpdated)) % TWO32 <= INT_MAX
      ensures updated ==> var n := (tick - old(lastUpdated)) % TWO32;
        && lastUpdated == tick
        && readLimit == NaiveRefill(old(readLimit), cfg.read, n)
        && writeLimit == NaiveRefill(old(writeLimit), cfg.write, n)
      ensures !updated ==> unchanged(this)
    {
      hide Refill, NaiveRefill;
      UpdateKeeps(Bucket(readLimit, lastUpdated), cfg.read, tick);
      UpdateKeeps(Bucket(writeLimit, lastUpdated), cfg.write, tick);
      SmallTick(tick);
      var n := TicksSince(lastUpdated, tick);
      if n == 0 || n > INT_MAX {
        return false;
      }
      readLimit := Refill(readLimit, cfg.read, n);
      writeLimit := Refill(writeLimit, cfg.write, n);
      lastUpdated := tick;
      return true;
    }

    /** bufferevent_update_buckets, if there is a configuration. */
    method UpdateBuckets(tick: nat)
      requires Valid() && tick < TWO32
      modifies this`readLimit, this`writeLimit, this`lastUpdated
      ensures Valid() && View() == Refilled(old(View()), tick)
    {
      hide Updated;
      if cfg != null {
        if tick != lastUpdated {
          var _ := UpdateBucket(tick);
        } else {
          SameTick(View());
        }
      }
    }

    /** bufferevent_get_rlim_max_: refills the bucket if there is one; a suspended group suspends its
        member. */
    method GetMax(isWrite: bool, tick: nat, single: nat, group: Option<Group>) returns (max: nat)
      requires Valid() && tick < TWO32 && (group.Some? ==> group.value.members > 0)
      modifies this`readLimit, this`writeLimit, this`lastUpdated, this`readSuspended, this`writeSuspended
      modifies this`readArmed, this`writeArmed
      ensures Valid() && (old(ReadsOn()) ==> ReadsOn()) && (old(WakesUp()) ==> WakesUp())
      ensures View() == Queried(old(View()), isWrite, tick, group)
      ensures max == if !record then single else Allowed(if cfg == null then single else if isWrite then writeLimit
        else readLimit, Share(group))
      ensures record && group.Some? && group.value.suspended ==>
        max == 0 && BW_GROUP in (if isWrite then writeSuspended else readSuspended)
    {
      hide Updated, Refilled;
      if !record {
        NoBucket(View(), tick);
        return single;
      }
      UpdateBuckets(tick);
      var x: int := if cfg == null then single else if isWrite then writeLimit else readLimit;
      if group.Some? && group.value.suspended {
        SuspendForGroup(isWrite);
      }
      if x > Share(group) {
        x := Share(group);
      }
      return if x < 0 then 0 else x;
    }

    method SuspendForGroup(isWrite: bool)
      requires Valid()
      modifies this`readSuspended, this`writeSuspended, this`readArmed, this`writeArmed
      ensures Valid() && (old(ReadsOn()) ==> ReadsOn()) && (old(WakesUp()) ==> WakesUp())
      ensures isWrite ==> writeSuspended == old(writeSuspended) + {BW_GROUP} && readSuspended == old(readSuspended)
      ensures !isWrite ==> readSuspended == old(readSuspended) + {BW_GROUP} && writeSuspended == old(writeSuspended)
    {
      if isWrite {
        SuspendWrite(BW_GROUP);
      } else {
        SuspendRead(BW_GROUP);
      }
    }

    /** bufferevent_decrement_read_buckets_ without a group. A negative number gives bytes back; the
        limit stays in range unless it lifts the bucket above its maximum. */
    method DecrementRead(bytes: int, luck: Luck) returns (r: int)
      requires Valid() && (cfg != null ==> SSIZE_MIN <= readLimit - bytes <= SSIZE_MAX)
      modifies this`readLimit, this`readSuspended, this`readArmed, this`refillPending
      ensures ArmedSafe() && Flagged() && (InRange() <==> cfg == null || old(readLimit) - bytes <= cfg.read.maximum)
      ensures View() == Decremented(old(View()), false, bytes, luck.timer)
      ensures cfg != null ==> readLimit == old(readLimit) - bytes && (BW in readSuspended <==> readLimit <= 0)
      ensures r == if cfg != null && readLimit <= 0 && !old(refillPending) && !luck.timer then -1 else 0
      ensures old(WakesUp()) ==> (WakesUp() <==> r == 0)
      ensures old(ReadsOn()) && luck.read ==> ReadsOn()
    {
      hide WithBW, PendingAfter;
      r := 0;
      if cfg != null {
        readLimit := readLimit - bytes;
        r := FollowRead(luck);
      }
    }

    /** The flag for reading and the timer follow the limit. */
    method FollowRead(luck: Luck) returns (r: int)
      requires ArmedSafe()
      modifies this`readSuspended, this`readArmed, this`refillPending
      ensures ArmedSafe() && readSuspended == WithBW(old(readSuspended), readLimit <= 0)
      ensures BW in readSuspended <==> readLimit <= 0
      ensures refillPending ==
        PendingAfter(old(refillPending), readLimit, old(readSuspended), writeSuspended, luck.timer)
      ensures refillPending ==> old(refillPending) || BW in readSuspended
      ensures refillPending && old(BW in readSuspended) && readLimit > 0 ==> BW in writeSuspended
      ensures r == if readLimit <= 0 && !old(refillPending) && !luck.timer then -1 else 0
      ensures old(WakesUp()) ==> (WakesUp() <==> r == 0)
      ensures old(ReadsOn()) && luck.read ==> ReadsOn()
    {
      r := 0;
      if readLimit <= 0 {
        SuspendRead(BW);
        r := AddTimer(luck);
      } else if BW in readSuspended {
        if BW !in writeSuspended {
          refillPending := false;
        }
        UnsuspendRead(BW, luck);
      }
    }

    /** event_add on the refill timer: fails only when it is not pending already. */
    method AddTimer(luck: Luck) returns (r: int)
      modifies this`refillPending
      ensures refillPending == (old(refillPending) || luck.timer) && r == if refillPending then 0 else -1
    {
      if !refillPending && !luck.timer {
        return -1;
      }
      refillPending := true;
      return 0;
    }

    /** bufferevent_decrement_write_buckets_ without a group. */
    method DecrementWrite(bytes: int, luck: Luck) returns (r: int)
      requires Valid() && (cfg != null ==> SSIZE_MIN <= writeLimit - bytes <= SSIZE_MAX)
      modifies this`writeLimit, this`writeSuspended, this`writeArmed, this`refillPending
      ensures ArmedSafe() && Flagged() && (InRange() <==> cfg == null || old(writeLimit) - bytes <= cfg.write.maximum)
      ensures View() == Decremented(old(View()), true, bytes, luck.timer)
      ensures cfg != null ==> writeLimit == old(writeLimit) - bytes && (BW in writeSuspended <==> writeLimit <= 0)
      ensures r == if cfg != null && writeLimit <= 0 && !old(refillPending) && !luck.timer then -1 else 0
      ensures old(WakesUp()) ==> (WakesUp() <==> r == 0)
    {
      hide WithBW, PendingAfter;
      r := 0;
      if cfg != null {
        writeLimit := writeLimit - bytes;
        r := FollowWrite(luck);
      }
    }

    /** The flag for writing and the timer follow the limit. */
    method FollowWrite(luck: Luck) returns (r: int)
      requires ArmedSafe()
      modifies this`writeSuspended, this`writeArmed, this`refillPending
      ensures ArmedSafe() && writeSuspended == WithBW(old(writeSuspended), writeLimit <= 0)
      ensures BW in writeSuspended <==> writeLimit <= 0
      ensures refillPending ==
        PendingAfter(old(refillPending), writeLimit, old(writeSuspended), readSuspended, luck.timer)
      ensures refillPending ==> old(refillPending) || BW in writeSuspended
      ensures refillPending && old(BW in writeSuspended) && writeLimit > 0 ==> BW in readSuspended
      ensures r == if writeLimit <= 0 && !old(refillPending) && !luck.timer then -1 else 0
      ensures old(WakesUp()) ==> (WakesUp() <==> r == 0)
    {
      r := 0;
      if writeLimit <= 0 {
        SuspendWrite(BW);
        r := AddTimer(luck);
      } else if BW in writeSuspended {
        if BW !in readSuspended {
          refillPending := false;
        }
        UnsuspendWrite(BW, luck);
      }
    }

    /** bev_refill_callback_, called when the pending timer fires: the flags follow the refilled limits. */
    method RefillCallback(tick: nat, luck: Luck)
      requires Valid() && refillPending && tick < TWO32
      modifies this`readLimit, this`writeLimit, this`lastUpdated, this`readSuspended, this`writeSuspended
      modifies this`readArmed, this`writeArmed, this`refillPending
      ensures Valid() && cfg != null && View() == FollowLimits(Refilled(old(View()), tick), luck.timer)
      ensures (BW in readSuspended <==> readLimit <= 0) && (BW in writeSuspended <==> writeLimit <= 0)
      ensures WakesUp() <==> luck.timer || (readLimit > 0 && writeLimit > 0)
      ensures old(ReadsOn()) && luck.read ==> ReadsOn()
    {
      hide Updated, FollowLimits;
      refillPending := false;
      var _ := UpdateBucket(tick);
      TimerAside(View(), luck.timer);
      Wake(luck);
    }

    /** The rest of bev_refill_callback_, on limits that have only grown. */
    method Wake(luck: Luck)
      requires ArmedSafe() && InRange() && cfg != null && record && !refillPending
      requires (readLimit <= 0 ==> BW in readSuspended) && (writeLimit <= 0 ==> BW in writeSuspended)
      modifies this`readSuspended, this`writeSuspended, this`readArmed, this`writeArmed, this`refillPending
      ensures Valid() && View() == FollowLimits(old(View()), luck.timer)
      ensures (BW in readSuspended <==> readLimit <= 0) && (BW in writeSuspended <==> writeLimit <= 0)
      ensures WakesUp() <==> luck.timer || (readLimit > 0 && writeLimit > 0)
      ensures old(ReadsOn()) && luck.read ==> ReadsOn()
    {
      var again := false;
      if BW in readSuspended {
        if readLimit > 0 {
          UnsuspendRead(BW, luck);
        } else {
          again := true;
        }
      }
      if BW in writeSuspended {
        if writeLimit > 0 {
          UnsuspendWrite(BW, luck);
        } else {
          again := true;
        }
      }
      if again {
        var _ := AddTimer(luck);
      }
    }

    /** ev_token_bucket_init_. */
    method InitBucket(c: BucketCfg, tick: nat, reinitialize: bool)
      requires c.Valid() && tick < TWO32
      requires reinitialize ==> SSIZE_MIN <= readLimit && SSIZE_MIN <= writeLimit && lastUpdated < TWO32
      modifies this`readLimit, this`writeLimit, this`lastUpdated
      ensures SSIZE_MIN <= readLimit <= c.read.maximum && SSIZE_MIN <= writeLimit <= c.write.maximum &&
        lastUpdated < TWO32
      ensures reinitialize ==> readLimit == Min(old(readLimit), c.read.maximum) && lastUpdated == old(lastUpdated)
      ensures reinitialize ==> writeLimit == Min(old(writeLimit), c.write.maximum)
      ensures !reinitialize ==> readLimit == c.read.rate && writeLimit == c.write.rate && lastUpdated == tick
    {
      if reinitialize {
        if readLimit > c.read.maximum {
          readLimit := c.read.maximum;
        }
        if writeLimit > c.write.maximum {
          writeLimit := c.write.maximum;
        }
      } else {
        readLimit, writeLimit, lastUpdated := c.read.rate, c.write.rate, tick;
      }
    }

    /** The end of bufferevent_set_rate_limit: the flags and the timer follow the new limits. */
    method Resuspend(luck: Luck)
      requires ArmedSafe() && InRange() && cfg != null && record && !refillPending
      modifies this`readSuspended, this`writeSuspended, this`readArmed, this`writeArmed, this`refillPending
      ensures Valid() && View() == FollowLimits(old(View()), luck.timer)
      ensures (BW in readSuspended <==> readLimit <= 0) && (BW in writeSuspended <==> writeLimit <= 0)
      ensures WakesUp() <==> luck.timer || (readLimit > 0 && writeLimit > 0)
      ensures old(ReadsOn()) && luck.read ==> ReadsOn()
    {
      var suspended := false;
      if readLimit > 0 {
        UnsuspendRead(BW, luck);
      } else {
        SuspendRead(BW);
        suspended := true;
      }
      if writeLimit > 0 {
        UnsuspendWrite(BW, luck);
      } else {
        SuspendWrite(BW);
        suspended := true;
      }
      if suspended {
        var _ := AddTimer(luck);
      }
    }

    /** bufferevent_set_rate_limit without a configuration. */
    method RemoveRateLimit(luck: Luck)
      requires Valid()
      modifies this`cfg, this`readSuspended, this`writeSuspended, this`readArmed, this`writeArmed, this`refillPending
      ensures Valid() && WakesUp() && View() == Configured(old(View()), null, 0, luck.timer)
      ensures old(ReadsOn()) && luck.read ==> ReadsOn()
    {
      if record {
        cfg := null;
        UnsuspendRead(BW, luck);
        UnsuspendWrite(BW, luck);
        refillPending := false;
      }
    }

    /** bufferevent_set_rate_limit; `mem` says whether a record can be allocated. */
    method SetRateLimit(c: BucketCfg?, tick: nat, mem: bool, luck: Luck) returns (r: int)
      requires Valid() && tick < TWO32 && (c != null ==> c.Valid())
      modifies this`record, this`cfg, this`readLimit, this`writeLimit, this`lastUpdated, this`readSuspended
      modifies this`writeSuspended, this`readArmed, this`writeArmed, this`refillPending
      ensures Valid() && r == if c != null && !old(record) && !mem then -1 else 0
      ensures View() == if r == 0 then Configured(old(View()), c, tick, luck.timer) else old(View())
      ensures r == 0 ==> cfg == c || (c == null && !record)
      ensures c != null && r == 0 && old(cfg) == null ==>
        readLimit == c.read.rate && writeLimit == c.write.rate && lastUpdated == tick
      ensures c != null && old(cfg) != null ==>
        && lastUpdated == old(lastUpdated)
        && readLimit == (if old(readLimit) > c.read.maximum then c.read.maximum else old(readLimit))
        && writeLimit == (if old(writeLimit) > c.write.maximum then c.write.maximum else old(writeLimit))
      ensures c != null && r == 0 && old(cfg) != c ==>
        (BW in readSuspended <==> readLimit <= 0) && (BW in writeSuspended <==> writeLimit <= 0)
      ensures c == old(cfg) != null ==> unchanged(this)
      ensures old(WakesUp()) && luck.timer ==> WakesUp()
      ensures old(ReadsOn()) && luck.read ==> ReadsOn()
    {
      hide FollowLimits;
      if c == null {
        RemoveRateLimit(luck);
        return 0;
      }
      if cfg == c {
        return 0;
      }
      if !record {
        if !mem {
          return -1;
        }
        record := true;
      }
      Reconfigure(c, tick, luck);
      return 0;
    }

    /** The rest of bufferevent_set_rate_limit, with a record and another configuration. */
    method Reconfigure(c: BucketCfg, tick: nat, luck: Luck)
      requires ArmedSafe() && InRange() && record && tick < TWO32 && c.Valid() && c != cfg
      requires cfg == null ==> !refillPending
      modifies this`cfg, this`readLimit, this`writeLimit, this`lastUpdated, this`readSuspended
      modifies this`writeSuspended, this`readArmed, this`writeArmed, this`refillPending
      ensures Valid() && View() == Configured(old(View()), c, tick, luck.timer)
      ensures cfg == c && (BW in readSuspended <==> readLimit <= 0) && (BW in writeSuspended <==> writeLimit <= 0)
      ensures old(cfg) == null ==> readLimit == c.read.rate && writeLimit == c.write.rate && lastUpdated == tick
      ensures old(cfg) != null ==>
        && lastUpdated == old(lastUpdated)
        && readLimit == (if old(readLimit) > c.read.maximum then c.read.maximum else old(readLimit))
        && writeLimit == (if old(writeLimit) > c.write.maximum then c.write.maximum else old(writeLimit))
      ensures luck.timer ==> WakesUp()
      ensures old(ReadsOn()) && luck.read ==> ReadsOn()
    {
      hide FollowLimits;
      var reinit := cfg != null;
      cfg := c;
      InitBucket(c, tick, reinit);
      TimerAside(View(), luck.timer);
      if reinit {
        refillPending := false;
      }
      Resuspend(luck);
    }
  }

  // ---- what the operations mean for flags and limits

  function Min(a: int, b: int): int {
    if a <= b then a else b
  }

  function WithBW(reasons: set<Reason>, on: bool): set<Reason> {
    if on then reasons + {BW} else reasons - {BW}
  }

  /** Each direction is suspended for bandwidth exactly when its bucket is exhausted, and then the timer is
      added, if it can be. */
  function FollowLimits(f: Flow, timer: bool): Flow {
    f.(readSuspended := WithBW(f.readSuspended, f.readLimit <= 0),
       writeSuspended := WithBW(f.writeSuspended, f.writeLimit <= 0),
       pending := timer && (f.readLimit <= 0 || f.writeLimit <= 0))
  }

  /** ... whether it was pending before or not. */
  lemma TimerAside(f: Flow, timer: bool)
    ensures forall pending :: FollowLimits(f.(pending := pending), timer) == FollowLimits(f, timer)
  {
  }

  /** Both directions are refilled from one time stamp. */
  function Refilled(f: Flow, tick: nat): Flow {
    if f.cfg == null then f
    else
      var r, w := Updated(Bucket(f.readLimit, f.last), f.cfg.read, tick), Updated(Bucket(f.writeLimit, f.last),
        f.cfg.write, tick);
      f.(readLimit := r.limit, writeLimit := w.limit, last := r.last)
  }

  lemma SmallTick(tick: nat)
    requires tick < TWO32
    ensures tick % TWO32 == tick
  {
  }

  lemma NoBucket(f: Flow, tick: nat)
    requires f.cfg == null
    ensures Refilled(f, tick) == f
  {
  }

  /** No time has passed. */
  lemma SameTick(f: Flow)
    requires f.last < TWO32
    ensures Refilled(f, f.last) == f
  {
  }

  /** Whether the timer is pending once a direction has this limit: added if it is exhausted, taken away if
      it no longer is and the other direction does not need it. */
  function PendingAfter(pending: bool, limit: int, reasons: set<Reason>, other: set<Reason>, timer: bool): bool {
    if limit <= 0 then pending || timer else pending && !(BW in reasons && BW !in other)
  }

  function Decremented(f: Flow, isWrite: bool, bytes: int, timer: bool): Flow {
    if f.cfg == null then f
    else if isWrite then
      var limit := f.writeLimit - bytes;
      f.(writeLimit := limit, writeSuspended := WithBW(f.writeSuspended, limit <= 0),
         pending := PendingAfter(f.pending, limit, f.writeSuspended, f.readSuspended, timer))
    else
      var limit := f.readLimit - bytes;
      f.(readLimit := limit, readSuspended := WithBW(f.readSuspended, limit <= 0),
         pending := PendingAfter(f.pending, limit, f.readSuspended, f.writeSuspended, timer))
  }

  function Queried(f: Flow, isWrite: bool, tick: nat, group: Option<Group>): Flow {
    var g := Refilled(f, tick);
    if !f.record || group.None? || !group.value.suspended then g
    else if isWrite then g.(writeSuspended := g.writeSuspended + {BW_GROUP})
    else g.(readSuspended := g.readSuspended + {BW_GROUP})
  }

  function Configured(f: Flow, c: BucketCfg?, tick: nat, timer: bool): Flow {
    if c == null then
      if !f.record then f
      else f.(cfg := null, pending := false,
              readSuspended := f.readSuspended - {BW}, writeSuspended := f.writeSuspended - {BW})
    else if c == f.cfg then f
    else if f.cfg == null then
      FollowLimits(f.(record := true, cfg := c, readLimit := c.read.rate, writeLimit := c.write.rate, last := tick),
        timer)
    else
      FollowLimits(f.(cfg := c, readLimit := Min(f.readLimit, c.read.maximum),
                      writeLimit := Min(f.writeLimit, c.write.maximum)), timer)
  }

  // ---- runs

  /** What can happen to a rate-limited bufferevent. */
  datatype Op =
    | Decrement(isWrite: bool, bytes: int)
    | Query(isWrite: bool, tick: nat, single: nat, group: Option<Group>)
    | TimerFires(tick: nat)
    | Configure(cfg: BucketCfg?, tick: nat, mem: bool)
    | Suspend(isWrite: bool, what: Reason)
    | Unsuspend(isWrite: bool, what: Reason)
    | EnableOp(read: bool, write: bool)
    | DisableOp(read: bool, write: bool)
    | Output(empty: bool)
    | Connecting
    | Connection

  datatype Step = Step(op: Op, luck: Luck)

  /** When it can: a decrement neither overflows nor lifts the bucket above its maximum, the timer is pending,
      ticks have 32 bits, configurations come from ev_token_bucket_cfg_new, a
      group has members, and others leave the BW flag alone. */
  predicate CanHappen(f: Flow, op: Op) {
    match op
    case Decrement(w, n) =>
      f.cfg != null ==>
        if w then SSIZE_MIN <= f.writeLimit - n <= f.cfg.write.maximum
        else SSIZE_MIN <= f.readLimit - n <= f.cfg.read.maximum
    case Query(_, tick, _, g) => tick < TWO32 && (g.Some? ==> g.value.members > 0)
    case TimerFires(tick) => f.pending && tick < TWO32
    case Configure(c, tick, _) => tick < TWO32 && (c != null ==> c.Valid())
    case Suspend(_, what) => what != BW
    case Unsuspend(_, what) => what != BW
    case _ => true
  }

  /** What it does to flags, limits and timer. */
  function Effect(f: Flow, op: Op, luck: Luck): Flow {
    if !CanHappen(f, op) then f
    else match op
      case Decrement(w, n) => Decremented(f, w, n, luck.timer)
      case Query(w, tick, _, g) => Queried(f, w, tick, g)
      case TimerFires(tick) => FollowLimits(Refilled(f, tick), luck.timer)
      case Configure(c, tick, mem) => if c != null && !f.record && !mem then f else Configured(f, c, tick, luck.timer)
      case Suspend(w, what) =>
        if w then f.(writeSuspended := f.writeSuspended + {what}) else f.(readSuspended := f.readSuspended + {what})
      case Unsuspend(w, what) =>
        if w then f.(writeSuspended := f.writeSuspended - {what}) else f.(readSuspended := f.readSuspended - {what})
      case EnableOp(r, w) => f.(readEnabled := f.readEnabled || r, writeEnabled := f.writeEnabled || w)
      case DisableOp(r, w) => f.(readEnabled := f.readEnabled && !r, writeEnabled := f.writeEnabled && !w)
      case _ => f
  }

  function Effects(f: Flow, steps: seq<Step>): Flow {
    if steps == [] then f
    else Effect(Effects(f, steps[..|steps| - 1]), steps[|steps| - 1].op, steps[|steps| - 1].luck)
  }

  lemma OneMoreStep(f: Flow, steps: seq<Step>, i: nat)
    requires i < |steps|
    ensures Effects(f, steps[..i + 1]) == Effect(Effects(f, steps[..i]), steps[i].op, steps[i].luck)
  {
    assert steps[..i + 1][..i] == steps[..i];
  }

  predicate Lucky(luck: Luck) {
    luck == Luck(true, true, true)
  }

  /** Nothing that should go on has been forgotten. */
  predicate Awake(b: Bufferevent)
    reads b
  {
    b.WakesUp() && b.ReadsOn()
  }

  /** An operation on the bucket. */
  method DoBucket(b: Bufferevent, op: Op, luck: Luck)
    requires b.Valid() && CanHappen(b.View(), op) && (op.Decrement? || op.Query? || op.TimerFires? || op.Configure?)
    modifies b
    ensures b.Valid() && b.View() == Effect(old(b.View()), op, luck)
    ensures Lucky(luck) && old(Awake(b)) ==> Awake(b)
  {
    hide Decremented, Queried, FollowLimits, Refilled, Configured;
    match op
    case Decrement(w, n) => if w { var _ := b.DecrementWrite(n, luck); } else { var _ := b.DecrementRead(n, luck); }
    case Query(w, tick, single, g) => var _ := b.GetMax(w, tick, single, g);
    case TimerFires(tick) => b.RefillCallback(tick, luck);
    case Configure(c, tick, mem) => var _ := b.SetRateLimit(c, tick, mem, luck);
  }

  /** A reason to suspend a direction comes or goes. */
  method DoReason(b: Bufferevent, op: Op, luck: Luck)
    requires b.Valid() && CanHappen(b.View(), op) && (op.Suspend? || op.Unsuspend?)
    modifies b
    ensures b.Valid() && b.View() == Effect(old(b.View()), op, luck)
    ensures Lucky(luck) && old(Awake(b)) ==> Awake(b)
  {
    hide Decremented, Queried, FollowLimits, Refilled, Configured;
    match op
    case Suspend(w, what) => if w { b.SuspendWrite(what); } else { b.SuspendRead(what); }
    case Unsuspend(w, what) => if w { b.UnsuspendWrite(what, luck); } else { b.UnsuspendRead(what, luck); }
  }

  /** One thing that happens. */
  method Do(b: Bufferevent, op: Op, luck: Luck)
    requires b.Valid()
    modifies b
    ensures b.Valid() && b.View() == Effect(old(b.View()), op, luck)
    ensures Lucky(luck) && old(Awake(b)) ==> Awake(b)
  {
    hide Decremented, Queried, FollowLimits, Refilled, Configured;
    if !CanHappen(b.View(), op) {
      return;
    }
    match op
    case Suspend(_, _) => DoReason(b, op, luck);
    case Unsuspend(_, _) => DoReason(b, op, luck);
    case EnableOp(r, w) => var _ := b.Enable(r, w, luck);
    case DisableOp(r, w) => b.Disable(r, w);
    case Output(empty) => b.OutputChanged(empty, luck);
    case Connecting => b.Connect(luck);
    case Connection => b.Connected();
    case _ => DoBucket(b, op, luck);
  }

  /** Every run: each step has its effect on flags, limits and timer, a direction that is disabled or suspended
      is not armed, an exhausted bucket suspends its direction and the limits stay in range; and as long as
      event_add succeeds, no wake-up is lost and reading goes on when it should. */
  method RunOps(b: Bufferevent, steps: seq<Step>)
    requires b.Valid()
    modifies b
    ensures b.Valid() && b.View() == Effects(old(b.View()), steps)
    ensures (forall i :: 0 <= i < |steps| ==> Lucky(steps[i].luck)) && old(Awake(b)) ==> Awake(b)
  {
    hide Effect, Effects, Lucky;
    ghost var f, lucky := b.View(), Awake(b) && forall i :: 0 <= i < |steps| ==> Lucky(steps[i].luck);
    NoSteps(f);
    assert steps[..0] == [];
    var i := 0;
    while i < |steps|
      invariant 0 <= i <= |steps| && b.Valid() && b.View() == Effects(f, steps[..i]) && (lucky ==> Awake(b))
    {
      OneMoreStep(f, steps, i);
      Do(b, steps[i].op, steps[i].luck);
      i := i + 1;
    }
    assert steps[..i] == steps;
  }

  lemma NoSteps(f: Flow)
    ensures Effects(f, []) == f
  {
  }
}
