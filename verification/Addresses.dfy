/** Addresses of heap blocks. */
module Addresses {

  /** An address; 0 is the null pointer. */
  type Ptr = nat
  const NULL: Ptr := 0

  /** Some address is always unused. */
  lemma {:induction false} UnusedAddress(used: set<Ptr>, bound: Ptr)
    ensures exists p :: p > bound && p !in used
    decreases used
  {
    if bound + 1 in used {
      UnusedAddress(used - {bound + 1}, bound + 1);
      var p :| p > bound + 1 && p !in used - {bound + 1};
      assert p > bound && p !in used;
    }
  }
}
