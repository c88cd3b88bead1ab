/** The allocator that src/bint.c and src/hash.c ask for memory. Which requests it grants is
    fixed beforehand, in any way. */
module Memory {

  class Allocator {
    /** What it answers to the first requests, in order. All later ones are granted. */
    const answers: seq<bool>
    /** How many requests there have been. */
    var asked: nat

    constructor (answers: seq<bool>)
      ensures this.answers == answers && asked == 0
    {
      this.answers := answers;
      asked := 0;
    }

    /** Whether request number `i` is granted. */
    predicate Grants(i: nat) { i < |answers| ==> answers[i] }

    method Request() returns (ok: bool)
      modifies this`asked
      ensures asked == old(asked) + 1 && ok == Grants(old(asked))
    {
      ok := Grants(asked);
      asked := asked + 1;
    }

    /** All requests from number `from` on have been granted. */
    ghost predicate Granted(from: nat)
      reads this
    {
      from <= asked && forall i: nat :: from <= i < asked ==> Grants(i)
    }

    /** Since request `from` as many were made as needed, or up to the first that was refused. */
    ghost predicate Served(from: nat, need: nat, ok: bool)
      reads this
    {
      from <= asked <= from + need && (ok <==> Granted(from)) && (ok ==> asked == from + need)
    }

    /** `alloc_chain`, as far as the requests go. */
    method RequestAll(count: nat) returns (ok: bool)
      modifies this`asked
      ensures Served(old(asked), count, ok)
    {
      ok := true;
      var left := count;
      while left > 0 && ok
        invariant 0 <= left <= count && asked == old(asked) + count - left && (ok <==> Granted(old(asked)))
      {
        ok := Request();
        left := left - 1;
      }
    }
  }
}
