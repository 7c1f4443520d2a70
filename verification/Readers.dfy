/** The reader built over one imported record batch (src/table.rs, SingleBatchReader). */
module Readers {
  import opened Basics
  import opened Objects

  class SingleBatchReader {
    var batch: Option<Batch>
    var exhausted: bool

    /** A reader that is exhausted has handed out its batch, and one that is not still has it. */
    ghost predicate Valid()
      reads this
    {
      exhausted <==> batch.None?
    }

    /** The batches that will still be yielded. */
    ghost function Remaining(): seq<Batch>
      reads this
    {
      if batch.Some? then [batch.value] else []
    }

    constructor (b: Batch)
      ensures Valid() && Remaining() == [b]
    {
      batch, exhausted := Some(b), false;
    }

    /** `Iterator::next`. */
    method Next() returns (r: Option<Batch>)
      requires Valid()
      modifies this
      ensures Valid() && exhausted
      ensures r == if old(Remaining()) == [] then None else Some(old(Remaining())[0])
      ensures Remaining() == if old(Remaining()) == [] then [] else old(Remaining())[1..]
    {
      if exhausted {
        r := None;
      } else {
        exhausted := true;
        r, batch := batch, None;
      }
    }

    /** Any number of `next` calls. */
    method Calls(n: nat) returns (rs: seq<Option<Batch>>)
      requires Valid()
      modifies this
      ensures Valid() && rs == Yields(old(Remaining()), n) && (n > 0 ==> exhausted)
    {
      ghost var all := Remaining();
      rs := [];
      while |rs| < n
        invariant Valid() && |rs| <= n && rs == Yields(all, |rs|) && |all| <= 1
        invariant Remaining() == if rs == [] then all else []
        invariant rs != [] ==> exhausted
      {
        var r := Next();
        rs := rs + [r];
      }
    }

    /** What a consumer of the stream does: takes batches until there is none. */
    method Drain() returns (batches: seq<Batch>)
      requires Valid()
      modifies this
      ensures Valid() && exhausted && batches == old(Remaining()) && Remaining() == []
    {
      batches := [];
      var r := Next();
      while r.Some?
        invariant Valid() && exhausted && batches + (if r.Some? then [r.value] else []) == old(Remaining())
        invariant r.None? ==> Remaining() == []
        decreases r.Some?
      {
        batches := batches + [r.value];
        r := Next();
      }
    }
  }

  /** What `n` calls yield: every batch once, in order, and then None forever. */
  function Yields(batches: seq<Batch>, n: nat): (rs: seq<Option<Batch>>)
    ensures |rs| == n
    ensures forall i :: 0 <= i < n ==> rs[i] == if i < |batches| then Some(batches[i]) else None
  {
    seq(n, i requires 0 <= i < n => if i < |batches| then Some(batches[i]) else None)
  }
}
