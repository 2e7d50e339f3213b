/** The callback registry of a communicator: for every message code, a
    multimap from priority to handler. */
module Registry {
  import opened MultiMap
  import opened Messages

  /** A callback priority (a signed 8-bit integer). */
  newtype Priority = p: int | -128 <= p < 128

  /** The handlers registered for one message code, in multimap order. */
  type Bucket = seq<(int, Handler)>

  type Callbacks = map<MessageCode, Bucket>

  /** Every bucket is in priority order, holds 8-bit priorities only, and
      holds only handlers registered for the bucket's own code. */
  ghost predicate WellFormed(cb: Callbacks)
  {
    forall c :: c in cb ==> BucketFor(cb[c], c)
  }

  ghost predicate BucketFor(b: Bucket, c: MessageCode)
  {
    && Sorted(b)
    && forall i :: 0 <= i < |b| ==> b[i].1.code == c && -128 <= b[i].0 < 128
  }

  /** The bucket of code `c`, empty when nothing was registered for it. */
  function BucketOf(cb: Callbacks, c: MessageCode): (b: Bucket)
    ensures c in cb ==> b == cb[c]
    ensures c !in cb ==> b == []
  {
    if c in cb then cb[c] else []
  }

  /** Registering handler `h` with priority `p` in an unlocked registry: the
      bucket of `h`'s code is created if absent and `(p, h)` is inserted into
      it as into a multimap; no other bucket changes. */
  function Register(cb: Callbacks, h: Handler, p: Priority): (r: Callbacks)
    ensures r.Keys == cb.Keys + {h.code}
    ensures forall c :: c in cb && c != h.code ==> r[c] == cb[c]
    ensures BucketOf(r, h.code) == Insert(BucketOf(cb, h.code), p as int, h)
  {
    cb[h.code := Insert(BucketOf(cb, h.code), p as int, h)]
  }

  /** After a registration the code has a bucket holding exactly one entry
      more, `(p, h)`; taking that entry out again gives back the old bucket,
      so no entry is removed or reordered. */
  lemma RegisterAddsOneEntry(cb: Callbacks, h: Handler, p: Priority)
    ensures h.code in Register(cb, h, p)
    ensures multiset(Register(cb, h, p)[h.code]) == multiset(BucketOf(cb, h.code)) + multiset{(p as int, h)}
    ensures var b, n := Register(cb, h, p)[h.code], UpperBound(BucketOf(cb, h.code), p as int);
            b[n] == (p as int, h) && b[..n] + b[n + 1..] == BucketOf(cb, h.code)
  {
    var b := BucketOf(cb, h.code);
    InsertMultiset(b, p as int, h);
    InsertRemove(b, p as int, h);
    InsertAt(b, p as int, h);
  }

  /** Registration keeps the registry well formed. */
  lemma RegisterWellFormed(cb: Callbacks, h: Handler, p: Priority)
    requires WellFormed(cb)
    ensures WellFormed(Register(cb, h, p))
  {
    var b := BucketOf(cb, h.code);
    var r := Register(cb, h, p);
    InsertSorted(b, p as int, h);
    assert r[h.code] == Insert(b, p as int, h);
  }

  /** Within a well-formed bucket, handlers are invoked in ascending priority
      and only handlers registered for that code are invoked. */
  lemma HandlersInPriorityOrder(cb: Callbacks, c: MessageCode)
    requires WellFormed(cb)
    ensures forall i, j :: 0 <= i < j < |BucketOf(cb, c)| ==> BucketOf(cb, c)[i].0 <= BucketOf(cb, c)[j].0
    ensures forall h :: h in Values(BucketOf(cb, c)) ==> h.code == c
  {
    if c in cb {
      assert BucketFor(cb[c], c);
    }
  }

  /** Registrations as multimap entries. */
  function Entries(regs: seq<(Priority, Handler)>): (e: Bucket)
    ensures |e| == |regs|
    ensures forall i :: 0 <= i < |regs| ==> e[i] == (regs[i].0 as int, regs[i].1)
  {
    seq(|regs|, i requires 0 <= i < |regs| => (regs[i].0 as int, regs[i].1))
  }

  /** The registry after registering `regs` one after the other. */
  function RegisterAll(cb: Callbacks, regs: seq<(Priority, Handler)>): Callbacks
  {
    if regs == [] then cb
    else
      var last := regs[|regs| - 1];
      Register(RegisterAll(cb, regs[..|regs| - 1]), last.1, last.0)
  }

  /** Registering handlers for a code that had no bucket builds the bucket by
      multimap insertion of the registrations, in registration order. */
  lemma {:induction false} RegisterAllBucket(cb: Callbacks, regs: seq<(Priority, Handler)>, c: MessageCode)
    requires c !in cb
    requires forall i :: 0 <= i < |regs| ==> regs[i].1.code == c
    ensures BucketOf(RegisterAll(cb, regs), c) == InsertAll(Entries(regs))
    decreases |regs|
  {
    if regs != [] {
      var n := |regs| - 1;
      RegisterAllBucket(cb, regs[..n], c);
      RegisterAllLast(cb, regs, c);
    }
  }

  /** One registration step of `RegisterAllBucket`. */
  lemma RegisterAllLast(cb: Callbacks, regs: seq<(Priority, Handler)>, c: MessageCode)
    requires regs != [] && regs[|regs| - 1].1.code == c
    requires BucketOf(RegisterAll(cb, regs[..|regs| - 1]), c) == InsertAll(Entries(regs[..|regs| - 1]))
    ensures BucketOf(RegisterAll(cb, regs), c) == InsertAll(Entries(regs))
  {
    var n := |regs| - 1;
    var init, last := regs[..n], regs[n];
    var prev := RegisterAll(cb, init);
    calc {
      BucketOf(RegisterAll(cb, regs), c);
      BucketOf(Register(prev, last.1, last.0), c);
      Insert(BucketOf(prev, c), last.0 as int, last.1);
      Insert(InsertAll(Entries(init)), last.0 as int, last.1);
      { assert Entries(regs)[..n] == Entries(init) && Entries(regs)[n] == (last.0 as int, last.1); }
      InsertAll(Entries(regs));
    }
  }

  /** Priority ordering: for handlers of pairwise distinct priorities, the
      bucket, and so the invocation order, is the same whatever order they
      were registered in, and it is strictly ascending in priority. */
  lemma RegistrationOrderIrrelevant(cb: Callbacks, regs1: seq<(Priority, Handler)>, regs2: seq<(Priority, Handler)>, c: MessageCode)
    requires c !in cb
    requires forall i :: 0 <= i < |regs1| ==> regs1[i].1.code == c
    requires forall i :: 0 <= i < |regs2| ==> regs2[i].1.code == c
    requires multiset(Entries(regs1)) == multiset(Entries(regs2))
    requires DistinctKeys(Entries(regs1)) && DistinctKeys(Entries(regs2))
    ensures BucketOf(RegisterAll(cb, regs1), c) == BucketOf(RegisterAll(cb, regs2), c)
    ensures forall i, j :: 0 <= i < j < |BucketOf(RegisterAll(cb, regs1), c)| ==>
              BucketOf(RegisterAll(cb, regs1), c)[i].0 < BucketOf(RegisterAll(cb, regs1), c)[j].0
  {
    RegisterAllBucket(cb, regs1, c);
    RegisterAllBucket(cb, regs2, c);
    InsertAllDistinctKeys(Entries(regs1), Entries(regs2));
    var b := InsertAll(Entries(regs1));
    InsertAllStable(Entries(regs1), 0);
    forall i, j | 0 <= i < j < |b|
      ensures b[i].0 < b[j].0
    {
      if b[i].0 == b[j].0 {
        var k := b[i].0;
        InsertAllStable(Entries(regs1), k);
        DistinctKeysWithKey(Entries(regs1), k);
        WithKeyHasBoth(b, i, j);
      }
    }
  }
}
