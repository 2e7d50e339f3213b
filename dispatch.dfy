/** What one dispatch does, as functions: which handlers a message reaches,
    which inbox entries are due, the order a scheduling mode gives them, and
    the earliest next activation the invoked handlers request. */
module Dispatch {
  import opened MultiMap
  import opened Messages
  import opened Registry

  /** The reduction of handler-returned times to one answer: the earliest of
      them, `Never` for none. */
  function Min(ts: seq<TimePoint>): (r: Next)
    ensures r.Never? <==> ts == []
    ensures r.At? ==> r.t in ts && forall i :: 0 <= i < |ts| ==> r.t <= ts[i]
  {
    if ts == [] then Never
    else Earliest(Min(ts[..|ts| - 1]), At(ts[|ts| - 1]))
  }

  /** Reducing one more time takes the earlier of the reduction so far and
      that time. */
  lemma MinPrefixStep(ts: seq<TimePoint>, i: nat)
    requires i < |ts|
    ensures Min(ts[..i + 1]) == Earliest(Min(ts[..i]), At(ts[i]))
  {
    assert ts[..i + 1][..i] == ts[..i];
  }

  /** Reducing a concatenation reduces each part and takes the earlier. */
  lemma MinConcat(a: seq<TimePoint>, b: seq<TimePoint>)
    ensures Min(a + b) == Earliest(Min(a), Min(b))
  {
    if a == [] {
      assert a + b == b;
    } else if b == [] {
      assert a + b == a;
    } else {
      var r, x, y := Min(a + b), Min(a), Min(b);
      assert x.t in a + b && y.t in a + b;
      assert r.t in a || r.t in b;
    }
  }

  /** The times the handlers of bucket `b` return for message `m`, in bucket
      order. */
  function Results(b: Bucket, m: Message, step: TimePoint, react: Reaction): (ts: seq<TimePoint>)
    ensures |ts| == |b|
    ensures forall i :: 0 <= i < |b| ==> ts[i] == react(b[i].1, m, step)
  {
    seq(|b|, i requires 0 <= i < |b| => react(b[i].1, m, step))
  }

  /** What processing message `m` reports. */
  function PerMessage(cb: Callbacks, m: Message, step: TimePoint, react: Reaction): Next
  {
    Min(Results(BucketOf(cb, m.code), m, step, react))
  }

  /** The answer for one message is the earliest time any of the handlers
      registered for its code returned, and `Never` exactly when there are
      none. */
  lemma PerMessageEarliest(cb: Callbacks, m: Message, step: TimePoint, react: Reaction)
    ensures PerMessage(cb, m, step, react).Never? <==> Values(BucketOf(cb, m.code)) == []
    ensures PerMessage(cb, m, step, react).At? ==>
              exists i :: 0 <= i < |Values(BucketOf(cb, m.code))| &&
                PerMessage(cb, m, step, react).t == react(Values(BucketOf(cb, m.code))[i], m, step)
    ensures PerMessage(cb, m, step, react).At? ==>
              forall i :: 0 <= i < |Values(BucketOf(cb, m.code))| ==>
                PerMessage(cb, m, step, react).t <= react(Values(BucketOf(cb, m.code))[i], m, step)
  {
    var ts := Results(BucketOf(cb, m.code), m, step, react);
    var r := PerMessage(cb, m, step, react);
    if r.At? {
      var i :| 0 <= i < |ts| && ts[i] == r.t;
      assert Values(BucketOf(cb, m.code))[i] == BucketOf(cb, m.code)[i].1;
    }
  }

  /** What processing a batch of messages in the given order reports: the
      running earliest of the per-message answers. */
  function BatchEarliest(msgs: seq<Message>, cb: Callbacks, step: TimePoint, react: Reaction): Next
  {
    if msgs == [] then Never
    else Earliest(BatchEarliest(msgs[..|msgs| - 1], cb, step, react),
                  PerMessage(cb, msgs[|msgs| - 1], step, react))
  }

  /** Every time returned by every handler invoked for the batch, message by
      message. */
  function AllResults(msgs: seq<Message>, cb: Callbacks, step: TimePoint, react: Reaction): seq<TimePoint>
  {
    if msgs == [] then []
    else AllResults(msgs[..|msgs| - 1], cb, step, react)
         + Results(BucketOf(cb, msgs[|msgs| - 1].code), msgs[|msgs| - 1], step, react)
  }

  /** The batch answer is the earliest time any invoked handler returned, and
      `Never` exactly when no handler was invoked. */
  lemma {:induction false} BatchEarliestIsMin(msgs: seq<Message>, cb: Callbacks, step: TimePoint, react: Reaction)
    ensures BatchEarliest(msgs, cb, step, react) == Min(AllResults(msgs, cb, step, react))
    decreases |msgs|
  {
    if msgs != [] {
      var init, last := msgs[..|msgs| - 1], msgs[|msgs| - 1];
      BatchEarliestIsMin(init, cb, step, react);
      MinConcat(AllResults(init, cb, step, react), Results(BucketOf(cb, last.code), last, step, react));
    }
  }

  /** The handlers invoked for a batch, in invocation order. */
  function FiredAll(msgs: seq<Message>, cb: Callbacks): seq<Handler>
  {
    if msgs == [] then []
    else FiredAll(msgs[..|msgs| - 1], cb) + Values(BucketOf(cb, msgs[|msgs| - 1].code))
  }

  /** Extending a dispatched prefix by one message extends both the running
      answer and the invoked handlers by that message's own. */
  lemma BatchPrefixStep(msgs: seq<Message>, i: nat, cb: Callbacks, step: TimePoint, react: Reaction)
    requires i < |msgs|
    ensures BatchEarliest(msgs[..i + 1], cb, step, react)
         == Earliest(BatchEarliest(msgs[..i], cb, step, react), PerMessage(cb, msgs[i], step, react))
    ensures FiredAll(msgs[..i + 1], cb) == FiredAll(msgs[..i], cb) + Values(BucketOf(cb, msgs[i].code))
  {
    assert msgs[..i + 1][..i] == msgs[..i] && msgs[..i + 1][i] == msgs[i];
  }

  /** The communicator's scheduling modes. */
  datatype Scheduling = InOrder | Random

  /** The inbox entries due at time `step`: those delivered at or before it,
      which in a sorted inbox form its first part. */
  function Due(inbox: seq<(int, Message)>, step: TimePoint): seq<(int, Message)>
  {
    inbox[..UpperBound(inbox, step)]
  }

  /** The inbox entries kept for later steps. */
  function Remaining(inbox: seq<(int, Message)>, step: TimePoint): seq<(int, Message)>
  {
    inbox[UpperBound(inbox, step)..]
  }

  /** The due part holds exactly the entries delivered at or before `step`,
      in inbox order (ascending delivery time, then insertion); the rest are
      all later, and nothing is lost or added. */
  lemma DueSplit(inbox: seq<(int, Message)>, step: TimePoint)
    requires Sorted(inbox)
    ensures Due(inbox, step) + Remaining(inbox, step) == inbox
    ensures Sorted(Due(inbox, step)) && Sorted(Remaining(inbox, step))
    ensures forall i :: 0 <= i < |Due(inbox, step)| ==> Due(inbox, step)[i].0 <= step
    ensures forall i :: 0 <= i < |Remaining(inbox, step)| ==> step < Remaining(inbox, step)[i].0
  {
    var n := UpperBound(inbox, step);
    UpperBoundSplits(inbox, step);
    forall i | 0 <= i < |Remaining(inbox, step)|
      ensures step < Remaining(inbox, step)[i].0
    {
      assert Remaining(inbox, step)[i] == inbox[n + i];
    }
  }

  /** `perm` lists every index below `n` exactly once. */
  ghost predicate IsPermutation(perm: seq<nat>, n: nat)
  {
    && |perm| == n
    && (forall i :: 0 <= i < n ==> perm[i] < n)
    && (forall i, j :: 0 <= i < j < n ==> perm[i] != perm[j])
    && (forall k :: 0 <= k < n ==> k in perm)
  }

  /** The elements of `d` in the order `perm` lists their indices. */
  function Permute<T>(d: seq<T>, perm: seq<nat>): (r: seq<T>)
    requires forall i :: 0 <= i < |perm| ==> perm[i] < |d|
    ensures |r| == |perm|
    ensures forall i :: 0 <= i < |perm| ==> r[i] == d[perm[i]]
  {
    seq(|perm|, i requires 0 <= i < |perm| => d[perm[i]])
  }

  /** Dropping the position that holds the largest index leaves a
      permutation of the smaller indices. */
  lemma DropLargest(perm: seq<nat>, n: nat, j: nat)
    requires IsPermutation(perm, n + 1) && j < |perm| && perm[j] == n
    ensures IsPermutation(perm[..j] + perm[j + 1..], n)
  {
    var perm' := perm[..j] + perm[j + 1..];
    forall i | 0 <= i < n
      ensures perm'[i] == if i < j then perm[i] else perm[i + 1]
    {
    }
    forall k | 0 <= k < n
      ensures k in perm'
    {
      assert k in perm;
      var i :| 0 <= i < |perm| && perm[i] == k;
      if i < j {
        assert perm'[i] == k;
      } else {
        assert perm'[i - 1] == k;
      }
    }
  }

  lemma PermuteDropLargest<T>(d: seq<T>, perm: seq<nat>, j: nat)
    requires |d| > 0 && IsPermutation(perm, |d|) && j < |perm| && perm[j] == |d| - 1
    requires IsPermutation(perm[..j] + perm[j + 1..], |d| - 1)
    ensures Permute(d, perm)
         == Permute(d[..|d| - 1], perm[..j] + perm[j + 1..])[..j] + [d[|d| - 1]]
            + Permute(d[..|d| - 1], perm[..j] + perm[j + 1..])[j..]
  {
  }

  /** Reordering by a permutation neither loses nor duplicates an element. */
  lemma {:induction false} PermuteMultiset<T>(d: seq<T>, perm: seq<nat>)
    requires IsPermutation(perm, |d|)
    ensures multiset(Permute(d, perm)) == multiset(d)
    decreases |d|
  {
    if d != [] {
      var n := |d| - 1;
      assert n in perm;
      var j :| 0 <= j < |perm| && perm[j] == n;
      DropLargest(perm, n, j);
      PermuteMultiset(d[..n], perm[..j] + perm[j + 1..]);
      PermuteMultisetStep(d, perm, j);
    }
  }

  /** One step of `PermuteMultiset`: the last element of `d` is placed at the
      position `j` where `perm` lists its index. */
  lemma PermuteMultisetStep<T>(d: seq<T>, perm: seq<nat>, j: nat)
    requires |d| > 0 && IsPermutation(perm, |d|) && j < |perm| && perm[j] == |d| - 1
    requires IsPermutation(perm[..j] + perm[j + 1..], |d| - 1)
    requires multiset(Permute(d[..|d| - 1], perm[..j] + perm[j + 1..])) == multiset(d[..|d| - 1])
    ensures multiset(Permute(d, perm)) == multiset(d)
  {
    var n := |d| - 1;
    var x := Permute(d[..n], perm[..j] + perm[j + 1..]);
    calc {
      multiset(Permute(d, perm));
      { PermuteDropLargest(d, perm, j); }
      multiset(x[..j] + [d[n]] + x[j..]);
      { SpliceMultiset(x[..j], d[n], x[j..]);
        assert x[..j] + x[j..] == x; }
      multiset(x) + multiset{d[n]};
      multiset(d[..n]) + multiset{d[n]};
      { assert d == d[..n] + [d[n]]; }
      multiset(d);
    }
  }

  /** The order in which a scheduling mode dispatches the due messages: inbox
      order for `InOrder`; for `Random`, the order of a permutation drawn from
      the caller's seed, supplied here as `perm`. */
  function DispatchOrder(due: seq<Message>, mode: Scheduling, perm: seq<nat>): (order: seq<Message>)
    requires mode == Random ==> IsPermutation(perm, |due|)
    ensures |order| == |due|
    ensures mode == InOrder ==> order == due
    ensures mode == Random ==> forall i :: 0 <= i < |due| ==> order[i] == due[perm[i]]
  {
    match mode
    case InOrder => due
    case Random => Permute(due, perm)
  }

  /** Conservation: every due message is dispatched exactly once and every
      other inbox entry stays. */
  lemma DispatchConserves(inbox: seq<(int, Message)>, step: TimePoint, mode: Scheduling, perm: seq<nat>)
    requires mode == Random ==> IsPermutation(perm, UpperBound(inbox, step))
    ensures multiset(DispatchOrder(Values(Due(inbox, step)), mode, perm))
            + multiset(Values(Remaining(inbox, step)))
         == multiset(Values(inbox))
  {
    var due, rest := Values(Due(inbox, step)), Values(Remaining(inbox, step));
    if mode == Random {
      PermuteMultiset(due, perm);
    }
    assert Values(inbox) == due + rest;
  }
}
