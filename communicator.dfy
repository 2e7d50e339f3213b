/** The per-agent communicator: an inbox keyed by delivery time, an
    append-only outbox, a one-way lock on callback registration, the callback
    registry, and the scheduling mode used to dispatch due messages. */
module Interaction {
  import opened MultiMap
  import opened Messages
  import opened Registry
  import opened Dispatch

  /** Why registering a callback can fail. */
  datatype Outcome = Pass | Fail(error: string)

  /** The message of the logic error thrown on registration after the lock. */
  const LockedError: string := "communicator callback can only be added at initialisation"

  /** The fields a checkpoint writes and reads back. */
  datatype Persisted = Persisted(inbox: seq<(int, Message)>, outbox: seq<Message>, locked: bool)

  class Communicator {
    /** Pending inbound messages keyed by delivery time, in multimap order. */
    var inbox: seq<(int, Message)>
    /** Messages created by this communicator, awaiting transport. */
    var outbox: seq<Message>
    /** Once true, the callback registry can no longer be changed. */
    var locked: bool
    /** For every message code, its handlers in priority order. */
    var callbacks: Callbacks
    /** How due messages are ordered for dispatch. */
    const schedule: Scheduling

    ghost predicate Valid()
      reads this
    {
      Sorted(inbox) && WellFormed(callbacks)
    }

    /** A new communicator has empty queues, no callbacks and is unlocked. */
    constructor (schedule: Scheduling := Random)
      ensures Valid()
      ensures inbox == [] && outbox == [] && !locked && callbacks == map[]
      ensures this.schedule == schedule
    {
      inbox, outbox, locked, callbacks := [], [], false, map[];
      this.schedule := schedule;
    }

    /** The transport layer inserts a message into the inbox under its
        delivery time, after any message already due at that time. */
    method Deliver(delivery: TimePoint, m: Message)
      requires Valid()
      modifies this`inbox
      ensures Valid()
      ensures inbox == Insert(old(inbox), delivery, m)
      ensures multiset(inbox) == multiset(old(inbox)) + multiset{(delivery, m)}
    {
      InsertSorted(inbox, delivery, m);
      InsertMultiset(inbox, delivery, m);
      inbox := Insert(inbox, delivery, m);
    }

    /** Creates a message and queues it for sending. `constructed` is the
        message as built from the constructor arguments; its recipient and
        delivery time are then set and it is appended to the outbox. */
    method CreateMessage(recipient: Identity, delivery: TimePoint, constructed: Message)
      returns (m: Message)
      requires Valid()
      modifies this`outbox
      ensures Valid()
      ensures m.recipient == recipient && m.received == delivery
      ensures m.sender == constructed.sender && m.sent == constructed.sent
      ensures m.code == constructed.code && m.payload == constructed.payload
      ensures outbox == old(outbox) + [m]
    {
      m := constructed.(recipient := recipient, received := delivery);
      outbox := outbox + [m];
    }

    /** Registers handler `h` for its message code with priority `priority`;
        fails, changing nothing, once the communicator is locked. */
    method RegisterCallback(h: Handler, priority: Priority := 0) returns (outcome: Outcome)
      requires Valid()
      modifies this`callbacks
      ensures Valid()
      ensures old(locked) ==> outcome == Fail(LockedError) && callbacks == old(callbacks)
      ensures !old(locked) ==> outcome == Pass && callbacks == Register(old(callbacks), h, priority)
      ensures Snapshot() == old(Snapshot())
    {
      if locked {
        return Fail(LockedError);
      }
      RegisterWellFormed(callbacks, h, priority);
      callbacks := Register(callbacks, h, priority);
      outcome := Pass;
    }

    /** Locks the callback registry; locking again changes nothing. */
    method LockCallbacks()
      requires Valid()
      modifies this`locked
      ensures Valid()
      ensures locked
    {
      locked := true;
    }

    /** Read-only view of the registry. */
    function Callbacks(): (cb: Callbacks)
      requires Valid()
      reads this
      ensures WellFormed(cb)
      ensures forall c :: c in cb ==> forall i :: 0 <= i < |cb[c]| ==> cb[c][i].1.code == c
    {
      callbacks
    }

    /** Invokes every handler registered for `m`'s code, in bucket order, and
        reports the earliest time they return (`Never` if there are none);
        `PerMessageEarliest` and `HandlersInPriorityOrder` spell out what
        that means. Changes nothing in the communicator. */
    method ProcessMessage(m: Message, step: TimePoint, react: Reaction)
      returns (next: Next, fired: seq<Handler>)
      ensures fired == Values(BucketOf(callbacks, m.code))
      ensures next == PerMessage(callbacks, m, step, react)
      ensures next.Never? <==> fired == []
    {
      var bucket := BucketOf(callbacks, m.code);
      ghost var ts := Results(bucket, m, step, react);
      next, fired := Never, [];
      var i := 0;
      while i < |bucket|
        invariant 0 <= i <= |bucket|
        invariant fired == Values(bucket[..i])
        invariant next == Min(ts[..i])
      {
        var h := bucket[i].1;
        var t := react(h, m, step);
        MinPrefixStep(ts, i);
        ValuesPrefixStep(bucket, i);
        next := Earliest(next, At(t));
        fired := fired + [h];
        i := i + 1;
      }
      assert bucket[..i] == bucket && ts[..i] == ts;
    }

    /** Dispatches the messages due at `step` in the order of the scheduling
        mode (`perm` stands for the permutation drawn from the seed in random
        mode), removes them from the inbox, and reports the earliest time any
        invoked handler returned. */
    method ProcessMessages(step: TimePoint, perm: seq<nat>, react: Reaction)
      returns (next: Next, order: seq<Message>, fired: seq<Handler>)
      requires Valid()
      requires schedule == Random ==> IsPermutation(perm, UpperBound(inbox, step))
      modifies this`inbox
      ensures Valid()
      ensures order == DispatchOrder(Values(Due(old(inbox), step)), schedule, perm)
      ensures inbox == Remaining(old(inbox), step)
      ensures multiset(order) + multiset(Values(inbox)) == multiset(Values(old(inbox)))
      ensures fired == FiredAll(order, callbacks)
      ensures next == BatchEarliest(order, callbacks, step, react)
    {
      order := DispatchOrder(Values(Due(inbox, step)), schedule, perm);
      next, fired := Never, [];
      var i := 0;
      while i < |order|
        invariant 0 <= i <= |order|
        invariant inbox == old(inbox)
        invariant next == BatchEarliest(order[..i], callbacks, step, react)
        invariant fired == FiredAll(order[..i], callbacks)
      {
        var t, hs := ProcessMessage(order[i], step, react);
        BatchPrefixStep(order, i, callbacks, step, react);
        next := Earliest(next, t);
        fired := fired + hs;
        i := i + 1;
      }
      assert order[..i] == order;
      assert Sorted(Remaining(inbox, step)) by {
        DueSplit(inbox, step);
      }
      assert multiset(order) + multiset(Values(Remaining(inbox, step))) == multiset(Values(inbox)) by {
        DispatchConserves(inbox, step, schedule, perm);
      }
      inbox := Remaining(inbox, step);
    }

    /** The state a checkpoint persists: inbox, outbox and the lock flag, but
        neither the callbacks nor the scheduling mode. */
    function Snapshot(): (s: Persisted)
      reads this
      ensures s.inbox == inbox && s.outbox == outbox && s.locked == locked
    {
      Persisted(inbox, outbox, locked)
    }

    /** Reading a checkpoint back restores exactly the persisted fields. A
        checkpoint's inbox is a multimap, so it is in time order. */
    method Load(s: Persisted)
      requires Valid() && Sorted(s.inbox)
      modifies this`inbox, this`outbox, this`locked
      ensures Valid()
      ensures Snapshot() == s
      ensures callbacks == old(callbacks)
    {
      inbox, outbox, locked := s.inbox, s.outbox, s.locked;
    }
  }

  /** Two handlers for one code, registered with priorities 0 and -1, then two
      messages of that code delivered at the same time and dispatched in
      order: each message reaches the priority -1 handler first, the messages
      are dispatched in delivery order, and the earliest requested time is the
      smaller of the two handlers' answers. */
  method InOrderScenario() returns (next: Next, order: seq<Message>, fired: seq<Handler>)
    ensures order == [Message([], [1], 0, 1, 7, [1]), Message([], [1], 0, 1, 7, [2])]
    ensures fired == [Handler(2, 7), Handler(1, 7), Handler(2, 7), Handler(1, 7)]
    ensures next == At(7)
  {
    var m1, m2 := Message([], [1], 0, 1, 7, [1]), Message([], [1], 0, 1, 7, [2]);
    var c := ScenarioSetUp(m1, m2);
    var react := (h: Handler, m: Message, step: TimePoint) => if h.id == 1 then 10 else 7;
    ScenarioDispatch(m1, m2, react);
    next, order, fired := c.ProcessMessages(1, [], react);
  }

  /** Once the callbacks are locked, registering one more fails with the
      initialisation error. */
  method LateRegistrationFails() returns (late: Outcome)
    ensures late == Fail(LockedError)
  {
    var c := new Communicator();
    late := c.RegisterCallback(Handler(1, 7));
    c.LockCallbacks();
    late := c.RegisterCallback(Handler(2, 7), 5);
  }

  /** A locked in-order communicator with handlers 1 (priority 0) and 2
      (priority -1) for code 7 and the messages `m1`, `m2` delivered at time
      1, in that order. */
  method ScenarioSetUp(m1: Message, m2: Message) returns (c: Communicator)
    ensures fresh(c) && c.Valid()
    ensures c.schedule == InOrder && c.locked
    ensures c.callbacks == map[7 := [(-1, Handler(2, 7)), (0, Handler(1, 7))]]
    ensures c.inbox == [(1, m1), (1, m2)]
  {
    c := ScenarioRegister();
    c.Deliver(1, m1);
    c.Deliver(1, m2);
    ScenarioInbox(m1, m2);
  }

  /** A locked in-order communicator with handlers 1 (priority 0) and 2
      (priority -1) for code 7 and an empty inbox. */
  method ScenarioRegister() returns (c: Communicator)
    ensures fresh(c) && c.Valid()
    ensures c.schedule == InOrder && c.locked
    ensures c.callbacks == map[7 := [(-1, Handler(2, 7)), (0, Handler(1, 7))]]
    ensures c.inbox == []
  {
    c := new Communicator(InOrder);
    var h1, h2 := Handler(1, 7), Handler(2, 7);
    var ok1 := c.RegisterCallback(h1, 0);
    var ok2 := c.RegisterCallback(h2, -1);
    ScenarioRegistry(h1, h2);
    c.LockCallbacks();
  }

  lemma ScenarioRegistry(h1: Handler, h2: Handler)
    requires h1 == Handler(1, 7) && h2 == Handler(2, 7)
    ensures Register(Register(map[], h1, 0), h2, -1) == map[7 := [(-1, h2), (0, h1)]]
  {
    var empty: Callbacks := map[];
    var b1: Bucket := [(0, h1)];
    var b2: Bucket := [(-1, h2), (0, h1)];
    assert Insert([], 0, h1) == b1 by {
      InsertAfterAll([], 0, h1);
      assert [] + [(0, h1)] == b1;
    }
    assert Insert(b1, -1, h2) == b2 by {
      InsertBeforeAll(b1, -1, h2);
    }
    var cb := Register(empty, h1, 0);
    assert cb == map[7 := b1];
    var r := Register(cb, h2, -1);
    assert r == map[7 := b2] by {
      assert r.Keys == {7} && r[7] == b2;
    }
  }

  lemma ScenarioInbox(m1: Message, m2: Message)
    ensures Insert(Insert([], 1, m1), 1, m2) == [(1, m1), (1, m2)]
  {
    var s1: seq<(int, Message)> := [(1, m1)];
    assert Insert([], 1, m1) == s1 by {
      InsertAfterAll([], 1, m1);
      assert [] + [(1, m1)] == s1;
    }
    assert Insert(s1, 1, m2) == [(1, m1), (1, m2)] by {
      InsertAfterAll(s1, 1, m2);
    }
  }

  lemma ScenarioDispatch(m1: Message, m2: Message, react: Reaction)
    requires m1.code == 7 && m2.code == 7
    requires forall m, s :: react(Handler(1, 7), m, s) == 10 && react(Handler(2, 7), m, s) == 7
    ensures DispatchOrder(Values(Due([(1, m1), (1, m2)], 1)), InOrder, []) == [m1, m2]
    ensures FiredAll([m1, m2], map[7 := [(-1, Handler(2, 7)), (0, Handler(1, 7))]])
         == [Handler(2, 7), Handler(1, 7), Handler(2, 7), Handler(1, 7)]
    ensures BatchEarliest([m1, m2], map[7 := [(-1, Handler(2, 7)), (0, Handler(1, 7))]], 1, react) == At(7)
  {
    var cb := map[7 := [(-1, Handler(2, 7)), (0, Handler(1, 7))]];
    var b := cb[7];
    var hs := [Handler(2, 7), Handler(1, 7)];
    assert Due([(1, m1), (1, m2)], 1) == [(1, m1), (1, m2)] by {
      assert UpperBound([(1, m1), (1, m2)], 1) == 2;
    }
    assert Values([(1, m1), (1, m2)]) == [m1, m2];
    assert Values(b) == hs;
    assert [m1, m2][..1] == [m1] && [m1][..0] == [];
    assert FiredAll([m1, m2], cb) == hs + hs by {
      assert FiredAll([m1], cb) == [] + hs;
    }
    assert PerMessage(cb, m1, 1, react) == At(7) && PerMessage(cb, m2, 1, react) == At(7) by {
      ScenarioPerMessage(b, m1, react);
      ScenarioPerMessage(b, m2, react);
    }
    assert BatchEarliest([m1], cb, 1, react) == At(7);
  }

  lemma ScenarioPerMessage(b: Bucket, m: Message, react: Reaction)
    requires b == [(-1, Handler(2, 7)), (0, Handler(1, 7))]
    requires forall m, s :: react(Handler(1, 7), m, s) == 10 && react(Handler(2, 7), m, s) == 7
    ensures Min(Results(b, m, 1, react)) == At(7)
  {
    assert Results(b, m, 1, react) == [7, 10];
    assert [7, 10][..1] == [7] && [7][..0] == [];
  }
}
