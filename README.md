# ESL communicator, money equality and output registration in Dafny

This project models the message-passing core of the ESL agent-based
simulation library: the per-agent `communicator`. It also models two small
pieces next to it: equality on `money`, and the output registry of a data
`producer`.

A communicator holds the following state:

- an **inbox**, a `std::multimap` from delivery time to message;
- an append-only **outbox**;
- a one-way **lock** on callback registration;
- the **callback registry**, a `std::map` from message code to a
  `std::multimap` from an 8-bit priority to a handler;
- a **scheduling mode**, either in order or random.

The model is a Dafny class `Interaction.Communicator` with those fields.

- Each multimap is the sequence of its entries in iteration order.
- `std::multimap::insert` places a new entry after every entry whose key is
  not greater (`MultiMap.Insert`, using `MultiMap.UpperBound`).
- Equal keys therefore keep their insertion order. This property is proved,
  together with sortedness, multiset growth and stability of every equal
  range.
- A handler is an opaque value `Handler(id, code)`.
- What the handlers' own code returns is a parameter
  `react: (Handler, Message, TimePoint) -> TimePoint`.

Module layout:

| file | module | contents |
|---|---|---|
| `multimap.dfy` | `MultiMap` | the ordered multimap: upper bound, insert, equal ranges, and their lemmas |
| `messages.dfy` | `Messages` | message header, handlers, the `Next` answer of a dispatch, `Earliest` |
| `registry.dfy` | `Registry` | the callback registry and registration as a function |
| `dispatch.dfy` | `Dispatch` | what one dispatch does, as functions: due entries, scheduling order, the next-time reduction |
| `communicator.dfy` | `Interaction` | the `Communicator` class, whose methods are proved against the functions above, plus an end-to-end scenario |
| `money.dfy` | `Economics` | `money` construction and equality |
| `producer.dfy` | `Data` | `producer::create_output` over a name-keyed map |

Modelling choices:

- **Bodies not shown.** The bodies of `process_message` and
  `process_messages` are not in the header; only their declarations and
  doc comments are.
  - The model walks a code's bucket in multimap (priority) order.
  - In in-order mode it walks the due inbox entries in multimap order:
    delivery time, then insertion.
- **Next-time reduction.** Combining the handler-returned times into one
  answer (the earliest, `Never` for none) is a choice of this model, not
  behaviour read from the code.
- **Due entries.** The `time_step` is represented by one boundary time
  point. An entry is due when its delivery time is at or before that point.
- **Random scheduling.** Random mode dispatches in the order of a
  permutation supplied by the caller. It stands for the permutation the
  library draws from its seed sequence.
- **`create_message`.** Line 145 of `esl/interaction/communicator.hpp`
  calls `this->outbox().push_back(...)`, but `outbox` is a data member. It
  is modelled as the evident intent: appending to the `outbox` field.
- **The lock.** Locking is one-way for every operation of the class. The
  only exception is `Load`: reading a checkpoint restores `locked_`
  together with the inbox and outbox, as the library's `serialize` does.

## Model

| member | source | states |
|---|---|---|
| Interaction.Communicator.constructor | esl/interaction/communicator.hpp:107-112 | A new communicator has an empty inbox and outbox and no callbacks. It is unlocked and has the requested scheduling mode, `random` by default. |
| Interaction.Communicator.Deliver | esl/interaction/communicator.hpp:66-69 | Putting a message into the inbox under its delivery time is a multimap insert. The inbox stays in time order and gains exactly that one entry. |
| Interaction.Communicator.CreateMessage | esl/interaction/communicator.hpp:134-148 | The returned message is the constructed one with `recipient` and `received` set to the arguments, all other header fields kept. The outbox becomes the old outbox followed by exactly that message. Only the outbox may change, and the class invariant is kept. |
| Interaction.Communicator.RegisterCallback | esl/interaction/communicator.hpp:157-189 | The priority defaults to 0. When locked: fails with the initialisation error and leaves the callbacks unchanged. Otherwise: succeeds and the registry becomes `Register(old, h, priority)`. The registry stays well formed and the persisted state does not change. |
| Interaction.Communicator.LockCallbacks | esl/interaction/communicator.hpp:194-197 | Afterwards the communicator is locked, whether it was before or not. Nothing but the flag may change, and the class invariant is kept. |
| Interaction.Communicator.Callbacks | esl/interaction/communicator.hpp:199-202 | The registry it exposes is well formed: each bucket is in ascending priority order, holds 8-bit priorities and holds only handlers of its own code. |
| Interaction.Communicator.ProcessMessage | esl/interaction/communicator.hpp:204-210 | Changes nothing (the method is const). The handlers invoked are exactly those of the message code's bucket, in bucket order. The answer is `PerMessage` of the message. It is `Never` exactly when no handler was invoked. |
| Interaction.Communicator.ProcessMessages | esl/interaction/communicator.hpp:212-219 | The dispatch order is the scheduling mode's order of the due messages. The inbox becomes the not-yet-due remainder and stays sorted. Dispatched plus remaining messages are exactly the old inbox's messages, as a multiset. The handlers invoked are `FiredAll` of the order. The answer is `BatchEarliest` of the order. |
| Interaction.Communicator.Snapshot | esl/interaction/communicator.hpp:225-232 | The persisted state is exactly the inbox, the outbox and the lock flag. The callbacks and the scheduling mode are not part of it. |
| Interaction.Communicator.Load | esl/interaction/communicator.hpp:225-232 | Reading a checkpoint, whose inbox is a time-ordered multimap, restores exactly inbox, outbox and lock flag. It leaves the callbacks alone and keeps the class invariant. |
| Interaction.ScenarioRegister | esl/interaction/communicator.hpp:157-197 | Two registrations (priorities 0 and -1) and a lock give a locked communicator with bucket `[(-1, H2), (0, H1)]` and an empty inbox. |
| Interaction.ScenarioSetUp | esl/interaction/communicator.hpp:66-69 | Two deliveries at the same time to that communicator give inbox `[(1, m1), (1, m2)]`, with the registry unchanged. |
| Interaction.ScenarioRegistry | esl/interaction/communicator.hpp:172-188 | Registering priority 0 and then priority -1 for one code gives the bucket with the -1 handler first. |
| Interaction.ScenarioInbox | esl/interaction/communicator.hpp:66-69 | Two deliveries at the same time stay in delivery order. |
| Interaction.ScenarioDispatch | esl/interaction/communicator.hpp:204-219 | For that inbox and registry at step 1 in order, dispatch takes `[m1, m2]` and invokes `H2, H1, H2, H1`. The earliest requested time is 7. |
| Interaction.ScenarioPerMessage | esl/interaction/communicator.hpp:204-210 | With handlers returning 7 and 10, the per-message answer is 7. |
| Interaction.InOrderScenario | esl/interaction/communicator.hpp:157-219 | Runs that scenario end to end through the class's methods. Each message reaches the priority -1 handler first, messages go in delivery order, and the answer is 7. |
| Interaction.LateRegistrationFails | esl/interaction/communicator.hpp:162-170 | A registration after `lock_callbacks` fails with the initialisation error. The communicator is built with the default mode and registered with the default priority. |
| Registry.Register | esl/interaction/communicator.hpp:172-188 | The registry's codes become the old codes plus the handler's code, so a missing bucket is created. Every other bucket is unchanged. The handler's bucket becomes the multimap insert of `(priority, handler)` into the old bucket (empty if there was none). |
| Registry.RegisterAddsOneEntry | esl/interaction/communicator.hpp:172-188 | After registration the code has a bucket holding exactly one more entry `(p, h)`, as a multiset. That entry sits at the old bucket's upper bound of `p`. Removing it gives back the old bucket, so no entry is lost or reordered. |
| Registry.RegisterWellFormed | esl/interaction/communicator.hpp:94-95 | Registration keeps every bucket sorted by priority, holding 8-bit priorities and holding only handlers of its own code. |
| Registry.HandlersInPriorityOrder | esl/interaction/communicator.hpp:94-95 | In a well-formed registry, the handlers of a code are invoked in ascending priority, and only handlers registered for that code. |
| Registry.RegisterAllBucket | esl/interaction/communicator.hpp:175-188 | Registering handlers one after the other for a code without a bucket builds the bucket by successive multimap inserts of the registrations. |
| Registry.RegistrationOrderIrrelevant | esl/interaction/communicator.hpp:94-95 | For pairwise distinct priorities, the bucket (and so the invocation order) is the same whatever the registration order, and it is strictly ascending in priority. |
| MultiMap.UpperBound | esl/interaction/communicator.hpp:188 | The position where `std::multimap::insert` places a key: at most the multimap's length. What it means is in `UpperBoundIsFirstLarger`. |
| MultiMap.Insert | esl/interaction/communicator.hpp:188 | `std::multimap::insert`, used for the callback buckets and for the inbox: the multimap becomes one entry longer. Placement, order and contents are stated in the `Insert…` lemmas below. |
| MultiMap.UpperBoundIsFirstLarger | esl/interaction/communicator.hpp:188 | Every entry before the upper bound of `k` has key at most `k`, and the entry at the upper bound, if any, has a larger key. |
| MultiMap.UpperBoundSplits | esl/interaction/communicator.hpp:188 | In a sorted multimap, the upper bound of `k` splits the entries into keys at most `k` and keys greater than `k`. |
| MultiMap.InsertAt | esl/interaction/communicator.hpp:188 | After an insert, the new entry is at the upper bound of its key. Entries before it are unchanged and entries after it are shifted by one. |
| MultiMap.InsertAfterAll | esl/interaction/communicator.hpp:188 | A key not smaller than any present key is appended at the end. |
| MultiMap.InsertBeforeAll | esl/interaction/communicator.hpp:188 | A key smaller than every present key goes to the front. |
| MultiMap.InsertSorted | esl/interaction/communicator.hpp:188 | Inserting keeps a multimap in iteration (key) order. |
| MultiMap.InsertAfterEqualKeys | esl/interaction/communicator.hpp:188 | The new entry follows every entry with an equal key and precedes every entry with a larger key. Removing it gives back the old multimap. |
| MultiMap.InsertRemove | esl/interaction/communicator.hpp:188 | Removing the entry an insert placed gives back the multimap as it was. |
| MultiMap.InsertMultiset | esl/interaction/communicator.hpp:188 | An insert adds exactly the new entry and loses none. |
| MultiMap.WithKeyConcat | esl/interaction/communicator.hpp:69 | The equal range of a concatenation is the concatenation of the equal ranges. |
| MultiMap.InsertWithKey | esl/interaction/communicator.hpp:188 | Stability: an insert appends the new entry to the equal range of its own key and leaves every other key's equal range unchanged. |
| MultiMap.InsertAllStable | esl/interaction/communicator.hpp:69 | Inserting any sequence of entries yields a sorted multimap. The equal range of every key lists that key's entries in the order they were inserted. |
| MultiMap.SortedDeterminedByEqualRanges | esl/interaction/communicator.hpp:69 | Two sorted multimaps with the same equal range for every key are identical. |
| MultiMap.InsertAllDependsOnlyOnEqualRanges | esl/interaction/communicator.hpp:69 | The multimap built by inserts depends only on the insertion order among equal keys. |
| MultiMap.WithKeyMultiset | esl/interaction/communicator.hpp:69 | The equal range of `k` holds each entry with key `k` as often as the multimap does, and no other entry. |
| MultiMap.DistinctKeysWithKey | esl/interaction/communicator.hpp:94-95 | With no repeated key, every equal range has at most one entry. |
| MultiMap.InsertAllDistinctKeys | esl/interaction/communicator.hpp:94-95 | With no repeated key, inserting the same entries in any order gives the same multimap. |
| Messages.Earliest | esl/interaction/communicator.hpp:204-219 | The earlier of two requested times: one of its arguments, no later than any `At` argument, and `Never` only when both are. |
| Dispatch.Min | esl/interaction/communicator.hpp:204-210 | The reduction of a list of handler-returned times is `Never` exactly for the empty list. Otherwise it is an element of the list, no later than any element. |
| Dispatch.MinConcat | esl/interaction/communicator.hpp:212-219 | Reducing a concatenation is reducing each part and taking the earlier answer. |
| Dispatch.PerMessageEarliest | esl/interaction/communicator.hpp:204-210 | A message's answer is `Never` exactly when its code has no handler. Otherwise it is the time some invoked handler returned, no later than any other handler's time. |
| Dispatch.BatchEarliestIsMin | esl/interaction/communicator.hpp:212-219 | The running earliest over a batch equals the earliest of all times returned by all handlers invoked for the batch. |
| Dispatch.DueSplit | esl/interaction/communicator.hpp:212-219 | The due part and the remainder of a sorted inbox concatenate back to it, and both are sorted. Due entries are delivered at or before the step, remaining ones strictly after. |
| Dispatch.DispatchOrder | esl/interaction/communicator.hpp:98-105 | In-order mode keeps the due messages in inbox order. Random mode lists them in the order of the permutation. |
| Dispatch.PermuteMultiset | esl/interaction/communicator.hpp:212-219 | Reordering by a permutation neither loses nor duplicates a message. |
| Dispatch.DispatchConserves | esl/interaction/communicator.hpp:212-219 | Every due message is dispatched exactly once and every other entry stays in the inbox, as multisets. |
| Economics.NewMoney | esl/economics/money.hpp:44-46 | Constructing money from a currency gives that denomination. |
| Economics.Equal | esl/economics/money.hpp:57-60 | `operator==` holds exactly when the denominations are equal. |
| Economics.NotEqual | esl/economics/money.hpp:62-65 | `operator!=` holds exactly when the denominations differ, the negation of `operator==`. |
| Economics.EqualIffSameDenomination | esl/economics/money.hpp:57-65 | `==` holds exactly when the denominations are equal, and `!=` exactly when they differ. The base parts play no role. |
| Economics.NewMoneyEqual | esl/economics/money.hpp:44-60 | Money built from two currencies is equal exactly when the currencies are. |
| Economics.EqualIsEquivalence | esl/economics/money.hpp:57-60 | Equality on money is reflexive, symmetric and transitive. |
| Data.InsertIfAbsent | esl/data/producer.hpp:41-42 | After insertion the key is present. A present key keeps its entry and the map is unchanged. An absent key gets the new value and the map grows by one. Every other key is untouched. |
| Data.InsertIfAbsentFirstWins | esl/data/producer.hpp:41-42 | A second insert under the same key is ignored: the first value stays. |
| Data.Producer.constructor | esl/data/producer.hpp:49 | A new producer has no outputs. |
| Data.Producer.CreateOutput | esl/data/producer.hpp:36-44 | The returned output is fresh and carries the name. The map becomes the insert-if-absent of the new output. An existing entry under the name is kept and is not the returned output. Otherwise the map gains the returned output and grows by one. |

## Left out

- Boost serialization archives and the MPI `is_mpi_datatype` trait are not modelled. Only the choice of persisted fields is kept (`Snapshot`, `Load`).
- `std::function` type erasure and the `dynamic_pointer_cast` narrowing of a message to the handler's type (a null pointer on mismatch) are not modelled. Dispatch routes by code, and the registry proves every bucket holds only handlers of its own code.
- What handlers do besides returning a time (their side effects on the agent) is outside the communicator and is not modelled. Their returned times are the `react` parameter.
- The seed sequence and random number generator behind random scheduling are not modelled. The permutation they yield is a parameter, so determinism for a fixed seed holds by construction.
- `simulation::time_point` is an unsigned 64-bit integer in the library. `TimePoint` is an unbounded `int`, so wrap-around is not modelled.
- `simulation::time_step` is reduced to its boundary time point.
- Dispatch failing when `process_messages` is called before the lock is not modelled, because the body of `process_messages` is not part of this model.
- `Interaction.Communicator.ProcessMessages` removes all due entries together at the end of the call. Handlers that inspect the inbox during dispatch are not modelled.
- `Interaction.Communicator.CreateMessage`: the returned handle no longer aliases the queued message. The library returns the same `shared_ptr` it pushes onto the outbox, so writing through it changes the queued message. In the model a message is a value, and the returned `m` and the copy at the end of `outbox` are independent.
- `money::name()` is not modelled: it is text formatting through an output operator on `currency` that is not part of this model.
- The `asset` and `fungible` bases of `money` are an opaque `AssetBase` value.
- The `output<...>` class behind `producer` is reduced to an object carrying its name. `esl/data/output.hpp` is not part of this model.
- `esl/simulation/entity.cpp` (a Python binding module) and `esl/economics/markets/walras/differentiable_order_message.cpp` (a constructor forwarding to an unseen base class) have no logic of their own and are not modelled.
