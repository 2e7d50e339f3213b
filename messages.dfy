/** The values a communicator handles: messages with their header, handlers,
    and the next-activation time a dispatch reports. */
module Messages {

  /** A point on the simulation time line (an unsigned 64-bit count in the
      library; unbounded here). */
  type TimePoint = int

  /** A hierarchical agent address: the path of small integers naming it. */
  type Identity = seq<nat>

  /** The compile-time code that identifies a concrete message type. */
  type MessageCode = nat

  /** A message: the header every message carries plus an opaque payload
      standing for the fields of its concrete type. */
  datatype Message = Message(
    sender: Identity,
    recipient: Identity,
    sent: TimePoint,
    received: TimePoint,
    code: MessageCode,
    payload: seq<int>)

  /** A registered callback, reduced to an identifier and the code of the
      message type it was registered for. */
  datatype Handler = Handler(id: nat, code: MessageCode)

  /** What the callbacks' own code does: the time point a handler returns when
      it is invoked with a message during a time step. */
  type Reaction = (Handler, Message, TimePoint) -> TimePoint

  /** The earliest time any invoked handler asked to be activated again;
      `Never` when no handler was invoked. */
  datatype Next = Never | At(t: TimePoint)

  /** The earlier of two requested activation times. */
  function Earliest(a: Next, b: Next): (r: Next)
    ensures r == a || r == b
    ensures r.Never? <==> a.Never? && b.Never?
    ensures r.At? ==> (a.At? ==> r.t <= a.t) && (b.At? ==> r.t <= b.t)
  {
    match (a, b)
    case (Never, _) => b
    case (_, Never) => a
    case (At(x), At(y)) => if x <= y then a else b
  }
}
