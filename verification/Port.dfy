/** The media port: capabilities, what an operation is asked with, and which errors
    each operation may return. */
module MediaPort {

  type RoomID = string

  type MemberID = string

  type octet = k: int | 0 <= k < 256

  const AUDIO: octet := 1
  const VIDEO: octet := 2

  datatype Source = Source(member: MemberID, kind: octet)

  /** A set of capabilities, one bit each. */
  type Capabilities = bv8

  const MAY_PUBLISH_AUDIO: Capabilities := 1
  const MAY_PUBLISH_VIDEO: Capabilities := 2
  const MAY_SUBSCRIBE: Capabilities := 4

  predicate Allows(s: Capabilities, c: Capabilities) { s & c != 0 }

  function With(s: Capabilities, c: Capabilities): Capabilities { s | c }

  /** Adding a capability adds that one and takes none away. */
  lemma WithAllows(s: Capabilities, c: Capabilities, d: Capabilities)
    ensures Allows(With(s, c), d) <==> Allows(s, d) || Allows(c, d)
    ensures With(s, c) & d != 0 <==> s & d != 0 || c & d != 0
  {
    assert (s | c) & d == (s & d) | (c & d);
  }

  predicate ValidKind(k: octet) { k == AUDIO || k == VIDEO }

  datatype Operation = CreateRoom | DestroyRoom | AdmitMember | RevokeMember | PublishSource | UnpublishSource
                     | Subscribe | Unsubscribe | SetSubscriberGain | SpeakingState | HopMetrics | DrainRoom

  datatype Failure = Unavailable | Cancelled | Internal
                   | RoomLimitReached | InvalidIdentity | NoSuchRoom | MemberAlreadyAdmitted
                   | PermissionsNotExpressible | NoSuchMember | NotPermitted | SourceAlreadyPublished
                   | NoSuchSource | GainNotSupported | NoSuchSubscription | GainOutOfRange
                   | NotObservable | DrainDeadlineExceeded

  datatype Outcome = Done | Failed(failure: Failure)

  /** The errors the port declares for an operation, beyond the common three. */
  predicate Declared(op: Operation, f: Failure) {
    match op
    case CreateRoom => f in {RoomLimitReached, InvalidIdentity}
    case DestroyRoom => f in {InvalidIdentity}
    case AdmitMember => f in {NoSuchRoom, MemberAlreadyAdmitted, PermissionsNotExpressible, InvalidIdentity}
    case RevokeMember => f in {NoSuchRoom}
    case PublishSource => f in {NoSuchRoom, NoSuchMember, NotPermitted, SourceAlreadyPublished, InvalidIdentity}
    case UnpublishSource => f in {NoSuchRoom, NoSuchMember, InvalidIdentity}
    case Subscribe => f in {NoSuchRoom, NoSuchMember, NoSuchSource, NotPermitted, InvalidIdentity}
    case Unsubscribe => f in {NoSuchRoom, NoSuchMember, InvalidIdentity}
    case SetSubscriberGain => f in {GainNotSupported, NoSuchSubscription, GainOutOfRange}
    case SpeakingState => f in {NoSuchRoom, NotObservable}
    case HopMetrics => f in {NoSuchRoom, NotObservable}
    case DrainRoom => f in {NoSuchRoom, DrainDeadlineExceeded}
  }

  predicate Common(f: Failure) { f in {Unavailable, Cancelled, Internal} }

  /** What an operation is asked for; the arguments it does not take are zero. */
  datatype Arguments = Request(op: Operation, room: RoomID, member: MemberID, source: Source,
                               gain: real, caps: Capabilities)

  /** A member publishes, and takes back, their own source. */
  predicate Formed(q: Arguments) {
    q.op == PublishSource || q.op == UnpublishSource ==> q.source.member == q.member
  }

  type Request = q: Arguments | Formed(q) witness Request(CreateRoom, "", "", NO_SOURCE, 0.0, 0)

  const NO_SOURCE := Source("", 0)

  datatype Call = Call(request: Request, outcome: Outcome)

  datatype Speaking = Speaking(member: MemberID, speaking: bool)

  datatype Hop = Hop(member: MemberID, delay: int, loss: real, observed: int)
}
