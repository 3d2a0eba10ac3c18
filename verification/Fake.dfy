/** The in-memory media plane: rooms, members, sources and subscriptions, the faults
    a caller can induce, and the log of what it was asked. */
module FakeMedia {
  import opened MediaPort
  import opened Decimals

  datatype Subscription = Subscription(subscriber: MemberID, source: Source)

  datatype Seat = Seat(room: RoomID, member: MemberID)

  datatype Room = Room(members: map<MemberID, Capabilities>, sources: set<Source>,
                       subscribers: set<Subscription>, speaking: set<MemberID>,
                       hops: map<MemberID, Hop>, draining: bool)

  const EMPTY_ROOM := Room(map[], {}, {}, {}, map[], false)

  function Publishing(kind: octet): Capabilities {
    if kind == VIDEO then MAY_PUBLISH_VIDEO else MAY_PUBLISH_AUDIO
  }

  function SourcesWithout(sources: set<Source>, member: MemberID): set<Source> {
    set s | s in sources && s.member != member
  }

  function SubscribersWithout(subs: set<Subscription>, member: MemberID): set<Subscription> {
    set s | s in subs && s.subscriber != member && s.source.member != member
  }

  function SubscribersOff(subs: set<Subscription>, source: Source): set<Subscription> {
    set s | s in subs && s.source != source
  }

  function Revoked(r: Room, member: MemberID): Room {
    Room(r.members - {member}, SourcesWithout(r.sources, member), SubscribersWithout(r.subscribers, member),
         r.speaking - {member}, r.hops - {member}, r.draining)
  }

  /** The credential of the n-th admission. */
  function Credential(room: RoomID, member: MemberID, n: nat): string {
    "fake-" + room + "-" + member + "-" + Decimal(n)
  }

  /** The limits, the capability answers and the faults that are set. */
  datatype Settings = Settings(limit: int, gainSupported: bool, gainLow: real, gainHigh: real, observable: bool,
                               unreachable: bool, slow: set<Seat>, failing: set<RoomID>,
                               lost: set<Source>, refused: set<Capabilities>)

  const DEFAULTS := Settings(-1, false, 0.0, 4.0, true, false, {}, {}, {}, {})

  type Rooms = map<RoomID, Room>

  /** The room and the member an operation is about, in the order they are asked for. */
  function Seated(rooms: Rooms, room: RoomID, member: MemberID): Outcome {
    if room !in rooms then Failed(NoSuchRoom)
    else if member !in rooms[room].members then Failed(NoSuchMember)
    else Done
  }

  datatype Plane = Plane(rooms: Rooms, calls: seq<Call>, minted: nat, settings: Settings) {

    function AnswerCreate(q: Request): Outcome {
      if q.room == "" then Failed(InvalidIdentity)
      else if q.room in rooms then Done
      else if q.room in settings.failing || 0 <= settings.limit <= |rooms| then Failed(RoomLimitReached)
      else Done
    }

    function AnswerAdmit(q: Request): Outcome {
      if q.room == "" || q.member == "" then Failed(InvalidIdentity)
      else if Seat(q.room, q.member) in settings.slow then Failed(Cancelled)
      else if q.room !in rooms then Failed(NoSuchRoom)
      else if q.member in rooms[q.room].members then Failed(MemberAlreadyAdmitted)
      else if exists c :: c in settings.refused && Allows(q.caps, c) then Failed(PermissionsNotExpressible)
      else if rooms[q.room].draining then Failed(NoSuchRoom)
      else Done
    }

    function AnswerPublish(q: Request): Outcome {
      if !ValidKind(q.source.kind) then Failed(InvalidIdentity)
      else if Seated(rooms, q.room, q.member) != Done then Seated(rooms, q.room, q.member)
      else if !Allows(rooms[q.room].members[q.member], Publishing(q.source.kind)) then Failed(NotPermitted)
      else if q.source in rooms[q.room].sources then Failed(SourceAlreadyPublished)
      else Done
    }

    function AnswerSubscribe(q: Request): Outcome {
      if !ValidKind(q.source.kind) then Failed(InvalidIdentity)
      else if Seated(rooms, q.room, q.member) != Done then Seated(rooms, q.room, q.member)
      else if q.source.member !in rooms[q.room].members then Failed(NoSuchMember)
      else if !Allows(rooms[q.room].members[q.member], MAY_SUBSCRIBE) then Failed(NotPermitted)
      else if q.source !in rooms[q.room].sources then Failed(NoSuchSource)
      else Done
    }

    function AnswerGain(q: Request): Outcome {
      if !settings.gainSupported then Failed(GainNotSupported)
      else if q.room !in rooms || Subscription(q.member, q.source) !in rooms[q.room].subscribers
      then Failed(NoSuchSubscription)
      else if q.gain < settings.gainLow || q.gain > settings.gainHigh then Failed(GainOutOfRange)
      else Done
    }

    function AnswerRemoval(q: Request): Outcome {
      if !ValidKind(q.source.kind) then Failed(InvalidIdentity) else Seated(rooms, q.room, q.member)
    }

    function AnswerObserving(q: Request): Outcome {
      if q.room !in rooms then Failed(NoSuchRoom) else if !settings.observable then Failed(NotObservable) else Done
    }

    /** What an operation returns. */
    function Answer(q: Request, cancelled: bool): Outcome {
      if cancelled then Failed(Cancelled)
      else if settings.unreachable then Failed(Unavailable)
      else
        match q.op
        case CreateRoom => AnswerCreate(q)
        case DestroyRoom => if q.room == "" then Failed(InvalidIdentity) else Done
        case AdmitMember => AnswerAdmit(q)
        case RevokeMember => if q.room !in rooms then Failed(NoSuchRoom) else Done
        case PublishSource => AnswerPublish(q)
        case UnpublishSource => AnswerRemoval(q)
        case Subscribe => AnswerSubscribe(q)
        case Unsubscribe => AnswerRemoval(q)
        case SetSubscriberGain => AnswerGain(q)
        case SpeakingState => AnswerObserving(q)
        case HopMetrics => AnswerObserving(q)
        case DrainRoom =>
          if q.room !in rooms then Failed(NoSuchRoom)
          else if |rooms[q.room].members| > 0 then Failed(DrainDeadlineExceeded)
          else Done
    }

    /** One operation, asked and recorded. */
    function Step(q: Request, cancelled: bool): Plane {
      var o := Answer(q, cancelled);
      Plane(if Works(o) then Worked(rooms, q, q.source !in settings.lost) else rooms,
           calls + [Call(q, o)],
           if q.op == AdmitMember && o == Done then minted + 1 else minted,
           settings)
    }

    function Set(s: Setting): Plane {
      match s
      case RoomLimit(n) => this.(settings := settings.(limit := n))
      case GainSupported(ok) => this.(settings := settings.(gainSupported := ok))
      case GainRange(low, high) => this.(settings := settings.(gainLow := low, gainHigh := high))
      case Observable(ok) => this.(settings := settings.(observable := ok))
      case SpeakingIs(id, member, speaking) =>
        if id !in rooms then this
        else this.(rooms := rooms[id := rooms[id].(speaking := Put(rooms[id].speaking, member, speaking))])
      case HopIs(id, hop, now) =>
        if id !in rooms then this
        else this.(rooms := rooms[id := rooms[id].(hops := rooms[id].hops[hop.member := hop.(observed := now)])])
      case Reachability(unreachable) => this.(settings := settings.(unreachable := unreachable))
      case RoomCreation(id, fail) => this.(settings := settings.(failing := Put(settings.failing, id, fail)))
      case AdmissionTime(seat, timeOut) => this.(settings := settings.(slow := Put(settings.slow, seat, timeOut)))
      case SourceDelivery(source, never) => this.(settings := settings.(lost := Put(settings.lost, source, never)))
      case DropSubscription(id, sub) =>
        if id !in rooms then this
        else this.(rooms := rooms[id := rooms[id].(subscribers := rooms[id].subscribers - {sub})])
      case RefuseCapability(c, refuse) => this.(settings := settings.(refused := Put(settings.refused, c, refuse)))
    }

    function After(e: Event): Plane {
      match e
      case Asked(q, cancelled) => Step(q, cancelled)
      case Arranged(s) => Set(s)
    }
  }

  const NEW_PLANE := Plane(map[], [], 0, DEFAULTS)

  datatype Setting = RoomLimit(n: int) | GainSupported(ok: bool) | GainRange(low: real, high: real)
                   | Observable(ok: bool)
                   | SpeakingIs(id: RoomID, member: MemberID, speaking: bool) | HopIs(id: RoomID, hop: Hop, now: int)
                   | Reachability(unreachable: bool) | RoomCreation(id: RoomID, fail: bool)
                   | AdmissionTime(seat: Seat, timeOut: bool) | SourceDelivery(source: Source, never: bool)
                   | DropSubscription(id: RoomID, sub: Subscription) | RefuseCapability(c: Capabilities, refuse: bool)

  datatype Event = Asked(request: Request, cancelled: bool) | Arranged(setting: Setting)

  function Put<T>(s: set<T>, x: T, on: bool): set<T> { if on then s + {x} else s - {x} }

  /** A drain whose deadline passed has still begun. */
  predicate Works(o: Outcome) { o == Done || o == Failed(DrainDeadlineExceeded) }

  /** The rooms after an operation that worked. */
  function Worked(rooms: Rooms, q: Request, arrives: bool): Rooms {
    if q.op == CreateRoom then (if q.room in rooms then rooms else rooms[q.room := EMPTY_ROOM])
    else if q.op == DestroyRoom then rooms - {q.room}
    else if q.room !in rooms then rooms
    else rooms[q.room := Changed(rooms[q.room], q, arrives)]
  }

  function Changed(r: Room, q: Request, arrives: bool): Room {
    match q.op
    case AdmitMember => r.(members := r.members[q.member := q.caps])
    case RevokeMember => Revoked(r, q.member)
    case PublishSource => if arrives then r.(sources := r.sources + {q.source}) else r
    case UnpublishSource =>
      r.(sources := r.sources - {q.source}, subscribers := SubscribersOff(r.subscribers, q.source))
    case Subscribe => r.(subscribers := r.subscribers + {Subscription(q.member, q.source)})
    case Unsubscribe => r.(subscribers := r.subscribers - {Subscription(q.member, q.source)})
    case DrainRoom => r.(draining := true)
    case _ => r
  }

  function Run(f: Plane, es: seq<Event>): Plane
    decreases |es|
  {
    if |es| == 0 then f else Run(f.After(es[0]), es[1..])
  }

  // What holds of every room, always.

  /** Every source's owner is admitted with the capability for its kind; every
      subscriber is admitted and may subscribe, and what they receive is published;
      every hop is filed under its member. */
  ghost predicate SoundRoom(r: Room) {
    (forall s :: s in r.sources ==>
      ValidKind(s.kind) && s.member in r.members && Allows(r.members[s.member], Publishing(s.kind)))
    && (forall s :: s in r.subscribers ==>
      s.subscriber in r.members && Allows(r.members[s.subscriber], MAY_SUBSCRIBE) && s.source in r.sources)
    && (forall m :: m in r.hops ==> r.hops[m].member == m)
  }

  ghost predicate Sound(rooms: Rooms) { forall id :: id in rooms ==> SoundRoom(rooms[id]) }

  lemma AdmittedSound(r: Room, m: MemberID, caps: Capabilities)
    requires SoundRoom(r) && m !in r.members
    ensures SoundRoom(r.(members := r.members[m := caps]))
  {
    hide Allows, Publishing;
  }

  lemma RevokedSound(r: Room, m: MemberID)
    requires SoundRoom(r)
    ensures SoundRoom(Revoked(r, m))
  {
    hide Allows, Publishing;
  }

  lemma PublishedSound(r: Room, s: Source)
    requires SoundRoom(r) && ValidKind(s.kind)
    requires s.member in r.members && Allows(r.members[s.member], Publishing(s.kind))
    ensures SoundRoom(r.(sources := r.sources + {s}))
  {
    hide Allows, Publishing;
  }

  lemma UnpublishedSound(r: Room, s: Source)
    requires SoundRoom(r)
    ensures SoundRoom(r.(sources := r.sources - {s}, subscribers := SubscribersOff(r.subscribers, s)))
  {
    hide Allows, Publishing;
  }

  lemma SubscribersSound(r: Room, subs: set<Subscription>)
    requires SoundRoom(r)
    requires forall s :: s in subs && s !in r.subscribers ==>
      s.subscriber in r.members && Allows(r.members[s.subscriber], MAY_SUBSCRIBE) && s.source in r.sources
    ensures SoundRoom(r.(subscribers := subs))
  {
    hide Allows, Publishing;
  }

  lemma ChangeKeepsSound(f: Plane, q: Request, arrives: bool)
    requires q.room in f.rooms && Works(f.Answer(q, false)) && SoundRoom(f.rooms[q.room])
    requires q.op != CreateRoom && q.op != DestroyRoom
    ensures SoundRoom(Changed(f.rooms[q.room], q, arrives))
  {
    var r := f.rooms[q.room];
    assert SoundRoom(r.(draining := true));
    hide SoundRoom, Allows, Publishing, Revoked, SubscribersOff;
    match q.op
    case AdmitMember => AdmittedSound(r, q.member, q.caps);
    case RevokeMember => RevokedSound(r, q.member);
    case PublishSource => PublishedSound(r, q.source);
    case UnpublishSource => UnpublishedSound(r, q.source);
    case Subscribe => SubscribersSound(r, r.subscribers + {Subscription(q.member, q.source)});
    case Unsubscribe => SubscribersSound(r, r.subscribers - {Subscription(q.member, q.source)});
    case _ =>
  }

  lemma SettingKeepsSound(f: Plane, s: Setting)
    requires Sound(f.rooms)
    ensures Sound(f.Set(s).rooms)
  {
    hide Allows;
  }

  /** Each operation, whatever it answers, and each setting keeps every room sound. */
  lemma StepKeepsSound(f: Plane, e: Event)
    requires Sound(f.rooms)
    ensures Sound(f.After(e).rooms)
  {
    assert SoundRoom(EMPTY_ROOM);
    hide SoundRoom, Changed;
    if e.Asked? {
      hide Plane.Set;
      var q := e.request;
      if Works(f.Answer(q, e.cancelled)) && q.room in f.rooms && q.op != CreateRoom && q.op != DestroyRoom {
        ChangeKeepsSound(f, q, q.source !in f.settings.lost);
      }
      hide Plane.Answer;
    } else {
      hide Plane.Set;
      SettingKeepsSound(f, e.setting);
    }
  }

  /** The integrity of every reachable state, whatever was asked, failed or broken. */
  lemma {:induction false} RunsAreSound(f: Plane, es: seq<Event>)
    requires Sound(f.rooms)
    ensures Sound(Run(f, es).rooms)
    decreases |es|
  {
    hide Sound, Plane.After;
    if |es| > 0 {
      StepKeepsSound(f, es[0]);
      RunsAreSound(f.After(es[0]), es[1..]);
    }
  }

  function AboutMember(op: Operation, room: RoomID, member: MemberID, caps: Capabilities): Arguments {
    Request(op, room, member, NO_SOURCE, 0.0, caps)
  }

  function AboutSource(op: Operation, room: RoomID, s: Source): Request { Request(op, room, s.member, s, 0.0, 0) }

  /** A room without what was observed of a member. */
  function Unobserved(r: Room, member: MemberID): Room {
    r.(speaking := r.speaking - {member}, hops := r.hops - {member})
  }

  /** Nothing survives a revocation: from a sound state, admitting a member and then
      revoking them leaves every room as it was, but for what was observed of them. */
  lemma RevokeUndoesAdmit(f: Plane, room: RoomID, member: MemberID, caps: Capabilities)
    requires Sound(f.rooms)
    ensures var admit := AboutMember(AdmitMember, room, member, caps);
      var revoke := AboutMember(RevokeMember, room, member, 0);
      f.Answer(admit, false) == Done ==>
        f.Step(admit, false).Answer(revoke, false) == Done
        && f.Step(admit, false).Step(revoke, false).rooms
           == f.rooms[room := Unobserved(f.rooms[room], member)]
  {
    hide Allows;
    var admit := AboutMember(AdmitMember, room, member, caps);
    if f.Answer(admit, false) == Done {
      var r := f.rooms[room];
      assert SoundRoom(r);
      var t := Revoked(r.(members := r.members[member := caps]), member);
      assert t.members == r.members;
      assert t.sources == r.sources;
      assert t.subscribers == r.subscribers;
    }
  }

  /** The room names the member in no source and in no subscription. */
  ghost predicate Nameless(r: Room, member: MemberID) {
    (forall s :: s in r.sources ==> s.member != member)
    && (forall s :: s in r.subscribers ==> s.subscriber != member && s.source.member != member)
  }

  lemma NotAdmittedIsNameless(r: Room, member: MemberID)
    requires SoundRoom(r) && member !in r.members
    ensures Nameless(r, member)
  {
    hide Allows, Publishing;
  }

  /** Nothing survives a revocation and a re-admission, whatever the capabilities before
      and after, and whatever happened in between. */
  lemma ReadmittedIsNameless(f: Plane, revoke: Request, es: seq<Event>, admit: Request)
    requires Sound(f.rooms) && revoke.op == RevokeMember && admit.op == AdmitMember
    requires revoke.room == admit.room && revoke.member == admit.member
    requires f.Answer(revoke, false) == Done
    requires var g := Run(f.Step(revoke, false), es); g.Answer(admit, false) == Done
    ensures var rooms := f.Step(revoke, false).rooms;
      revoke.room in rooms && Nameless(rooms[revoke.room], revoke.member)
    ensures var rooms := Run(f.Step(revoke, false), es).Step(admit, false).rooms;
      admit.room in rooms && Nameless(rooms[admit.room], admit.member)
      && admit.member in rooms[admit.room].members && rooms[admit.room].members[admit.member] == admit.caps
  {
    hide *;
    var g := f.Step(revoke, false);
    var h := Run(g, es);
    RevokeLeaves(f, revoke);
    StepKeepsSound(f, Asked(revoke, false));
    AfterAsked(f, revoke);
    RunsAreSound(g, es);
    AdmitAdds(h, admit);
    SoundAt(g.rooms, revoke.room);
    SoundAt(h.rooms, admit.room);
    NotAdmittedIsNameless(g.rooms[revoke.room], revoke.member);
    NotAdmittedIsNameless(h.rooms[admit.room], admit.member);
    SameNames(h.rooms[admit.room], h.Step(admit, false).rooms[admit.room], admit.member);
  }

  lemma AfterAsked(f: Plane, q: Request)
    ensures f.After(Asked(q, false)) == f.Step(q, false)
  {
    hide Plane.Step;
  }

  lemma SoundAt(rooms: Rooms, id: RoomID)
    requires Sound(rooms) && id in rooms
    ensures SoundRoom(rooms[id])
  {
    hide SoundRoom;
  }

  lemma SameNames(r: Room, t: Room, member: MemberID)
    requires Nameless(r, member) && t.sources == r.sources && t.subscribers == r.subscribers
    ensures Nameless(t, member)
  {}

  lemma RevokeLeaves(f: Plane, q: Request)
    requires q.op == RevokeMember && f.Answer(q, false) == Done
    ensures var g := f.Step(q, false); q.room in g.rooms && q.member !in g.rooms[q.room].members
  {}

  lemma AdmitAdds(f: Plane, q: Request)
    requires q.op == AdmitMember && f.Answer(q, false) == Done
    ensures q.room in f.rooms && q.member !in f.rooms[q.room].members
    ensures var g := f.Step(q, false);
      q.room in g.rooms && g.rooms[q.room].sources == f.rooms[q.room].sources
      && g.rooms[q.room].subscribers == f.rooms[q.room].subscribers
      && q.member in g.rooms[q.room].members && g.rooms[q.room].members[q.member] == q.caps
  {
    hide Allows;
  }

  /** Taking a source back undoes its publication. */
  lemma UnpublishUndoesPublish(f: Plane, room: RoomID, member: MemberID, kind: octet)
    requires Sound(f.rooms)
    ensures var s := Source(member, kind);
      var publish, unpublish := AboutSource(PublishSource, room, s), AboutSource(UnpublishSource, room, s);
      f.Answer(publish, false) == Done ==>
        f.Step(publish, false).Answer(unpublish, false) == Done
        && f.Step(publish, false).Step(unpublish, false).rooms == f.rooms
  {
    hide Allows;
    var s := Source(member, kind);
    var publish := AboutSource(PublishSource, room, s);
    if f.Answer(publish, false) == Done {
      var r := f.rooms[room];
      assert SoundRoom(r);
      assert r.sources + {s} - {s} == r.sources == r.sources - {s};
      assert SubscribersOff(r.subscribers, s) == r.subscribers;
    }
  }

  lemma ChangedTwice(r: Room, q: Request)
    requires q.op in {RevokeMember, UnpublishSource, Unsubscribe}
    ensures var t := Changed(r, q, true);
      Changed(t, q, true) == t == Changed(r, q, false) && (q.op != RevokeMember ==> t.members == r.members)
  {
    if q.op == RevokeMember {
      assert Revoked(Revoked(r, q.member), q.member) == Revoked(r, q.member);
    } else {
      var left := SubscribersOff(r.subscribers, q.source);
      assert SubscribersOff(left, q.source) == left;
    }
  }

  lemma RoomsTwice(f: Plane, q: Request)
    requires q.op in {CreateRoom, DestroyRoom} && f.Answer(q, false) == Done
    ensures f.Step(q, false).Answer(q, false) == Done && f.Step(q, false).Step(q, false).rooms == f.Step(q, false).rooms
  {
    assert f.rooms - {q.room} - {q.room} == f.rooms - {q.room};
  }

  /** Five operations may be repeated: the second answers as the first and changes
      nothing. */
  lemma Idempotent(f: Plane, q: Request)
    requires q.op in {CreateRoom, DestroyRoom, RevokeMember, UnpublishSource, Unsubscribe}
    requires f.Answer(q, false) == Done
    ensures f.Step(q, false).Answer(q, false) == Done && f.Step(q, false).Step(q, false).rooms == f.Step(q, false).rooms
  {
    hide Plane.AnswerCreate, Plane.AnswerAdmit, Plane.AnswerPublish, Plane.AnswerSubscribe;
    hide Plane.AnswerGain, Plane.AnswerObserving;
    if q.op == CreateRoom || q.op == DestroyRoom {
      RoomsTwice(f, q);
    } else {
      ChangedTwice(f.rooms[q.room], q);
      hide Changed, Revoked, SubscribersOff;
      var t := Changed(f.rooms[q.room], q, true);
      assert f.rooms[q.room := t][q.room := t] == f.rooms[q.room := t];
    }
  }

  /** Two may not: the second is told the first happened, except that a source that
      never arrived may be published again. */
  lemma NotIdempotent(f: Plane, q: Request)
    requires f.Answer(q, false) == Done
    ensures q.op == AdmitMember ==> f.Step(q, false).Answer(q, false) == Failed(MemberAlreadyAdmitted)
    ensures q.op == PublishSource ==>
      f.Step(q, false).Answer(q, false) == if q.source in f.settings.lost then Done else Failed(SourceAlreadyPublished)
  {
    hide Allows;
  }

  // The log.

  /** What was asked, in order. */
  function Questions(es: seq<Event>): seq<Arguments> {
    if |es| == 0 then [] else (if es[0].Asked? then [es[0].request] else []) + Questions(es[1..])
  }

  function Requests(calls: seq<Call>): seq<Arguments> {
    if |calls| == 0 then [] else [calls[0].request] + Requests(calls[1..])
  }

  /** The declared errors and the common ones; never the internal one, which this
      media plane has no use for. */
  predicate MayReturn(op: Operation, f: Failure) { (Declared(op, f) || Common(f)) && f != Internal }

  predicate InContract(c: Call) {
    c.outcome.Failed? ==> MayReturn(c.request.op, c.outcome.failure)
  }

  /** What an operation may return, and what it leaves where it fails: only a drain
      whose deadline passed changes anything, and that is the draining mark. */
  lemma PortContract(f: Plane, q: Request, cancelled: bool)
    ensures var o, g := f.Answer(q, cancelled), f.Step(q, cancelled);
      InContract(Call(q, o)) && g.calls == f.calls + [Call(q, o)]
      && (f.settings.unreachable ==> o.Failed? && Common(o.failure) && g.rooms == f.rooms)
      && (o.Failed? && o.failure != DrainDeadlineExceeded ==> g.rooms == f.rooms && g.minted == f.minted)
      && (o == Failed(DrainDeadlineExceeded) ==>
            q.op == DrainRoom && q.room in f.rooms && g.rooms == f.rooms[q.room := f.rooms[q.room].(draining := true)])
  {}

  lemma {:induction false} RequestsConcat(a: seq<Call>, b: seq<Call>)
    ensures Requests(a + b) == Requests(a) + Requests(b)
  {
    if |a| == 0 {
      assert a + b == b;
    } else {
      assert (a + b)[1..] == a[1..] + b;
      RequestsConcat(a[1..], b);
    }
  }

  /** Over every run the log is complete, in order, and within the port's contract. */
  lemma {:induction false} LogIsTheRun(f: Plane, es: seq<Event>)
    ensures f.calls <= Run(f, es).calls
    ensures Requests(Run(f, es).calls) == Requests(f.calls) + Questions(es)
    ensures forall c :: c in Run(f, es).calls && c !in f.calls ==> InContract(c)
    decreases |es|
  {
    hide Plane.Answer, Worked, InContract, Plane.Set;
    if |es| > 0 {
      var e, g := es[0], f.After(es[0]);
      LogIsTheRun(g, es[1..]);
      if e.Asked? {
        var c := Call(e.request, f.Answer(e.request, e.cancelled));
        PortContract(f, e.request, e.cancelled);
        RequestsConcat(f.calls, [c]);
        assert Requests([c]) == [c.request];
      } else {
        SettingsAreSilent(f, e.setting);
      }
    }
  }

  lemma {:induction false} RunSnoc(f: Plane, es: seq<Event>, e: Event)
    ensures Run(f, es + [e]) == Run(f, es).After(e)
    decreases |es|
  {
    hide Plane.After;
    if |es| > 0 {
      assert (es + [e])[1..] == es[1..] + [e];
      RunSnoc(f.After(es[0]), es[1..], e);
    } else {
      assert ([] + [e])[1..] == [];
    }
  }

  function Ask(op: Operation, caps: Capabilities): Request {
    Request(op, "r", "m", Source("m", AUDIO), 5.0, caps)
  }

  const EVERYTHING: Capabilities := 7

  function Lone(caps: Capabilities): Room { EMPTY_ROOM.(members := map["m" := caps]) }

  function Heard(caps: Capabilities): Room {
    Lone(caps).(sources := {Source("m", AUDIO)}, subscribers := {Subscription("m", Source("m", AUDIO))})
  }

  lemma ThenAsked(es: seq<Event>, op: Operation, caps: Capabilities)
    ensures Run(NEW_PLANE, es + [Asked(Ask(op, caps), false)]) == Run(NEW_PLANE, es).Step(Ask(op, caps), false)
  {
    RunSnoc(NEW_PLANE, es, Asked(Ask(op, caps), false));
  }

  lemma Created() returns (es: seq<Event>)
    ensures Run(NEW_PLANE, es).rooms == map["r" := EMPTY_ROOM] && Run(NEW_PLANE, es).settings == DEFAULTS
  {
    es := [] + [Asked(Ask(CreateRoom, 0), false)];
    ThenAsked([], CreateRoom, 0);
  }

  lemma Admitted(caps: Capabilities) returns (es: seq<Event>)
    ensures Run(NEW_PLANE, es).rooms == map["r" := Lone(caps)] && Run(NEW_PLANE, es).settings == DEFAULTS
  {
    var before := Created();
    es := before + [Asked(Ask(AdmitMember, caps), false)];
    ThenAsked(before, AdmitMember, caps);
    hide Run, Allows;
  }

  lemma Listening() returns (es: seq<Event>)
    ensures Run(NEW_PLANE, es).rooms == map["r" := Heard(EVERYTHING)] && Run(NEW_PLANE, es).settings == DEFAULTS
  {
    var before := Admitted(EVERYTHING);
    var published := before + [Asked(Ask(PublishSource, 0), false)];
    es := published + [Asked(Ask(Subscribe, 0), false)];
    ThenAsked(before, PublishSource, 0);
    ThenAsked(published, Subscribe, 0);
    assert Allows(EVERYTHING, MAY_PUBLISH_AUDIO) && Allows(EVERYTHING, MAY_SUBSCRIBE);
    hide Run, Allows;
    assert Run(NEW_PLANE, published).rooms == map["r" := Lone(EVERYTHING).(sources := {Source("m", AUDIO)})];
  }

  /** The error is due in f once the setting is made. */
  predicate Due(f: Plane, s: Setting, q: Request, cancelled: bool, op: Operation, failure: Failure) {
    q.op == op && f.Set(s).Answer(q, cancelled) == Failed(failure)
  }

  lemma DueAtOnce(op: Operation, failure: Failure) returns (s: Setting, q: Request, cancelled: bool)
    requires MayReturn(op, failure) && Common(failure)
    ensures Due(NEW_PLANE, s, q, cancelled, op, failure)
  {
    hide Plane.AnswerCreate, Plane.AnswerAdmit, Plane.AnswerPublish, Plane.AnswerSubscribe;
    hide Plane.AnswerGain, Plane.AnswerRemoval, Plane.AnswerObserving;
    s, q, cancelled := Reachability(failure == Unavailable), Ask(op, 0), failure == Cancelled;
  }

  lemma DueAtStart(op: Operation, failure: Failure) returns (s: Setting, q: Request)
    requires Declared(op, failure)
    requires failure in {RoomLimitReached, InvalidIdentity, NoSuchSubscription, GainNotSupported}
    ensures Due(NEW_PLANE, s, q, false, op, failure)
  {
    hide Allows, Seated, Plane.AnswerObserving;
    s := if failure == RoomLimitReached then RoomLimit(0) else GainSupported(failure == NoSuchSubscription);
    q := if failure == InvalidIdentity then Request(op, "", "m", Source("m", 0), 0.0, 0) else Ask(op, 0);
  }

  lemma NoRoomAtStart(op: Operation)
    requires Declared(op, NoSuchRoom)
    ensures Due(NEW_PLANE, Observable(true), Ask(op, 0), false, op, NoSuchRoom)
  {
    hide Allows, Plane.AnswerCreate, Plane.AnswerGain;
  }

  lemma DueWhenCreated(f: Plane, op: Operation, failure: Failure) returns (s: Setting, q: Request)
    requires f.rooms == map["r" := EMPTY_ROOM] && f.settings == DEFAULTS
    requires Declared(op, failure) && failure in {NoSuchMember, NotObservable}
    ensures Due(f, s, q, false, op, failure)
  {
    hide Allows, Plane.AnswerCreate, Plane.AnswerAdmit, Plane.AnswerGain;
    s, q := Observable(failure != NotObservable), Ask(op, EVERYTHING);
  }

  lemma InexpressibleWhenCreated(f: Plane)
    requires f.rooms == map["r" := EMPTY_ROOM] && f.settings == DEFAULTS
    ensures var s, q := RefuseCapability(EVERYTHING, true), Ask(AdmitMember, EVERYTHING);
      Due(f, s, q, false, AdmitMember, PermissionsNotExpressible)
  {
    assert Allows(EVERYTHING, EVERYTHING);
    hide Allows;
    assert EVERYTHING in f.Set(RefuseCapability(EVERYTHING, true)).settings.refused;
  }

  lemma DueWhenAdmitted(f: Plane, op: Operation, failure: Failure)
    requires f.rooms == map["r" := Lone(if failure == NotPermitted then 0 else EVERYTHING)] && f.settings == DEFAULTS
    requires Declared(op, failure)
    requires failure in {NotPermitted, MemberAlreadyAdmitted, NoSuchSource, DrainDeadlineExceeded}
    ensures Due(f, Observable(true), Ask(op, 0), false, op, failure)
  {
    assert !Allows(0, MAY_PUBLISH_AUDIO) && !Allows(0, MAY_SUBSCRIBE) && Allows(EVERYTHING, MAY_SUBSCRIBE);
    hide Allows;
  }

  lemma DueWhenListening(f: Plane, op: Operation, failure: Failure)
    requires f.rooms == map["r" := Heard(EVERYTHING)] && f.settings == DEFAULTS
    requires Declared(op, failure) && failure in {SourceAlreadyPublished, GainOutOfRange}
    ensures Due(f, GainSupported(true), Ask(op, 0), false, op, failure)
  {
    assert Allows(EVERYTHING, MAY_PUBLISH_AUDIO);
    hide Allows;
  }

  /** Together with the contract: the errors an operation returns in some reachable
      state are exactly those declared and the common ones but the internal. */
  lemma EveryErrorOccurs(op: Operation, failure: Failure) returns (es: seq<Event>, q: Request, cancelled: bool)
    requires MayReturn(op, failure)
    ensures q.op == op && Run(NEW_PLANE, es).Answer(q, cancelled) == Failed(failure)
  {
    assert Run(NEW_PLANE, []) == NEW_PLANE;
    hide Run, Allows, Plane.Answer, Plane.Set;
    var setting := Observable(true);
    q, cancelled, es := Ask(op, 0), false, [];
    if Common(failure) {
      setting, q, cancelled := DueAtOnce(op, failure);
    } else if failure == NoSuchRoom {
      NoRoomAtStart(op);
    } else if failure in {NoSuchMember, NotObservable} {
      es := Created();
      setting, q := DueWhenCreated(Run(NEW_PLANE, es), op, failure);
    } else if failure == PermissionsNotExpressible {
      es := Created();
      setting, q := RefuseCapability(EVERYTHING, true), Ask(AdmitMember, EVERYTHING);
      InexpressibleWhenCreated(Run(NEW_PLANE, es));
    } else if failure in {NotPermitted, MemberAlreadyAdmitted, NoSuchSource, DrainDeadlineExceeded} {
      es := Admitted(if failure == NotPermitted then 0 else EVERYTHING);
      DueWhenAdmitted(Run(NEW_PLANE, es), op, failure);
    } else if failure in {SourceAlreadyPublished, GainOutOfRange} {
      es := Listening();
      setting := GainSupported(true);
      DueWhenListening(Run(NEW_PLANE, es), op, failure);
    } else {
      setting, q := DueAtStart(op, failure);
    }
    RunSnoc(NEW_PLANE, es, Arranged(setting));
    es := es + [Arranged(setting)];
  }

  // Draining.

  predicate Destroys(e: Event, room: RoomID) { e.Asked? && e.request.op == DestroyRoom && e.request.room == room }

  /** A draining room admits nobody and loses only, until it is destroyed. */
  lemma DrainingStep(f: Plane, e: Event, room: RoomID)
    requires room in f.rooms && f.rooms[room].draining && !Destroys(e, room)
    ensures var g := f.After(e);
      room in g.rooms && g.rooms[room].draining && g.rooms[room].members.Keys <= f.rooms[room].members.Keys
      && (forall m :: m in g.rooms[room].members ==> g.rooms[room].members[m] == f.rooms[room].members[m])
    ensures e.Asked? && e.request.op == AdmitMember && e.request.room == room ==>
      f.Answer(e.request, e.cancelled) != Done
  {
    hide Allows;
  }

  lemma {:induction false} DrainingOnlyShrinks(f: Plane, es: seq<Event>, room: RoomID)
    requires room in f.rooms && f.rooms[room].draining
    requires forall e :: e in es ==> !Destroys(e, room)
    ensures var g := Run(f, es);
      room in g.rooms && g.rooms[room].draining && g.rooms[room].members.Keys <= f.rooms[room].members.Keys
    ensures forall m :: m in Run(f, es).rooms[room].members ==>
      Run(f, es).rooms[room].members[m] == f.rooms[room].members[m]
    decreases |es|
  {
    hide Plane.After, Destroys;
    if |es| > 0 {
      assert es[0] in es && forall e :: e in es[1..] ==> e in es;
      DrainingStep(f, es[0], room);
      DrainingOnlyShrinks(f.After(es[0]), es[1..], room);
    }
  }

  // Credentials.

  /** The credentials handed out in a run, in order. */
  function Minted(f: Plane, es: seq<Event>): seq<string>
    decreases |es|
  {
    if |es| == 0 then []
    else
      var e := es[0];
      (if e.Asked? && e.request.op == AdmitMember && f.Answer(e.request, e.cancelled) == Done
       then [Credential(e.request.room, e.request.member, f.minted + 1)] else [])
      + Minted(f.After(e), es[1..])
  }

  /** What follows the last hyphen. */
  function LastPart(s: string): string {
    if '-' !in s then s else LastPart(s[1..])
  }

  lemma {:induction false} LastPartIs(a: string, b: string)
    requires '-' !in b
    ensures LastPart(a + "-" + b) == b
    decreases |a|
  {
    var s := a + "-" + b;
    assert s[|a|] == '-';
    if |a| == 0 {
      assert s[1..] == b;
    } else {
      assert s[1..] == a[1..] + "-" + b;
      LastPartIs(a[1..], b);
    }
  }

  /** The number of an admission can be read off its credential, whatever hyphens the
      identities hold. */
  lemma CredentialNumber(room: RoomID, member: MemberID, n: nat)
    ensures LastPart(Credential(room, member, n)) == Decimal(n) && Value(Decimal(n)) == n
  {
    DecimalValue(n);
    assert '-' !in Decimal(n) by { assert !IsDigit('-'); }
    LastPartIs("fake-" + room + "-" + member, Decimal(n));
  }

  function Number(credential: string): nat {
    var s := LastPart(credential);
    if forall c :: c in s ==> IsDigit(c) then Value(s) else 0
  }

  /** Every credential carries its own number, in increasing order, so no two of a run
      are the same. */
  lemma {:induction false} CredentialsDistinct(f: Plane, es: seq<Event>)
    ensures forall c :: c in Minted(f, es) ==> f.minted < Number(c)
    ensures forall i, j :: 0 <= i < j < |Minted(f, es)| ==> Minted(f, es)[i] != Minted(f, es)[j]
    decreases |es|
  {
    hide Plane.Answer, Plane.Set, Worked, LastPart, Number, Credential;
    if |es| > 0 {
      var e, g := es[0], f.After(es[0]);
      if e.Arranged? { SettingsAreSilent(f, e.setting); }
      CredentialsDistinct(g, es[1..]);
      if e.Asked? && e.request.op == AdmitMember && f.Answer(e.request, e.cancelled) == Done {
        NumberIs(e.request.room, e.request.member, f.minted + 1);
        assert g.minted == f.minted + 1;
        var c, rest := Credential(e.request.room, e.request.member, f.minted + 1), Minted(g, es[1..]);
        assert Minted(f, es) == [c] + rest;
        assert c !in rest;
      } else {
        assert g.minted == f.minted;
        assert Minted(f, es) == Minted(g, es[1..]);
      }
    }
  }

  lemma NumberIs(room: RoomID, member: MemberID, n: nat)
    ensures Number(Credential(room, member, n)) == n
  {
    CredentialNumber(room, member, n);
  }

  /** The number is needed: the rest of a credential does not tell two seats apart. */
  lemma SeatsCollide()
    ensures Credential("a-b", "c", 1) == Credential("a", "b-c", 1)
  {}

  // The log explains the state.

  function Replay(calls: seq<Call>): Rooms {
    if |calls| == 0 then map[]
    else
      var rooms, c := Replay(calls[..|calls| - 1]), calls[|calls| - 1];
      if Works(c.outcome) then Worked(rooms, c.request, true) else rooms
  }

  ghost predicate RoomExplained(r: Room, t: Room, exactly: bool) {
    r.members == t.members && r.draining == t.draining
    && r.sources <= t.sources && r.subscribers <= t.subscribers
    && (exactly ==> r.sources == t.sources && r.subscribers == t.subscribers)
  }

  ghost predicate Explained(rooms: Rooms, replayed: Rooms, exactly: bool) {
    rooms.Keys == replayed.Keys && forall id :: id in rooms ==> RoomExplained(rooms[id], replayed[id], exactly)
  }

  /** The setting loses something the log says happened. */
  predicate Loses(s: Setting) { s.DropSubscription? || (s.SourceDelivery? && s.never) }

  lemma ChangedExplained(r: Room, t: Room, q: Request, arrives: bool, exactly: bool)
    requires RoomExplained(r, t, exactly) && (exactly ==> arrives)
    ensures RoomExplained(Changed(r, q, arrives), Changed(t, q, true), exactly)
  {}

  lemma WorkExplained(rooms: Rooms, replayed: Rooms, q: Request, arrives: bool, exactly: bool)
    requires Explained(rooms, replayed, exactly) && (exactly ==> arrives)
    ensures Explained(Worked(rooms, q, arrives), Worked(replayed, q, true), exactly)
  {
    EmptyExplained(exactly);
    hide Changed, RoomExplained;
    if q.room in rooms { ChangedExplained(rooms[q.room], replayed[q.room], q, arrives, exactly); }
  }

  lemma SettingExplained(f: Plane, s: Setting, replayed: Rooms, exactly: bool)
    requires Explained(f.rooms, replayed, exactly)
    requires exactly ==> f.settings.lost == {} && !Loses(s)
    ensures Explained(f.Set(s).rooms, replayed, exactly) && (exactly ==> f.Set(s).settings.lost == {})
  {}

  lemma StepExplained(f: Plane, e: Event, replayed: Rooms, exactly: bool)
    requires Explained(f.rooms, replayed, exactly)
    requires exactly ==> f.settings.lost == {} && (e.Arranged? ==> !Loses(e.setting))
    ensures var g := f.After(e);
      var works := e.Asked? && Works(f.Answer(e.request, e.cancelled));
      Explained(g.rooms, if works then Worked(replayed, e.request, true) else replayed, exactly)
      && (exactly ==> g.settings.lost == {})
  {
    hide Plane.Answer, Plane.Set, Worked, Explained;
    if e.Asked? {
      WorkExplained(f.rooms, replayed, e.request, e.request.source !in f.settings.lost, exactly);
    } else {
      SettingExplained(f, e.setting, replayed, exactly);
    }
  }

  lemma EmptyExplained(exactly: bool)
    ensures RoomExplained(EMPTY_ROOM, EMPTY_ROOM, exactly)
  {}

  /** Whatever happened, replaying the log gives every room's members and draining mark,
      and no source or subscription is there that the log does not explain; where no
      setting lost anything, it gives those exactly too. */
  lemma {:induction false} LogExplains(f: Plane, es: seq<Event>, exactly: bool)
    requires Explained(f.rooms, Replay(f.calls), exactly)
    requires exactly ==> f.settings.lost == {} && forall e :: e in es && e.Arranged? ==> !Loses(e.setting)
    ensures Explained(Run(f, es).rooms, Replay(Run(f, es).calls), exactly)
    decreases |es|
  {
    hide Plane.Answer, Plane.Set, Worked, Explained;
    if |es| > 0 {
      var e, g := es[0], f.After(es[0]);
      assert e in es && forall x :: x in es[1..] ==> x in es;
      StepExplained(f, e, Replay(f.calls), exactly);
      if e.Asked? {
        assert g.calls[..|g.calls| - 1] == f.calls;
      } else {
        assert g.calls == f.calls by { SettingsAreSilent(f, e.setting); }
      }
      LogExplains(g, es[1..], exactly);
    }
  }

  lemma SettingsAreSilent(f: Plane, s: Setting)
    ensures f.Set(s).calls == f.calls && f.Set(s).minted == f.minted
  {}
}
