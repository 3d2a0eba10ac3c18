/** What each operation of the plane answers and does, in terms of its fields alone. */
module FakeMeaning {
  import opened MediaPort
  import opened FakeMedia

  /** What every operation asks first, what it leaves besides the rooms, and what becomes
      of them where it fails. */
  lemma AnyOperation(f: Plane, q: Request, cancelled: bool)
    ensures var o, g := f.Answer(q, cancelled), f.Step(q, cancelled);
      (cancelled ==> o == Failed(Cancelled))
      && (o == Failed(Unavailable) <==> !cancelled && f.settings.unreachable)
      && g.calls == f.calls + [Call(q, o)] && g.settings == f.settings
      && g.minted == (if q.op == AdmitMember && o == Done then f.minted + 1 else f.minted)
      && (o.Failed? && q.op != DrainRoom ==> g.rooms == f.rooms)
  {}

  /** The caller has time and the unit is there. */
  predicate Heeded(f: Plane, cancelled: bool) { !cancelled && !f.settings.unreachable }

  lemma CreateMeans(f: Plane, q: Request, cancelled: bool)
    requires q.op == CreateRoom && Heeded(f, cancelled)
    ensures var o, g := f.Answer(q, cancelled), f.Step(q, cancelled);
      var full := q.room in f.settings.failing || (f.settings.limit >= 0 && |f.rooms| >= f.settings.limit);
      (o == Failed(InvalidIdentity) <==> q.room == "")
      && (o == Failed(RoomLimitReached) <==> q.room != "" && q.room !in f.rooms && full)
      && (o == Done <==> q.room != "" && (q.room in f.rooms || !full))
      && (o == Done ==>
            g.rooms == if q.room in f.rooms then f.rooms else f.rooms[q.room := Room(map[], {}, {}, {}, map[], false)])
  {}

  lemma DestroyMeans(f: Plane, q: Request, cancelled: bool)
    requires q.op == DestroyRoom && Heeded(f, cancelled)
    ensures var o, g := f.Answer(q, cancelled), f.Step(q, cancelled);
      (o == Failed(InvalidIdentity) <==> q.room == "") && (o == Done <==> q.room != "")
      && (o == Done ==> g.rooms == map id | id in f.rooms && id != q.room :: f.rooms[id])
  {}

  /** An admission is refused for the names, for a time that runs out, for the room, for a
      member there already, for a capability refused, and for a room that drains. */
  lemma AdmitMeans(f: Plane, q: Request, cancelled: bool)
    requires q.op == AdmitMember && Heeded(f, cancelled)
    ensures var o, g := f.Answer(q, cancelled), f.Step(q, cancelled);
      var timely := q.room != "" && q.member != "" && Seat(q.room, q.member) !in f.settings.slow;
      var here, twice := q.room in f.rooms, q.room in f.rooms && q.member in f.rooms[q.room].members;
      (o == Failed(InvalidIdentity) <==> q.room == "" || q.member == "")
      && (o == Failed(Cancelled) <==> q.room != "" && q.member != "" && Seat(q.room, q.member) in f.settings.slow)
      && (o == Failed(NoSuchRoom) <==>
            timely && (!here || (!twice && !Refuses(f, q.caps) && f.rooms[q.room].draining)))
      && (o == Failed(MemberAlreadyAdmitted) <==> timely && twice)
      && (o == Failed(PermissionsNotExpressible) <==> timely && here && !twice && Refuses(f, q.caps))
      && (o == Done <==> timely && here && !twice && !Refuses(f, q.caps) && !f.rooms[q.room].draining)
      && (o == Done ==>
            var r := f.rooms[q.room];
            g.rooms == f.rooms[q.room := r.(members := r.members[q.member := q.caps])])
  {
    assert forall c :: Allows(q.caps, c) <==> q.caps & c != 0;
    hide Allows;
  }

  /** One of the capabilities is refused. */
  predicate Refuses(f: Plane, caps: Capabilities) { exists c :: c in f.settings.refused && caps & c != 0 }

  /** A member who is revoked goes with all that names them, admitted or not. */
  lemma RevokeMeans(f: Plane, q: Request, cancelled: bool)
    requires q.op == RevokeMember && Heeded(f, cancelled)
    ensures var o, g := f.Answer(q, cancelled), f.Step(q, cancelled);
      (o == Failed(NoSuchRoom) <==> q.room !in f.rooms) && (o == Done <==> q.room in f.rooms)
      && (o == Done ==>
            var r, t := f.rooms[q.room], g.rooms[q.room];
            g.rooms == f.rooms[q.room := t] && t.draining == r.draining
            && t.members == r.members - {q.member} && t.speaking == r.speaking - {q.member}
            && t.hops == r.hops - {q.member}
            && (forall s :: s in t.sources <==> s in r.sources && s.member != q.member)
            && (forall s :: s in t.subscribers <==>
                              s in r.subscribers && s.subscriber != q.member && s.source.member != q.member))
  {}

  /** Audio is published by who has the first capability, video by who has the second. */
  lemma PublishMeans(f: Plane, q: Request, cancelled: bool)
    requires q.op == PublishSource && Heeded(f, cancelled)
    ensures var o, g := f.Answer(q, cancelled), f.Step(q, cancelled);
      var kind := q.source.kind == 1 || q.source.kind == 2;
      var here := q.room in f.rooms && q.member in f.rooms[q.room].members;
      var may := here && f.rooms[q.room].members[q.member] & (if q.source.kind == 2 then 2 else 1) != 0;
      (o == Failed(InvalidIdentity) <==> !kind)
      && (o == Failed(NoSuchRoom) <==> kind && q.room !in f.rooms)
      && (o == Failed(NoSuchMember) <==> kind && q.room in f.rooms && !here)
      && (o == Failed(NotPermitted) <==> kind && here && !may)
      && (o == Failed(SourceAlreadyPublished) <==> kind && may && q.source in f.rooms[q.room].sources)
      && (o == Done <==> kind && may && q.source !in f.rooms[q.room].sources)
      && (o == Done ==>
            var r := f.rooms[q.room];
            g.rooms == if q.source in f.settings.lost then f.rooms
                       else f.rooms[q.room := r.(sources := r.sources + {q.source})])
  {
    assert forall s :: Allows(s, Publishing(q.source.kind)) <==> s & (if q.source.kind == 2 then 2 else 1) != 0;
    hide Plane.AnswerCreate, Plane.AnswerAdmit, Plane.AnswerSubscribe, Plane.AnswerGain, Allows, Publishing;
  }

  /** A source that is taken back goes with the subscriptions to it. */
  lemma UnpublishMeans(f: Plane, q: Request, cancelled: bool)
    requires q.op == UnpublishSource && Heeded(f, cancelled)
    ensures var o, g := f.Answer(q, cancelled), f.Step(q, cancelled);
      var kind := q.source.kind == 1 || q.source.kind == 2;
      (o == Failed(InvalidIdentity) <==> !kind)
      && (o == Failed(NoSuchRoom) <==> kind && q.room !in f.rooms)
      && (o == Failed(NoSuchMember) <==> kind && q.room in f.rooms && q.member !in f.rooms[q.room].members)
      && (o == Done <==> kind && q.room in f.rooms && q.member in f.rooms[q.room].members)
      && (o == Done ==>
            var r, t := f.rooms[q.room], g.rooms[q.room];
            g.rooms == f.rooms[q.room := t]
            && t == r.(sources := r.sources - {q.source}, subscribers := t.subscribers)
            && forall s :: s in t.subscribers <==> s in r.subscribers && s.source != q.source)
  {}

  /** Who subscribes has the third capability. */
  lemma SubscribeMeans(f: Plane, q: Request, cancelled: bool)
    requires q.op == Subscribe && Heeded(f, cancelled)
    ensures var o, g := f.Answer(q, cancelled), f.Step(q, cancelled);
      var kind := q.source.kind == 1 || q.source.kind == 2;
      var both := q.room in f.rooms && q.member in f.rooms[q.room].members
                  && q.source.member in f.rooms[q.room].members;
      var may := both && f.rooms[q.room].members[q.member] & 4 != 0;
      (o == Failed(InvalidIdentity) <==> !kind)
      && (o == Failed(NoSuchRoom) <==> kind && q.room !in f.rooms)
      && (o == Failed(NoSuchMember) <==> kind && q.room in f.rooms && !both)
      && (o == Failed(NotPermitted) <==> kind && both && !may)
      && (o == Failed(NoSuchSource) <==> kind && may && q.source !in f.rooms[q.room].sources)
      && (o == Done <==> kind && may && q.source in f.rooms[q.room].sources)
      && (o == Done ==>
            var r := f.rooms[q.room];
            g.rooms == f.rooms[q.room := r.(subscribers := r.subscribers + {Subscription(q.member, q.source)})])
  {
    hide Plane.AnswerCreate, Plane.AnswerAdmit, Plane.AnswerPublish, Plane.AnswerGain;
  }

  lemma UnsubscribeMeans(f: Plane, q: Request, cancelled: bool)
    requires q.op == Unsubscribe && Heeded(f, cancelled)
    ensures var o, g := f.Answer(q, cancelled), f.Step(q, cancelled);
      var kind := q.source.kind == 1 || q.source.kind == 2;
      (o == Failed(InvalidIdentity) <==> !kind)
      && (o == Failed(NoSuchRoom) <==> kind && q.room !in f.rooms)
      && (o == Failed(NoSuchMember) <==> kind && q.room in f.rooms && q.member !in f.rooms[q.room].members)
      && (o == Done <==> kind && q.room in f.rooms && q.member in f.rooms[q.room].members)
      && (o == Done ==>
            var r := f.rooms[q.room];
            g.rooms == f.rooms[q.room := r.(subscribers := r.subscribers - {Subscription(q.member, q.source)})])
  {}

  /** A gain is heard of only where the unit applies any, and only within the range, its
      ends included; nothing keeps it. */
  lemma GainMeans(f: Plane, q: Request, cancelled: bool)
    requires q.op == SetSubscriberGain && Heeded(f, cancelled)
    ensures var o, g := f.Answer(q, cancelled), f.Step(q, cancelled);
      var applies := f.settings.gainSupported;
      var made := q.room in f.rooms && Subscription(q.member, q.source) in f.rooms[q.room].subscribers;
      (o == Failed(GainNotSupported) <==> !applies)
      && (o == Failed(NoSuchSubscription) <==> applies && !made)
      && (o == Failed(GainOutOfRange) <==>
            applies && made && (q.gain < f.settings.gainLow || q.gain > f.settings.gainHigh))
      && (o == Done <==> applies && made && f.settings.gainLow <= q.gain <= f.settings.gainHigh)
      && g.rooms == f.rooms
  {}

  lemma ObservingMeans(f: Plane, q: Request, cancelled: bool)
    requires q.op in {SpeakingState, HopMetrics} && Heeded(f, cancelled)
    ensures var o, g := f.Answer(q, cancelled), f.Step(q, cancelled);
      (o == Failed(NoSuchRoom) <==> q.room !in f.rooms)
      && (o == Failed(NotObservable) <==> q.room in f.rooms && !f.settings.observable)
      && (o == Done <==> q.room in f.rooms && f.settings.observable)
      && g.rooms == f.rooms
  {
    hide Plane.AnswerCreate, Plane.AnswerAdmit, Plane.AnswerPublish, Plane.AnswerSubscribe, Plane.AnswerGain;
  }

  /** A drain succeeds only for an empty room, and begins for any. */
  lemma DrainMeans(f: Plane, q: Request, cancelled: bool)
    requires q.op == DrainRoom && Heeded(f, cancelled)
    ensures var o, g := f.Answer(q, cancelled), f.Step(q, cancelled);
      (o == Failed(NoSuchRoom) <==> q.room !in f.rooms)
      && (o == Failed(DrainDeadlineExceeded) <==> q.room in f.rooms && f.rooms[q.room].members != map[])
      && (o == Done <==> q.room in f.rooms && f.rooms[q.room].members == map[])
      && g.rooms == if q.room in f.rooms then f.rooms[q.room := f.rooms[q.room].(draining := true)] else f.rooms
  {}

  /** The settings that touch a room touch that one alone, where it is. */
  lemma RoomSettingsMean(f: Plane, id: RoomID, member: MemberID, on: bool, hop: Hop, now: int, sub: Subscription)
    ensures id !in f.rooms ==>
      f.Set(SpeakingIs(id, member, on)) == f.Set(HopIs(id, hop, now)) == f.Set(DropSubscription(id, sub)) == f
    ensures id in f.rooms ==>
      var r := f.rooms[id];
      f.Set(SpeakingIs(id, member, on)) ==
        f.(rooms := f.rooms[id := r.(speaking := if on then r.speaking + {member} else r.speaking - {member})])
      && f.Set(HopIs(id, hop, now)) ==
        f.(rooms := f.rooms[id := r.(hops := r.hops[hop.member := Hop(hop.member, hop.delay, hop.loss, now)])])
      && f.Set(DropSubscription(id, sub)) == f.(rooms := f.rooms[id := r.(subscribers := r.subscribers - {sub})])
  {}

  // What is believed of a speaker.

  /** The event is about whether this member of this room speaks. */
  predicate Resets(e: Event, id: RoomID, member: MemberID) {
    (e.Arranged? && e.setting.SpeakingIs? && e.setting.id == id && e.setting.member == member)
    || (e.Asked? && e.request.op == DestroyRoom && e.request.room == id)
    || (e.Asked? && e.request.op == RevokeMember && e.request.room == id && e.request.member == member)
  }

  lemma SpeakingStays(f: Plane, e: Event, id: RoomID, member: MemberID)
    requires id in f.rooms && !Resets(e, id, member)
    ensures var g := f.After(e);
      id in g.rooms && (member in g.rooms[id].speaking <==> member in f.rooms[id].speaking)
  {
    hide Plane.Answer, SubscribersOff, SourcesWithout, SubscribersWithout;
  }

  /** What was set of a speaker holds until it is set again, they are revoked, or the
      room is destroyed. */
  lemma SpeakingPersists(f: Plane, es: seq<Event>, id: RoomID, member: MemberID, on: bool)
    requires id in f.rooms && forall e :: e in es ==> !Resets(e, id, member)
    ensures var g := Run(f.Set(SpeakingIs(id, member, on)), es);
      id in g.rooms && (member in g.rooms[id].speaking <==> on)
  {
    var g := f.Set(SpeakingIs(id, member, on));
    assert id in g.rooms && (member in g.rooms[id].speaking <==> on);
    SpeakingKept(g, es, id, member);
  }

  lemma {:induction false} SpeakingKept(f: Plane, es: seq<Event>, id: RoomID, member: MemberID)
    requires id in f.rooms && forall e :: e in es ==> !Resets(e, id, member)
    ensures var g := Run(f, es);
      id in g.rooms && (member in g.rooms[id].speaking <==> member in f.rooms[id].speaking)
    decreases |es|
  {
    hide Plane.After, Resets;
    if |es| > 0 {
      assert es[0] in es && forall e :: e in es[1..] ==> e in es;
      SpeakingStays(f, es[0], id, member);
      SpeakingKept(f.After(es[0]), es[1..], id, member);
    }
  }
}
