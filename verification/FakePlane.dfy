/** The in-memory media plane as the object callers hold. */
module FakePlanes {
  import opened MediaPort
  import opened FakeMedia
  import opened Ids
  import opened Listings
  import opened Decimals

  predicate BySpeaker(a: Speaking, b: Speaking) { Before(a.member, b.member) }

  predicate ByHop(a: Hop, b: Hop) { Before(a.member, b.member) }

  lemma MembersOrdered(a: MemberID, b: MemberID, c: MemberID)
    ensures !Before(a, a) && (a != b ==> Before(a, b) || Before(b, a))
    ensures Before(a, b) && Before(b, c) ==> Before(a, c)
  {
    BeforeIrreflexive(a);
    if a != b { BeforeTotal(a, b); }
    if Before(a, b) && Before(b, c) { BeforeTransitive(a, b, c); }
  }

  /** What is believed of each member of a room. */
  function Speakers(r: Room): set<Speaking> { set m | m in r.members :: Speaking(m, m in r.speaking) }

  /** One entry for each member of the room and for nobody else, by rising names, telling
      whether the room marks them as speaking. */
  ghost predicate TellsSpeaking(out: seq<Speaking>, r: Room) {
    (forall m :: m in r.members <==> exists i :: 0 <= i < |out| && out[i].member == m)
    && (forall i, j :: 0 <= i < j < |out| ==> Before(out[i].member, out[j].member))
    && (forall i :: 0 <= i < |out| ==> (out[i].speaking <==> out[i].member in r.speaking))
  }

  lemma SpeakersTold(r: Room, out: seq<Speaking>)
    requires Lists(out, Speakers(r), BySpeaker)
    ensures TellsSpeaking(out, r)
  {
    hide Before;
    assert forall x :: x in out <==> x in Elements(out);
    forall i, j | 0 <= i < j < |out| ensures Before(out[i].member, out[j].member) {
      assert BySpeaker(out[i], out[j]);
    }
    forall i | 0 <= i < |out| ensures out[i].member in r.members && (out[i].speaking <==> out[i].member in r.speaking) {
      assert out[i] in Elements(out);
    }
    forall m | m in r.members ensures exists i :: 0 <= i < |out| && out[i].member == m {
      assert Speaking(m, m in r.speaking) in Elements(out);
    }
  }

  /** Rising names: two lists of the same members have the same members throughout. */
  lemma SameMembers(a: seq<Speaking>, b: seq<Speaking>, r: Room, t: Room)
    requires TellsSpeaking(a, r) && TellsSpeaking(b, t) && r.members == t.members
    ensures |a| == |b| && forall i :: 0 <= i < |a| ==> a[i].member == b[i].member
  {
    hide Before, TellsSpeaking;
    NamesTold(a, r);
    NamesTold(b, t);
    forall x, y, z ensures !Before(x, x) && (x != y ==> Before(x, y) || Before(y, x))
                        && (Before(x, y) && Before(y, z) ==> Before(x, z)) {
      MembersOrdered(x, y, z);
    }
    ListingUnique(Names(a), Names(b), r.members.Keys, Before);
  }

  lemma NamesTold(a: seq<Speaking>, r: Room)
    requires TellsSpeaking(a, r)
    ensures Lists(Names(a), r.members.Keys, Before)
    ensures forall i :: 0 <= i < |a| ==> a[i] == Speaking(a[i].member, a[i].member in r.speaking)
  {
    hide Before;
    assert forall m :: m in Names(a) <==> exists i :: 0 <= i < |a| && a[i].member == m;
  }

  function Names(a: seq<Speaking>): (s: seq<MemberID>)
    ensures |s| == |a| && forall i :: 0 <= i < |a| ==> s[i] == a[i].member
  {
    seq(|a|, i requires 0 <= i < |a| => a[i].member)
  }

  /** Setting one member as speaking or silent shows in the answer after it, and there
      alone: every other entry is as in the answer before. */
  lemma SpeakingIsTold(
    f: Plane, id: RoomID, member: MemberID, on: bool, before: seq<Speaking>, after: seq<Speaking>)
    requires id in f.rooms && member in f.rooms[id].members
    requires TellsSpeaking(before, f.rooms[id])
    requires TellsSpeaking(after, f.Set(SpeakingIs(id, member, on)).rooms[id])
    ensures Speaking(member, on) in after && |after| == |before|
    ensures forall i :: 0 <= i < |after| ==>
      after[i] == if before[i].member == member then Speaking(member, on) else before[i]
  {
    var r, t := f.rooms[id], f.Set(SpeakingIs(id, member, on)).rooms[id];
    assert t.members == r.members && t.speaking == if on then r.speaking + {member} else r.speaking - {member};
    hide Before, Plane.Set;
    SpeakingDiffers(r, t, member, before, after);
  }

  lemma SpeakingDiffers(r: Room, t: Room, member: MemberID, before: seq<Speaking>, after: seq<Speaking>)
    requires TellsSpeaking(before, r) && TellsSpeaking(after, t) && member in r.members && t.members == r.members
    requires forall m :: m != member ==> (m in t.speaking <==> m in r.speaking)
    ensures var told := Speaking(member, member in t.speaking);
      told in after && |after| == |before|
      && forall i :: 0 <= i < |after| ==> after[i] == if before[i].member == member then told else before[i]
  {
    hide Before, TellsSpeaking;
    SameMembers(before, after, r, t);
    NamesTold(before, r);
    NamesTold(after, t);
    assert member in Elements(Names(after));
    var i :| 0 <= i < |after| && Names(after)[i] == member;
    assert after[i] == Speaking(member, member in t.speaking);
  }

  function HopOf(r: Room, m: MemberID, now: int): Hop { if m in r.hops then r.hops[m] else Hop(m, 0, 0.0, now) }

  /** How often the clock is asked while these members are met: once for each of whom
      nothing was observed. */
  function Askings(r: Room, met: seq<MemberID>): nat {
    if |met| == 0 then 0 else Askings(r, met[..|met| - 1]) + if met[|met| - 1] in r.hops then 0 else 1
  }

  /** The hops of the members met, in that order, when the i-th answer of the clock is
      clock(i). */
  function Hops(r: Room, met: seq<MemberID>, clock: nat -> int): set<Hop> {
    if |met| == 0 then {}
    else
      var init, m := met[..|met| - 1], met[|met| - 1];
      Hops(r, init, clock) + {HopOf(r, m, clock(Askings(r, init)))}
  }

  /** One entry for each member of the room and for nobody else, by rising names: what was
      set of them, or else no delay and no loss, as of the clock's next answer when they
      were met. */
  ghost predicate TellsHops(out: seq<Hop>, r: Room, met: seq<MemberID>, clock: nat -> int) {
    (forall m :: m in r.members <==> exists i :: 0 <= i < |out| && out[i].member == m)
    && (forall i, j :: 0 <= i < j < |out| ==> Before(out[i].member, out[j].member))
    && (forall i :: 0 <= i < |out| && out[i].member in r.hops ==> out[i] == r.hops[out[i].member])
    && (forall i :: 0 <= i < |out| && out[i].member !in r.hops ==>
          exists k :: 0 <= k < |met| && out[i] == Hop(met[k], 0, 0.0, clock(|set m | m in met[..k] && m !in r.hops|)))
  }

  /** The members met of whom nothing was set. */
  function Unset(r: Room, met: seq<MemberID>): set<MemberID> { set m | m in met && m !in r.hops }

  lemma UnsetIs(r: Room, met: seq<MemberID>)
    ensures Unset(r, met) == set m | m in met && m !in r.hops
  {}

  lemma {:induction false} AskingsAre(r: Room, met: seq<MemberID>)
    requires forall i, j :: 0 <= i < j < |met| ==> met[i] != met[j]
    ensures Askings(r, met) == |Unset(r, met)|
  {
    if |met| > 0 {
      var init, m := met[..|met| - 1], met[|met| - 1];
      AskingsAre(r, init);
      assert Unset(r, met) == if m in r.hops then Unset(r, init) else Unset(r, init) + {m};
    }
  }

  /** The hop of the k-th member met. */
  ghost predicate MetAs(r: Room, met: seq<MemberID>, clock: nat -> int, h: Hop, k: int) {
    0 <= k < |met| && h == HopOf(r, met[k], clock(|Unset(r, met[..k])|))
  }

  lemma MetBefore(r: Room, met: seq<MemberID>, clock: nat -> int, h: Hop, n: nat, k: int)
    requires k < n <= |met|
    ensures MetAs(r, met[..n], clock, h, k) <==> MetAs(r, met, clock, h, k)
  {
    hide HopOf, Unset;
    if 0 <= k { assert met[..n][..k] == met[..k]; }
  }

  lemma {:induction false} HopAmong(r: Room, met: seq<MemberID>, clock: nat -> int, h: Hop)
    requires forall i, j :: 0 <= i < j < |met| ==> met[i] != met[j]
    ensures h in Hops(r, met, clock) <==> exists k :: MetAs(r, met, clock, h, k)
  {
    hide HopOf, Unset;
    if |met| > 0 {
      var n := |met| - 1;
      HopAmong(r, met[..n], clock, h);
      AskingsAre(r, met[..n]);
      assert h in Hops(r, met, clock) <==> h in Hops(r, met[..n], clock) || MetAs(r, met, clock, h, n);
      forall k | k < n ensures MetAs(r, met[..n], clock, h, k) <==> MetAs(r, met, clock, h, k) {
        MetBefore(r, met, clock, h, n, k);
      }
    }
  }

  lemma HopsTold(r: Room, met: seq<MemberID>, clock: nat -> int, out: seq<Hop>)
    requires SoundRoom(r) && Visits(met, r.members.Keys) && Lists(out, Hops(r, met, clock), ByHop)
    ensures TellsHops(out, r, met, clock)
  {
    hide Before, Hops, Unset;
    forall i, j | 0 <= i < j < |out| ensures Before(out[i].member, out[j].member) { assert ByHop(out[i], out[j]); }
    forall i | 0 <= i < |out|
      ensures out[i].member in r.members
      ensures out[i].member in r.hops ==> out[i] == r.hops[out[i].member]
      ensures out[i].member !in r.hops ==>
        exists k :: 0 <= k < |met| && out[i] == Hop(met[k], 0, 0.0, clock(|set m | m in met[..k] && m !in r.hops|))
    {
      assert out[i] in Elements(out);
      HopAmong(r, met, clock, out[i]);
      var k :| MetAs(r, met, clock, out[i], k);
      UnsetIs(r, met[..k]);
      assert met[k] in Elements(met);
    }
    forall m | m in r.members ensures exists i :: 0 <= i < |out| && out[i].member == m {
      assert m in Elements(met);
      var k :| 0 <= k < |met| && met[k] == m;
      var h := HopOf(r, met[k], clock(|Unset(r, met[..k])|));
      assert MetAs(r, met, clock, h, k);
      HopAmong(r, met, clock, h);
      assert h in Elements(out) && h.member == m;
    }
  }

  /** The members, each once. */
  ghost predicate Visits(met: seq<MemberID>, members: set<MemberID>) {
    Elements(met) == members && forall i, j :: 0 <= i < j < |met| ==> met[i] != met[j]
  }

  lemma {:induction false} HopsMembers(r: Room, met: seq<MemberID>, clock: nat -> int)
    requires SoundRoom(r) && forall i, j :: 0 <= i < j < |met| ==> met[i] != met[j]
    ensures forall h :: h in Hops(r, met, clock) ==> h.member in met
    ensures forall g, h :: g in Hops(r, met, clock) && h in Hops(r, met, clock) && g.member == h.member ==> g == h
  {
    if |met| > 0 { HopsMembers(r, met[..|met| - 1], clock); }
  }

  lemma VisitsOne(met: seq<MemberID>, members: set<MemberID>, m: MemberID)
    requires Visits(met, members) && m !in members
    ensures Visits(met + [m], members + {m})
  {
    assert forall x :: x in met + [m] <==> x in met || x == m;
    forall i, j | 0 <= i < j < |met + [m]| ensures (met + [m])[i] != (met + [m])[j] {
      assert met[i] in Elements(met);
    }
  }

  /** With a clock that does not move during the call, the order of meeting does not show. */
  lemma {:induction false} StillHops(r: Room, met: seq<MemberID>, clock: nat -> int, now: int)
    requires forall i :: clock(i) == now
    ensures Hops(r, met, clock) == set m | m in met :: HopOf(r, m, now)
  {
    if |met| > 0 {
      StillHops(r, met[..|met| - 1], clock, now);
      assert forall m :: m in met <==> m in met[..|met| - 1] || m == met[|met| - 1];
    }
  }

  lemma SpeakersOrdered(r: Room)
    ensures Ordered(Speakers(r), BySpeaker)
  {
    hide Before;
    forall a, b, c | a in Speakers(r) && b in Speakers(r) && c in Speakers(r)
      ensures !BySpeaker(a, a) && (a != b ==> BySpeaker(a, b) || BySpeaker(b, a))
      ensures BySpeaker(a, b) && BySpeaker(b, c) ==> BySpeaker(a, c)
    {
      MembersOrdered(a.member, b.member, c.member);
    }
  }

  lemma HopsOrdered(r: Room, met: seq<MemberID>, clock: nat -> int)
    requires SoundRoom(r) && forall i, j :: 0 <= i < j < |met| ==> met[i] != met[j]
    ensures Ordered(Hops(r, met, clock), ByHop)
  {
    HopsMembers(r, met, clock);
    hide Before, Hops;
    forall a, b, c | a in Hops(r, met, clock) && b in Hops(r, met, clock) && c in Hops(r, met, clock)
      ensures !ByHop(a, a) && (a != b ==> ByHop(a, b) || ByHop(b, a))
      ensures ByHop(a, b) && ByHop(b, c) ==> ByHop(a, c)
    {
      MembersOrdered(a.member, b.member, c.member);
    }
  }

  /** Some element of a set: Go ranges over a map in no fixed order. */
  method AnyOf<T>(s: set<T>) returns (x: T)
    requires s != {}
    ensures x in s
  {
    x :| x in s;
  }

  class Fake {
    var rooms: Rooms
    var calls: seq<Call>
    var minted: nat
    var settings: Settings

    ghost function State(): Plane
      reads this
    {
      Plane(rooms, calls, minted, settings)
    }

    ghost predicate Valid()
      reads this
    {
      Sound(rooms)
    }

    constructor ()
      ensures Valid() && State() == NEW_PLANE
      ensures rooms == map[] && calls == [] && minted == 0
      ensures settings == Settings(-1, false, 0.0, 4.0, true, false, {}, {}, {}, {})
    {
      rooms, calls, minted, settings := map[], [], 0, DEFAULTS;
    }

    /** Appends the call and returns its outcome. */
    method Record(q: Request, o: Outcome) returns (r: Outcome)
      modifies this`calls
      ensures calls == old(calls) + [Call(q, o)] && r == o
    {
      calls := calls + [Call(q, o)];
      return o;
    }

    /** What every operation asks first. */
    method Begin(cancelled: bool) returns (o: Outcome)
      ensures o == if cancelled then Failed(Cancelled) else if settings.unreachable then Failed(Unavailable) else Done
    {
      if cancelled {
        return Failed(Cancelled);
      }
      if settings.unreachable {
        return Failed(Unavailable);
      }
      return Done;
    }

    /** The operation answered as it should, recorded itself, and changed the rooms as
        it should and nothing else. */
    ghost predicate Performed(before: Plane, q: Request, cancelled: bool, o: Outcome)
      reads this
    {
      o == before.Answer(q, cancelled) && State() == before.Step(q, cancelled) && Valid()
    }

    lemma Stays(before: Plane, q: Request, cancelled: bool)
      requires Sound(before.rooms) && State() == before.Step(q, cancelled)
      ensures Valid()
    {
      StepKeepsSound(before, Asked(q, cancelled));
    }

    method CreateRoom(cancelled: bool, id: RoomID) returns (o: Outcome)
      requires Valid()
      modifies this
      ensures Performed(old(State()), Request(Operation.CreateRoom, id, "", NO_SOURCE, 0.0, 0), cancelled, o)
    {
      hide Sound;
      var q := Request(Operation.CreateRoom, id, "", NO_SOURCE, 0.0, 0);
      o := Begin(cancelled);
      if o != Done {
        o := Record(q, o);
      } else if id == "" {
        o := Record(q, Failed(InvalidIdentity));
      } else if id in rooms {
        o := Record(q, Done);
      } else if id in settings.failing {
        o := Record(q, Failed(RoomLimitReached));
      } else if settings.limit >= 0 && |rooms| >= settings.limit {
        o := Record(q, Failed(RoomLimitReached));
      } else {
        rooms := rooms[id := EMPTY_ROOM];
        o := Record(q, Done);
      }
      Stays(old(State()), q, cancelled);
    }

    method DestroyRoom(cancelled: bool, id: RoomID) returns (alreadyGone: bool, o: Outcome)
      requires Valid()
      modifies this
      ensures Performed(old(State()), Request(Operation.DestroyRoom, id, "", NO_SOURCE, 0.0, 0), cancelled, o)
      ensures alreadyGone <==> o == Done && id !in old(rooms)
    {
      hide Sound;
      var q := Request(Operation.DestroyRoom, id, "", NO_SOURCE, 0.0, 0);
      alreadyGone := false;
      o := Begin(cancelled);
      if o != Done {
        o := Record(q, o);
      } else if id == "" {
        o := Record(q, Failed(InvalidIdentity));
      } else {
        alreadyGone := id !in rooms;
        rooms := rooms - {id};
        o := Record(q, Done);
      }
      Stays(old(State()), q, cancelled);
    }

    method AdmitMember(cancelled: bool, id: RoomID, member: MemberID, caps: Capabilities)
      returns (credential: string, o: Outcome)
      requires Valid()
      modifies this
      ensures Performed(old(State()), Request(Operation.AdmitMember, id, member, NO_SOURCE, 0.0, caps), cancelled, o)
      ensures credential == if o == Done then Credential(id, member, old(minted) + 1) else ""
      ensures o == Done ==> credential == "fake-" + id + "-" + member + "-" + Decimal(old(minted) + 1)
    {
      hide Sound, Allows;
      var q := Request(Operation.AdmitMember, id, member, NO_SOURCE, 0.0, caps);
      credential := "";
      o := Begin(cancelled);
      if o != Done {
        o := Record(q, o);
      } else if id == "" {
        o := Record(q, Failed(InvalidIdentity));
      } else if member == "" {
        o := Record(q, Failed(InvalidIdentity));
      } else if Seat(id, member) in settings.slow {
        o := Record(q, Failed(Cancelled));
      } else if id !in rooms {
        o := Record(q, Failed(NoSuchRoom));
      } else if member in rooms[id].members {
        o := Record(q, Failed(MemberAlreadyAdmitted));
      } else {
        var r := rooms[id];
        var expressible := Expressible(settings.refused, caps);
        if !expressible {
          o := Record(q, Failed(PermissionsNotExpressible));
        } else if r.draining {
          o := Record(q, Failed(NoSuchRoom));
        } else {
          rooms := rooms[id := r.(members := r.members[member := caps])];
          minted := minted + 1;
          credential := Credential(id, member, minted);
          o := Record(q, Done);
        }
      }
      Stays(old(State()), q, cancelled);
    }

    static method Expressible(refused: set<Capabilities>, caps: Capabilities) returns (ok: bool)
      ensures !ok <==> exists c :: c in refused && Allows(caps, c)
    {
      hide Allows;
      var rest := refused;
      while rest != {}
        invariant rest <= refused && forall c :: c in refused && c !in rest ==> !Allows(caps, c)
        decreases rest
      {
        var c := AnyOf(rest);
        if Allows(caps, c) {
          return false;
        }
        rest := rest - {c};
      }
      return true;
    }

    method RevokeMember(cancelled: bool, id: RoomID, member: MemberID) returns (o: Outcome)
      requires Valid()
      modifies this
      ensures Performed(old(State()), Request(Operation.RevokeMember, id, member, NO_SOURCE, 0.0, 0), cancelled, o)
    {
      hide Sound;
      var q := Request(Operation.RevokeMember, id, member, NO_SOURCE, 0.0, 0);
      o := Begin(cancelled);
      if o != Done {
        o := Record(q, o);
      } else if id !in rooms {
        o := Record(q, Failed(NoSuchRoom));
      } else {
        var r := rooms[id];
        var sources := DeleteSources(r.sources, member);
        var subscribers := DeleteSubscribers(r.subscribers, member);
        var left := Room(r.members - {member}, sources, subscribers,
                         r.speaking - {member}, r.hops - {member}, r.draining);
        rooms := rooms[id := left];
        o := Record(q, Done);
      }
      Stays(old(State()), q, cancelled);
    }

    static method DeleteSources(sources: set<Source>, member: MemberID) returns (left: set<Source>)
      ensures left == SourcesWithout(sources, member)
    {
      left := sources;
      var rest := sources;
      while rest != {}
        invariant rest <= sources && left == SourcesWithout(sources - rest, member) + rest
        decreases rest
      {
        var s := AnyOf(rest);
        if s.member == member {
          left := left - {s};
        }
        rest := rest - {s};
      }
      assert sources - {} == sources;
    }

    static method DeleteSubscribers(subs: set<Subscription>, member: MemberID) returns (left: set<Subscription>)
      ensures left == SubscribersWithout(subs, member)
    {
      left := subs;
      var rest := subs;
      while rest != {}
        invariant rest <= subs && left == SubscribersWithout(subs - rest, member) + rest
        decreases rest
      {
        var s := AnyOf(rest);
        if s.subscriber == member || s.source.member == member {
          left := left - {s};
        }
        rest := rest - {s};
      }
      assert subs - {} == subs;
    }

    /** The two lookups of every operation on a member. */
    method MemberOf(id: RoomID, member: MemberID) returns (caps: Capabilities, o: Outcome)
      ensures o == Seated(rooms, id, member) && (o == Done ==> caps == rooms[id].members[member])
    {
      if id !in rooms {
        return 0, Failed(NoSuchRoom);
      }
      if member !in rooms[id].members {
        return 0, Failed(NoSuchMember);
      }
      return rooms[id].members[member], Done;
    }

    method PublishSource(cancelled: bool, id: RoomID, member: MemberID, kind: octet) returns (o: Outcome)
      requires Valid()
      modifies this
      ensures Performed(old(State()), AboutSource(Operation.PublishSource, id, Source(member, kind)), cancelled, o)
    {
      hide Sound, Allows, Publishing;
      var source := Source(member, kind);
      var q := Request(Operation.PublishSource, id, member, source, 0.0, 0);
      o := Begin(cancelled);
      if o != Done {
        o := Record(q, o);
      } else if !ValidKind(kind) {
        o := Record(q, Failed(InvalidIdentity));
      } else {
        var caps, seated := MemberOf(id, member);
        if seated != Done {
          o := Record(q, seated);
        } else if !Allows(caps, Publishing(kind)) {
          o := Record(q, Failed(NotPermitted));
        } else if source in rooms[id].sources {
          o := Record(q, Failed(SourceAlreadyPublished));
        } else {
          if source !in settings.lost {
            rooms := rooms[id := rooms[id].(sources := rooms[id].sources + {source})];
          }
          o := Record(q, Done);
        }
      }
      Stays(old(State()), q, cancelled);
    }

    method UnpublishSource(cancelled: bool, id: RoomID, member: MemberID, kind: octet) returns (o: Outcome)
      requires Valid()
      modifies this
      ensures Performed(old(State()), AboutSource(Operation.UnpublishSource, id, Source(member, kind)), cancelled, o)
    {
      hide Sound;
      var source := Source(member, kind);
      var q := Request(Operation.UnpublishSource, id, member, source, 0.0, 0);
      o := Begin(cancelled);
      if o != Done {
        o := Record(q, o);
      } else if !ValidKind(kind) {
        o := Record(q, Failed(InvalidIdentity));
      } else {
        var _, seated := MemberOf(id, member);
        if seated != Done {
          o := Record(q, seated);
        } else {
          var r := rooms[id];
          var subscribers := DeleteReceivers(r.subscribers, source);
          rooms := rooms[id := r.(sources := r.sources - {source}, subscribers := subscribers)];
          o := Record(q, Done);
        }
      }
      Stays(old(State()), q, cancelled);
    }

    static method DeleteReceivers(subs: set<Subscription>, source: Source) returns (left: set<Subscription>)
      ensures left == SubscribersOff(subs, source)
    {
      left := subs;
      var rest := subs;
      while rest != {}
        invariant rest <= subs && left == SubscribersOff(subs - rest, source) + rest
        decreases rest
      {
        var s := AnyOf(rest);
        if s.source == source {
          left := left - {s};
        }
        rest := rest - {s};
      }
      assert subs - {} == subs;
    }

    method Subscribe(cancelled: bool, id: RoomID, subscriber: MemberID, source: Source) returns (o: Outcome)
      requires Valid()
      modifies this
      ensures Performed(old(State()), Request(Operation.Subscribe, id, subscriber, source, 0.0, 0), cancelled, o)
    {
      hide Sound, Allows;
      var q := Request(Operation.Subscribe, id, subscriber, source, 0.0, 0);
      o := Begin(cancelled);
      if o != Done {
        o := Record(q, o);
      } else if !ValidKind(source.kind) {
        o := Record(q, Failed(InvalidIdentity));
      } else {
        var caps, seated := MemberOf(id, subscriber);
        if seated != Done {
          o := Record(q, seated);
        } else if source.member !in rooms[id].members {
          o := Record(q, Failed(NoSuchMember));
        } else if !Allows(caps, MAY_SUBSCRIBE) {
          o := Record(q, Failed(NotPermitted));
        } else if source !in rooms[id].sources {
          o := Record(q, Failed(NoSuchSource));
        } else {
          rooms := rooms[id := rooms[id].(subscribers := rooms[id].subscribers + {Subscription(subscriber, source)})];
          o := Record(q, Done);
        }
      }
      Stays(old(State()), q, cancelled);
    }

    method Unsubscribe(cancelled: bool, id: RoomID, subscriber: MemberID, source: Source) returns (o: Outcome)
      requires Valid()
      modifies this
      ensures Performed(old(State()), Request(Operation.Unsubscribe, id, subscriber, source, 0.0, 0), cancelled, o)
    {
      hide Sound;
      var q := Request(Operation.Unsubscribe, id, subscriber, source, 0.0, 0);
      o := Begin(cancelled);
      if o != Done {
        o := Record(q, o);
      } else if !ValidKind(source.kind) {
        o := Record(q, Failed(InvalidIdentity));
      } else {
        var _, seated := MemberOf(id, subscriber);
        if seated != Done {
          o := Record(q, seated);
        } else {
          rooms := rooms[id := rooms[id].(subscribers := rooms[id].subscribers - {Subscription(subscriber, source)})];
          o := Record(q, Done);
        }
      }
      Stays(old(State()), q, cancelled);
    }

    method SetSubscriberGain(cancelled: bool, id: RoomID, subscriber: MemberID, source: Source, gain: real)
      returns (o: Outcome)
      requires Valid()
      modifies this
      ensures var q := Request(Operation.SetSubscriberGain, id, subscriber, source, gain, 0);
        Performed(old(State()), q, cancelled, o)
    {
      hide Sound;
      var q := Request(Operation.SetSubscriberGain, id, subscriber, source, gain, 0);
      o := Begin(cancelled);
      if o != Done {
        o := Record(q, o);
      } else if !settings.gainSupported {
        o := Record(q, Failed(GainNotSupported));
      } else if id !in rooms || Subscription(subscriber, source) !in rooms[id].subscribers {
        o := Record(q, Failed(NoSuchSubscription));
      } else if gain < settings.gainLow || gain > settings.gainHigh {
        o := Record(q, Failed(GainOutOfRange));
      } else {
        o := Record(q, Done);
      }
      Stays(old(State()), q, cancelled);
    }

    /** One entry per member, in the members' order, whatever order they were met in. */
    method SpeakingState(cancelled: bool, id: RoomID) returns (out: seq<Speaking>, o: Outcome)
      requires Valid()
      modifies this
      ensures Performed(old(State()), Request(Operation.SpeakingState, id, "", NO_SOURCE, 0.0, 0), cancelled, o)
      ensures o == Done ==> id in old(rooms) && TellsSpeaking(out, old(rooms)[id])
      ensures if o == Done then id in old(rooms) && out == Listing(Speakers(old(rooms)[id]), BySpeaker) else out == []
    {
      hide Sound, Before, Listing, Ordered, Lists, TellsSpeaking;
      var q := Request(Operation.SpeakingState, id, "", NO_SOURCE, 0.0, 0);
      out := [];
      o := Begin(cancelled);
      if o != Done {
        o := Record(q, o);
      } else if id !in rooms {
        o := Record(q, Failed(NoSuchRoom));
      } else if !settings.observable {
        o := Record(q, Failed(NotObservable));
      } else {
        var r := rooms[id];
        SpeakersOrdered(r);
        out := Sort(Speakers(r), BySpeaker);
        SpeakersTold(r, out);
        IsListing(out, Speakers(r), BySpeaker);
        o := Record(q, Done);
      }
      Stays(old(State()), q, cancelled);
    }

    /** One entry per member, in the members' order. The members are met in an order of
        the map's own, and the clock is asked anew for each that nothing was set of. */
    method HopMetrics(cancelled: bool, id: RoomID, clock: nat -> int)
      returns (out: seq<Hop>, o: Outcome, ghost met: seq<MemberID>)
      requires Valid()
      modifies this
      ensures Performed(old(State()), Request(Operation.HopMetrics, id, "", NO_SOURCE, 0.0, 0), cancelled, o)
      ensures if o == Done then
                id in old(rooms) && Visits(met, old(rooms)[id].members.Keys)
                && out == Listing(Hops(old(rooms)[id], met, clock), ByHop)
              else out == []
      ensures o == Done ==> id in old(rooms) && TellsHops(out, old(rooms)[id], met, clock)
    {
      assert id in rooms ==> SoundRoom(rooms[id]);
      hide Sound, SoundRoom, Before, Listing, Ordered, Lists, Hops, TellsHops;
      var q := Request(Operation.HopMetrics, id, "", NO_SOURCE, 0.0, 0);
      out, met := [], [];
      o := Begin(cancelled);
      if o != Done {
        o := Record(q, o);
      } else if id !in rooms {
        o := Record(q, Failed(NoSuchRoom));
      } else if !settings.observable {
        o := Record(q, Failed(NotObservable));
      } else {
        var r := rooms[id];
        var found;
        found, met := Meet(r, clock);
        HopsOrdered(r, met, clock);
        out := Sort(found, ByHop);
        HopsTold(r, met, clock, out);
        IsListing(out, found, ByHop);
        o := Record(q, Done);
      }
      Stays(old(State()), q, cancelled);
    }

    static method Meet(r: Room, clock: nat -> int) returns (found: set<Hop>, ghost met: seq<MemberID>)
      ensures Visits(met, r.members.Keys) && found == Hops(r, met, clock)
    {
      found, met := {}, [];
      var rest, asked := r.members.Keys, 0;
      while rest != {}
        invariant rest <= r.members.Keys && Visits(met, r.members.Keys - rest)
        invariant found == Hops(r, met, clock) && asked == Askings(r, met)
        decreases rest
      {
        var m := AnyOf(rest);
        assert (met + [m])[..|met|] == met;
        found := found + {HopOf(r, m, clock(asked))};
        if m !in r.hops {
          asked := asked + 1;
        }
        VisitsOne(met, r.members.Keys - rest, m);
        met := met + [m];
        assert r.members.Keys - (rest - {m}) == r.members.Keys - rest + {m};
        rest := rest - {m};
      }
    }

    method DrainRoom(cancelled: bool, id: RoomID) returns (o: Outcome)
      requires Valid()
      modifies this
      ensures Performed(old(State()), Request(Operation.DrainRoom, id, "", NO_SOURCE, 0.0, 0), cancelled, o)
    {
      hide Sound;
      var q := Request(Operation.DrainRoom, id, "", NO_SOURCE, 0.0, 0);
      o := Begin(cancelled);
      if o != Done {
        o := Record(q, o);
      } else if id !in rooms {
        o := Record(q, Failed(NoSuchRoom));
      } else {
        rooms := rooms[id := rooms[id].(draining := true)];
        if |rooms[id].members| > 0 {
          o := Record(q, Failed(DrainDeadlineExceeded));
        } else {
          o := Record(q, Done);
        }
      }
      Stays(old(State()), q, cancelled);
    }

    // What a caller arranges.

    ghost predicate Made(before: Plane, s: Setting)
      reads this
    {
      State() == before.Set(s) && Valid()
    }

    lemma Settled(before: Plane, s: Setting)
      requires Sound(before.rooms) && State() == before.Set(s)
      ensures Valid()
    {
      StepKeepsSound(before, Arranged(s));
    }

    method SetRoomLimit(n: int)
      requires Valid()
      modifies this
      ensures Made(old(State()), RoomLimit(n))
      ensures settings == old(settings).(limit := n) && rooms == old(rooms)
    {
      settings := settings.(limit := n);
    }

    method SetGainSupported(ok: bool)
      requires Valid()
      modifies this
      ensures Made(old(State()), GainSupported(ok))
      ensures settings == old(settings).(gainSupported := ok) && rooms == old(rooms)
    {
      settings := settings.(gainSupported := ok);
    }

    method SetGainRange(low: real, high: real)
      requires Valid()
      modifies this
      ensures Made(old(State()), GainRange(low, high))
      ensures settings == old(settings).(gainLow := low, gainHigh := high) && rooms == old(rooms)
    {
      settings := settings.(gainLow := low, gainHigh := high);
    }

    method SetObservable(ok: bool)
      requires Valid()
      modifies this
      ensures Made(old(State()), Observable(ok))
      ensures settings == old(settings).(observable := ok) && rooms == old(rooms)
    {
      settings := settings.(observable := ok);
    }

    method SetSpeaking(id: RoomID, member: MemberID, speaking: bool)
      requires Valid()
      modifies this
      ensures Made(old(State()), SpeakingIs(id, member, speaking))
    {
      if id in rooms {
        rooms := rooms[id := rooms[id].(speaking := Put(rooms[id].speaking, member, speaking))];
      }
      Settled(old(State()), SpeakingIs(id, member, speaking));
    }

    method SetHop(id: RoomID, hop: Hop, now: int)
      requires Valid()
      modifies this
      ensures Made(old(State()), HopIs(id, hop, now))
    {
      if id in rooms {
        rooms := rooms[id := rooms[id].(hops := rooms[id].hops[hop.member := hop.(observed := now)])];
      }
      Settled(old(State()), HopIs(id, hop, now));
    }

    method SetUnreachable(unreachable: bool)
      requires Valid()
      modifies this
      ensures Made(old(State()), Reachability(unreachable))
      ensures settings == old(settings).(unreachable := unreachable) && rooms == old(rooms)
    {
      settings := settings.(unreachable := unreachable);
    }

    method FailRoomCreation(id: RoomID, fail: bool)
      requires Valid()
      modifies this
      ensures Made(old(State()), RoomCreation(id, fail))
      ensures var was := old(settings);
        settings == was.(failing := if fail then was.failing + {id} else was.failing - {id}) && rooms == old(rooms)
    {
      settings := settings.(failing := Put(settings.failing, id, fail));
    }

    method TimeOutAdmission(id: RoomID, member: MemberID, timeOut: bool)
      requires Valid()
      modifies this
      ensures Made(old(State()), AdmissionTime(Seat(id, member), timeOut))
      ensures var was, seat := old(settings), Seat(id, member);
        settings == was.(slow := if timeOut then was.slow + {seat} else was.slow - {seat}) && rooms == old(rooms)
    {
      settings := settings.(slow := Put(settings.slow, Seat(id, member), timeOut));
    }

    method NeverDeliverSource(source: Source, never: bool)
      requires Valid()
      modifies this
      ensures Made(old(State()), SourceDelivery(source, never))
      ensures var was := old(settings);
        settings == was.(lost := if never then was.lost + {source} else was.lost - {source}) && rooms == old(rooms)
    {
      settings := settings.(lost := Put(settings.lost, source, never));
    }

    method DropSubscription(id: RoomID, subscriber: MemberID, source: Source)
      requires Valid()
      modifies this
      ensures Made(old(State()), Setting.DropSubscription(id, Subscription(subscriber, source)))
    {
      if id in rooms {
        rooms := rooms[id := rooms[id].(subscribers := rooms[id].subscribers - {Subscription(subscriber, source)})];
      }
      Settled(old(State()), Setting.DropSubscription(id, Subscription(subscriber, source)));
    }

    method RefuseCapability(c: Capabilities, refuse: bool)
      requires Valid()
      modifies this
      ensures Made(old(State()), Setting.RefuseCapability(c, refuse))
      ensures var was := old(settings);
        settings == was.(refused := if refuse then was.refused + {c} else was.refused - {c}) && rooms == old(rooms)
    {
      settings := settings.(refused := Put(settings.refused, c, refuse));
    }
  }
}
