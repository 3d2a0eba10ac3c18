/** A client's replica of what it is shown, and its convergence: whatever the hub is
    asked to do, after a flush every attached client holds the truth. */
module Replicas {
  import opened Listings
  import opened Ids
  import opened Presences
  import opened Hubs

  datatype Seen = Absent | Here(presence: Presence)

  /** What is true of member m in channel c. */
  function Where(p: Projection, c: ID, m: ID): Seen {
    if m in p.present && p.present[m].channel == c then Here(p.present[m]) else Absent
  }

  /** What an update says of its member in its channel. */
  function Says(u: MemberUpdate): Seen { if u.present then Here(u.now) else Absent }

  datatype Replica = Replica(counts: map<ID, nat>, lists: map<ID, map<ID, Presence>>) {
    /** A channel the client was told nothing about shows nobody. */
    function Count(c: ID): nat { if c in counts then counts[c] else 0 }

    function List(c: ID): map<ID, Presence> { if c in lists then lists[c] else map[] }

    function At(c: ID, m: ID): Seen { if m in List(c) then Here(List(c)[m]) else Absent }

    /** Counts are absolute. */
    function TakeCounts(us: seq<CountUpdate>): Replica {
      if |us| == 0 then this
      else
        var r, u := TakeCounts(us[..|us| - 1]), us[|us| - 1];
        r.(counts := r.counts[u.channel := u.count])
    }

    /** An identity that is no longer present is removed, any other is put in place. */
    function TakeMembers(us: seq<MemberUpdate>): Replica {
      if |us| == 0 then this
      else
        TakeMembers(us[..|us| - 1]).TakeMember(us[|us| - 1])
    }

    function TakeMember(u: MemberUpdate): Replica {
      var l := List(u.channel);
      this.(lists := lists[u.channel := if u.present then l[u.member := u.now] else l - {u.member}])
    }

    /** A snapshot is the whole of each channel it names, so it replaces the list. */
    function Clear(us: seq<CountUpdate>): Replica {
      this.(lists := map c | c in lists && forall u :: u in us ==> u.channel != c :: lists[c])
    }

    function Take(msg: Message): Replica {
      var r := if msg.snapshot then Clear(msg.counts) else this;
      r.TakeCounts(msg.counts).TakeMembers(msg.members)
    }

    /** The messages of a flush that are addressed to id, in order. */
    function TakeDeliveries(id: ClientID, ds: seq<Delivery>): Replica {
      if |ds| == 0 then this
      else
        var r, d := TakeDeliveries(id, ds[..|ds| - 1]), ds[|ds| - 1];
        if d.client == id then r.Take(d.message) else r
    }
  }

  const BLANK := Replica(map[], map[])

  // Folding true updates.

  ghost predicate NamesCount(us: seq<CountUpdate>, c: ID) { exists u :: u in us && u.channel == c }

  ghost predicate NamesMember(us: seq<MemberUpdate>, c: ID, m: ID) {
    exists u :: u in us && u.channel == c && u.member == m
  }

  ghost predicate TrueCounts(us: seq<CountUpdate>, p: Projection) {
    forall u :: u in us ==> u.count == p.Count(u.channel)
  }

  ghost predicate TrueMembers(us: seq<MemberUpdate>, p: Projection) {
    forall u :: u in us ==> Says(u) == Where(p, u.channel, u.member)
  }

  lemma {:induction false} TakeTrueCounts(r: Replica, us: seq<CountUpdate>, p: Projection, c: ID)
    requires TrueCounts(us, p)
    ensures var t := r.TakeCounts(us);
      t.Count(c) == (if NamesCount(us, c) then p.Count(c) else r.Count(c))
      && t.lists == r.lists && (c in t.counts <==> c in r.counts || NamesCount(us, c))
  {
    if |us| > 0 {
      var init, u := us[..|us| - 1], us[|us| - 1];
      assert forall x :: x in us <==> x in init || x == u;
      TakeTrueCounts(r, init, p, c);
    }
  }

  lemma TakesMember(r: Replica, u: MemberUpdate, c: ID, m: ID)
    ensures r.TakeMember(u).At(c, m) == if u.channel == c && u.member == m then Says(u) else r.At(c, m)
    ensures r.TakeMember(u).counts == r.counts
  {}

  lemma NamesLast(us: seq<MemberUpdate>, p: Projection, c: ID, m: ID)
    requires |us| > 0
    ensures var init, u := us[..|us| - 1], us[|us| - 1];
      (NamesMember(us, c, m) <==> NamesMember(init, c, m) || (u.channel == c && u.member == m))
      && (TrueMembers(us, p) ==> TrueMembers(init, p) && Says(u) == Where(p, u.channel, u.member))
  {
    var init, u := us[..|us| - 1], us[|us| - 1];
    assert forall x :: x in us <==> x in init || x == u;
  }

  lemma {:induction false} TakeTrueMembers(r: Replica, us: seq<MemberUpdate>, p: Projection, c: ID, m: ID)
    requires TrueMembers(us, p)
    ensures var t := r.TakeMembers(us);
      t.At(c, m) == (if NamesMember(us, c, m) then Where(p, c, m) else r.At(c, m))
      && t.counts == r.counts
  {
    hide TrueMembers, NamesMember, Where, Replica.At, Replica.TakeMember;
    if |us| > 0 {
      var init := us[..|us| - 1];
      NamesLast(us, p, c, m);
      TakeTrueMembers(r, init, p, c, m);
      TakesMember(r.TakeMembers(init), us[|us| - 1], c, m);
    } else {
      NoNames(c, m, p);
    }
  }

  lemma TakeTruth(r: Replica, msg: Message, p: Projection, c: ID, m: ID)
    requires TrueCounts(msg.counts, p) && TrueMembers(msg.members, p)
    ensures var t := r.Take(msg);
      t.Count(c) == (if NamesCount(msg.counts, c) then p.Count(c) else r.Count(c))
      && (c in t.counts <==> c in r.counts || NamesCount(msg.counts, c))
      && t.At(c, m) == (if NamesMember(msg.members, c, m) then Where(p, c, m)
                        else if msg.snapshot && NamesCount(msg.counts, c) then Absent
                        else r.At(c, m))
  {
    hide Where, TrueCounts, TrueMembers, Replica.TakeCounts, Replica.TakeMembers;
    var s := if msg.snapshot then r.Clear(msg.counts) else r;
    TakeTrueCounts(s, msg.counts, p, c);
    TakeTrueMembers(s.TakeCounts(msg.counts), msg.members, p, c, m);
  }

  // The content of what the hub sends.

  function CountMoved(pending: map<ID, Pending>, c: ID): bool { c in pending && pending[c].countMoved }

  function UpdateHeld(pending: map<ID, Pending>, c: ID, m: ID): bool { c in pending && m in pending[c].members }

  /** What is still to be sent about m in c. */
  function PendingSays(pending: map<ID, Pending>, c: ID, m: ID): Seen
    requires UpdateHeld(pending, c, m)
  {
    Says(pending[c].members[m])
  }

  /** Every pending update still says what is true. */
  ghost predicate PendingTrue(h: Hub) {
    forall c, m :: UpdateHeld(h.pending, c, m) ==> PendingSays(h.pending, c, m) == Where(h.projection, c, m)
  }

  lemma SortedUpdatesAre(c: ID, members: map<ID, MemberUpdate>)
    requires OwnUpdates(c, members)
    ensures forall u :: u in SortedUpdates(members) <==> u.member in members && members[u.member] == u
  {
    hide ByMember;
    UpdatesOrdered(c, members);
    var s := SortedUpdates(members);
    forall u ensures u in s <==> u.member in members && members[u.member] == u {
      assert u in s <==> u in Elements(s);
    }
  }

  lemma CountsConcat(a: seq<CountUpdate>, b: seq<CountUpdate>, p: Projection, c: ID)
    ensures NamesCount(a + b, c) <==> NamesCount(a, c) || NamesCount(b, c)
    ensures TrueCounts(a, p) && TrueCounts(b, p) ==> TrueCounts(a + b, p)
  {
    if NamesCount(a, c) { var u :| u in a && u.channel == c; assert u in a + b; }
    if NamesCount(b, c) { var u :| u in b && u.channel == c; assert u in a + b; }
  }

  lemma MembersConcat(a: seq<MemberUpdate>, b: seq<MemberUpdate>, p: Projection, c: ID, m: ID)
    ensures NamesMember(a + b, c, m) <==> NamesMember(a, c, m) || NamesMember(b, c, m)
    ensures TrueMembers(a, p) && TrueMembers(b, p) ==> TrueMembers(a + b, p)
  {
    if NamesMember(a, c, m) { var u :| u in a && u.channel == c && u.member == m; assert u in a + b; }
    if NamesMember(b, c, m) { var u :| u in b && u.channel == c && u.member == m; assert u in a + b; }
  }

  lemma OneCount(c: ID, p: Projection, d: ID)
    ensures TrueCounts([CountUpdate(c, p.Count(c))], p)
    ensures NamesCount([CountUpdate(c, p.Count(c))], d) <==> c == d
  {
    if c == d { assert CountUpdate(c, p.Count(c)) in [CountUpdate(c, p.Count(c))]; }
  }

  lemma NoNames(c: ID, m: ID, p: Projection)
    ensures !NamesCount([], c) && !NamesMember([], c, m) && TrueCounts([], p) && TrueMembers([], p)
  {}

  /** The updates of one pending channel. */
  lemma ChannelUpdates(h: Hub, d: ID, c: ID, m: ID)
    requires h.Sound() && PendingTrue(h) && d in h.pending
    ensures var us := SortedUpdates(h.pending[d].members);
      TrueMembers(us, h.projection) && (NamesMember(us, c, m) <==> c == d && UpdateHeld(h.pending, c, m))
  {
    hide SortedUpdates, Where;
    var members := h.pending[d].members;
    assert OwnUpdates(d, members);
    SortedUpdatesAre(d, members);
    var us := SortedUpdates(members);
    forall u | u in us ensures Says(u) == Where(h.projection, u.channel, u.member) {
      assert UpdateHeld(h.pending, d, u.member);
    }
    if c == d && UpdateHeld(h.pending, c, m) { assert members[m] in us; }
  }

  /** A client is told, truthfully, of exactly the changed channels it can see, and of
      the members exactly where it is subscribed. */
  lemma {:induction false} MessageTells(h: Hub, sees: Sight, cl: Client, chans: seq<ID>, c: ID, m: ID)
    requires h.Sound() && PendingTrue(h)
    ensures var msg := h.MessageOver(sees, cl, chans);
      !msg.snapshot && TrueCounts(msg.counts, h.projection) && TrueMembers(msg.members, h.projection)
      && (NamesCount(msg.counts, c) <==>
            c in chans && h.Visible(sees, cl.viewer, c) && CountMoved(h.pending, c))
      && (NamesMember(msg.members, c, m) <==>
            c in chans && h.Visible(sees, cl.viewer, c) && c in cl.subscribed && UpdateHeld(h.pending, c, m))
  {
    hide Hub.Sound, PendingTrue, NamesCount, NamesMember, TrueCounts, TrueMembers, SortedUpdates, Hub.Visible;
    if |chans| > 0 {
      var init, d := chans[..|chans| - 1], chans[|chans| - 1];
      MessageTells(h, sees, cl, init, c, m);
      var msg := h.MessageOver(sees, cl, init);
      assert c in chans <==> c in init || c == d;
      if d in h.pending {
        var us := SortedUpdates(h.pending[d].members);
        OneCount(d, h.projection, c);
        CountsConcat(msg.counts, [CountUpdate(d, h.projection.Count(d))], h.projection, c);
        ChannelUpdates(h, d, c, m);
        MembersConcat(msg.members, us, h.projection, c, m);
      }
    } else {
      NoNames(c, m, h.projection);
    }
  }

  lemma {:induction false} ChangedAre(channels: seq<ID>, pending: map<ID, Pending>, c: ID)
    ensures c in Changed(channels, pending) <==> c in channels && c in pending
  {
    if |channels| > 0 {
      ChangedAre(channels[..|channels| - 1], pending, c);
      assert c in channels <==> c in channels[..|channels| - 1] || c == channels[|channels| - 1];
    }
  }

  /** What a flush tells one client about channel c and member m. */
  lemma FlushTells(h: Hub, sees: Sight, cl: Client, c: ID, m: ID)
    requires h.Sound() && PendingTrue(h)
    ensures var msg := h.MessageFor(sees, cl);
      !msg.snapshot && TrueCounts(msg.counts, h.projection) && TrueMembers(msg.members, h.projection)
      && (NamesCount(msg.counts, c) <==> h.Visible(sees, cl.viewer, c) && CountMoved(h.pending, c))
      && (NamesMember(msg.members, c, m) <==>
            h.Visible(sees, cl.viewer, c) && c in cl.subscribed && UpdateHeld(h.pending, c, m))
  {
    MessageTells(h, sees, cl, Changed(h.channels, h.pending), c, m);
    ChangedAre(h.channels, h.pending, c);
    if h.Visible(sees, cl.viewer, c) { assert c in Elements(h.channels); }
    hide *;
  }

  lemma {:induction false} SnapshotCounts(h: Hub, sees: Sight, viewer: Principal, chans: seq<ID>, c: ID)
    ensures var us := h.CountsFor(sees, viewer, chans);
      TrueCounts(us, h.projection) && (NamesCount(us, c) <==> c in chans && h.Visible(sees, viewer, c))
  {
    hide NamesCount, TrueCounts, Hub.Visible;
    if |chans| > 0 {
      var init, d := chans[..|chans| - 1], chans[|chans| - 1];
      SnapshotCounts(h, sees, viewer, init, c);
      assert c in chans <==> c in init || c == d;
      OneCount(d, h.projection, c);
      CountsConcat(h.CountsFor(sees, viewer, init), [CountUpdate(d, h.projection.Count(d))], h.projection, c);
    } else {
      NoNames(c, c, h.projection);
    }
  }

  /** The list a subscription is answered with is the channel's whole membership. */
  lemma ListTells(h: Hub, d: ID, c: ID, m: ID)
    requires h.Sound()
    ensures var us := h.ListMessage(d).members;
      TrueMembers(us, h.projection)
      && (NamesMember(us, c, m) <==> c == d && Where(h.projection, c, m) != Absent)
  {
    hide LongerPresent;
    var p := h.projection;
    OccupantsOrdered(p, d);
    var found, us := p.Occupants(d), h.ListMessage(d).members;
    assert Elements(found) == p.In(d).Values;
    forall u | u in us ensures u.channel == d && Says(u) == Where(p, d, u.member) {
      var i :| 0 <= i < |us| && us[i] == u;
      assert found[i] in Elements(found);
    }
    if c == d && Where(p, c, m) != Absent {
      assert m in p.In(d) && p.In(d)[m] in p.In(d).Values;
      assert p.present[m] in Elements(found);
      var i :| 0 <= i < |found| && found[i] == p.present[m];
      assert us[i].channel == c && us[i].member == m;
    }
  }

  // The effect of one report.

  lemma ApplyCounts(p: Projection, r: Report, c: ID)
    requires p.Exact()
    ensures var (q, ch, moved) := p.Apply(r);
      q.Count(c) == p.Count(c) || (moved && c != NoID && (c == ch.left || c == ch.joined) && ch.Moved())
  {
    hide CountsExact;
  }

  lemma ApplyWhere(p: Projection, r: Report, c: ID, m: ID)
    requires p.Exact()
    ensures var (q, ch, moved) := p.Apply(r);
      var touched := moved && c != NoID && (c == ch.left || c == ch.joined);
      (Where(q, c, m) == Where(p, c, m) || (touched && m == ch.member))
      && (touched && m == ch.member ==>
            Where(q, c, m) == if c == ch.joined then Here(ch.now) else Absent)
      && (moved && !ch.Moved() ==> ch.joined != NoID)
  {
    hide CountsExact, Incremented, Decremented;
  }

  lemma NotedEffect(pending: map<ID, Pending>, d: ID, moved: bool, u: MemberUpdate, c: ID, m: ID)
    ensures var n := Noted(pending, d, moved, u);
      CountMoved(n, c) == (CountMoved(pending, c) || (c == d && moved))
      && UpdateHeld(n, c, m) == (UpdateHeld(pending, c, m) || (c == d && m == u.member))
      && (UpdateHeld(n, c, m) ==>
            n[c].members[m] == if c == d && m == u.member then u else pending[c].members[m])
  {}

  /** After a change, pending holds the old updates overwritten by the change's own. */
  lemma NotedChangeEffect(pending: map<ID, Pending>, ch: Change, c: ID, m: ID)
    requires !ch.Moved() ==> ch.joined != NoID
    ensures var n := NotedChange(pending, ch);
      var touched := c != NoID && (c == ch.left || c == ch.joined);
      CountMoved(n, c) == (CountMoved(pending, c) || (touched && ch.Moved()))
      && UpdateHeld(n, c, m) == (UpdateHeld(pending, c, m) || (touched && m == ch.member))
      && (UpdateHeld(n, c, m) ==>
            if touched && m == ch.member then Says(n[c].members[m]) == (if c == ch.joined then Here(ch.now) else Absent)
            else n[c].members[m] == pending[c].members[m])
  {
    hide Noted;
    var gone := Gone(ch.left, ch.member);
    var came := MemberUpdate(ch.joined, ch.member, true, ch.now);
    if ch.Moved() {
      var left := if ch.left == NoID then pending else Noted(pending, ch.left, true, gone);
      NotedEffect(pending, ch.left, true, gone, c, m);
      NotedEffect(left, ch.joined, true, came, c, m);
    } else {
      NotedEffect(pending, ch.joined, false, came, c, m);
    }
  }

  // The system: a hub and the replicas of its clients.

  datatype System = System(hub: Hub, replicas: map<ClientID, Replica>)

  datatype Event =
    | AddingChannel(channel: ID)
    | Attaching(id: ClientID, viewer: Principal)
    | Detaching(id: ClientID)
    | Subscribing(id: ClientID, channel: ID)
    | Unsubscribing(id: ClientID, channel: ID)
    | Reporting(report: Report)
    | Flushing

  /** One event: what the hub does, and what each client makes of what it is sent. */
  ghost function Step(sees: Sight, s: System, e: Event): System {
    match e
    case AddingChannel(c) => System(s.hub.AddChannel(c).0, s.replicas)
    case Attaching(id, viewer) =>
      var (h, r) := s.hub.Attach(sees, id, viewer);
      System(h, if r.Sent? then s.replicas[id := BLANK.Take(r.message)] else s.replicas)
    case Detaching(id) => System(s.hub.Detach(id), s.replicas - {id})
    case Subscribing(id, c) =>
      var (h, r) := s.hub.Subscribe(sees, id, c);
      System(h, if r.Sent? && id in s.replicas then s.replicas[id := s.replicas[id].Take(r.message)] else s.replicas)
    case Unsubscribing(id, c) => System(s.hub.Unsubscribe(id, c), s.replicas)
    case Reporting(r) => System(s.hub.Apply(r).0, s.replicas)
    case Flushing =>
      var (h, ds) := s.hub.Flush(sees);
      System(h, map id | id in s.replicas :: s.replicas[id].TakeDeliveries(id, ds))
  }

  /** A client holds the truth about everything it can see that is not still pending. */
  ghost predicate Faithful(h: Hub, sees: Sight, cl: Client, rep: Replica) {
    && (forall c :: h.Visible(sees, cl.viewer, c) && !CountMoved(h.pending, c) ==>
          rep.Count(c) == h.projection.Count(c))
    && (forall c :: c in cl.subscribed ==> h.Visible(sees, cl.viewer, c))
    && (forall c, m :: c in cl.subscribed && !UpdateHeld(h.pending, c, m) ==> rep.At(c, m) == Where(h.projection, c, m))
    && (forall c :: c in rep.counts ==> c in h.known)
  }

  ghost predicate Inv(sees: Sight, s: System) {
    && s.hub.Sound() && PendingTrue(s.hub)
    && s.replicas.Keys == s.hub.clients.Keys
    && forall id :: id in s.replicas ==> Faithful(s.hub, sees, s.hub.clients[id], s.replicas[id])
  }

  /** The replica's counts are right on every visible channel, and its lists on every
      subscribed one. */
  ghost predicate Shown(h: Hub, sees: Sight, cl: Client, rep: Replica) {
    (forall c :: h.Visible(sees, cl.viewer, c) ==> rep.Count(c) == h.projection.Count(c))
    && (forall c :: c in cl.subscribed ==> rep.List(c) == h.projection.In(c))
  }

  /** Every attached client's counts and lists are the projection's. */
  ghost predicate Converged(sees: Sight, s: System) {
    s.replicas.Keys == s.hub.clients.Keys &&
    forall id :: id in s.replicas ==> Shown(s.hub, sees, s.hub.clients[id], s.replicas[id])
  }

  /** The one thing asked of the caller: a channel is added while nobody is in it, or
      while its count is still to be sent, or while no attached client can see it. */
  ghost predicate Allowed(sees: Sight, s: System, e: Event) {
    e.AddingChannel? && e.channel != NoID && e.channel !in s.hub.known ==>
      s.hub.projection.Count(e.channel) == 0 || CountMoved(s.hub.pending, e.channel)
      || forall id :: id in s.hub.clients ==> !sees(s.hub.clients[id].viewer, e.channel)
  }

  // Each event keeps the invariant.

  /** A channel more, that is empty, still to be sent, or out of the client's sight. */
  lemma FaithfulWithChannel(h: Hub, g: Hub, sees: Sight, cl: Client, rep: Replica, c: ID)
    requires Faithful(h, sees, cl, rep) && c !in h.known
    requires g.pending == h.pending && g.projection == h.projection && g.known == h.known + {c}
    requires h.projection.Count(c) == 0 || CountMoved(h.pending, c) || !sees(cl.viewer, c)
    ensures Faithful(g, sees, cl, rep)
  {
    hide Where, CountMoved, UpdateHeld;
  }

  lemma AddChannelKeeps(sees: Sight, s: System, c: ID)
    requires Inv(sees, s) && Allowed(sees, s, AddingChannel(c))
    ensures Inv(sees, Step(sees, s, AddingChannel(c)))
  {
    AddChannelSound(s.hub, c);
    if c != NoID && c !in s.hub.known {
      AddedHub(sees, s, c);
      hide Hub.Sound, Faithful, PendingTrue, Step, CountMoved, Projection.Count, Hub.AddChannel;
      var t := Step(sees, s, AddingChannel(c));
      PendingSame(s.hub, t.hub);
      forall id | id in t.replicas ensures Faithful(t.hub, sees, t.hub.clients[id], t.replicas[id]) {
        FaithfulWithChannel(s.hub, t.hub, sees, s.hub.clients[id], s.replicas[id], c);
      }
    }
  }

  lemma AddedHub(sees: Sight, s: System, c: ID)
    requires c != NoID && c !in s.hub.known
    ensures var t := Step(sees, s, AddingChannel(c));
      t.replicas == s.replicas && t.hub == s.hub.AddChannel(c).0
      && t.hub.clients == s.hub.clients && t.hub.pending == s.hub.pending && t.hub.projection == s.hub.projection
      && t.hub.known == s.hub.known + {c}
  {}

  lemma PendingSame(h: Hub, g: Hub)
    requires PendingTrue(h) && g.pending == h.pending && g.projection == h.projection
    ensures PendingTrue(g)
  {
    hide Where;
    forall d, m | UpdateHeld(g.pending, d, m)
      ensures PendingSays(g.pending, d, m) == Where(g.projection, d, m)
    { assert UpdateHeld(h.pending, d, m); }
  }

  lemma FaithfulSame(h: Hub, g: Hub, sees: Sight, cl: Client, rep: Replica)
    requires Faithful(h, sees, cl, rep)
    requires g.pending == h.pending && g.projection == h.projection && g.known == h.known
    ensures Faithful(g, sees, cl, rep)
  {
    hide Where;
  }

  /** An event that touches one client only leaves the others as faithful as they were. */
  lemma OneClient(sees: Sight, s: System, t: System, id: ClientID)
    requires Inv(sees, s) && t.hub.Sound() && Touches(s, t, id)
    requires id in t.replicas ==> id in t.hub.clients && Faithful(s.hub, sees, t.hub.clients[id], t.replicas[id])
    ensures Inv(sees, t)
  {
    hide Faithful, Hub.Sound, PendingTrue;
    PendingSame(s.hub, t.hub);
    forall i | i in t.replicas ensures Faithful(t.hub, sees, t.hub.clients[i], t.replicas[i]) {
      FaithfulSame(s.hub, t.hub, sees, t.hub.clients[i], t.replicas[i]);
    }
  }

  lemma InvFacts(sees: Sight, s: System, id: ClientID)
    requires Inv(sees, s)
    ensures s.hub.Sound() && PendingTrue(s.hub) && s.replicas.Keys == s.hub.clients.Keys
    ensures id in s.replicas ==> id in s.hub.clients && Faithful(s.hub, sees, s.hub.clients[id], s.replicas[id])
  {
    hide Hub.Sound, PendingTrue, Faithful;
  }

  lemma SnapshotFaithful(h: Hub, sees: Sight, viewer: Principal)
    requires h.Sound()
    ensures Faithful(h, sees, Client(viewer, {}), BLANK.Take(Message(true, h.CountsFor(sees, viewer, h.channels), [])))
  {
    var msg := Message(true, h.CountsFor(sees, viewer, h.channels), []);
    var rep := BLANK.Take(msg);
    forall c: ID
      ensures h.Visible(sees, viewer, c) ==> rep.Count(c) == h.projection.Count(c)
      ensures c in rep.counts ==> c in h.known
    {
      SnapshotCounts(h, sees, viewer, h.channels, c);
      NoNames(c, c, h.projection);
      TakeTruth(BLANK, msg, h.projection, c, c);
      assert h.Visible(sees, viewer, c) ==> c in Elements(h.channels);
    }
    hide Where, Replica.Take, Hub.CountsFor, Hub.Sound;
  }

  lemma AttachKeeps(sees: Sight, s: System, id: ClientID, viewer: Principal)
    requires Inv(sees, s)
    ensures Inv(sees, Step(sees, s, Attaching(id, viewer)))
  {
    hide *;
    InvFacts(sees, s, id);
    AttachSound(s.hub, sees, id, viewer);
    SnapshotFaithful(s.hub, sees, viewer);
    AttachTouches(sees, s, id, viewer);
    OneClient(sees, s, Step(sees, s, Attaching(id, viewer)), id);
  }

  /** What an event about one client leaves alone. */
  ghost predicate Touches(s: System, t: System, id: ClientID) {
    && t.hub.pending == s.hub.pending && t.hub.projection == s.hub.projection && t.hub.known == s.hub.known
    && t.replicas.Keys == t.hub.clients.Keys
    && (forall i :: i in t.replicas && i != id ==>
          i in s.replicas && t.replicas[i] == s.replicas[i]
          && i in s.hub.clients && i in t.hub.clients && t.hub.clients[i] == s.hub.clients[i])
  }

  lemma AttachTouches(sees: Sight, s: System, id: ClientID, viewer: Principal)
    requires s.replicas.Keys == s.hub.clients.Keys
    ensures var t := Step(sees, s, Attaching(id, viewer));
      Touches(s, t, id) && t.hub == s.hub.Attach(sees, id, viewer).0
      && (id in t.replicas ==> id in t.hub.clients)
      && (id in s.replicas ==> t.replicas[id] == s.replicas[id] && t.hub.clients[id] == s.hub.clients[id])
      && (id in t.replicas && id !in s.replicas ==>
            t.hub.clients[id] == Client(viewer, {})
            && t.replicas[id] == BLANK.Take(Message(true, s.hub.CountsFor(sees, viewer, s.hub.channels), [])))
  {
    hide Replica.Take, Hub.CountsFor;
  }

  lemma DetachTouches(sees: Sight, s: System, id: ClientID)
    requires s.replicas.Keys == s.hub.clients.Keys
    ensures var t := Step(sees, s, Detaching(id));
      Touches(s, t, id) && t.hub == s.hub.Detach(id) && id !in t.replicas
  {
    hide RemoveFirst;
  }

  lemma DetachKeeps(sees: Sight, s: System, id: ClientID)
    requires Inv(sees, s)
    ensures Inv(sees, Step(sees, s, Detaching(id)))
  {
    hide *;
    InvFacts(sees, s, id);
    DetachSound(s.hub, id);
    DetachTouches(sees, s, id);
    OneClient(sees, s, Step(sees, s, Detaching(id)), id);
  }

  lemma FaithfulLess(h: Hub, sees: Sight, cl: Client, rep: Replica, c: ID)
    requires Faithful(h, sees, cl, rep)
    ensures Faithful(h, sees, cl.(subscribed := cl.subscribed - {c}), rep)
  {
    hide Where;
  }

  lemma UnsubscribeTouches(sees: Sight, s: System, id: ClientID, c: ID)
    requires s.replicas.Keys == s.hub.clients.Keys
    ensures var t := Step(sees, s, Unsubscribing(id, c));
      Touches(s, t, id) && t.hub == s.hub.Unsubscribe(id, c)
      && (id in t.replicas ==>
            id in s.replicas && id in s.hub.clients && id in t.hub.clients && t.replicas[id] == s.replicas[id]
            && t.hub.clients[id] == s.hub.clients[id].(subscribed := s.hub.clients[id].subscribed - {c}))
  {}

  lemma UnsubscribeKeeps(sees: Sight, s: System, id: ClientID, c: ID)
    requires Inv(sees, s)
    ensures Inv(sees, Step(sees, s, Unsubscribing(id, c)))
  {
    hide *;
    InvFacts(sees, s, id);
    SubscribeSound(s.hub, sees, id, c);
    if id in s.replicas { FaithfulLess(s.hub, sees, s.hub.clients[id], s.replicas[id], c); }
    UnsubscribeTouches(sees, s, id, c);
    OneClient(sees, s, Step(sees, s, Unsubscribing(id, c)), id);
  }

  /** What a subscription's answer changes in the replica: the one channel's list and count. */
  lemma ListTaken(h: Hub, rep: Replica, c: ID, d: ID, m: ID)
    requires h.Sound()
    ensures var told := rep.Take(h.ListMessage(c));
      told.Count(d) == (if d == c then h.projection.Count(c) else rep.Count(d))
      && (d in told.counts <==> d in rep.counts || d == c)
      && told.At(d, m) == (if d == c then Where(h.projection, c, m) else rep.At(d, m))
  {
    ListTells(h, c, d, m);
    OneCount(c, h.projection, d);
    TakeTruth(rep, h.ListMessage(c), h.projection, d, m);
    hide Where, Replica.Take, Hub.Sound, NamesCount, NamesMember, TrueCounts, TrueMembers, Replica.At, Replica.Count;
  }

  lemma FaithfulMore(h: Hub, sees: Sight, cl: Client, rep: Replica, c: ID)
    requires h.Sound() && Faithful(h, sees, cl, rep) && h.Visible(sees, cl.viewer, c)
    ensures Faithful(h, sees, cl.(subscribed := cl.subscribed + {c}), rep.Take(h.ListMessage(c)))
  {
    hide Where, Replica.Take, Hub.ListMessage, Hub.Sound, Replica.At, Replica.Count, Projection.Count;
    var told := rep.Take(h.ListMessage(c));
    forall d
      ensures told.Count(d) == if d == c then h.projection.Count(c) else rep.Count(d)
      ensures d in told.counts <==> d in rep.counts || d == c
    {
      ListTaken(h, rep, c, d, NoID);
    }
    forall d, m ensures told.At(d, m) == if d == c then Where(h.projection, c, m) else rep.At(d, m) {
      ListTaken(h, rep, c, d, m);
    }
  }

  lemma SubscribeTouches(sees: Sight, s: System, id: ClientID, c: ID)
    requires s.replicas.Keys == s.hub.clients.Keys
    ensures var t := Step(sees, s, Subscribing(id, c));
      Touches(s, t, id) && t.hub == s.hub.Subscribe(sees, id, c).0
      && (id in t.replicas ==> id in s.replicas && id in s.hub.clients && id in t.hub.clients)
      && (id in t.replicas && s.hub.Visible(sees, s.hub.clients[id].viewer, c) ==>
            t.replicas[id] == s.replicas[id].Take(s.hub.ListMessage(c))
            && t.hub.clients[id] == s.hub.clients[id].(subscribed := s.hub.clients[id].subscribed + {c}))
      && (id in t.replicas && !s.hub.Visible(sees, s.hub.clients[id].viewer, c) ==>
            t.replicas[id] == s.replicas[id] && t.hub.clients[id] == s.hub.clients[id])
  {
    hide Replica.Take, Hub.ListMessage, Hub.Visible;
  }

  lemma SubscribeKeeps(sees: Sight, s: System, id: ClientID, c: ID)
    requires Inv(sees, s)
    ensures Inv(sees, Step(sees, s, Subscribing(id, c)))
  {
    hide *;
    InvFacts(sees, s, id);
    SubscribeSound(s.hub, sees, id, c);
    SubscribeTouches(sees, s, id, c);
    if id in s.replicas && s.hub.Visible(sees, s.hub.clients[id].viewer, c) {
      FaithfulMore(s.hub, sees, s.hub.clients[id], s.replicas[id], c);
    }
    OneClient(sees, s, Step(sees, s, Subscribing(id, c)), id);
  }

  lemma ReportKeeps(sees: Sight, s: System, r: Report)
    requires Inv(sees, s)
    ensures Inv(sees, Step(sees, s, Reporting(r)))
  {
    hide *;
    InvFacts(sees, s, "");
    ApplySound(s.hub, r);
    ApplyLeaves(s.hub, r);
    var h, g := s.hub, s.hub.Apply(r).0;
    forall c, m
      ensures UpdateHeld(g.pending, c, m) ==> PendingSays(g.pending, c, m) == Where(g.projection, c, m)
      ensures !UpdateHeld(g.pending, c, m) ==>
        !UpdateHeld(h.pending, c, m) && Where(g.projection, c, m) == Where(h.projection, c, m)
    {
      ReportEffect(h, r, c, m);
    }
    forall c
      ensures !CountMoved(g.pending, c) ==> !CountMoved(h.pending, c) && g.projection.Count(c) == h.projection.Count(c)
    {
      ReportEffect(h, r, c, NoID);
    }
    ReportFaithful(sees, s, g, r);
  }

  lemma ApplyLeaves(h: Hub, r: Report)
    ensures var g := h.Apply(r).0;
      g.known == h.known && g.clients == h.clients
  {}

  lemma ReportEffect(h: Hub, r: Report, c: ID, m: ID)
    requires h.Sound() && PendingTrue(h)
    ensures var g := h.Apply(r).0;
      (UpdateHeld(g.pending, c, m) ==> PendingSays(g.pending, c, m) == Where(g.projection, c, m))
      && (!CountMoved(g.pending, c) ==> !CountMoved(h.pending, c) && g.projection.Count(c) == h.projection.Count(c))
      && (!UpdateHeld(g.pending, c, m) ==>
            !UpdateHeld(h.pending, c, m) && Where(g.projection, c, m) == Where(h.projection, c, m))
  {
    var (q, ch, moved) := h.projection.Apply(r);
    ApplyCounts(h.projection, r, c);
    ApplyWhere(h.projection, r, c, m);
    if moved { NotedChangeEffect(h.pending, ch, c, m); }
    assert UpdateHeld(h.pending, c, m) ==> PendingSays(h.pending, c, m) == Where(h.projection, c, m);
    hide Projection.Apply, NotedChange, Where, Hub.Sound, PendingTrue, Projection.Count, CountMoved, UpdateHeld;
  }

  lemma ReportFaithful(sees: Sight, s: System, g: Hub, r: Report)
    requires Inv(sees, s) && g == s.hub.Apply(r).0 && g.Sound()
    requires g.known == s.hub.known && g.clients == s.hub.clients
    requires forall c, m :: UpdateHeld(g.pending, c, m) ==> PendingSays(g.pending, c, m) == Where(g.projection, c, m)
    requires forall c :: !CountMoved(g.pending, c) ==>
      !CountMoved(s.hub.pending, c) && g.projection.Count(c) == s.hub.projection.Count(c)
    requires forall c, m :: !UpdateHeld(g.pending, c, m) ==>
      !UpdateHeld(s.hub.pending, c, m) && Where(g.projection, c, m) == Where(s.hub.projection, c, m)
    ensures Inv(sees, Step(sees, s, Reporting(r)))
  {
    hide Hub.Apply, Where, Hub.Sound, Projection.Count, CountMoved, UpdateHeld;
  }

  // Flushing.

  lemma {:induction false} DeliveredOnce(h: Hub, sees: Sight, ids: seq<ClientID>, id: ClientID, rep: Replica)
    requires forall i, j :: 0 <= i < j < |ids| ==> ids[i] != ids[j]
    ensures rep.TakeDeliveries(id, h.DeliveriesTo(sees, ids)) ==
      if id in ids && id in h.clients && !h.MessageFor(sees, h.clients[id]).IsEmpty()
      then rep.Take(h.MessageFor(sees, h.clients[id])) else rep
  {
    hide Hub.MessageFor, Replica.Take;
    if |ids| > 0 {
      var init, last := ids[..|ids| - 1], ids[|ids| - 1];
      DeliveredOnce(h, sees, init, id, rep);
      assert id in ids <==> id in init || id == last;
      var ds := h.DeliveriesTo(sees, init);
      var all := h.DeliveriesTo(sees, ids);
      if all != ds { assert all[..|all| - 1] == ds; }
    }
  }

  lemma TakeEmpty(rep: Replica, msg: Message)
    requires msg.IsEmpty() && !msg.snapshot
    ensures rep.Take(msg) == rep
  {}

  lemma FlushTaken(h: Hub, sees: Sight, id: ClientID, rep: Replica)
    requires h.Sound() && PendingTrue(h) && id in h.clients
    ensures rep.TakeDeliveries(id, h.Flush(sees).1) == rep.Take(h.MessageFor(sees, h.clients[id]))
  {
    var msg := h.MessageFor(sees, h.clients[id]);
    FlushTells(h, sees, h.clients[id], NoID, NoID);
    if msg.IsEmpty() { TakeEmpty(rep, msg); }
    assert id in Elements(h.attached);
    DeliveredOnce(h, sees, h.attached, id, rep);
    if h.pending == map[] {
      NothingChanged(h, sees, h.clients[id], h.channels);
    }
    hide *;
  }

  lemma {:induction false} NothingChanged(h: Hub, sees: Sight, cl: Client, channels: seq<ID>)
    requires h.pending == map[]
    ensures Changed(channels, h.pending) == []
    ensures h.MessageOver(sees, cl, []) == NO_MESSAGE
  {
    if |channels| > 0 { NothingChanged(h, sees, cl, channels[..|channels| - 1]); }
  }

  /** After a flush the client holds the truth about everything it is shown. */
  lemma FlushFaithful(h: Hub, sees: Sight, cl: Client, rep: Replica, c: ID, m: ID)
    requires h.Sound() && PendingTrue(h) && Faithful(h, sees, cl, rep)
    ensures var told := rep.Take(h.MessageFor(sees, cl));
      (h.Visible(sees, cl.viewer, c) ==> told.Count(c) == h.projection.Count(c))
      && (c in cl.subscribed ==> told.At(c, m) == Where(h.projection, c, m))
      && (c in told.counts ==> c in h.known)
  {
    hide Where, Hub.Sound, PendingTrue, Hub.MessageFor, Replica.Take, Replica.At, Replica.Count, Projection.Count,
      CountMoved, UpdateHeld;
    FlushTells(h, sees, cl, c, m);
    TakeTruth(rep, h.MessageFor(sees, cl), h.projection, c, m);
  }

  /** One client over a flush: faithful, and its lists the projection's. */
  lemma FlushClient(h: Hub, sees: Sight, cl: Client, rep: Replica)
    requires h.Sound() && PendingTrue(h) && Faithful(h, sees, cl, rep)
    ensures var told := rep.Take(h.MessageFor(sees, cl));
      Faithful(h.(pending := map[]), sees, cl, told) && Shown(h.(pending := map[]), sees, cl, told)
  {
    hide Hub.Sound, PendingTrue, Where, Replica.Take, Hub.MessageFor, Replica.At, Replica.Count, Projection.Count,
      Projection.In, Replica.List;
    var told := rep.Take(h.MessageFor(sees, cl));
    forall c
      ensures h.Visible(sees, cl.viewer, c) ==> told.Count(c) == h.projection.Count(c)
      ensures c in told.counts ==> c in h.known
    { FlushFaithful(h, sees, cl, rep, c, NoID); }
    forall c, m ensures c in cl.subscribed ==> told.At(c, m) == Where(h.projection, c, m) {
      FlushFaithful(h, sees, cl, rep, c, m);
    }
    forall c | c in cl.subscribed ensures told.List(c) == h.projection.In(c) {
      SameList(told, h.projection, c);
    }
  }

  lemma FlushHub(h: Hub, sees: Sight)
    ensures h.Flush(sees).0 == h.(pending := map[])
  {}

  /** What a flush makes of one client, put together. */
  lemma FlushedClient(sees: Sight, s: System, id: ClientID)
    requires Inv(sees, s) && id in s.replicas
    ensures var t := Step(sees, s, Flushing);
      id in t.replicas && id in t.hub.clients
      && Faithful(t.hub, sees, t.hub.clients[id], t.replicas[id])
      && Shown(t.hub, sees, t.hub.clients[id], t.replicas[id])
  {
    hide *;
    InvFacts(sees, s, id);
    FlushHub(s.hub, sees);
    FlushTouches(sees, s, id);
    FlushTaken(s.hub, sees, id, s.replicas[id]);
    FlushClient(s.hub, sees, s.hub.clients[id], s.replicas[id]);
  }

  lemma FlushTouches(sees: Sight, s: System, id: ClientID)
    requires s.replicas.Keys == s.hub.clients.Keys && id in s.replicas
    ensures var t := Step(sees, s, Flushing);
      t.hub == s.hub.(pending := map[]) && t.hub.clients == s.hub.clients && t.replicas.Keys == s.replicas.Keys
      && t.replicas[id] == s.replicas[id].TakeDeliveries(id, s.hub.Flush(sees).1)
  {
    FlushHub(s.hub, sees);
    hide Replica.TakeDeliveries, Hub.Flush;
  }

  lemma FlushKeeps(sees: Sight, s: System)
    requires Inv(sees, s)
    ensures Inv(sees, Step(sees, s, Flushing)) && Converged(sees, Step(sees, s, Flushing))
  {
    hide Hub.Sound, Faithful, Hub.Flush, Shown, PendingTrue, Step;
    FlushSound(s.hub, sees);
    FlushHub(s.hub, sees);
    var t := Step(sees, s, Flushing);
    StepFlush(sees, s);
    NothingLeft(t.hub);
    forall id | id in t.replicas
      ensures Faithful(t.hub, sees, t.hub.clients[id], t.replicas[id])
      ensures Shown(t.hub, sees, t.hub.clients[id], t.replicas[id])
    {
      FlushedClient(sees, s, id);
    }
  }

  lemma StepFlush(sees: Sight, s: System)
    ensures var t := Step(sees, s, Flushing);
      t.hub == s.hub.Flush(sees).0 && t.replicas.Keys == s.replicas.Keys
  {
    hide Hub.Flush, Replica.TakeDeliveries;
  }

  lemma NothingLeft(h: Hub)
    requires h.pending == map[]
    ensures PendingTrue(h)
  {}

  lemma SameList(rep: Replica, p: Projection, c: ID)
    requires forall m :: rep.At(c, m) == Where(p, c, m)
    ensures rep.List(c) == p.In(c)
  {
    forall m: ID
      ensures m in rep.List(c) <==> m in p.In(c)
      ensures m in p.In(c) ==> rep.List(c)[m] == p.In(c)[m]
    { assert rep.At(c, m) == Where(p, c, m); }
  }

  lemma StepKeeps(sees: Sight, s: System, e: Event)
    requires Inv(sees, s) && Allowed(sees, s, e)
    ensures Inv(sees, Step(sees, s, e))
  {
    hide *;
    match e
    case AddingChannel(c) => AddChannelKeeps(sees, s, c);
    case Attaching(id, viewer) => AttachKeeps(sees, s, id, viewer);
    case Detaching(id) => DetachKeeps(sees, s, id);
    case Subscribing(id, c) => SubscribeKeeps(sees, s, id, c);
    case Unsubscribing(id, c) => UnsubscribeKeeps(sees, s, id, c);
    case Reporting(r) => ReportKeeps(sees, s, r);
    case Flushing => FlushKeeps(sees, s);
  }

  // Whole runs.

  const START := System(NEW_HUB, map[])

  ghost function Run(sees: Sight, es: seq<Event>): System {
    if |es| == 0 then START else Step(sees, Run(sees, es[..|es| - 1]), es[|es| - 1])
  }

  ghost predicate AllowedRun(sees: Sight, es: seq<Event>) {
    |es| > 0 ==>
      AllowedRun(sees, es[..|es| - 1]) && Allowed(sees, Run(sees, es[..|es| - 1]), es[|es| - 1])
  }

  lemma {:induction false} RunKeeps(sees: Sight, es: seq<Event>)
    requires AllowedRun(sees, es)
    ensures Inv(sees, Run(sees, es))
  {
    hide Step, Inv, Allowed;
    if |es| == 0 {
      StartInv(sees);
    } else {
      var init := es[..|es| - 1];
      RunKeeps(sees, init);
      StepKeeps(sees, Run(sees, init), es[|es| - 1]);
    }
  }

  lemma StartInv(sees: Sight)
    ensures Inv(sees, START)
  {
    NewHubSound();
  }

  /** Convergence: in any run in which channels are added only while empty, still to be
      sent or out of every attached client's sight, right after every flush every
      attached client's counts and lists are the projection's. */
  lemma Convergence(sees: Sight, es: seq<Event>)
    requires AllowedRun(sees, es) && |es| > 0 && es[|es| - 1] == Flushing
    ensures Converged(sees, Run(sees, es))
  {
    hide Step, Inv, Allowed, Converged;
    var init := es[..|es| - 1];
    RunKeeps(sees, init);
    FlushKeeps(sees, Run(sees, init));
  }

  /** The bound on messages: a flush sends each attached client at most one, in the
      order they attached, and never an empty one. */
  lemma {:induction false} OneMessageEach(h: Hub, sees: Sight, ids: seq<ClientID>)
    requires forall i, j :: 0 <= i < j < |ids| ==> ids[i] != ids[j]
    ensures var ds := h.DeliveriesTo(sees, ids);
      |ds| <= |ids|
      && (forall k :: 0 <= k < |ds| ==> !ds[k].message.IsEmpty() && ds[k].client in ids)
      && (forall k, l, i, j ::
            (0 <= k < l < |ds| && 0 <= i < |ids| && 0 <= j < |ids| && ids[i] == ds[k].client && ids[j] == ds[l].client)
            ==> i < j)
  {
    hide Hub.MessageFor;
    if |ids| > 0 {
      var init, last := ids[..|ids| - 1], ids[|ids| - 1];
      OneMessageEach(h, sees, init);
      var ds, all := h.DeliveriesTo(sees, init), h.DeliveriesTo(sees, ids);
      assert forall x :: x in init ==> x in ids;
      forall k, l, i, j | 0 <= k < l < |all| && 0 <= i < |ids| && 0 <= j < |ids|
          && ids[i] == all[k].client && ids[j] == all[l].client
        ensures i < j
      {
        assert all[k] == ds[k] && ds[k].client in init;
        if i < |init| { assert init[i] == ids[i]; }
        if j < |init| { assert init[j] == ids[j]; }
        if l < |ds| { assert all[l] == ds[l] && ds[l].client in init; }
      }
    }
  }

  // What the hypothesis on added channels is worth.

  /** No member is in a channel the hub does not know. */
  ghost predicate OnlyKnown(s: System) {
    forall m :: m in s.hub.projection.present ==> s.hub.projection.present[m].channel in s.hub.known
  }

  ghost predicate NamesKnown(s: System, e: Event) {
    e.Reporting? ==> e.report.channel == NoID || e.report.channel in s.hub.known
  }

  lemma OnlyKnownKept(sees: Sight, s: System, e: Event)
    requires OnlyKnown(s) && NamesKnown(s, e)
    ensures OnlyKnown(Step(sees, s, e))
  {
    if e.Reporting? {
      hide Incremented, Decremented, NotedChange;
      var p, q := s.hub.projection, s.hub.projection.Apply(e.report).0;
      assert forall m :: m in q.present ==>
        (m in p.present && q.present[m] == p.present[m]) || q.present[m].channel == e.report.channel != NoID;
    } else {
      hide *;
      SameOccupancy(sees, s, e);
      OnlyKnownGrows(s, Step(sees, s, e));
    }
  }

  lemma SameOccupancy(sees: Sight, s: System, e: Event)
    requires !e.Reporting?
    ensures Step(sees, s, e).hub.projection == s.hub.projection
    ensures s.hub.known <= Step(sees, s, e).hub.known
  {
    hide Replica.Take, Replica.TakeDeliveries, Hub.DeliveriesTo, Hub.ListMessage, Hub.CountsFor, RemoveFirst;
  }

  lemma OnlyKnownGrows(s: System, t: System)
    requires OnlyKnown(s) && t.hub.projection == s.hub.projection && s.hub.known <= t.hub.known
    ensures OnlyKnown(t)
  {}

  lemma EmptyIfUnknown(s: System, c: ID)
    requires s.hub.Sound() && OnlyKnown(s) && c !in s.hub.known
    ensures s.hub.projection.Count(c) == 0
  {
    var p := s.hub.projection;
    assert p.In(c) == map[];
    assert p.Count(c) == |p.In(c)|;
  }

  ghost predicate NamesKnownRun(sees: Sight, es: seq<Event>) {
    |es| > 0 ==>
      NamesKnownRun(sees, es[..|es| - 1]) && NamesKnown(Run(sees, es[..|es| - 1]), es[|es| - 1])
  }

  /** Reports that name known channels, or none, are enough for convergence. */
  lemma {:induction false} KnownReportsAllowed(sees: Sight, es: seq<Event>)
    requires NamesKnownRun(sees, es)
    ensures AllowedRun(sees, es) && OnlyKnown(Run(sees, es))
  {
    hide Step, NamesKnown, Inv, OnlyKnown, Allowed, Hub.Sound;
    if |es| > 0 {
      var init, e := es[..|es| - 1], es[|es| - 1];
      KnownReportsAllowed(sees, init);
      RunKeeps(sees, init);
      var s := Run(sees, init);
      InvFacts(sees, s, "");
      OnlyKnownKept(sees, s, e);
      OnlyKnownAllowed(sees, s, e);
    } else {
      NoRun(sees);
    }
  }

  lemma NoRun(sees: Sight)
    ensures AllowedRun(sees, []) && OnlyKnown(Run(sees, []))
  {}

  lemma OnlyKnownAllowed(sees: Sight, s: System, e: Event)
    requires s.hub.Sound() && OnlyKnown(s)
    ensures Allowed(sees, s, e)
  {
    if e.AddingChannel? && e.channel !in s.hub.known { EmptyIfUnknown(s, e.channel); }
  }

  /** Of one addition the hypothesis is exact: after a channel is added, the next flush leaves the
      clients converged if and only if the channel was empty, or its count was still
      to be sent, or no attached client can see it. */
  lemma AddChannelExact(sees: Sight, s: System, c: ID)
    requires Inv(sees, s) && c != NoID && c !in s.hub.known
    ensures Converged(sees, Step(sees, Step(sees, s, AddingChannel(c)), Flushing)) <==>
      s.hub.projection.Count(c) == 0 || CountMoved(s.hub.pending, c)
      || forall id :: id in s.hub.clients ==> !sees(s.hub.clients[id].viewer, c)
  {
    hide Inv, Step, Converged, CountMoved, Projection.Count;
    var t := Step(sees, s, AddingChannel(c));
    if forall id :: id in s.hub.clients ==> !sees(s.hub.clients[id].viewer, c) {
      AddChannelKeeps(sees, s, c);
      FlushKeeps(sees, t);
    } else if s.hub.projection.Count(c) == 0 || CountMoved(s.hub.pending, c) {
      AddChannelKeeps(sees, s, c);
      FlushKeeps(sees, t);
    } else {
      var id :| id in s.hub.clients && sees(s.hub.clients[id].viewer, c);
      OccupiedChannelMissed(sees, s, c, id);
    }
  }

  /** A client that can see an occupied channel is never told of it by its being added. */
  lemma OccupiedChannelMissed(sees: Sight, s: System, c: ID, id: ClientID)
    requires Inv(sees, s) && c != NoID && c !in s.hub.known
    requires s.hub.projection.Count(c) != 0 && !CountMoved(s.hub.pending, c)
    requires id in s.hub.clients && sees(s.hub.clients[id].viewer, c)
    ensures !Converged(sees, Step(sees, Step(sees, s, AddingChannel(c)), Flushing))
  {
    hide *;
    InvFacts(sees, s, id);
    AddChannelSound(s.hub, c);
    AddedHub(sees, s, c);
    var t := Step(sees, s, AddingChannel(c));
    var u := Step(sees, t, Flushing);
    PendingSame(s.hub, t.hub);
    var cl, rep := t.hub.clients[id], t.replicas[id];
    FlushTouches(sees, t, id);
    FlushTaken(t.hub, sees, id, rep);
    FlushTells(t.hub, sees, cl, c, NoID);
    TakeTruth(rep, t.hub.MessageFor(sees, cl), t.hub.projection, c, NoID);
    UnknownIsBlank(s.hub, sees, cl, rep, c);
    NotConverged(sees, u, id, c);
  }

  lemma UnknownIsBlank(h: Hub, sees: Sight, cl: Client, rep: Replica, c: ID)
    requires Faithful(h, sees, cl, rep) && c !in h.known
    ensures rep.Count(c) == 0
  {
    hide Where;
  }

  lemma NotConverged(sees: Sight, u: System, id: ClientID, c: ID)
    requires id in u.replicas && id in u.hub.clients
    requires c in u.hub.known && sees(u.hub.clients[id].viewer, c)
    requires u.replicas[id].Count(c) != u.hub.projection.Count(c)
    ensures !Converged(sees, u)
  {
    hide Replica.Count, Projection.Count, Replica.List, Projection.In;
    assert u.hub.Visible(sees, u.hub.clients[id].viewer, c);
  }
}
