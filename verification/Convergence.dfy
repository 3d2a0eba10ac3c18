/** Exactly when a run leaves its clients converged: which client is owed the count of
    which channel, because the channel was added to its sight while occupied. */
module Convergences {
  import opened Ids
  import opened Presences
  import opened Hubs
  import opened Replicas

  /** A client and a channel it can see but was never told the count of. */
  type Debt = (ClientID, ID)

  /** The clients that can see c. */
  ghost function Watchers(sees: Sight, h: Hub, c: ID): set<ClientID> {
    set id | id in h.clients && sees(h.clients[id].viewer, c)
  }

  /** What is owed after one more event: an occupied channel is owed to every client in
      whose sight it is added, until that client is told, asks, or goes. */
  ghost function OwedAfter(sees: Sight, h: Hub, owed: set<Debt>, e: Event): set<Debt> {
    match e
    case AddingChannel(c) =>
      if c == NoID || c in h.known || h.projection.Count(c) == 0 then owed
      else owed + set id | id in Watchers(sees, h, c) :: (id, c)
    case Detaching(id) => set d | d in owed && d.0 != id
    case Subscribing(id, c) =>
      if id in h.clients && h.Visible(sees, h.clients[id].viewer, c) then owed - {(id, c)} else owed
    case Flushing => set d | d in owed && !CountMoved(h.pending, d.1)
    case _ => owed
  }

  ghost function Owed(sees: Sight, es: seq<Event>): set<Debt> {
    if |es| == 0 then {}
    else
      var init := es[..|es| - 1];
      OwedAfter(sees, Run(sees, init).hub, Owed(sees, init), es[|es| - 1])
  }

  // The same run, in which every client is told the count of a channel as it is added.

  ghost function Told(sees: Sight, h: Hub, rep: Replica, id: ClientID, c: ID): Replica {
    if id in Watchers(sees, h, c) then rep.(counts := rep.counts[c := h.projection.Count(c)]) else rep
  }

  ghost function Tell(sees: Sight, h: Hub, c: ID, replicas: map<ClientID, Replica>): map<ClientID, Replica> {
    map id | id in replicas :: Told(sees, h, replicas[id], id, c)
  }

  ghost function InformedStep(sees: Sight, s: System, e: Event): System {
    var t := Step(sees, s, e);
    if e.AddingChannel? && e.channel != NoID && e.channel !in s.hub.known
    then System(t.hub, Tell(sees, s.hub, e.channel, t.replicas)) else t
  }

  ghost function Informed(sees: Sight, es: seq<Event>): System {
    if |es| == 0 then START else InformedStep(sees, Informed(sees, es[..|es| - 1]), es[|es| - 1])
  }

  lemma FaithfulTold(h: Hub, g: Hub, sees: Sight, cl: Client, rep: Replica, c: ID)
    requires Faithful(h, sees, cl, rep) && c !in h.known
    requires g.pending == h.pending && g.projection == h.projection && g.known == h.known + {c}
    ensures Faithful(g, sees, cl, rep.(counts := rep.counts[c := h.projection.Count(c)]))
  {
    hide Where, CountMoved, UpdateHeld, Projection.Count;
    var told := rep.(counts := rep.counts[c := h.projection.Count(c)]);
    forall d, m ensures told.At(d, m) == rep.At(d, m) {}
  }

  lemma InformedHub(sees: Sight, s: System, c: ID)
    requires c != NoID && c !in s.hub.known && s.replicas.Keys == s.hub.clients.Keys
    ensures var t := InformedStep(sees, s, AddingChannel(c));
      t.hub == s.hub.AddChannel(c).0 && t.hub.clients == s.hub.clients && t.hub.pending == s.hub.pending
      && t.hub.projection == s.hub.projection && t.hub.known == s.hub.known + {c}
      && t.replicas.Keys == s.replicas.Keys
      && forall id :: id in s.replicas ==> t.replicas[id] == Told(sees, s.hub, s.replicas[id], id, c)
  {
    AddedHub(sees, s, c);
    hide Step, Told, Hub.AddChannel;
  }

  /** An informed client's replica stays faithful whatever is added. */
  lemma InformedAdds(sees: Sight, s: System, c: ID)
    requires Inv(sees, s) && c != NoID && c !in s.hub.known
    ensures Inv(sees, InformedStep(sees, s, AddingChannel(c)))
  {
    var t := InformedStep(sees, s, AddingChannel(c));
    AddChannelSound(s.hub, c);
    InformedHub(sees, s, c);
    hide Hub.Sound, Faithful, PendingTrue, InformedStep, CountMoved, Projection.Count, Hub.AddChannel;
    PendingSame(s.hub, t.hub);
    forall id | id in t.replicas ensures Faithful(t.hub, sees, t.hub.clients[id], t.replicas[id]) {
      if id in Watchers(sees, s.hub, c) {
        FaithfulTold(s.hub, t.hub, sees, s.hub.clients[id], s.replicas[id], c);
      } else {
        FaithfulWithChannel(s.hub, t.hub, sees, s.hub.clients[id], s.replicas[id], c);
      }
    }
  }

  lemma InformedKeeps(sees: Sight, s: System, e: Event)
    requires Inv(sees, s)
    ensures Inv(sees, InformedStep(sees, s, e))
  {
    hide Inv, Step;
    if e.AddingChannel? && e.channel != NoID && e.channel !in s.hub.known {
      InformedAdds(sees, s, e.channel);
    } else {
      StepKeeps(sees, s, e);
    }
  }

  // How far a client trails the informed one: exactly by what it is owed.

  ghost predicate Trails(rep: Replica, full: Replica, owed: set<Debt>, id: ClientID) {
    rep.lists == full.lists
    && forall c :: if (id, c) in owed then rep.Count(c) == 0 != full.Count(c) else rep.Count(c) == full.Count(c)
  }

  ghost predicate AllTrail(sees: Sight, s: System, full: System, owed: set<Debt>) {
    s.hub == full.hub && s.replicas.Keys == full.replicas.Keys == s.hub.clients.Keys
    && (forall id :: id in s.replicas ==> Trails(s.replicas[id], full.replicas[id], owed, id))
    && (forall id, c :: (id, c) in owed ==> id in s.hub.clients && s.hub.Visible(sees, s.hub.clients[id].viewer, c))
  }

  lemma {:induction false} TakeMembersLists(rep: Replica, full: Replica, us: seq<MemberUpdate>)
    requires rep.lists == full.lists
    ensures rep.TakeMembers(us).lists == full.TakeMembers(us).lists
  {
    if |us| > 0 { TakeMembersLists(rep, full, us[..|us| - 1]); }
  }

  lemma {:induction false} TakeCountsLists(rep: Replica, us: seq<CountUpdate>)
    ensures rep.TakeCounts(us).lists == rep.lists
  {
    if |us| > 0 { TakeCountsLists(rep, us[..|us| - 1]); }
  }

  lemma TakeLists(rep: Replica, full: Replica, msg: Message)
    requires rep.lists == full.lists
    ensures rep.Take(msg).lists == full.Take(msg).lists
  {
    var r := if msg.snapshot then rep.Clear(msg.counts) else rep;
    var f := if msg.snapshot then full.Clear(msg.counts) else full;
    TakeCountsLists(r, msg.counts);
    TakeCountsLists(f, msg.counts);
    TakeMembersLists(r.TakeCounts(msg.counts), f.TakeCounts(msg.counts), msg.members);
  }

  /** Folding one true message: what it names is no longer owed. */
  lemma TakeTrails(
    rep: Replica, full: Replica, msg: Message, p: Projection, owed: set<Debt>, left: set<Debt>, id: ClientID)
    requires Trails(rep, full, owed, id) && TrueCounts(msg.counts, p) && TrueMembers(msg.members, p)
    requires forall c :: (id, c) in left <==> (id, c) in owed && !NamesCount(msg.counts, c)
    ensures Trails(rep.Take(msg), full.Take(msg), left, id)
  {
    hide Replica.Take, Replica.Count, Projection.Count, TrueCounts, TrueMembers, NamesCount, Where;
    TakeLists(rep, full, msg);
    forall c
      ensures var r, f := rep.Take(msg).Count(c), full.Take(msg).Count(c);
        if (id, c) in left then r == 0 != f else r == f
    {
      TakeTruth(rep, msg, p, c, NoID);
      TakeTruth(full, msg, p, c, NoID);
    }
  }

  // Each event.

  lemma TrailFacts(sees: Sight, s: System, full: System, owed: set<Debt>, id: ClientID, c: ID)
    requires AllTrail(sees, s, full, owed)
    ensures s.hub == full.hub && s.replicas.Keys == full.replicas.Keys == s.hub.clients.Keys
    ensures id in s.replicas ==> Trails(s.replicas[id], full.replicas[id], owed, id)
    ensures (id, c) in owed ==> id in s.hub.clients && s.hub.Visible(sees, s.hub.clients[id].viewer, c)
  {
    hide Trails, Hub.Visible;
  }

  lemma AddShape(sees: Sight, s: System, full: System, c: ID)
    requires s.hub == full.hub && c != NoID && c !in s.hub.known
    ensures var t, u := Step(sees, s, AddingChannel(c)), InformedStep(sees, full, AddingChannel(c));
      t.hub == u.hub && t.hub.clients == s.hub.clients && t.hub.known == s.hub.known + {c}
      && t.replicas == s.replicas && u.replicas == Tell(sees, s.hub, c, full.replicas)
  {
    AddedHub(sees, s, c);
    AddedHub(sees, full, c);
    hide Step, Tell, Hub.AddChannel;
  }

  lemma OwedOn(sees: Sight, h: Hub, owed: set<Debt>, id: ClientID, c: ID, d: ID)
    requires c != NoID && c !in h.known
    ensures (id, d) in OwedAfter(sees, h, owed, AddingChannel(c)) <==>
      (id, d) in owed || (d == c && id in Watchers(sees, h, c) && h.projection.Count(c) != 0)
  {
    hide Projection.Count, Watchers;
  }

  lemma AddTrails(sees: Sight, s: System, full: System, owed: set<Debt>, c: ID)
    requires Inv(sees, full) && AllTrail(sees, s, full, owed)
    requires c != NoID && c !in s.hub.known
    ensures var e := AddingChannel(c);
      AllTrail(sees, Step(sees, s, e), InformedStep(sees, full, e), OwedAfter(sees, s.hub, owed, e))
  {
    hide *;
    var e := AddingChannel(c);
    var t, u, left := Step(sees, s, e), InformedStep(sees, full, e), OwedAfter(sees, s.hub, owed, e);
    TrailFacts(sees, s, full, owed, "", c);
    AddShape(sees, s, full, c);
    TellAll(sees, s.hub, c, full.replicas);
    forall id | id in t.replicas ensures Trails(t.replicas[id], u.replicas[id], left, id) {
      TrailFacts(sees, s, full, owed, id, c);
      InvFacts(sees, full, id);
      UnknownIsBlank(full.hub, sees, full.hub.clients[id], full.replicas[id], c);
      if (id, c) in owed { VisibleKnown(s.hub, sees, s.hub.clients[id].viewer, c); }
      AddedTrails(sees, s.hub, s.replicas[id], full.replicas[id], owed, left, id, c);
    }
    forall id, d | (id, d) in left ensures id in t.hub.clients && t.hub.Visible(sees, t.hub.clients[id].viewer, d) {
      TrailFacts(sees, s, full, owed, id, d);
      OwedOn(sees, s.hub, owed, id, c, d);
      if (id, d) in owed {
        VisibleSame(s.hub, t.hub, sees, s.hub.clients[id].viewer, d);
      } else {
        Watching(sees, s.hub, t.hub, id, c);
      }
    }
    MakeAllTrail(sees, t, u, left);
  }

  lemma TellAll(sees: Sight, h: Hub, c: ID, replicas: map<ClientID, Replica>)
    ensures var told := Tell(sees, h, c, replicas);
      told.Keys == replicas.Keys && forall id :: id in replicas ==> told[id] == Told(sees, h, replicas[id], id, c)
  {
    hide Watchers, Projection.Count;
  }

  lemma VisibleKnown(h: Hub, sees: Sight, viewer: Principal, c: ID)
    requires h.Visible(sees, viewer, c)
    ensures c in h.known
  {}

  lemma Watching(sees: Sight, h: Hub, g: Hub, id: ClientID, c: ID)
    requires id in Watchers(sees, h, c) && g.clients == h.clients && c in g.known
    ensures id in g.clients && g.Visible(sees, g.clients[id].viewer, c)
  {}

  lemma AddedTrails(
    sees: Sight, h: Hub, rep: Replica, full: Replica, owed: set<Debt>, left: set<Debt>, id: ClientID, c: ID)
    requires Trails(rep, full, owed, id) && (id, c) !in owed && full.Count(c) == 0
    requires c != NoID && c !in h.known && left == OwedAfter(sees, h, owed, AddingChannel(c))
    ensures Trails(rep, Told(sees, h, full, id, c), left, id)
  {
    hide OwedAfter, Projection.Count, Watchers;
    forall d ensures (id, d) in left <==>
        (id, d) in owed || (d == c && id in Watchers(sees, h, c) && h.projection.Count(c) != 0)
    {
      OwedOn(sees, h, owed, id, c, d);
    }
    assert forall d :: d != c ==> Told(sees, h, full, id, c).Count(d) == full.Count(d);
  }

  lemma MakeAllTrail(sees: Sight, s: System, full: System, owed: set<Debt>)
    requires s.hub == full.hub && s.replicas.Keys == full.replicas.Keys == s.hub.clients.Keys
    requires forall id :: id in s.replicas ==> Trails(s.replicas[id], full.replicas[id], owed, id)
    requires forall id, c :: (id, c) in owed ==>
      id in s.hub.clients && s.hub.Visible(sees, s.hub.clients[id].viewer, c)
    ensures AllTrail(sees, s, full, owed)
  {
    hide Trails, Hub.Visible;
  }

  /** Nobody goes but who detaches, and everybody keeps their principal. */
  lemma ClientsStay(sees: Sight, s: System, e: Event, id: ClientID)
    requires id in s.hub.clients && e != Detaching(id)
    ensures var g := Step(sees, s, e).hub; id in g.clients && g.clients[id].viewer == s.hub.clients[id].viewer
  {
    hide Replica.Take, Replica.TakeDeliveries, Hub.DeliveriesTo, Hub.ListMessage, Hub.CountsFor, RemoveFirst;
    hide Projection.Apply;
  }

  /** An event about one client leaves the others trailing by what they were owed. */
  lemma OneTrails(sees: Sight, s: System, full: System, e: Event, owed: set<Debt>, left: set<Debt>, id: ClientID)
    requires AllTrail(sees, s, full, owed)
    requires var t, u := Step(sees, s, e), Step(sees, full, e);
      Touches(s, t, id) && Touches(full, u, id) && t.hub == u.hub
      && (id in t.replicas ==> Trails(t.replicas[id], u.replicas[id], left, id))
    requires left <= owed && forall i, c :: i != id && (i, c) in owed ==> (i, c) in left
    requires forall i, c :: (i, c) in left ==> e != Detaching(i)
    ensures AllTrail(sees, Step(sees, s, e), Step(sees, full, e), left)
  {
    var t, u := Step(sees, s, e), Step(sees, full, e);
    hide Replica.Count, AllTrail, Step;
    TrailFacts(sees, s, full, owed, id, NoID);
    forall i | i in t.replicas ensures Trails(t.replicas[i], u.replicas[i], left, i) {
      TrailFacts(sees, s, full, owed, i, NoID);
      if i != id { assert forall c :: (i, c) in owed <==> (i, c) in left; }
    }
    forall i, c | (i, c) in left ensures i in t.hub.clients && t.hub.Visible(sees, t.hub.clients[i].viewer, c) {
      TrailFacts(sees, s, full, owed, i, c);
      ClientsStay(sees, s, e, i);
    }
    MakeAllTrail(sees, t, u, left);
  }

  lemma FlushTrails(sees: Sight, s: System, full: System, owed: set<Debt>)
    requires Inv(sees, full) && AllTrail(sees, s, full, owed)
    ensures AllTrail(sees, Step(sees, s, Flushing), Step(sees, full, Flushing), OwedAfter(sees, s.hub, owed, Flushing))
  {
    var h := s.hub;
    var t, u, left := Step(sees, s, Flushing), Step(sees, full, Flushing), OwedAfter(sees, h, owed, Flushing);
    TrailFacts(sees, s, full, owed, "", NoID);
    InvFacts(sees, full, "");
    FlushHub(h, sees);
    StepFlush(sees, s);
    StepFlush(sees, full);
    assert forall d :: d in left <==> d in owed && !CountMoved(h.pending, d.1);
    hide *;
    forall id | id in t.replicas ensures Trails(t.replicas[id], u.replicas[id], left, id) {
      TrailFacts(sees, s, full, owed, id, NoID);
      FlushTouches(sees, s, id);
      FlushTouches(sees, full, id);
      FlushTaken(h, sees, id, s.replicas[id]);
      FlushTaken(h, sees, id, full.replicas[id]);
      var msg := h.MessageFor(sees, h.clients[id]);
      forall c ensures (id, c) in left <==> (id, c) in owed && !NamesCount(msg.counts, c) {
        FlushTells(h, sees, h.clients[id], c, NoID);
        TrailFacts(sees, s, full, owed, id, c);
      }
      FlushTells(h, sees, h.clients[id], NoID, NoID);
      TakeTrails(s.replicas[id], full.replicas[id], msg, h.projection, owed, left, id);
    }
    forall id, d | (id, d) in left ensures id in t.hub.clients && t.hub.Visible(sees, t.hub.clients[id].viewer, d) {
      TrailFacts(sees, s, full, owed, id, d);
      VisibleSame(h, t.hub, sees, h.clients[id].viewer, d);
    }
    MakeAllTrail(sees, t, u, left);
  }

  lemma VisibleSame(h: Hub, g: Hub, sees: Sight, viewer: Principal, c: ID)
    requires h.Visible(sees, viewer, c) && h.known <= g.known
    ensures g.Visible(sees, viewer, c)
  {}

  lemma ReportTrails(sees: Sight, s: System, full: System, owed: set<Debt>, r: Report)
    requires AllTrail(sees, s, full, owed)
    ensures AllTrail(sees, Step(sees, s, Reporting(r)), Step(sees, full, Reporting(r)), owed)
  {
    hide Trails, Hub.Apply;
    ApplyLeaves(s.hub, r);
  }

  lemma AttachTrails(sees: Sight, s: System, full: System, owed: set<Debt>, id: ClientID, viewer: Principal)
    requires AllTrail(sees, s, full, owed)
    ensures var e := Attaching(id, viewer); AllTrail(sees, Step(sees, s, e), Step(sees, full, e), owed)
  {
    var t, u := Step(sees, s, Attaching(id, viewer)), Step(sees, full, Attaching(id, viewer));
    TrailFacts(sees, s, full, owed, id, NoID);
    AttachTouches(sees, s, id, viewer);
    AttachTouches(sees, full, id, viewer);
    hide *;
    forall c ensures (id, c) in owed ==> id in s.replicas { TrailFacts(sees, s, full, owed, id, c); }
    if id in t.replicas && id !in s.replicas { NothingOwed(t.replicas[id], owed, id); }
    if id in s.replicas { TrailFacts(sees, s, full, owed, id, NoID); }
    OneTrails(sees, s, full, Attaching(id, viewer), owed, owed, id);
  }

  lemma NothingOwed(rep: Replica, owed: set<Debt>, id: ClientID)
    requires forall c :: (id, c) !in owed
    ensures Trails(rep, rep, owed, id)
  {}

  lemma DetachTrails(sees: Sight, s: System, full: System, owed: set<Debt>, id: ClientID)
    requires AllTrail(sees, s, full, owed)
    ensures var e := Detaching(id);
      AllTrail(sees, Step(sees, s, e), Step(sees, full, e), OwedAfter(sees, s.hub, owed, e))
  {
    var e := Detaching(id);
    var left := OwedAfter(sees, s.hub, owed, e);
    assert left <= owed && forall i, c :: (i, c) in left <==> (i, c) in owed && i != id;
    TrailFacts(sees, s, full, owed, id, NoID);
    DetachTouches(sees, s, id);
    DetachTouches(sees, full, id);
    hide *;
    OneTrails(sees, s, full, e, owed, left, id);
  }

  lemma UnsubscribeTrails(sees: Sight, s: System, full: System, owed: set<Debt>, id: ClientID, c: ID)
    requires AllTrail(sees, s, full, owed)
    ensures var e := Unsubscribing(id, c); AllTrail(sees, Step(sees, s, e), Step(sees, full, e), owed)
  {
    TrailFacts(sees, s, full, owed, id, NoID);
    UnsubscribeTouches(sees, s, id, c);
    UnsubscribeTouches(sees, full, id, c);
    hide *;
    OneTrails(sees, s, full, Unsubscribing(id, c), owed, owed, id);
  }

  lemma OwedAsked(sees: Sight, h: Hub, owed: set<Debt>, id: ClientID, c: ID)
    ensures OwedAfter(sees, h, owed, Subscribing(id, c)) ==
      if id in h.clients && h.Visible(sees, h.clients[id].viewer, c) then owed - {(id, c)} else owed
  {}

  lemma SubscribeTrails(sees: Sight, s: System, full: System, owed: set<Debt>, id: ClientID, c: ID)
    requires Inv(sees, full) && AllTrail(sees, s, full, owed)
    ensures var e := Subscribing(id, c);
      AllTrail(sees, Step(sees, s, e), Step(sees, full, e), OwedAfter(sees, s.hub, owed, e))
  {
    hide *;
    var e := Subscribing(id, c);
    var h, left := s.hub, OwedAfter(sees, s.hub, owed, e);
    OwedAsked(sees, h, owed, id, c);
    TrailFacts(sees, s, full, owed, id, NoID);
    InvFacts(sees, full, id);
    SubscribeTouches(sees, s, id, c);
    SubscribeTouches(sees, full, id, c);
    SameKeys(s, Step(sees, s, e), full, Step(sees, full, e), id);
    if id in s.replicas && h.Visible(sees, h.clients[id].viewer, c) {
      AnswerTrails(sees, h, s.replicas[id], full.replicas[id], owed, left, id, c);
    }
    OneTrails(sees, s, full, e, owed, left, id);
  }

  lemma SameKeys(s: System, t: System, full: System, u: System, id: ClientID)
    requires Touches(s, t, id) && Touches(full, u, id) && t.hub == u.hub
    ensures t.replicas.Keys == u.replicas.Keys
  {}

  lemma AnswerTrails(
    sees: Sight, h: Hub, rep: Replica, full: Replica, owed: set<Debt>, left: set<Debt>, id: ClientID, c: ID)
    requires h.Sound() && Trails(rep, full, owed, id) && left == owed - {(id, c)}
    ensures Trails(rep.Take(h.ListMessage(c)), full.Take(h.ListMessage(c)), left, id)
  {
    var msg := h.ListMessage(c);
    assert msg.counts == [CountUpdate(c, h.projection.Count(c))];
    ListTells(h, c, c, NoID);
    hide *;
    OneCount(c, h.projection, c);
    forall d ensures (id, d) in left <==> (id, d) in owed && !NamesCount(msg.counts, d) {
      OneCount(c, h.projection, d);
    }
    TakeTrails(rep, full, msg, h.projection, owed, left, id);
  }

  lemma StepTrails(sees: Sight, s: System, full: System, owed: set<Debt>, e: Event)
    requires Inv(sees, full) && AllTrail(sees, s, full, owed)
    ensures AllTrail(sees, Step(sees, s, e), InformedStep(sees, full, e), OwedAfter(sees, s.hub, owed, e))
  {
    TrailFacts(sees, s, full, owed, "", NoID);
    if e.AddingChannel? && e.channel != NoID && e.channel !in s.hub.known {
      hide *;
      AddTrails(sees, s, full, owed, e.channel);
    } else {
      hide AllTrail, Inv, Step, CountMoved, Hub.Visible;
      match e
      case AddingChannel(c) => RefusedTrails(sees, s, full, owed, c);
      case Attaching(id, viewer) => AttachTrails(sees, s, full, owed, id, viewer);
      case Detaching(id) => DetachTrails(sees, s, full, owed, id);
      case Subscribing(id, c) => SubscribeTrails(sees, s, full, owed, id, c);
      case Unsubscribing(id, c) => UnsubscribeTrails(sees, s, full, owed, id, c);
      case Reporting(r) => ReportTrails(sees, s, full, owed, r);
      case Flushing => FlushTrails(sees, s, full, owed);
    }
  }

  lemma RefusedTrails(sees: Sight, s: System, full: System, owed: set<Debt>, c: ID)
    requires AllTrail(sees, s, full, owed) && (c == NoID || c in s.hub.known)
    ensures var e := AddingChannel(c); AllTrail(sees, Step(sees, s, e), Step(sees, full, e), owed)
  {
    hide Trails;
  }

  // Whole runs.

  lemma {:induction false} RunTrails(sees: Sight, es: seq<Event>)
    ensures Inv(sees, Informed(sees, es)) && AllTrail(sees, Run(sees, es), Informed(sees, es), Owed(sees, es))
  {
    hide Inv, AllTrail, Step, InformedStep, OwedAfter;
    if |es| == 0 {
      StartInv(sees);
      StartTrails(sees);
    } else {
      var init, e := es[..|es| - 1], es[|es| - 1];
      RunTrails(sees, init);
      InformedKeeps(sees, Informed(sees, init), e);
      StepTrails(sees, Run(sees, init), Informed(sees, init), Owed(sees, init), e);
    }
  }

  lemma StartTrails(sees: Sight)
    ensures AllTrail(sees, START, START, {})
  {}

  /** A client's counts are right on what it sees exactly if nothing is owed to it. */
  lemma ShownExact(sees: Sight, h: Hub, cl: Client, rep: Replica, full: Replica, owed: set<Debt>, id: ClientID)
    requires Shown(h, sees, cl, full) && Trails(rep, full, owed, id)
    requires forall c :: (id, c) in owed ==> h.Visible(sees, cl.viewer, c)
    ensures Shown(h, sees, cl, rep) <==> forall c :: (id, c) !in owed
  {
    hide Hub.Visible, Projection.Count, Projection.In, Replica.Count;
    if c :| (id, c) in owed { assert rep.Count(c) != full.Count(c); }
  }

  /** Whatever happens in a run, a flush at its end leaves every client converged if and
      only if no client is owed a count. */
  lemma ConvergenceExact(sees: Sight, es: seq<Event>)
    requires |es| > 0 && es[|es| - 1] == Flushing
    ensures Converged(sees, Run(sees, es)) <==> Owed(sees, es) == {}
  {
    var init := es[..|es| - 1];
    hide Inv, AllTrail, Step, OwedAfter, Trails, Shown, Hub.Visible;
    RunTrails(sees, es);
    RunTrails(sees, init);
    FlushKeeps(sees, Informed(sees, init));
    var s, full, owed := Run(sees, es), Informed(sees, es), Owed(sees, es);
    assert full == Step(sees, Informed(sees, init), Flushing);
    TrailFacts(sees, s, full, owed, "", NoID);
    forall id | id in s.replicas
      ensures Shown(s.hub, sees, s.hub.clients[id], s.replicas[id]) <==> forall c :: (id, c) !in owed
    {
      TrailFacts(sees, s, full, owed, id, NoID);
      forall c | (id, c) in owed ensures s.hub.Visible(sees, s.hub.clients[id].viewer, c) {
        TrailFacts(sees, s, full, owed, id, c);
      }
      ShownExact(sees, s.hub, s.hub.clients[id], s.replicas[id], full.replicas[id], owed, id);
    }
    forall d | d in owed ensures d.0 in s.replicas { TrailFacts(sees, s, full, owed, d.0, d.1); }
    if owed != {} {
      var d :| d in owed;
      assert d == (d.0, d.1);
    }
  }

  // A run that fails.

  lemma RunOne(sees: Sight, es: seq<Event>, e: Event)
    ensures Run(sees, es + [e]) == Step(sees, Run(sees, es), e)
    ensures Owed(sees, es + [e]) == OwedAfter(sees, Run(sees, es).hub, Owed(sees, es), e)
  {
    hide Step, OwedAfter;
    assert (es + [e])[..|es|] == es;
  }

  /** A client attaches, a member is reported into a channel the hub does not know, an
      interval ends. */
  function Beforehand(id: ClientID, viewer: Principal, r: Report): seq<Event> {
    [] + [Attaching(id, viewer)] + [Reporting(r)] + [Flushing]
  }

  lemma OccupiedUnknown(sees: Sight, id: ClientID, viewer: Principal, r: Report)
    requires id != "" && viewer.id != NoID && WellFormed(r) && r.channel != NoID
    ensures var h := Run(sees, Beforehand(id, viewer, r)).hub;
      h.known == {} && h.clients == map[id := Client(viewer, {})] && h.projection.Count(r.channel) == 1
      && Owed(sees, Beforehand(id, viewer, r)) == {}
  {
    var a := [] + [Attaching(id, viewer)];
    RunOne(sees, [], Attaching(id, viewer));
    RunOne(sees, a, Reporting(r));
    RunOne(sees, a + [Reporting(r)], Flushing);
    var h := Run(sees, a).hub;
    assert h == NEW_HUB.(clients := map[id := Client(viewer, {})], attached := [id]);
    hide Run, Owed, Replica.Take, Replica.TakeDeliveries;
    var g := Run(sees, a + [Reporting(r)]).hub;
    assert g == h.Apply(r).0;
    assert g.projection.Count(r.channel) == 1 && g.known == {} && g.clients == h.clients;
    hide Hub.Apply;
    FlushHub(g, sees);
    StepFlush(sees, Run(sees, a + [Reporting(r)]));
  }

  /** Then the channel is added, and the next interval ends with the client, who may see
      it, still showing it empty: a run from the start that does not converge. */
  lemma FailingRun(sees: Sight, id: ClientID, viewer: Principal, r: Report)
    requires id != "" && viewer.id != NoID && WellFormed(r) && r.channel != NoID && sees(viewer, r.channel)
    ensures !Converged(sees, Run(sees, Beforehand(id, viewer, r) + [AddingChannel(r.channel)] + [Flushing]))
  {
    var before, c := Beforehand(id, viewer, r), r.channel;
    OccupiedUnknown(sees, id, viewer, r);
    RunOne(sees, before, AddingChannel(c));
    RunOne(sees, before + [AddingChannel(c)], Flushing);
    StillFlushed(sees, before, c);
    hide Run, Owed, Converged, Beforehand, Projection.Count;
    assert (id, c) in Owed(sees, before + [AddingChannel(c)]) by { OwedOn(sees, Run(sees, before).hub, {}, id, c, c); }
    ConvergenceExact(sees, before + [AddingChannel(c)] + [Flushing]);
  }

  lemma StillFlushed(sees: Sight, es: seq<Event>, c: ID)
    requires |es| > 0 && es[|es| - 1] == Flushing
    ensures Run(sees, es + [AddingChannel(c)]).hub.pending == map[]
  {
    RunOne(sees, es, AddingChannel(c));
    StepFlush(sees, Run(sees, es[..|es| - 1]));
    FlushHub(Run(sees, es[..|es| - 1]).hub, sees);
    hide Hub.Flush, Replica.TakeDeliveries;
  }
}
