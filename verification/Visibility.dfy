/** What a client learns depends on nothing it cannot see: two hubs that differ only
    in channels hidden from a viewer answer and push the same to it, for ever. */
module Visibility {
  import opened Listings
  import opened Ids
  import opened Presences
  import opened Hubs
  import opened Replicas

  /** A channel the viewer's grants show it. */
  predicate Open(sees: Sight, v: Principal, c: ID) { c != NoID && sees(v, c) }

  function OpenOnly(sees: Sight, v: Principal, chans: seq<ID>): seq<ID> {
    if |chans| == 0 then []
    else
      var init, c := OpenOnly(sees, v, chans[..|chans| - 1]), chans[|chans| - 1];
      if Open(sees, v, c) then init + [c] else init
  }

  lemma {:induction false} OpenOnlyAre(sees: Sight, v: Principal, chans: seq<ID>, c: ID)
    ensures c in OpenOnly(sees, v, chans) <==> c in chans && Open(sees, v, c)
  {
    if |chans| > 0 {
      OpenOnlyAre(sees, v, chans[..|chans| - 1], c);
      assert c in chans <==> c in chans[..|chans| - 1] || c == chans[|chans| - 1];
    }
  }

  // Two hubs alike to a viewer.

  datatype Slot = NoSlot | Slot(changes: Pending)

  /** What is pending for one channel. */
  function SlotOf(pending: map<ID, Pending>, c: ID): Slot {
    if c in pending then Slot(pending[c]) else NoSlot
  }

  ghost predicate SameChannel(s: Hub, t: Hub, c: ID) {
    && s.projection.Count(c) == t.projection.Count(c)
    && s.projection.In(c) == t.projection.In(c)
    && SlotOf(s.pending, c) == SlotOf(t.pending, c)
  }

  ghost predicate SameClient(s: Hub, t: Hub, id: ClientID, v: Principal) {
    (id in s.clients <==> id in t.clients)
    && (id in s.clients ==> s.clients[id] == t.clients[id] && s.clients[id].viewer == v)
  }

  ghost predicate Alike(sees: Sight, v: Principal, id: ClientID, s: Hub, t: Hub) {
    && s.Sound() && t.Sound()
    && OpenOnly(sees, v, s.channels) == OpenOnly(sees, v, t.channels)
    && (forall c :: Open(sees, v, c) ==> SameChannel(s, t, c))
    && SameClient(s, t, id, v)
  }

  lemma AlikeKnown(sees: Sight, v: Principal, id: ClientID, s: Hub, t: Hub, c: ID)
    requires Alike(sees, v, id, s, t)
    ensures s.Visible(sees, v, c) == t.Visible(sees, v, c)
  {
    OpenOnlyAre(sees, v, s.channels, c);
    OpenOnlyAre(sees, v, t.channels, c);
    assert c in s.known <==> c in Elements(s.channels);
    assert c in t.known <==> c in Elements(t.channels);
  }

  // The outputs.

  lemma {:induction false} CountsOfOpen(h: Hub, sees: Sight, v: Principal, chans: seq<ID>)
    requires forall c :: c in chans ==> c in h.known && c != NoID
    ensures h.CountsFor(sees, v, chans) == h.CountsFor(sees, v, OpenOnly(sees, v, chans))
  {
    if |chans| > 0 {
      CountsOfOpen(h, sees, v, chans[..|chans| - 1]);
      var open := OpenOnly(sees, v, chans[..|chans| - 1]);
      assert (open + [chans[|chans| - 1]])[..|open|] == open;
    }
  }

  lemma {:induction false} SameCounts(s: Hub, t: Hub, sees: Sight, v: Principal, chans: seq<ID>)
    requires forall c :: c in chans ==>
      s.projection.Count(c) == t.projection.Count(c) && s.Visible(sees, v, c) == t.Visible(sees, v, c)
    ensures s.CountsFor(sees, v, chans) == t.CountsFor(sees, v, chans)
  {
    if |chans| > 0 { SameCounts(s, t, sees, v, chans[..|chans| - 1]); }
  }

  lemma ChannelsKnown(h: Hub)
    requires h.Sound()
    ensures forall c :: c in h.channels ==> c in h.known && c != NoID
  {
    assert forall c :: c in h.channels ==> c in Elements(h.channels);
  }

  lemma SameSnapshot(sees: Sight, v: Principal, id: ClientID, s: Hub, t: Hub)
    requires Alike(sees, v, id, s, t)
    ensures s.CountsFor(sees, v, s.channels) == t.CountsFor(sees, v, t.channels)
  {
    ChannelsKnown(s);
    ChannelsKnown(t);
    CountsOfOpen(s, sees, v, s.channels);
    CountsOfOpen(t, sees, v, t.channels);
    var open := OpenOnly(sees, v, s.channels);
    forall c | c in open
      ensures s.projection.Count(c) == t.projection.Count(c) && s.Visible(sees, v, c) == t.Visible(sees, v, c)
    {
      OpenOnlyAre(sees, v, s.channels, c);
      AlikeKnown(sees, v, id, s, t, c);
      assert SameChannel(s, t, c);
    }
    SameCounts(s, t, sees, v, open);
  }

  lemma SameAttach(sees: Sight, v: Principal, id: ClientID, s: Hub, t: Hub)
    requires Alike(sees, v, id, s, t)
    ensures s.Attach(sees, id, v).1 == t.Attach(sees, id, v).1
  {
    SameSnapshot(sees, v, id, s, t);
    hide Hub.CountsFor, Hub.Sound;
  }

  lemma SameSubscribe(sees: Sight, v: Principal, id: ClientID, s: Hub, t: Hub, c: ID)
    requires Alike(sees, v, id, s, t)
    ensures s.Subscribe(sees, id, c).1 == t.Subscribe(sees, id, c).1
  {
    AlikeKnown(sees, v, id, s, t, c);
    if s.Visible(sees, v, c) {
      ChannelsKnown(s);
      assert c != NoID by { assert c in Elements(s.channels); }
      assert SameChannel(s, t, c);
      assert s.ListMessage(c) == t.ListMessage(c);
    }
    hide Hub.Sound, Hub.ListMessage;
  }

  /** What one more channel adds to a client's message. */
  ghost function Extended(h: Hub, sees: Sight, cl: Client, m: Message, c: ID): Message {
    if !h.Visible(sees, cl.viewer, c) || c !in h.pending then m
    else
      Message(false,
        if h.pending[c].countMoved then m.counts + [CountUpdate(c, h.projection.Count(c))] else m.counts,
        if c in cl.subscribed then m.members + SortedUpdates(h.pending[c].members) else m.members)
  }

  lemma MessageAdds(h: Hub, sees: Sight, cl: Client, a: seq<ID>, c: ID)
    ensures h.MessageOver(sees, cl, a + [c]) == Extended(h, sees, cl, h.MessageOver(sees, cl, a), c)
  {
    hide SortedUpdates, Hub.Visible, Projection.Count;
    assert (a + [c])[..|a|] == a;
  }

  lemma {:induction false} MessageOfOpen(h: Hub, sees: Sight, cl: Client, chans: seq<ID>)
    requires forall c :: c in chans ==> c in h.known && c != NoID
    ensures h.MessageOver(sees, cl, Changed(chans, h.pending))
         == h.MessageOver(sees, cl, OpenOnly(sees, cl.viewer, chans))
  {
    hide SortedUpdates, Hub.MessageOver, Projection.Count;
    if |chans| > 0 {
      var init, c := chans[..|chans| - 1], chans[|chans| - 1];
      MessageOfOpen(h, sees, cl, init);
      MessageAdds(h, sees, cl, Changed(init, h.pending), c);
      MessageAdds(h, sees, cl, OpenOnly(sees, cl.viewer, init), c);
    }
  }

  lemma {:induction false} SameMessageOver(s: Hub, t: Hub, sees: Sight, cl: Client, chans: seq<ID>)
    requires forall c :: c in chans ==>
      SameChannel(s, t, c) && s.Visible(sees, cl.viewer, c) == t.Visible(sees, cl.viewer, c)
    ensures s.MessageOver(sees, cl, chans) == t.MessageOver(sees, cl, chans)
  {
    hide SortedUpdates, Projection.In, Hub.Visible;
    if |chans| > 0 {
      SameMessageOver(s, t, sees, cl, chans[..|chans| - 1]);
      assert SameChannel(s, t, chans[|chans| - 1]);
    }
  }

  lemma SameMessage(sees: Sight, v: Principal, id: ClientID, s: Hub, t: Hub)
    requires Alike(sees, v, id, s, t) && id in s.clients
    ensures s.MessageFor(sees, s.clients[id]) == t.MessageFor(sees, t.clients[id])
  {
    hide Hub.MessageOver, Changed;
    var cl := s.clients[id];
    ChannelsKnown(s);
    ChannelsKnown(t);
    MessageOfOpen(s, sees, cl, s.channels);
    MessageOfOpen(t, sees, cl, t.channels);
    var open := OpenOnly(sees, v, s.channels);
    forall c | c in open
      ensures SameChannel(s, t, c) && s.Visible(sees, v, c) == t.Visible(sees, v, c)
    {
      OpenOnlyAre(sees, v, s.channels, c);
      AlikeKnown(sees, v, id, s, t, c);
    }
    SameMessageOver(s, t, sees, cl, open);
  }

  /** The messages of a flush addressed to id. */
  function MessagesTo(id: ClientID, ds: seq<Delivery>): seq<Message> {
    if |ds| == 0 then []
    else
      var init, d := MessagesTo(id, ds[..|ds| - 1]), ds[|ds| - 1];
      if d.client == id then init + [d.message] else init
  }

  lemma {:induction false} DeliveredTo(h: Hub, sees: Sight, ids: seq<ClientID>, id: ClientID)
    requires forall i, j :: 0 <= i < j < |ids| ==> ids[i] != ids[j]
    ensures MessagesTo(id, h.DeliveriesTo(sees, ids)) ==
      if id in ids && id in h.clients && !h.MessageFor(sees, h.clients[id]).IsEmpty()
      then [h.MessageFor(sees, h.clients[id])] else []
  {
    hide Hub.MessageFor;
    if |ids| > 0 {
      var init, last := ids[..|ids| - 1], ids[|ids| - 1];
      DeliveredTo(h, sees, init, id);
      assert id in ids <==> id in init || id == last;
      var ds, all := h.DeliveriesTo(sees, init), h.DeliveriesTo(sees, ids);
      if all != ds { assert all[..|all| - 1] == ds; }
    }
  }

  /** What a flush pushes to id. */
  lemma PushedTo(h: Hub, sees: Sight, id: ClientID)
    requires h.Sound()
    ensures MessagesTo(id, h.Flush(sees).1) ==
      if id in h.clients && !h.MessageFor(sees, h.clients[id]).IsEmpty()
      then [h.MessageFor(sees, h.clients[id])] else []
  {
    DeliveredTo(h, sees, h.attached, id);
    assert id in h.clients <==> id in Elements(h.attached);
    if h.pending == map[] && id in h.clients {
      NothingChanged(h, sees, h.clients[id], h.channels);
    }
    hide Hub.MessageOver, Hub.DeliveriesTo, Hub.Sound, Changed;
  }

  lemma SameFlush(sees: Sight, v: Principal, id: ClientID, s: Hub, t: Hub)
    requires Alike(sees, v, id, s, t)
    ensures MessagesTo(id, s.Flush(sees).1) == MessagesTo(id, t.Flush(sees).1)
  {
    PushedTo(s, sees, id);
    PushedTo(t, sees, id);
    if id in s.clients { SameMessage(sees, v, id, s, t); }
    hide Hub.MessageFor, Hub.Flush, Hub.Sound, SameChannel, OpenOnly;
  }

  // The steps.

  /** Reports the viewer cannot tell apart: about one member, and publishing the same, or
      naming only channels hidden from the viewer, or none. Sequence numbers are never
      published, so they may differ. */
  predicate Indistinct(sees: Sight, v: Principal, r: Report, q: Report) {
    r.member == q.member
    && (Published(r) == Published(q) || (!Open(sees, v, r.channel) && !Open(sees, v, q.channel)))
  }

  lemma SameRegisters(p: Projection, o: Projection, r: Report, q: Report)
    requires p.seqs == o.seqs && r.member == q.member && r.seqno == q.seqno
    ensures p.Accepts(r) == o.Accepts(q) && p.Apply(r).0.seqs == o.Apply(q).0.seqs
  {
    RegistersAfter(p, r);
    RegistersAfter(o, q);
    hide Projection.Apply;
  }

  lemma RegistersAfter(p: Projection, r: Report)
    ensures p.Apply(r).0.seqs == if p.Accepts(r) then p.seqs[r.member := r.seqno] else p.seqs
  {
    hide Incremented, Decremented, Projection.Accepts;
  }

  // One channel after an accepted report, from that channel alone.

  function NewMembers(was: map<ID, Presence>, r: Report, c: ID): map<ID, Presence> {
    if r.channel == c then was[r.member := Published(r)] else was - {r.member}
  }

  function NotedSlot(slot: Slot, moved: bool, u: MemberUpdate): Slot {
    var p := if slot.NoSlot? then NOTHING_PENDING else slot.changes;
    Slot(Pending(p.countMoved || moved, p.members[u.member := u]))
  }

  function NewSlot(slot: Slot, was: map<ID, Presence>, r: Report, c: ID): Slot {
    var m, now := r.member, Published(r);
    if r.channel == c then
      if m in was && was[m] == now then slot
      else NotedSlot(slot, m !in was, MemberUpdate(c, m, true, now))
    else if m in was then NotedSlot(slot, true, Gone(c, m))
    else slot
  }

  lemma NotedSlots(pending: map<ID, Pending>, d: ID, moved: bool, u: MemberUpdate, c: ID)
    ensures SlotOf(Noted(pending, d, moved, u), c) ==
      if c == d then NotedSlot(SlotOf(pending, c), moved, u) else SlotOf(pending, c)
  {}

  lemma MembersOn(p: Projection, r: Report, c: ID)
    requires p.Accepts(r) && c != NoID
    ensures p.Apply(r).0.In(c) == NewMembers(p.In(c), r, c)
  {
    hide Incremented, Decremented;
    MembersRemoved(p.present, r.member, c);
    MembersUpdated(p.present, r.member, Published(r), c);
  }

  /** What the hub notes for channel c, by what the change was. */
  lemma ChangeOn(pending: map<ID, Pending>, ch: Change, c: ID)
    requires c != NoID
    ensures SlotOf(NotedChange(pending, ch), c) ==
      if c == ch.joined then NotedSlot(SlotOf(pending, c), ch.Moved(), MemberUpdate(c, ch.member, true, ch.now))
      else if c == ch.left && ch.Moved() then NotedSlot(SlotOf(pending, c), true, Gone(c, ch.member))
      else SlotOf(pending, c)
  {
    hide Noted, SlotOf, NotedSlot;
    var gone, came := Gone(ch.left, ch.member), MemberUpdate(ch.joined, ch.member, true, ch.now);
    var left := if ch.left == NoID then pending else Noted(pending, ch.left, true, gone);
    NotedSlots(pending, ch.left, true, gone, c);
    NotedSlots(left, ch.joined, true, came, c);
    NotedSlots(pending, ch.joined, false, came, c);
  }

  /** What an accepted report changed, seen from channel c. */
  lemma ChangeSeen(p: Projection, r: Report, c: ID)
    requires OwnRegisters(p.seqs, p.present) && p.Accepts(r) && c != NoID
    ensures var (_, ch, moved) := p.Apply(r);
      var m, now, was := r.member, Published(r), p.In(c);
      (!moved ==> (r.channel == c ==> m in was && was[m] == now) && (r.channel != c ==> m !in was))
      && (moved ==>
            ch.member == m && (ch.joined == c <==> r.channel == c) && (ch.left == c <==> m in was)
            && (r.channel == c ==> ch.now == now && (ch.Moved() <==> m !in was) && !(m in was && was[m] == now)))
  {
    hide Incremented, Decremented;
  }

  lemma PendingOn(h: Hub, r: Report, c: ID)
    requires h.Sound() && h.projection.Accepts(r) && c != NoID
    ensures SlotOf(h.Apply(r).0.pending, c) == NewSlot(SlotOf(h.pending, c), h.projection.In(c), r, c)
  {
    assert OwnRegisters(h.projection.seqs, h.projection.present);
    hide Hub.Sound, Projection.Apply, Projection.Accepts, Projection.In, NotedChange, NotedSlot, SlotOf, OwnRegisters;
    ChangeSeen(h.projection, r, c);
    ChangeOn(h.pending, h.projection.Apply(r).1, c);
  }

  /** An open channel after a report: a function of the channel before it. */
  ghost predicate ReportedOn(h: Hub, r: Report, c: ID) {
    var g, was, accepts := h.Apply(r).0, h.projection.In(c), h.projection.Accepts(r);
    g.projection.In(c) == (if accepts then NewMembers(was, r, c) else was)
    && SlotOf(g.pending, c) == (if accepts then NewSlot(SlotOf(h.pending, c), was, r, c) else SlotOf(h.pending, c))
    && g.projection.Count(c) == |g.projection.In(c)|
  }

  lemma ReportOn(h: Hub, r: Report, c: ID)
    requires h.Sound() && c != NoID
    ensures ReportedOn(h, r, c)
  {
    ApplySound(h, r);
    CountIsSize(h.Apply(r).0, c);
    if h.projection.Accepts(r) {
      MembersOn(h.projection, r, c);
      PendingOn(h, r, c);
    }
    hide Hub.Sound, Projection.In, Projection.Count, NewMembers, NewSlot, SlotOf, NotedChange;
  }

  lemma CountIsSize(h: Hub, c: ID)
    requires h.Sound()
    ensures h.projection.Count(c) == |h.projection.In(c)|
  {}

  /** What a report does to one open channel depends only on what is alike. */
  lemma SameReport(s: Hub, t: Hub, sees: Sight, v: Principal, r: Report, q: Report, c: ID)
    requires s.Sound() && t.Sound() && s.projection.Accepts(r) == t.projection.Accepts(q)
    requires Indistinct(sees, v, r, q) && Open(sees, v, c) && SameChannel(s, t, c)
    ensures SameChannel(s.Apply(r).0, t.Apply(q).0, c)
  {
    ReportOn(s, r, c);
    ReportOn(t, q, c);
    SameFunctions(sees, v, r, q, SlotOf(s.pending, c), s.projection.In(c), c);
    hide Hub.Apply, Hub.Sound, Projection.In, Projection.Count, NewMembers, NewSlot, SlotOf, Projection.Accepts;
  }

  lemma SameFunctions(sees: Sight, v: Principal, r: Report, q: Report, slot: Slot, was: map<ID, Presence>, c: ID)
    requires Indistinct(sees, v, r, q) && Open(sees, v, c)
    ensures NewMembers(was, r, c) == NewMembers(was, q, c) && NewSlot(slot, was, r, c) == NewSlot(slot, was, q, c)
  {
    hide NotedSlot;
  }

  // Whole runs.

  /** Events the client cannot tell apart: the same event; two reports it cannot tell
      apart; or two events that are no business of its, about channels hidden from it
      or about other clients. */
  ghost predicate Blind(sees: Sight, v: Principal, id: ClientID, e: Event) {
    match e
    case AddingChannel(c) => !Open(sees, v, c)
    case Attaching(i, _) => i != id
    case Detaching(i) => i != id
    case Subscribing(i, _) => i != id
    case Unsubscribing(i, _) => i != id
    case Reporting(_) => false
    case Flushing => false
  }

  ghost predicate Paired(sees: Sight, v: Principal, id: ClientID, e: Event, f: Event) {
    e == f
    || (e.Reporting? && f.Reporting? && Indistinct(sees, v, e.report, f.report))
    || (Blind(sees, v, id, e) && Blind(sees, v, id, f))
  }

  /** Paired reports are accepted by both hubs or by neither. */
  ghost predicate Level(s: Hub, t: Hub, e: Event, f: Event) {
    e.Reporting? && f.Reporting? ==> s.projection.Accepts(e.report) == t.projection.Accepts(f.report)
  }

  /** The client always attaches as the same principal. */
  ghost predicate AttachesAs(v: Principal, id: ClientID, e: Event) {
    e.Attaching? && e.id == id ==> e.viewer == v
  }

  ghost function Next(sees: Sight, h: Hub, e: Event): Hub {
    match e
    case AddingChannel(c) => h.AddChannel(c).0
    case Attaching(i, viewer) => h.Attach(sees, i, viewer).0
    case Detaching(i) => h.Detach(i)
    case Subscribing(i, c) => h.Subscribe(sees, i, c).0
    case Unsubscribing(i, c) => h.Unsubscribe(i, c)
    case Reporting(r) => h.Apply(r).0
    case Flushing => h.Flush(sees).0
  }

  datatype Observation = Silence | Answered(reply: Reply) | Pushed(messages: seq<Message>)

  /** What the client learns from an event. */
  ghost function Observed(sees: Sight, id: ClientID, h: Hub, e: Event): Observation {
    match e
    case Attaching(i, viewer) => if i == id then Answered(h.Attach(sees, i, viewer).1) else Silence
    case Subscribing(i, c) => if i == id then Answered(h.Subscribe(sees, i, c).1) else Silence
    case Flushing => Pushed(MessagesTo(id, h.Flush(sees).1))
    case _ => Silence
  }

  lemma SameObservation(sees: Sight, v: Principal, id: ClientID, s: Hub, t: Hub, e: Event, f: Event)
    requires Alike(sees, v, id, s, t) && Paired(sees, v, id, e, f) && AttachesAs(v, id, e)
    ensures Observed(sees, id, s, e) == Observed(sees, id, t, f)
  {
    hide Alike, Hub.Flush, Hub.Attach, Hub.Subscribe, MessagesTo;
    match e
    case Attaching(i, viewer) => SameAttach(sees, v, id, s, t);
    case Subscribing(i, c) => SameSubscribe(sees, v, id, s, t, c);
    case Flushing => SameFlush(sees, v, id, s, t);
    case _ =>
  }

  lemma NextSound(sees: Sight, h: Hub, e: Event)
    requires h.Sound()
    ensures Next(sees, h, e).Sound()
  {
    hide Hub.Sound, Hub.Flush, Hub.Attach, Hub.Subscribe, Hub.Detach, Hub.Unsubscribe, Hub.Apply, Hub.AddChannel;
    match e
    case AddingChannel(c) => AddChannelSound(h, c);
    case Attaching(i, viewer) => AttachSound(h, sees, i, viewer);
    case Detaching(i) => DetachSound(h, i);
    case Subscribing(i, c) => SubscribeSound(h, sees, i, c);
    case Unsubscribing(i, c) => SubscribeSound(h, sees, i, c);
    case Reporting(r) => ApplySound(h, r);
    case Flushing => FlushSound(h, sees);
  }

  /** A blind event leaves a hub alike to what it was. */
  lemma BlindLeaves(sees: Sight, v: Principal, id: ClientID, h: Hub, e: Event)
    requires h.Sound() && Blind(sees, v, id, e)
    ensures var g := Next(sees, h, e);
      OpenOnly(sees, v, g.channels) == OpenOnly(sees, v, h.channels)
      && g.projection == h.projection && g.pending == h.pending
      && (id in g.clients <==> id in h.clients) && (id in h.clients ==> g.clients[id] == h.clients[id])
  {
    hide Hub.Sound, Hub.CountsFor, Hub.ListMessage, RemoveFirst;
    if e.AddingChannel? {
      assert (h.channels + [e.channel])[..|h.channels|] == h.channels;
    }
  }

  lemma AlikeAfter(sees: Sight, v: Principal, id: ClientID, s: Hub, t: Hub, s': Hub, t': Hub)
    requires Alike(sees, v, id, s, t) && s'.Sound() && t'.Sound()
    requires OpenOnly(sees, v, s'.channels) == OpenOnly(sees, v, t'.channels)
    requires s'.projection == s.projection && s'.pending == s.pending
    requires t'.projection == t.projection && t'.pending == t.pending
    requires SameClient(s', t', id, v)
    ensures Alike(sees, v, id, s', t')
  {
    hide Hub.Sound, OpenOnly, Projection.In, Projection.Count, SameClient;
    forall c | Open(sees, v, c) ensures SameChannel(s', t', c) { assert SameChannel(s, t, c); }
  }

  lemma BlindStep(sees: Sight, v: Principal, id: ClientID, s: Hub, t: Hub, e: Event, f: Event)
    requires Alike(sees, v, id, s, t) && Blind(sees, v, id, e) && Blind(sees, v, id, f)
    ensures Alike(sees, v, id, Next(sees, s, e), Next(sees, t, f))
  {
    hide Hub.Sound, OpenOnly, SameChannel, Next, Blind;
    NextSound(sees, s, e);
    NextSound(sees, t, f);
    BlindLeaves(sees, v, id, s, e);
    BlindLeaves(sees, v, id, t, f);
    AlikeAfter(sees, v, id, s, t, Next(sees, s, e), Next(sees, t, f));
  }

  lemma ReportStep(sees: Sight, v: Principal, id: ClientID, s: Hub, t: Hub, r: Report, q: Report)
    requires Alike(sees, v, id, s, t) && Indistinct(sees, v, r, q)
    requires s.projection.Accepts(r) == t.projection.Accepts(q)
    ensures Alike(sees, v, id, s.Apply(r).0, t.Apply(q).0)
  {
    ApplySound(s, r);
    ApplySound(t, q);
    forall c | Open(sees, v, c) ensures SameChannel(s.Apply(r).0, t.Apply(q).0, c) {
      SameReport(s, t, sees, v, r, q, c);
    }
    hide Hub.Sound, OpenOnly, SameChannel, Projection.Apply, NotedChange, Indistinct;
  }

  lemma {:induction false} OpenOnlyConcat(sees: Sight, v: Principal, a: seq<ID>, c: ID)
    ensures OpenOnly(sees, v, a + [c]) == OpenOnly(sees, v, a) + if Open(sees, v, c) then [c] else []
  {
    assert (a + [c])[..|a|] == a;
  }

  lemma AddLeaves(h: Hub, c: ID)
    ensures var g := h.AddChannel(c).0;
      g.projection == h.projection && g.pending == h.pending && g.clients == h.clients
      && g.channels == if c != NoID && c !in h.known then h.channels + [c] else h.channels
  {}

  lemma AddStep(sees: Sight, v: Principal, id: ClientID, s: Hub, t: Hub, c: ID)
    requires Alike(sees, v, id, s, t)
    ensures Alike(sees, v, id, s.AddChannel(c).0, t.AddChannel(c).0)
  {
    AlikeKnown(sees, v, id, s, t, c);
    assert s.Sound() && t.Sound() && SameClient(s, t, id, v);
    assert OpenOnly(sees, v, s.channels) == OpenOnly(sees, v, t.channels);
    hide Alike, Hub.Sound, OpenOnly, Hub.AddChannel;
    AddChannelSound(s, c);
    AddChannelSound(t, c);
    OpenOnlyConcat(sees, v, s.channels, c);
    OpenOnlyConcat(sees, v, t.channels, c);
    AddLeaves(s, c);
    AddLeaves(t, c);
    AlikeAfter(sees, v, id, s, t, s.AddChannel(c).0, t.AddChannel(c).0);
  }

  lemma FlushStep(sees: Sight, v: Principal, id: ClientID, s: Hub, t: Hub)
    requires Alike(sees, v, id, s, t)
    ensures Alike(sees, v, id, s.Flush(sees).0, t.Flush(sees).0)
  {
    FlushSound(s, sees);
    FlushSound(t, sees);
    FlushHub(s, sees);
    FlushHub(t, sees);
    hide Hub.Sound, OpenOnly, Projection.In, Projection.Count, Hub.Flush;
    forall c | Open(sees, v, c) ensures SameChannel(s.Flush(sees).0, t.Flush(sees).0, c) {
      assert SameChannel(s, t, c);
    }
  }

  /** What the client does itself has the same effect in both. */
  lemma OwnStep(sees: Sight, v: Principal, id: ClientID, s: Hub, t: Hub, e: Event)
    requires Alike(sees, v, id, s, t) && AttachesAs(v, id, e)
    requires e.Attaching? || e.Detaching? || e.Subscribing? || e.Unsubscribing?
    ensures Alike(sees, v, id, Next(sees, s, e), Next(sees, t, e))
  {
    NextSound(sees, s, e);
    NextSound(sees, t, e);
    if e.Subscribing? { AlikeKnown(sees, v, id, s, t, e.channel); }
    OwnLeaves(sees, v, id, s, t, e);
    hide *;
    AlikeAfter(sees, v, id, s, t, Next(sees, s, e), Next(sees, t, e));
  }

  lemma OwnLeaves(sees: Sight, v: Principal, id: ClientID, s: Hub, t: Hub, e: Event)
    requires SameClient(s, t, id, v) && AttachesAs(v, id, e)
    requires e.Attaching? || e.Detaching? || e.Subscribing? || e.Unsubscribing?
    requires e.Subscribing? ==> s.Visible(sees, v, e.channel) == t.Visible(sees, v, e.channel)
    ensures var s', t' := Next(sees, s, e), Next(sees, t, e);
      SameClient(s', t', id, v)
      && s'.channels == s.channels && s'.projection == s.projection && s'.pending == s.pending
      && t'.channels == t.channels && t'.projection == t.projection && t'.pending == t.pending
  {
    hide Hub.CountsFor, Hub.ListMessage, RemoveFirst, Hub.Visible;
  }

  lemma SameIndistinct(sees: Sight, v: Principal, e: Event)
    ensures e.Reporting? ==> Indistinct(sees, v, e.report, e.report)
  {}

  /** Events a client cannot tell apart keep two hubs alike to it. */
  lemma StaysAlike(sees: Sight, v: Principal, id: ClientID, s: Hub, t: Hub, e: Event, f: Event)
    requires Alike(sees, v, id, s, t) && Paired(sees, v, id, e, f) && AttachesAs(v, id, e) && Level(s, t, e, f)
    ensures Alike(sees, v, id, Next(sees, s, e), Next(sees, t, f))
  {
    if Blind(sees, v, id, e) && Blind(sees, v, id, f) {
      hide *;
      BlindStep(sees, v, id, s, t, e, f);
    } else {
      hide Alike, Hub.Flush, Hub.Attach, Hub.Subscribe, Hub.Detach, Hub.Unsubscribe, Hub.Apply, Hub.AddChannel, Blind,
        Indistinct;
      SameIndistinct(sees, v, e);
      match e
      case AddingChannel(c) => AddStep(sees, v, id, s, t, c);
      case Reporting(r) => ReportStep(sees, v, id, s, t, r, f.report);
      case Flushing => FlushStep(sees, v, id, s, t);
      case _ => OwnStep(sees, v, id, s, t, e);
    }
  }

  /** Everything the client observes over a run that starts at h. */
  ghost function Trace(sees: Sight, id: ClientID, h: Hub, es: seq<Event>): seq<Observation>
    decreases |es|
  {
    if |es| == 0 then []
    else [Observed(sees, id, h, es[0])] + Trace(sees, id, Next(sees, h, es[0]), es[1..])
  }

  lemma OtherSeqs(sees: Sight, h: Hub, e: Event)
    requires !e.Reporting?
    ensures Next(sees, h, e).projection == h.projection
  {
    hide Hub.CountsFor, Hub.ListMessage, Hub.DeliveriesTo, RemoveFirst;
  }

  predicate SameNumber(e: Event, f: Event) { e.Reporting? && f.Reporting? ==> e.report.seqno == f.report.seqno }

  lemma SameSeqs(sees: Sight, v: Principal, id: ClientID, s: Hub, t: Hub, e: Event, f: Event)
    requires s.projection.seqs == t.projection.seqs && Paired(sees, v, id, e, f) && SameNumber(e, f)
    ensures Level(s, t, e, f) && Next(sees, s, e).projection.seqs == Next(sees, t, f).projection.seqs
  {
    if e.Reporting? {
      SameRegisters(s.projection, t.projection, e.report, f.report);
      hide Projection.Apply, Projection.Accepts;
    } else {
      hide Next;
      OtherSeqs(sees, s, e);
      OtherSeqs(sees, t, f);
    }
  }

  /** Noninterference: two runs from alike hubs whose events the client cannot tell
      apart one by one show it exactly the same. */
  lemma {:induction false} Noninterference(
    sees: Sight, v: Principal, id: ClientID, s: Hub, t: Hub, es: seq<Event>, fs: seq<Event>)
    requires Alike(sees, v, id, s, t) && s.projection.seqs == t.projection.seqs && |es| == |fs|
    requires forall i :: 0 <= i < |es| ==>
      Paired(sees, v, id, es[i], fs[i]) && SameNumber(es[i], fs[i]) && AttachesAs(v, id, es[i])
    ensures Trace(sees, id, s, es) == Trace(sees, id, t, fs)
    decreases |es|
  {
    hide Alike, Next, Observed, Paired, AttachesAs, Level, SameNumber;
    if |es| > 0 {
      assert Paired(sees, v, id, es[0], fs[0]);
      SameSeqs(sees, v, id, s, t, es[0], fs[0]);
      SameObservation(sees, v, id, s, t, es[0], fs[0]);
      StaysAlike(sees, v, id, s, t, es[0], fs[0]);
      Noninterference(sees, v, id, Next(sees, s, es[0]), Next(sees, t, fs[0]), es[1..], fs[1..]);
    }
  }

  // Runs in which different things happen out of the client's sight.

  /** The member is in no channel the viewer can see. */
  ghost predicate Unseen(sees: Sight, v: Principal, h: Hub, m: ID) {
    forall c :: Open(sees, v, c) ==> m !in h.projection.In(c)
  }

  /** An event that may happen in one run and not in the other: one that is blind, or a
      report that names no visible channel and is refused, or is about a member in none. */
  ghost predicate Hidden(sees: Sight, v: Principal, id: ClientID, h: Hub, e: Event) {
    Blind(sees, v, id, e)
    || (e.Reporting? && !Open(sees, v, e.report.channel)
        && (h.projection.Accepts(e.report) ==> Unseen(sees, v, h, e.report.member)))
  }

  /** One beat of two runs side by side. */
  datatype Beat = Both(left: Event, right: Event) | OnlyLeft(left: Event) | OnlyRight(right: Event)

  function Lefts(beats: seq<Beat>): seq<Event> {
    if |beats| == 0 then [] else (if beats[0].OnlyRight? then [] else [beats[0].left]) + Lefts(beats[1..])
  }

  function Rights(beats: seq<Beat>): seq<Event> {
    if |beats| == 0 then [] else (if beats[0].OnlyLeft? then [] else [beats[0].right]) + Rights(beats[1..])
  }

  ghost function LeftAfter(sees: Sight, s: Hub, b: Beat): Hub { if b.OnlyRight? then s else Next(sees, s, b.left) }

  ghost function RightAfter(sees: Sight, t: Hub, b: Beat): Hub { if b.OnlyLeft? then t else Next(sees, t, b.right) }

  ghost predicate InStep(sees: Sight, v: Principal, id: ClientID, s: Hub, t: Hub, b: Beat) {
    match b
    case Both(e, f) => Paired(sees, v, id, e, f) && AttachesAs(v, id, e) && Level(s, t, e, f)
    case OnlyLeft(e) => Hidden(sees, v, id, s, e)
    case OnlyRight(f) => Hidden(sees, v, id, t, f)
  }

  ghost predicate Woven(sees: Sight, v: Principal, id: ClientID, s: Hub, t: Hub, beats: seq<Beat>)
    decreases |beats|
  {
    |beats| > 0 ==>
      InStep(sees, v, id, s, t, beats[0])
      && Woven(sees, v, id, LeftAfter(sees, s, beats[0]), RightAfter(sees, t, beats[0]), beats[1..])
  }

  /** What is observed, silences left out. */
  function Heard(trace: seq<Observation>): seq<Observation> {
    if |trace| == 0 then [] else (if trace[0].Silence? then [] else [trace[0]]) + Heard(trace[1..])
  }

  /** A hidden report leaves every open channel as it was. */
  lemma HiddenReport(sees: Sight, v: Principal, h: Hub, r: Report, c: ID)
    requires h.Sound() && Open(sees, v, c) && !Open(sees, v, r.channel)
    requires h.projection.Accepts(r) ==> r.member !in h.projection.In(c)
    ensures SameChannel(h.Apply(r).0, h, c)
  {
    ReportOn(h, r, c);
    CountIsSize(h, c);
    assert r.member !in h.projection.In(c) ==> h.projection.In(c) - {r.member} == h.projection.In(c);
    hide Hub.Apply, Hub.Sound, Projection.In, Projection.Count, SlotOf, Projection.Accepts;
  }

  /** And the condition is exact: a report that names no visible channel shows in none if
      and only if it is refused or its member was in none. */
  lemma HiddenReportExact(sees: Sight, v: Principal, h: Hub, r: Report)
    requires h.Sound() && !Open(sees, v, r.channel)
    ensures (forall c :: Open(sees, v, c) ==> SameChannel(h.Apply(r).0, h, c)) <==>
      (h.projection.Accepts(r) ==> Unseen(sees, v, h, r.member))
  {
    hide Hub.Apply, Hub.Sound, Projection.Accepts;
    if h.projection.Accepts(r) ==> Unseen(sees, v, h, r.member) {
      forall c | Open(sees, v, c) ensures SameChannel(h.Apply(r).0, h, c) { HiddenReport(sees, v, h, r, c); }
    } else {
      var c :| Open(sees, v, c) && r.member in h.projection.In(c);
      ReportOn(h, r, c);
      assert r.member !in NewMembers(h.projection.In(c), r, c);
    }
  }

  lemma ReportLeaves(h: Hub, r: Report)
    ensures var g := h.Apply(r).0; g.known == h.known && g.channels == h.channels && g.clients == h.clients
  {}

  lemma HiddenLeaves(sees: Sight, v: Principal, id: ClientID, h: Hub, e: Event)
    requires h.Sound() && Hidden(sees, v, id, h, e)
    ensures var g := Next(sees, h, e);
      g.Sound() && OpenOnly(sees, v, g.channels) == OpenOnly(sees, v, h.channels)
      && (forall c :: Open(sees, v, c) ==> SameChannel(g, h, c))
      && (id in g.clients <==> id in h.clients) && (id in h.clients ==> g.clients[id] == h.clients[id])
  {
    NextSound(sees, h, e);
    if Blind(sees, v, id, e) {
      hide Hub.Sound, Next, Blind, OpenOnly, Projection.In, Projection.Count;
      BlindLeaves(sees, v, id, h, e);
    } else {
      ReportLeaves(h, e.report);
      hide Hub.Sound, Hub.Apply, OpenOnly, SameChannel, Open, Projection.Accepts, Projection.In;
      forall c | Open(sees, v, c) ensures SameChannel(h.Apply(e.report).0, h, c) {
        HiddenReport(sees, v, h, e.report, c);
      }
    }
  }

  lemma AlikeBoth(sees: Sight, v: Principal, id: ClientID, s: Hub, t: Hub, s': Hub, t': Hub)
    requires Alike(sees, v, id, s, t) && s'.Sound() && t'.Sound()
    requires OpenOnly(sees, v, s'.channels) == OpenOnly(sees, v, s.channels)
    requires OpenOnly(sees, v, t'.channels) == OpenOnly(sees, v, t.channels)
    requires forall c :: Open(sees, v, c) ==> SameChannel(s', s, c) && SameChannel(t', t, c)
    requires (id in s'.clients <==> id in s.clients) && (id in s.clients ==> s'.clients[id] == s.clients[id])
    requires (id in t'.clients <==> id in t.clients) && (id in t.clients ==> t'.clients[id] == t.clients[id])
    ensures Alike(sees, v, id, s', t')
  {
    hide Hub.Sound, OpenOnly, Open, Projection.In, Projection.Count;
    forall c | Open(sees, v, c) ensures SameChannel(s', t', c) {
      assert SameChannel(s, t, c) && SameChannel(s', s, c) && SameChannel(t', t, c);
    }
  }

  lemma SameSelf(sees: Sight, v: Principal, h: Hub)
    ensures forall c :: Open(sees, v, c) ==> SameChannel(h, h, c)
  {}

  lemma AlikeSound(sees: Sight, v: Principal, id: ClientID, s: Hub, t: Hub)
    requires Alike(sees, v, id, s, t)
    ensures s.Sound() && t.Sound()
  {}

  lemma BeatKeeps(sees: Sight, v: Principal, id: ClientID, s: Hub, t: Hub, b: Beat)
    requires Alike(sees, v, id, s, t) && InStep(sees, v, id, s, t, b)
    ensures Alike(sees, v, id, LeftAfter(sees, s, b), RightAfter(sees, t, b))
  {
    AlikeSound(sees, v, id, s, t);
    SameSelf(sees, v, s);
    SameSelf(sees, v, t);
    hide Alike, Hidden, Paired, Level, AttachesAs, Next, Hub.Sound, OpenOnly, SameChannel, Open;
    match b
    case Both(e, f) => StaysAlike(sees, v, id, s, t, e, f);
    case OnlyLeft(e) =>
      HiddenLeaves(sees, v, id, s, e);
      AlikeBoth(sees, v, id, s, t, Next(sees, s, e), t);
    case OnlyRight(f) =>
      HiddenLeaves(sees, v, id, t, f);
      AlikeBoth(sees, v, id, s, t, s, Next(sees, t, f));
  }

  lemma HiddenIsSilent(sees: Sight, v: Principal, id: ClientID, h: Hub, e: Event)
    requires Hidden(sees, v, id, h, e)
    ensures Observed(sees, id, h, e) == Silence
  {
    hide Hub.Flush, Hub.Attach, Hub.Subscribe, Projection.Accepts, Unseen;
  }

  lemma NothingHeard(sees: Sight, id: ClientID, h: Hub)
    ensures Heard(Trace(sees, id, h, [])) == []
  {}

  lemma HeardFirst(sees: Sight, id: ClientID, h: Hub, es: seq<Event>)
    requires |es| > 0
    ensures var o := Observed(sees, id, h, es[0]);
      Heard(Trace(sees, id, h, es))
      == (if o.Silence? then [] else [o]) + Heard(Trace(sees, id, Next(sees, h, es[0]), es[1..]))
  {
    hide Observed, Next;
    assert Trace(sees, id, h, es)[1..] == Trace(sees, id, Next(sees, h, es[0]), es[1..]);
  }

  /** Noninterference of runs of different lengths: whatever happens in one run or the
      other alone out of the client's sight, and however much of it, the client hears
      the same, as long as the reports they share are accepted in both or in neither. */
  lemma {:induction false} WovenNoninterference(
    sees: Sight, v: Principal, id: ClientID, s: Hub, t: Hub, beats: seq<Beat>)
    requires Alike(sees, v, id, s, t) && Woven(sees, v, id, s, t, beats)
    ensures Heard(Trace(sees, id, s, Lefts(beats))) == Heard(Trace(sees, id, t, Rights(beats)))
    decreases |beats|
  {
    hide Alike, InStep, LeftAfter, RightAfter, Trace, Heard;
    if |beats| > 0 {
      var b, rest := beats[0], beats[1..];
      BeatKeeps(sees, v, id, s, t, b);
      WovenNoninterference(sees, v, id, LeftAfter(sees, s, b), RightAfter(sees, t, b), rest);
      BeatHeard(sees, v, id, s, t, b, Lefts(rest), Rights(rest));
    } else {
      NothingHeard(sees, id, s);
      NothingHeard(sees, id, t);
    }
  }

  lemma BeatHeard(
    sees: Sight, v: Principal, id: ClientID, s: Hub, t: Hub, b: Beat, es: seq<Event>, fs: seq<Event>)
    requires Alike(sees, v, id, s, t) && InStep(sees, v, id, s, t, b)
    requires Heard(Trace(sees, id, LeftAfter(sees, s, b), es)) == Heard(Trace(sees, id, RightAfter(sees, t, b), fs))
    ensures Heard(Trace(sees, id, s, (if b.OnlyRight? then [] else [b.left]) + es))
         == Heard(Trace(sees, id, t, (if b.OnlyLeft? then [] else [b.right]) + fs))
  {
    hide Alike, Hidden, Paired, Level, AttachesAs, Next, Trace, Heard, Observed;
    if !b.OnlyRight? {
      HeardFirst(sees, id, s, [b.left] + es);
      assert ([b.left] + es)[1..] == es;
    } else {
      assert [] + es == es;
    }
    if !b.OnlyLeft? {
      HeardFirst(sees, id, t, [b.right] + fs);
      assert ([b.right] + fs)[1..] == fs;
    } else {
      assert [] + fs == fs;
    }
    match b
    case Both(e, f) => SameObservation(sees, v, id, s, t, e, f);
    case OnlyLeft(e) => HiddenIsSilent(sees, v, id, s, e);
    case OnlyRight(f) => HiddenIsSilent(sees, v, id, t, f);
  }

  // The same from the two streams of events alone.

  /** The report carries a number above the last of its member. */
  predicate Above(last: map<ID, nat>, r: Report) {
    WellFormed(r) && (r.member in last ==> last[r.member] < r.seqno)
  }

  /** The last number of each member, one event further. */
  function LastAfter(last: map<ID, nat>, e: Event): map<ID, nat> {
    if e.Reporting? then last[e.report.member := e.report.seqno] else last
  }

  /** The members in open channels, one event further. */
  ghost function SeenAfter(sees: Sight, v: Principal, seen: set<ID>, e: Event): set<ID> {
    if !e.Reporting? then seen
    else if Open(sees, v, e.report.channel) then seen + {e.report.member} else seen - {e.report.member}
  }

  ghost predicate Rises(last: map<ID, nat>, e: Event) { e.Reporting? ==> Above(last, e.report) }

  /** An event of one run alone: blind, or a report of a member last reported in no open
      channel that does not report it in one. */
  ghost predicate Aside(sees: Sight, v: Principal, id: ClientID, seen: set<ID>, e: Event) {
    Blind(sees, v, id, e)
    || (e.Reporting? && !Open(sees, v, e.report.channel) && e.report.member !in seen)
  }

  /** Two streams of events in which each member's numbers rise, on each side for itself,
      and which differ only out of the client's sight. `p` and `q` are the last numbers on
      the two sides and `seen` the members last reported in an open channel. */
  ghost predicate Parallel(
    sees: Sight, v: Principal, id: ClientID, p: map<ID, nat>, q: map<ID, nat>, seen: set<ID>, beats: seq<Beat>)
    decreases |beats|
  {
    |beats| > 0 ==>
      var rest := beats[1..];
      match beats[0]
      case Both(e, f) =>
        Paired(sees, v, id, e, f) && AttachesAs(v, id, e) && Rises(p, e) && Rises(q, f)
        && Parallel(sees, v, id, LastAfter(p, e), LastAfter(q, f), SeenAfter(sees, v, seen, e), rest)
      case OnlyLeft(e) =>
        Aside(sees, v, id, seen, e) && Rises(p, e) && Parallel(sees, v, id, LastAfter(p, e), q, seen, rest)
      case OnlyRight(f) =>
        Aside(sees, v, id, seen, f) && Rises(q, f) && Parallel(sees, v, id, p, LastAfter(q, f), seen, rest)
  }

  /** The members in channels the viewer can see. */
  ghost function SeenIn(sees: Sight, v: Principal, h: Hub): set<ID> {
    set m | m in h.projection.present && Open(sees, v, h.projection.present[m].channel)
  }

  lemma AboveAccepted(h: Hub, r: Report)
    requires Above(h.projection.seqs, r)
    ensures h.projection.Accepts(r)
  {}

  lemma PresentAfter(p: Projection, r: Report)
    requires p.Accepts(r)
    ensures p.Apply(r).0.present ==
      if r.channel == NoID then p.present - {r.member} else p.present[r.member := Published(r)]
  {
    hide Incremented, Decremented;
  }

  /** An event whose numbers rise leaves the hub's numbers and sightings as tracked. */
  lemma Tracked(sees: Sight, v: Principal, h: Hub, e: Event)
    requires Rises(h.projection.seqs, e)
    ensures var g := Next(sees, h, e);
      g.projection.seqs == LastAfter(h.projection.seqs, e)
      && SeenIn(sees, v, g) == SeenAfter(sees, v, SeenIn(sees, v, h), e)
  {
    if e.Reporting? {
      var r := e.report;
      AboveAccepted(h, r);
      RegistersAfter(h.projection, r);
      PresentAfter(h.projection, r);
      assert Next(sees, h, e).projection == h.projection.Apply(r).0;
      hide Projection.Apply, Projection.Accepts, Next, Hub.Apply;
    } else {
      hide Next;
      OtherSeqs(sees, h, e);
    }
  }

  lemma UnseenIs(sees: Sight, v: Principal, h: Hub, m: ID)
    requires m !in SeenIn(sees, v, h)
    ensures Unseen(sees, v, h, m)
  {}

  lemma AsideIsHidden(sees: Sight, v: Principal, id: ClientID, h: Hub, e: Event)
    requires Aside(sees, v, id, SeenIn(sees, v, h), e)
    ensures Hidden(sees, v, id, h, e)
    ensures SeenAfter(sees, v, SeenIn(sees, v, h), e) == SeenIn(sees, v, h)
  {
    hide Unseen, Projection.Accepts, SeenIn;
    if !Blind(sees, v, id, e) { UnseenIs(sees, v, h, e.report.member); }
  }

  lemma PairedSeen(sees: Sight, v: Principal, id: ClientID, seen: set<ID>, e: Event, f: Event)
    requires Paired(sees, v, id, e, f)
    ensures SeenAfter(sees, v, seen, e) == SeenAfter(sees, v, seen, f)
  {
    if e.Reporting? && f.Reporting? && Published(e.report) == Published(f.report) {
      assert Published(e.report).channel == Published(f.report).channel;
    }
  }

  lemma {:induction false} ParallelIsWoven(
    sees: Sight, v: Principal, id: ClientID, s: Hub, t: Hub, seen: set<ID>, beats: seq<Beat>)
    requires seen == SeenIn(sees, v, s) == SeenIn(sees, v, t)
    requires Parallel(sees, v, id, s.projection.seqs, t.projection.seqs, seen, beats)
    ensures Woven(sees, v, id, s, t, beats)
    decreases |beats|
  {
    hide SeenIn, SeenAfter, Paired, AttachesAs, Aside, Hidden, Next, LastAfter, Projection.Accepts, Above;
    if |beats| > 0 {
      var b := beats[0];
      if !b.OnlyRight? { Tracked(sees, v, s, b.left); }
      if !b.OnlyLeft? { Tracked(sees, v, t, b.right); }
      match b {
        case Both(e, f) =>
          PairedSeen(sees, v, id, seen, e, f);
          if e.Reporting? { AboveAccepted(s, e.report); }
          if f.Reporting? { AboveAccepted(t, f.report); }
        case OnlyLeft(e) => AsideIsHidden(sees, v, id, s, e);
        case OnlyRight(f) => AsideIsHidden(sees, v, id, t, f);
      }
      var left := if b.OnlyLeft? || b.OnlyRight? then seen else SeenAfter(sees, v, seen, b.left);
      ParallelIsWoven(sees, v, id, LeftAfter(sees, s, b), RightAfter(sees, t, b), left, beats[1..]);
    }
  }

  lemma AlikeSeen(sees: Sight, v: Principal, id: ClientID, s: Hub, t: Hub)
    requires Alike(sees, v, id, s, t)
    ensures SeenIn(sees, v, s) == SeenIn(sees, v, t)
  {
    SeenBy(sees, v, s);
    SeenBy(sees, v, t);
    hide SeenIn, Hub.Sound, OpenOnly, Projection.In, Projection.Count;
    forall m ensures m in SeenIn(sees, v, s) <==> m in SeenIn(sees, v, t) {
      assert forall c :: Open(sees, v, c) ==> SameChannel(s, t, c);
    }
  }

  lemma SeenBy(sees: Sight, v: Principal, h: Hub)
    ensures forall m :: m in SeenIn(sees, v, h) <==> exists c :: Open(sees, v, c) && m in h.projection.In(c)
  {
    forall m | m in SeenIn(sees, v, h) ensures exists c :: Open(sees, v, c) && m in h.projection.In(c) {
      assert m in h.projection.In(h.projection.present[m].channel);
    }
  }

  /** Noninterference from the streams alone: in two runs from hubs alike to a client,
      whose members number their own reports upwards in each run for itself, whatever one
      run reports of members out of the client's sight, and the other does not, is never
      heard. */
  lemma ParallelNoninterference(
    sees: Sight, v: Principal, id: ClientID, s: Hub, t: Hub, beats: seq<Beat>)
    requires Alike(sees, v, id, s, t)
    requires Parallel(sees, v, id, s.projection.seqs, t.projection.seqs, SeenIn(sees, v, s), beats)
    ensures Heard(Trace(sees, id, s, Lefts(beats))) == Heard(Trace(sees, id, t, Rights(beats)))
  {
    hide *;
    AlikeSeen(sees, v, id, s, t);
    ParallelIsWoven(sees, v, id, s, t, SeenIn(sees, v, s), beats);
    WovenNoninterference(sees, v, id, s, t, beats);
  }

  // What is observed is what the client has to go on.

  /** The messages of a push, taken one after the other. */
  function TakeAll(rep: Replica, ms: seq<Message>): Replica {
    if |ms| == 0 then rep else TakeAll(rep, ms[..|ms| - 1]).Take(ms[|ms| - 1])
  }

  function Learnt(rep: Replica, o: Observation): Replica {
    match o
    case Silence => rep
    case Answered(r) => if r.Sent? then rep.Take(r.message) else rep
    case Pushed(ms) => TakeAll(rep, ms)
  }

  lemma {:induction false} DeliveriesTaken(rep: Replica, id: ClientID, ds: seq<Delivery>)
    ensures rep.TakeDeliveries(id, ds) == TakeAll(rep, MessagesTo(id, ds))
  {
    hide Replica.Take;
    if |ds| > 0 {
      var init, d := ds[..|ds| - 1], ds[|ds| - 1];
      DeliveriesTaken(rep, id, init);
      var ms := MessagesTo(id, init);
      assert (ms + [d.message])[..|ms|] == ms;
    }
  }

  /** What a client holds after an event is what it held before and what it observed of the
      event, and nothing else; one newly attached held nothing. */
  lemma ReplicaLearns(sees: Sight, s: System, e: Event, id: ClientID)
    requires s.replicas.Keys == s.hub.clients.Keys && id in Step(sees, s, e).replicas
    ensures Step(sees, s, e).replicas[id] ==
      Learnt(if id in s.replicas then s.replicas[id] else BLANK, Observed(sees, id, s.hub, e))
    ensures Step(sees, s, e).hub == Next(sees, s.hub, e)
  {
    hide Replica.Take, Replica.TakeDeliveries, Hub.Flush, Hub.Apply, Hub.AddChannel, Hub.CountsFor, Hub.ListMessage;
    hide MessagesTo, TakeAll;
    if e.Flushing? { DeliveriesTaken(s.replicas[id], id, s.hub.Flush(sees).1); }
  }
}
