/** What each operation of the hub does and answers, in terms of its fields alone. */
module HubMeaning {
  import opened Listings
  import opened Ids
  import opened Presences
  import opened Hubs
  import opened Replicas
  import Resumes

  /** A channel is added last, unless it has no name or is there. */
  lemma AddChannelMeans(h: Hub, c: ID)
    ensures var (g, o) := h.AddChannel(c);
      (o == Refused(ChannelNeedsIdentifier) <==> c == NoID)
      && (o == Refused(ChannelTaken) <==> c != NoID && c in h.known)
      && (o == Done <==> c != NoID && c !in h.known)
      && g == (if o == Done then h.(known := h.known + {c}, channels := h.channels + [c]) else h)
  {}

  /** The updates name channels at rising places of the list. */
  ghost predicate CountsRise(us: seq<CountUpdate>, chans: seq<ID>) {
    forall i, j, a, b :: (0 <= i < j < |us| && 0 <= a < |chans| && 0 <= b < |chans|
                          && chans[a] == us[i].channel && chans[b] == us[j].channel) ==> a < b
  }

  /** The updates are by channel in the list's order, and by identifier within one. */
  ghost predicate MembersRise(us: seq<MemberUpdate>, chans: seq<ID>) {
    forall i, j, a, b :: (0 <= i < j < |us| && 0 <= a < |chans| && 0 <= b < |chans|
                          && chans[a] == us[i].channel && chans[b] == us[j].channel) ==>
      a < b || (a == b && Before(String(us[i].member), String(us[j].member)))
  }

  ghost predicate CountsWithin(us: seq<CountUpdate>, chans: seq<ID>) { forall u :: u in us ==> u.channel in chans }

  ghost predicate MembersWithin(us: seq<MemberUpdate>, chans: seq<ID>) { forall u :: u in us ==> u.channel in chans }

  ghost predicate Distinct(chans: seq<ID>) {
    forall i, j :: 0 <= i < j < |chans| ==> chans[i] != chans[j]
  }

  lemma LastIsNew(chans: seq<ID>, c: ID)
    requires Distinct(chans + [c])
    ensures c !in chans && Distinct(chans)
  {
    var all := chans + [c];
    forall i | 0 <= i < |chans| ensures chans[i] != c {
      assert all[i] == chans[i] && all[|chans|] == c;
    }
    forall i, j | 0 <= i < j < |chans| ensures chans[i] != chans[j] {
      assert all[i] == chans[i] && all[j] == chans[j];
    }
  }

  lemma CountsStay(us: seq<CountUpdate>, chans: seq<ID>, c: ID)
    requires CountsRise(us, chans) && CountsWithin(us, chans) && Distinct(chans + [c])
    ensures CountsRise(us, chans + [c]) && CountsWithin(us, chans + [c])
  {
    var all := chans + [c];
    LastIsNew(chans, c);
    forall i, j, a, b | 0 <= i < j < |us| && 0 <= a < |all| && 0 <= b < |all|
        && all[a] == us[i].channel && all[b] == us[j].channel
      ensures a < b
    {
      assert us[i] in us && us[j] in us;
    }
  }

  lemma CountsGrow(us: seq<CountUpdate>, chans: seq<ID>, c: ID, n: nat)
    requires CountsRise(us, chans) && CountsWithin(us, chans) && Distinct(chans + [c])
    ensures var all, ws := chans + [c], us + [CountUpdate(c, n)];
      CountsRise(us, all) && CountsWithin(us, all) && CountsRise(ws, all) && CountsWithin(ws, all)
  {
    var all, ws := chans + [c], us + [CountUpdate(c, n)];
    LastIsNew(chans, c);
    CountsStay(us, chans, c);
    assert CountsWithin(ws, all) by {
      forall u | u in ws ensures u.channel in all { assert u in us || all[|chans|] == u.channel; }
    }
    forall i, j, a, b | 0 <= i < j < |ws| && 0 <= a < |all| && 0 <= b < |all|
        && all[a] == ws[i].channel && all[b] == ws[j].channel
      ensures a < b
    {
      assert us[i] in us && ws[i] == us[i];
      if j < |us| { assert us[j] in us && ws[j] == us[j]; }
    }
  }

  lemma {:induction false} CountsInOrder(h: Hub, sees: Sight, v: Principal, chans: seq<ID>)
    requires Distinct(chans)
    ensures CountsRise(h.CountsFor(sees, v, chans), chans) && CountsWithin(h.CountsFor(sees, v, chans), chans)
  {
    hide CountsRise, CountsWithin, Hub.Visible, Projection.Count;
    if |chans| > 0 {
      var init, c := chans[..|chans| - 1], chans[|chans| - 1];
      CountsInOrder(h, sees, v, init);
      assert chans == init + [c];
      CountsGrow(h.CountsFor(sees, v, init), init, c, h.projection.Count(c));
    } else {
      NothingRises();
    }
  }

  lemma NothingRises()
    ensures CountsRise([], []) && CountsWithin([], []) && MembersRise([], []) && MembersWithin([], [])
  {}

  /** A client with a name, a principal and no other connection of that name is attached
      last and answered with the number of members in every channel it can see, in the
      hub's order; anything else changes nothing. */
  lemma AttachMeans(h: Hub, sees: Sight, id: ClientID, viewer: Principal, c: ID)
    requires h.Sound()
    ensures var (g, r) := h.Attach(sees, id, viewer);
      (r == Failed(ClientNeedsIdentifier) <==> id == "")
      && (r == Failed(ClientTaken) <==> id != "" && id in h.clients)
      && (r == Failed(ClientNeedsPrincipal) <==> id != "" && id !in h.clients && viewer.id == NoID)
      && (r.Failed? <==> id == "" || id in h.clients || viewer.id == NoID)
      && (r.Failed? ==> g == h)
      && (r.Sent? ==>
            g == h.(clients := h.clients[id := Client(viewer, {})], attached := h.attached + [id])
            && r.message.snapshot && r.message.members == [] && CountsRise(r.message.counts, h.channels)
            && ((exists u :: u in r.message.counts && u.channel == c) <==> c in h.known && sees(viewer, c))
            && forall u :: u in r.message.counts ==>
                 u.count == |map m | m in h.projection.present && h.projection.present[m].channel == u.channel ::
                               h.projection.present[m]|)
  {
    var us := h.CountsFor(sees, viewer, h.channels);
    CountsInOrder(h, sees, viewer, h.channels);
    SnapshotCounts(h, sees, viewer, h.channels, c);
    assert c in h.known <==> c in Elements(h.channels);
    forall u | u in us
      ensures u.count == |map m | m in h.projection.present && h.projection.present[m].channel == u.channel ::
                            h.projection.present[m]|
    {
      assert u.count == h.projection.Count(u.channel);
    }
    hide Hub.CountsFor, CountsRise, Projection.Count, Projection.Exact;
  }

  /** A client that goes leaves the others in their order; one that is not there changes
      nothing. */
  lemma DetachMeans(h: Hub, a: seq<ClientID>, id: ClientID, b: seq<ClientID>)
    requires h.Sound()
    ensures id !in h.clients ==> h.Detach(id) == h
    ensures (id in h.clients && h.attached == a + [id] + b) ==>
      h.Detach(id) == h.(clients := h.clients - {id}, attached := a + b)
  {
    if h.attached == a + [id] + b {
      assert h.attached[|a|] == id;
      forall i | 0 <= i < |a| ensures a[i] != id { assert h.attached[i] == a[i]; }
      assert h.attached == a + ([id] + b);
      Resumes.RemoveMiddle(a, id, b);
    }
  }

  /** A subscription to a channel the client can see is answered with the number of its
      members and with all of them, longest present first; to one hidden or unknown, with
      one and the same error. */
  lemma SubscribeMeans(h: Hub, sees: Sight, id: ClientID, c: ID)
    requires h.Sound()
    ensures var (g, r) := h.Subscribe(sees, id, c);
      var seen := id in h.clients && c in h.known && sees(h.clients[id].viewer, c);
      (r == Failed(NoSuchClient) <==> id !in h.clients)
      && (r == Failed(NoSuchChannel) <==> id in h.clients && !seen)
      && (r.Sent? <==> seen) && (r.Failed? ==> g == h)
      && (r.Sent? ==>
            var cl, found := h.clients[id], h.projection.Occupants(c);
            g == h.(clients := h.clients[id := Client(cl.viewer, cl.subscribed + {c})])
            && r.message.snapshot && |r.message.counts| == 1 && r.message.counts[0].channel == c
            && r.message.counts[0].count == |h.projection.In(c)| && |r.message.members| == |found|
            && forall i :: 0 <= i < |found| ==>
                 r.message.members[i] == MemberUpdate(c, found[i].member, true, found[i]))
  {
    hide Projection.Occupants;
  }

  /** A client is left with the channel out of its set. */
  lemma UnsubscribeMeans(h: Hub, id: ClientID, c: ID)
    ensures id !in h.clients ==> h.Unsubscribe(id, c) == h
    ensures id in h.clients ==>
      var cl := h.clients[id];
      h.Unsubscribe(id, c) == h.(clients := h.clients[id := Client(cl.viewer, cl.subscribed - {c})])
  {}

  /** A report leaves something to be sent about a channel exactly where it changed it: its
      count, where the member came or went; the member, where what is said of them there
      changed. */
  lemma ReportMeans(h: Hub, r: Report, c: ID, m: ID)
    requires h.Sound() && c != NoID
    ensures var (g, moved) := h.Apply(r);
      var p, q := h.projection, g.projection;
      var wasIn := r.member in p.present && p.present[r.member].channel == c;
      var isIn := r.member in q.present && q.present[r.member].channel == c;
      var differs := wasIn != isIn || (isIn && p.present[r.member] != q.present[r.member]);
      q == p.Apply(r).0 && (moved <==> q.present != p.present)
      && g == h.(projection := q, pending := g.pending)
      && (c in g.pending <==> c in h.pending || differs)
      && (c in g.pending ==>
            var before := if c in h.pending then h.pending[c] else Pending(false, map[]);
            (g.pending[c].countMoved <==> before.countMoved || wasIn != isIn)
            && (m in g.pending[c].members <==> m in before.members || (m == r.member && differs))
            && (m in g.pending[c].members ==>
                  g.pending[c].members[m] ==
                    if m != r.member || !differs then before.members[m]
                    else if isIn then MemberUpdate(c, m, true, q.present[m])
                    else MemberUpdate(c, m, false, Presence(NoID, NoID, 0, false))))
  {
    var p := h.projection;
    var (q, ch, moved) := p.Apply(r);
    ApplyMeans(p, r);
    WhereItIs(p, r, c);
    hide Projection.Apply, Projection.Exact;
    if moved { NotedMeans(h.pending, ch, c, m); }
    hide NotedChange;
  }

  /** A channel's change is the member's coming, going or differing there. */
  lemma WhereItIs(p: Projection, r: Report, c: ID)
    requires p.Exact() && c != NoID
    ensures var (q, ch, moved) := p.Apply(r);
      var wasIn := r.member in p.present && p.present[r.member].channel == c;
      var isIn := r.member in q.present && q.present[r.member].channel == c;
      (moved ==>
         (wasIn <==> ch.left == c) && (isIn <==> ch.joined == c) && (!ch.Moved() ==> ch.joined != NoID)
         && (isIn ==> ch.now == q.present[r.member]) && ch.member == r.member
         && (wasIn && isIn ==> p.present[r.member] != q.present[r.member]))
      && (!moved ==> q.present == p.present)
  {
    hide CountsExact, Incremented, Decremented;
  }

  lemma NotedMeans(pending: map<ID, Pending>, ch: Change, c: ID, m: ID)
    requires c != NoID && (!ch.Moved() ==> ch.joined != NoID)
    ensures var g := NotedChange(pending, ch);
      var touched := ch.left == c || ch.joined == c;
      (c in g <==> c in pending || touched)
      && (c in g ==>
            var before := if c in pending then pending[c] else Pending(false, map[]);
            (g[c].countMoved <==> before.countMoved || (touched && ch.left != ch.joined))
            && (m in g[c].members <==> m in before.members || (m == ch.member && touched))
            && (m in g[c].members ==>
                  g[c].members[m] ==
                    if m != ch.member || !touched then before.members[m]
                    else if ch.joined == c then MemberUpdate(c, m, true, ch.now)
                    else MemberUpdate(c, m, false, Presence(NoID, NoID, 0, false))))
  {}

  // The order of a message.

  lemma {:induction false} MessageOfAll(h: Hub, sees: Sight, cl: Client, chans: seq<ID>)
    ensures h.MessageOver(sees, cl, Changed(chans, h.pending)) == h.MessageOver(sees, cl, chans)
  {
    hide SortedUpdates, Projection.Count, Hub.Visible;
    if |chans| > 0 {
      var init, c := chans[..|chans| - 1], chans[|chans| - 1];
      MessageOfAll(h, sees, cl, init);
      var changed := Changed(init, h.pending);
      assert (changed + [c])[..|changed|] == changed;
    }
  }

  lemma MembersStay(us: seq<MemberUpdate>, chans: seq<ID>, c: ID)
    requires MembersRise(us, chans) && MembersWithin(us, chans) && Distinct(chans + [c])
    ensures MembersRise(us, chans + [c]) && MembersWithin(us, chans + [c])
  {
    hide Before, String;
    var all := chans + [c];
    LastIsNew(chans, c);
    forall i, j, a, b | 0 <= i < j < |us| && 0 <= a < |all| && 0 <= b < |all|
        && all[a] == us[i].channel && all[b] == us[j].channel
      ensures a < b || (a == b && Before(String(us[i].member), String(us[j].member)))
    {
      assert us[i] in us && us[j] in us;
    }
  }

  lemma MembersGrow(us: seq<MemberUpdate>, chans: seq<ID>, c: ID, more: seq<MemberUpdate>)
    requires MembersRise(us, chans) && MembersWithin(us, chans) && Distinct(chans + [c])
    requires forall u :: u in more ==> u.channel == c
    requires forall i, j :: 0 <= i < j < |more| ==> Before(String(more[i].member), String(more[j].member))
    ensures MembersRise(us, chans + [c]) && MembersWithin(us, chans + [c])
    ensures MembersRise(us + more, chans + [c]) && MembersWithin(us + more, chans + [c])
  {
    hide Before, String;
    var all, ws := chans + [c], us + more;
    LastIsNew(chans, c);
    MembersStay(us, chans, c);
    assert MembersWithin(ws, all) by {
      forall u | u in ws ensures u.channel in all { assert u in us || (u in more && all[|chans|] == u.channel); }
    }
    forall i, j, a, b | 0 <= i < j < |ws| && 0 <= a < |all| && 0 <= b < |all|
        && all[a] == ws[i].channel && all[b] == ws[j].channel
      ensures a < b || (a == b && Before(String(ws[i].member), String(ws[j].member)))
    {
      if i < |us| { assert us[i] in us; } else { assert more[i - |us|] in more; }
      if j < |us| { assert us[j] in us; } else { assert more[j - |us|] in more; }
    }
  }

  lemma SortedUpdatesRise(c: ID, members: map<ID, MemberUpdate>)
    requires OwnUpdates(c, members)
    ensures var us := SortedUpdates(members);
      (forall u :: u in us ==> u.channel == c)
      && forall i, j :: 0 <= i < j < |us| ==> Before(String(us[i].member), String(us[j].member))
  {
    UpdatesOrdered(c, members);
    SortedUpdatesAre(c, members);
    hide Before, String;
    var us := SortedUpdates(members);
    assert Lists(us, members.Values, ByMember);
    forall i, j | 0 <= i < j < |us| ensures Before(String(us[i].member), String(us[j].member)) {
      assert ByMember(us[i], us[j]);
    }
  }

  lemma {:induction false} MessageOverInOrder(h: Hub, sees: Sight, cl: Client, chans: seq<ID>)
    requires h.Sound() && Distinct(chans)
    ensures var msg := h.MessageOver(sees, cl, chans);
      CountsRise(msg.counts, chans) && CountsWithin(msg.counts, chans)
      && MembersRise(msg.members, chans) && MembersWithin(msg.members, chans)
  {
    hide CountsRise, CountsWithin, MembersRise, MembersWithin, SortedUpdates, Projection.Count, Hub.Visible;
    if |chans| > 0 {
      var init, c := chans[..|chans| - 1], chans[|chans| - 1];
      assert chans == init + [c];
      MessageOverInOrder(h, sees, cl, init);
      var msg := h.MessageOver(sees, cl, init);
      CountsGrow(msg.counts, init, c, h.projection.Count(c));
      if c in h.pending {
        SortedUpdatesRise(c, h.pending[c].members);
        MembersGrow(msg.members, init, c, SortedUpdates(h.pending[c].members));
      } else {
        MembersGrow(msg.members, init, c, []);
      }
    } else {
      NothingRises();
    }
  }

  /** A message of a flush lists channels in the hub's order, and the members of each in
      the order of their identifiers. */
  lemma MessageInOrder(h: Hub, sees: Sight, cl: Client)
    requires h.Sound()
    ensures var msg := h.MessageFor(sees, cl);
      CountsRise(msg.counts, h.channels) && MembersRise(msg.members, h.channels)
  {
    MessageOfAll(h, sees, cl, h.channels);
    MessageOverInOrder(h, sees, cl, h.channels);
    hide *;
  }

  /** A message of a flush holds, of the channels the client can see, the number of members
      in each whose count moved, and, of those it follows, every member update pending;
      nothing else. */
  lemma MessageMeans(h: Hub, sees: Sight, cl: Client, n: CountUpdate, u: MemberUpdate)
    requires h.Sound()
    ensures var msg := h.MessageFor(sees, cl);
      !msg.snapshot
      && (n in msg.counts <==>
            n.channel in h.known && sees(cl.viewer, n.channel)
            && n.channel in h.pending && h.pending[n.channel].countMoved
            && n.count == |map m | m in h.projection.present && h.projection.present[m].channel == n.channel ::
                             h.projection.present[m]|)
      && (u in msg.members <==>
            u.channel in h.known && sees(cl.viewer, u.channel) && u.channel in cl.subscribed
            && u.channel in h.pending
            && u.member in h.pending[u.channel].members && u == h.pending[u.channel].members[u.member])
  {
    MessageOfAll(h, sees, cl, h.channels);
    MessageHolds(h, sees, cl, h.channels, n, u);
    assert n.channel in h.known <==> n.channel in Elements(h.channels);
    assert u.channel in h.known <==> u.channel in Elements(h.channels);
    assert h.projection.Count(n.channel) == |h.projection.In(n.channel)|;
    hide Hub.MessageOver, Projection.Exact, Changed;
  }

  lemma {:induction false} MessageHolds(
    h: Hub, sees: Sight, cl: Client, chans: seq<ID>, n: CountUpdate, u: MemberUpdate)
    requires h.Sound()
    ensures var msg := h.MessageOver(sees, cl, chans);
      !msg.snapshot
      && (n in msg.counts <==>
            n.channel in chans && h.Visible(sees, cl.viewer, n.channel) && n.channel in h.pending
            && h.pending[n.channel].countMoved && n.count == h.projection.Count(n.channel))
      && (u in msg.members <==>
            u.channel in chans && h.Visible(sees, cl.viewer, u.channel) && u.channel in h.pending
            && u.channel in cl.subscribed
            && u.member in h.pending[u.channel].members && u == h.pending[u.channel].members[u.member])
  {
    hide Hub.Visible, Projection.Count, SortedUpdates;
    if |chans| > 0 {
      var init, c := chans[..|chans| - 1], chans[|chans| - 1];
      MessageHolds(h, sees, cl, init, n, u);
      assert forall d :: d in chans <==> d in init || d == c;
      if c in h.pending { UpdateAmong(c, h.pending[c].members, u); }
      hide Hub.Sound;
    }
  }

  lemma UpdateAmong(c: ID, members: map<ID, MemberUpdate>, u: MemberUpdate)
    requires OwnUpdates(c, members)
    ensures u in SortedUpdates(members) <==> u.channel == c && u.member in members && u == members[u.member]
  {
    SortedUpdatesAre(c, members);
    hide SortedUpdates;
  }

  /** There is something to tell the client of c and of m in it: its count changed, or m
      did there and the client follows it. */
  predicate ToTell(h: Hub, sees: Sight, cl: Client, c: ID, m: ID) {
    c in h.known && sees(cl.viewer, c) && c in h.pending
    && (h.pending[c].countMoved || (c in cl.subscribed && m in h.pending[c].members))
  }

  /** A flush sends a client something exactly if there is something to tell it: the
      message above, once, in the order of attachment; and then nothing is pending. */
  lemma FlushMeans(h: Hub, sees: Sight, id: ClientID)
    requires h.Sound() && PendingTrue(h) && id in h.clients
    ensures var (g, ds) := h.Flush(sees);
      g == h.(pending := map[])
      && (forall d :: d in ds && d.client == id ==> d.message == h.MessageFor(sees, h.clients[id]))
      && ((exists d :: d in ds && d.client == id) <==> exists c, m :: ToTell(h, sees, h.clients[id], c, m))
  {
    FlushHub(h, sees);
    var cl, msg := h.clients[id], h.MessageFor(sees, h.clients[id]);
    assert id in h.attached by { assert id in Elements(h.attached); }
    DeliveriesAre(h, sees, h.attached, id);
    if h.pending == map[] {
      NothingChanged(h, sees, cl, h.channels);
    }
    SomethingToTell(h, sees, cl);
    hide Hub.MessageOver, Hub.DeliveriesTo, Changed, Hub.Sound, PendingTrue, Message.IsEmpty;
  }

  lemma {:induction false} DeliveriesAre(h: Hub, sees: Sight, ids: seq<ClientID>, id: ClientID)
    requires id in h.clients
    ensures var ds := h.DeliveriesTo(sees, ids);
      (forall d :: d in ds && d.client == id ==> d.message == h.MessageFor(sees, h.clients[id]))
      && ((exists d :: d in ds && d.client == id) <==> id in ids && !h.MessageFor(sees, h.clients[id]).IsEmpty())
  {
    hide Hub.MessageFor;
    if |ids| > 0 {
      var init, last := ids[..|ids| - 1], ids[|ids| - 1];
      DeliveriesAre(h, sees, init, id);
      assert id in ids <==> id in init || id == last;
      var ds := h.DeliveriesTo(sees, init);
      if last in h.clients && !h.MessageFor(sees, h.clients[last]).IsEmpty() {
        var d := Delivery(last, h.MessageFor(sees, h.clients[last]));
        assert h.DeliveriesTo(sees, ids) == ds + [d];
        assert forall x :: x in ds + [d] <==> x in ds || x == d;
      }
    }
  }

  lemma SomethingToTell(h: Hub, sees: Sight, cl: Client)
    requires h.Sound() && PendingTrue(h)
    ensures !h.MessageFor(sees, cl).IsEmpty() <==> exists c, m :: ToTell(h, sees, cl, c, m)
  {
    var msg := h.MessageFor(sees, cl);
    hide Hub.MessageFor, Hub.Sound, PendingTrue, TrueCounts, TrueMembers;
    if |msg.counts| > 0 {
      var u := msg.counts[0];
      assert u in msg.counts && NamesCount(msg.counts, u.channel);
      FlushTells(h, sees, cl, u.channel, NoID);
      assert ToTell(h, sees, cl, u.channel, NoID);
    } else if |msg.members| > 0 {
      var u := msg.members[0];
      assert u in msg.members && NamesMember(msg.members, u.channel, u.member);
      FlushTells(h, sees, cl, u.channel, u.member);
      assert ToTell(h, sees, cl, u.channel, u.member);
    }
    if c, m :| ToTell(h, sees, cl, c, m) {
      FlushTells(h, sees, cl, c, m);
    }
  }

  // Convergence.

  /** Of a channel the client can see it shows the number of members there, and of one it
      follows, the members themselves. */
  ghost predicate ShowsChannel(h: Hub, sees: Sight, cl: Client, rep: Replica, c: ID) {
    var there := map m | m in h.projection.present && h.projection.present[m].channel == c :: h.projection.present[m];
    (c in h.known && sees(cl.viewer, c) ==> |there| == if c in rep.counts then rep.counts[c] else 0)
    && (c in cl.subscribed ==> there == if c in rep.lists then rep.lists[c] else map[])
  }

  /** Converged, in full: every attached client shows every channel as it is. */
  lemma ConvergedMeans(sees: Sight, s: System)
    requires s.hub.projection.Exact()
    ensures Converged(sees, s) <==>
      s.replicas.Keys == s.hub.clients.Keys
      && forall id, c :: id in s.replicas ==> ShowsChannel(s.hub, sees, s.hub.clients[id], s.replicas[id], c)
  {
    hide Projection.Exact, ShowsChannel, Shown;
    if s.replicas.Keys == s.hub.clients.Keys {
      forall id | id in s.replicas
        ensures Shown(s.hub, sees, s.hub.clients[id], s.replicas[id])
           <==> forall c :: ShowsChannel(s.hub, sees, s.hub.clients[id], s.replicas[id], c)
      {
        ShownMeans(s.hub, sees, s.hub.clients[id], s.replicas[id]);
      }
    }
  }

  lemma ShownMeans(h: Hub, sees: Sight, cl: Client, rep: Replica)
    requires h.projection.Exact()
    ensures Shown(h, sees, cl, rep) <==> forall c :: ShowsChannel(h, sees, cl, rep, c)
  {
    forall c
      ensures ShowsChannel(h, sees, cl, rep, c) <==>
        (h.Visible(sees, cl.viewer, c) ==> rep.Count(c) == h.projection.Count(c))
        && (c in cl.subscribed ==> rep.List(c) == h.projection.In(c))
    {
      assert h.projection.Count(c) == |h.projection.In(c)|;
    }
    hide ShowsChannel, Projection.Exact, Projection.Count, Projection.In, Replica.Count, Replica.List, Hub.Visible;
  }
}
