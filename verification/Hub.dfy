/** The presence hub: attached clients, coalesced changes, and the two tiers of
    update each client is sent at the end of an interval. */
module Hubs {
  import opened Listings
  import opened Ids
  import opened Presences

  type ClientID = string

  datatype Kind = Person | Bot

  datatype Principal = Principal(id: ID, kind: Kind)

  /** `Allow` for the permission to see a channel, with the grants fixed. */
  type Sight = (Principal, ID) -> bool

  datatype CountUpdate = CountUpdate(channel: ID, count: nat)

  datatype MemberUpdate = MemberUpdate(channel: ID, member: ID, present: bool, now: Presence)

  datatype Message = Message(snapshot: bool, counts: seq<CountUpdate>, members: seq<MemberUpdate>) {
    predicate IsEmpty() { |counts| == 0 && |members| == 0 }
  }

  const NO_MESSAGE := Message(false, [], [])

  datatype Delivery = Delivery(client: ClientID, message: Message)

  datatype Client = Client(viewer: Principal, subscribed: set<ID>)

  datatype Pending = Pending(countMoved: bool, members: map<ID, MemberUpdate>)

  const NOTHING_PENDING := Pending(false, map[])

  datatype HubError = ClientNeedsIdentifier | ClientTaken | ClientNeedsPrincipal | NoSuchClient | NoSuchChannel
                    | ChannelNeedsIdentifier | ChannelTaken

  datatype Reply = Sent(message: Message) | Failed(error: HubError)

  datatype Outcome = Done | Refused(error: HubError)

  predicate ByMember(a: MemberUpdate, b: MemberUpdate) { IdBefore(a.member, b.member) }

  function Gone(c: ID, m: ID): MemberUpdate { MemberUpdate(c, m, false, NO_PRESENCE) }

  function RemoveFirst<T(==)>(s: seq<T>, x: T): seq<T> {
    if |s| == 0 then [] else if s[0] == x then s[1..] else [s[0]] + RemoveFirst(s[1..], x)
  }

  /** The pending map after a count moved in c, or did not, and one member's update. */
  function Noted(pending: map<ID, Pending>, c: ID, moved: bool, u: MemberUpdate): map<ID, Pending> {
    var p := if c in pending then pending[c] else NOTHING_PENDING;
    pending[c := Pending(p.countMoved || moved, p.members[u.member := u])]
  }

  /** What one accepted change leaves to be sent. */
  function NotedChange(pending: map<ID, Pending>, ch: Change): map<ID, Pending> {
    if ch.Moved() then
      var left := if ch.left == NoID then pending else Noted(pending, ch.left, true, Gone(ch.left, ch.member));
      if ch.joined == NoID then left
      else Noted(left, ch.joined, true, MemberUpdate(ch.joined, ch.member, true, ch.now))
    else
      Noted(pending, ch.joined, false, MemberUpdate(ch.joined, ch.member, true, ch.now))
  }

  /** The channels of the hub, in its order, that have something pending. */
  function Changed(channels: seq<ID>, pending: map<ID, Pending>): seq<ID> {
    if |channels| == 0 then []
    else
      var init, c := Changed(channels[..|channels| - 1], pending), channels[|channels| - 1];
      if c in pending then init + [c] else init
  }

  datatype Hub = Hub(known: set<ID>, channels: seq<ID>, projection: Projection,
                     clients: map<ClientID, Client>, attached: seq<ClientID>, pending: map<ID, Pending>) {

    predicate Visible(sees: Sight, viewer: Principal, c: ID) { c in known && sees(viewer, c) }

    /** The count of every channel of `channels` the viewer can see, in order. */
    function CountsFor(sees: Sight, viewer: Principal, chans: seq<ID>): seq<CountUpdate> {
      if |chans| == 0 then []
      else
        var init, c := CountsFor(sees, viewer, chans[..|chans| - 1]), chans[|chans| - 1];
        if Visible(sees, viewer, c) then init + [CountUpdate(c, projection.Count(c))] else init
    }

    function AddChannel(c: ID): (Hub, Outcome) {
      if c == NoID then (this, Refused(ChannelNeedsIdentifier))
      else if c in known then (this, Refused(ChannelTaken))
      else (this.(known := known + {c}, channels := channels + [c]), Done)
    }

    function Attach(sees: Sight, id: ClientID, viewer: Principal): (Hub, Reply) {
      if id == "" then (this, Failed(ClientNeedsIdentifier))
      else if id in clients then (this, Failed(ClientTaken))
      else if viewer.id == NoID then (this, Failed(ClientNeedsPrincipal))
      else (this.(clients := clients[id := Client(viewer, {})], attached := attached + [id]),
            Sent(Message(true, CountsFor(sees, viewer, channels), [])))
    }

    function Detach(id: ClientID): Hub {
      if id !in clients then this
      else this.(clients := clients - {id}, attached := RemoveFirst(attached, id))
    }

    ghost function Subscribe(sees: Sight, id: ClientID, c: ID): (Hub, Reply) {
      if id !in clients then (this, Failed(NoSuchClient))
      else if !Visible(sees, clients[id].viewer, c) then (this, Failed(NoSuchChannel))
      else
        var cl := clients[id];
        (this.(clients := clients[id := cl.(subscribed := cl.subscribed + {c})]), Sent(ListMessage(c)))
    }

    ghost function ListMessage(c: ID): Message {
      Message(true, [CountUpdate(c, projection.Count(c))], Entries(c, projection.Occupants(c)))
    }

    function Unsubscribe(id: ClientID, c: ID): Hub {
      if id in clients then
        var cl := clients[id];
        this.(clients := clients[id := cl.(subscribed := cl.subscribed - {c})])
      else this
    }

    function Apply(r: Report): (Hub, bool) {
      var (p, ch, moved) := projection.Apply(r);
      if moved then (this.(projection := p, pending := NotedChange(pending, ch)), true)
      else (this.(projection := p), false)
    }

    /** What a client is told about the changed channels, in order. */
    ghost function MessageOver(sees: Sight, cl: Client, chans: seq<ID>): Message {
      if |chans| == 0 then NO_MESSAGE
      else
        var m, c := MessageOver(sees, cl, chans[..|chans| - 1]), chans[|chans| - 1];
        if !Visible(sees, cl.viewer, c) || c !in pending then m
        else
          Message(false,
            if pending[c].countMoved then m.counts + [CountUpdate(c, projection.Count(c))] else m.counts,
            if c in cl.subscribed then m.members + SortedUpdates(pending[c].members) else m.members)
    }

    /** The message this flush holds for a client, empty where there is nothing to learn. */
    ghost function MessageFor(sees: Sight, cl: Client): Message {
      MessageOver(sees, cl, Changed(channels, pending))
    }

    ghost function DeliveriesTo(sees: Sight, ids: seq<ClientID>): seq<Delivery> {
      if |ids| == 0 then []
      else
        var init, id := DeliveriesTo(sees, ids[..|ids| - 1]), ids[|ids| - 1];
        if id !in clients || MessageFor(sees, clients[id]).IsEmpty() then init
        else init + [Delivery(id, MessageFor(sees, clients[id]))]
    }

    ghost function Flush(sees: Sight): (Hub, seq<Delivery>) {
      if pending == map[] then (this, [])
      else (this.(pending := map[]), DeliveriesTo(sees, attached))
    }

    /** What every operation keeps about the hub's own bookkeeping. */
    ghost predicate Sound() {
      && projection.Exact()
      && known == Elements(channels) && NoID !in known
      && (forall i, j :: 0 <= i < j < |channels| ==> channels[i] != channels[j])
      && clients.Keys == Elements(attached)
      && (forall i, j :: 0 <= i < j < |attached| ==> attached[i] != attached[j])
      && (forall c :: c in pending ==> OwnUpdates(c, pending[c].members))
    }
  }

  function Entries(c: ID, found: seq<Presence>): (e: seq<MemberUpdate>)
    ensures |e| == |found| && forall i :: 0 <= i < |e| ==> e[i] == MemberUpdate(c, found[i].member, true, found[i])
  {
    seq(|found|, i requires 0 <= i < |found| => MemberUpdate(c, found[i].member, true, found[i]))
  }

  ghost function SortedUpdates(members: map<ID, MemberUpdate>): seq<MemberUpdate> {
    Listing(members.Values, ByMember)
  }

  ghost predicate OwnUpdates(c: ID, members: map<ID, MemberUpdate>) {
    forall m :: m in members ==> members[m].member == m && members[m].channel == c
  }

  lemma UpdatesOrdered(c: ID, members: map<ID, MemberUpdate>)
    requires OwnUpdates(c, members)
    ensures Ordered(members.Values, ByMember)
  {
    var e := members.Values;
    forall a, b | a in e && b in e && a != b ensures ByMember(a, b) || ByMember(b, a) {
      IdsOrdered({a.member, b.member});
    }
    forall a | a in e ensures !ByMember(a, a) { IdsOrdered({a.member}); }
    forall a, b, d | a in e && b in e && d in e && ByMember(a, b) && ByMember(b, d) ensures ByMember(a, d) {
      IdsOrdered({a.member, b.member, d.member});
    }
  }

  lemma RemoveFirstHere(s: seq<ClientID>, i: nat, x: ClientID)
    requires i < |s| && s[i] == x
    ensures RemoveFirst(s[i..], x) == s[i + 1..]
  {
    assert s[i..][1..] == s[i + 1..];
  }

  lemma RemoveFirstPast(s: seq<ClientID>, i: nat, x: ClientID)
    requires i < |s| && s[i] != x
    ensures RemoveFirst(s[i..], x) == [s[i]] + RemoveFirst(s[i + 1..], x)
  {
    assert s[i..][1..] == s[i + 1..];
  }

  lemma RemoveFirstEnd<T>(s: seq<T>, x: T)
    ensures s[..|s|] + RemoveFirst(s[|s|..], x) == s
  {}

  const NEW_HUB := Hub({}, [], EMPTY, map[], [], map[])

  // Every operation keeps the bookkeeping sound.

  lemma {:induction false} RemoveFirstKeeps<T(!new)>(s: seq<T>, x: T)
    requires forall i, j :: 0 <= i < j < |s| ==> s[i] != s[j]
    ensures var t := RemoveFirst(s, x);
      Elements(t) == Elements(s) - {x} && |t| <= |s| && forall i, j :: 0 <= i < j < |t| ==> t[i] != t[j]
  {
    if |s| > 0 {
      var u, t := s[1..], RemoveFirst(s[1..], x);
      RemoveFirstKeeps(u, x);
      assert Elements(s) == {s[0]} + Elements(u) by {
        forall y | y in s ensures y == s[0] || y in u {
          var i :| 0 <= i < |s| && s[i] == y;
          if i > 0 { assert u[i - 1] == y; }
        }
      }
      assert s[0] !in Elements(u);
      if s[0] != x {
        var v := [s[0]] + t;
        assert Elements(v) == {s[0]} + Elements(t) by {
          forall y | y in v ensures y == s[0] || y in t {}
          forall y | y in t ensures y in v {
            var i :| 0 <= i < |t| && t[i] == y;
            assert v[i + 1] == y;
          }
          assert v[0] == s[0];
        }
        forall i, j | 0 <= i < j < |v| ensures v[i] != v[j] {
          assert v[j] == t[j - 1] && t[j - 1] in Elements(t);
        }
      }
    }
  }

  lemma NewHubSound()
    ensures NEW_HUB.Sound()
  {
    FoldExact([]);
  }

  lemma AddChannelSound(h: Hub, c: ID)
    requires h.Sound()
    ensures h.AddChannel(c).0.Sound()
  {
    hide OwnUpdates;
    var g := h.AddChannel(c).0;
    if g != h {
      assert g.channels[|h.channels|] == c;
      assert forall x :: x in h.channels ==> x in Elements(h.channels);
      assert forall x :: x in g.channels ==> x in h.channels || x == c;
    }
  }

  lemma AttachSound(h: Hub, sees: Sight, id: ClientID, viewer: Principal)
    requires h.Sound()
    ensures h.Attach(sees, id, viewer).0.Sound()
  {
    hide OwnUpdates, Projection.Exact, Hub.CountsFor;
    var g := h.Attach(sees, id, viewer).0;
    if g != h {
      assert g.attached[|h.attached|] == id;
      assert forall x :: x in h.attached ==> x in Elements(h.attached);
      assert forall x :: x in g.attached ==> x in h.attached || x == id;
    }
  }

  lemma DetachSound(h: Hub, id: ClientID)
    requires h.Sound()
    ensures h.Detach(id).Sound()
  {
    hide OwnUpdates, Projection.Exact, RemoveFirst;
    RemoveFirstKeeps(h.attached, id);
  }

  lemma SubscribeSound(h: Hub, sees: Sight, id: ClientID, c: ID)
    requires h.Sound()
    ensures h.Subscribe(sees, id, c).0.Sound() && h.Unsubscribe(id, c).Sound()
  {
    hide OwnUpdates, Projection.Exact, Hub.ListMessage;
    if id in h.clients { assert id in h.clients.Keys; }
  }

  lemma NotedOwn(pending: map<ID, Pending>, c: ID, moved: bool, u: MemberUpdate)
    requires forall d :: d in pending ==> OwnUpdates(d, pending[d].members)
    requires u.channel == c
    ensures forall d :: d in Noted(pending, c, moved, u) ==> OwnUpdates(d, Noted(pending, c, moved, u)[d].members)
  {}

  lemma ApplySound(h: Hub, r: Report)
    requires h.Sound()
    ensures h.Apply(r).0.Sound()
  {
    ApplyExact(h.projection, r);
    hide Projection.Exact, OwnUpdates, Projection.Apply, Noted;
    var (p, ch, moved) := h.projection.Apply(r);
    if moved {
      var left := if ch.left == NoID then h.pending else Noted(h.pending, ch.left, true, Gone(ch.left, ch.member));
      NotedOwn(h.pending, ch.left, true, Gone(ch.left, ch.member));
      NotedOwn(left, ch.joined, true, MemberUpdate(ch.joined, ch.member, true, ch.now));
      NotedOwn(h.pending, ch.joined, false, MemberUpdate(ch.joined, ch.member, true, ch.now));
    }
  }

  lemma AttachedAreClients(h: Hub)
    requires h.Sound()
    ensures forall id :: id in h.attached ==> id in h.clients
  {
    assert forall id :: id in h.attached ==> id in Elements(h.attached);
  }

  lemma FlushIs(h: Hub, sees: Sight)
    ensures h.pending != map[] ==> h.Flush(sees) == (h.(pending := map[]), h.DeliveriesTo(sees, h.attached))
  {}

  lemma FlushSound(h: Hub, sees: Sight)
    requires h.Sound()
    ensures h.Flush(sees).0.Sound()
  {}

  // The class.

  class PresenceHub {
    const sees: Sight
    const projection: PresenceProjection
    var known: set<ID>
    var channels: seq<ID>
    var clients: map<ClientID, Client>
    var attached: seq<ClientID>
    var pending: map<ID, Pending>

    ghost function State(): Hub
      reads this, projection
    {
      Hub(known, channels, projection.State(), clients, attached, pending)
    }

    constructor (sees: Sight)
      ensures State() == NEW_HUB && this.sees == sees && fresh(projection)
    {
      this.sees := sees;
      projection := new PresenceProjection();
      known, channels, clients, attached, pending := {}, [], map[], [], map[];
    }

    method AddChannel(c: ID) returns (r: Outcome)
      modifies this`known, this`channels
      ensures (State(), r) == old(State()).AddChannel(c)
    {
      if c == NoID {
        return Refused(ChannelNeedsIdentifier);
      }
      if c in known {
        return Refused(ChannelTaken);
      }
      known := known + {c};
      channels := channels + [c];
      return Done;
    }

    predicate Visible(viewer: Principal, c: ID)
      reads this
    {
      c in known && sees(viewer, c)
    }

    /** Registers a client and answers with the count of every channel it can see. */
    method Attach(id: ClientID, viewer: Principal) returns (r: Reply)
      modifies this`clients, this`attached
      ensures (State(), r) == old(State()).Attach(sees, id, viewer)
    {
      if id == "" {
        return Failed(ClientNeedsIdentifier);
      }
      if id in clients {
        return Failed(ClientTaken);
      }
      if viewer.id == NoID {
        return Failed(ClientNeedsPrincipal);
      }
      ghost var h := State();
      clients := clients[id := Client(viewer, {})];
      attached := attached + [id];
      var counts: seq<CountUpdate> := [];
      var i := 0;
      while i < |channels|
        invariant 0 <= i <= |channels|
        invariant counts == h.CountsFor(sees, viewer, channels[..i])
      {
        var c := channels[i];
        assert channels[..i + 1][..i] == channels[..i];
        if Visible(viewer, c) {
          counts := counts + [CountUpdate(c, projection.Count(c))];
        }
        i := i + 1;
      }
      assert channels[..|channels|] == channels;
      return Sent(Message(true, counts, []));
    }

    /** Forgets a client; one that is not attached is no error. */
    method Detach(id: ClientID)
      modifies this`clients, this`attached
      ensures State() == old(State()).Detach(id)
    {
      if id !in clients {
        return;
      }
      clients := clients - {id};
      Splice(id);
    }

    method Splice(id: ClientID)
      modifies this`attached
      ensures attached == RemoveFirst(old(attached), id)
    {
      hide *;
      ghost var was := attached;
      assert was == was[..0] + was[0..];
      var i := 0;
      while i < |attached|
        invariant 0 <= i <= |attached| && attached == was
        invariant RemoveFirst(was, id) == was[..i] + RemoveFirst(was[i..], id)
      {
        if attached[i] == id {
          RemoveFirstHere(was, i, id);
          attached := attached[..i] + attached[i + 1..];
          return;
        }
        RemoveFirstPast(was, i, id);
        assert was[..i + 1] == was[..i] + [was[i]];
        i := i + 1;
      }
      RemoveFirstEnd(was, id);
    }

    /** Adds a channel's membership to what a client receives, and answers with it. */
    method Subscribe(id: ClientID, c: ID) returns (r: Reply)
      requires State().projection.Exact()
      modifies this`clients
      ensures (State(), r) == old(State()).Subscribe(sees, id, c)
    {
      if id !in clients {
        return Failed(NoSuchClient);
      }
      var cl := clients[id];
      if !Visible(cl.viewer, c) {
        return Failed(NoSuchChannel);
      }
      clients := clients[id := cl.(subscribed := cl.subscribed + {c})];
      var found := projection.Occupants(c);
      return Sent(Message(true, [CountUpdate(c, projection.Count(c))], Entries(c, found)));
    }

    method Unsubscribe(id: ClientID, c: ID)
      modifies this`clients
      ensures State() == old(State()).Unsubscribe(id, c)
    {
      if id in clients {
        var cl := clients[id];
        clients := clients[id := cl.(subscribed := cl.subscribed - {c})];
      }
    }

    /** Records one member's update in a channel's pending changes. */
    method Note(c: ID, moved: bool, u: MemberUpdate)
      modifies this`pending
      ensures pending == Noted(old(pending), c, moved, u)
    {
      if c !in pending {
        pending := pending[c := NOTHING_PENDING];
      }
      var p := pending[c];
      pending := pending[c := Pending(p.countMoved || moved, p.members[u.member := u])];
    }

    /** Folds a report in and records what has to go out. */
    method Apply(r: Report) returns (moved: bool)
      modifies this`pending, projection
      ensures (State(), moved) == old(State()).Apply(r)
    {
      var change, folded := projection.Apply(r);
      if !folded {
        return false;
      }
      if change.Moved() {
        if change.left != NoID {
          Note(change.left, true, Gone(change.left, change.member));
        }
        if change.joined != NoID {
          Note(change.joined, true, MemberUpdate(change.joined, change.member, true, change.now));
        }
        return true;
      }
      Note(change.joined, false, MemberUpdate(change.joined, change.member, true, change.now));
      return true;
    }

    method SortUpdates(c: ID, members: map<ID, MemberUpdate>) returns (s: seq<MemberUpdate>)
      requires OwnUpdates(c, members)
      ensures s == SortedUpdates(members)
    {
      UpdatesOrdered(c, members);
      s := Sort(members.Values, ByMember);
      IsListing(s, members.Values, ByMember);
    }

    /** One client's message over the changed channels. */
    method Compose(cl: Client, changed: seq<ID>) returns (m: Message)
      requires State().Sound() && forall c :: c in changed ==> c in pending
      ensures m == State().MessageOver(sees, cl, changed)
    {
      hide SortedUpdates, OwnUpdates, Projection.Exact;
      var counts: seq<CountUpdate>, members: seq<MemberUpdate> := [], [];
      var i := 0;
      while i < |changed|
        invariant 0 <= i <= |changed|
        invariant Message(false, counts, members) == State().MessageOver(sees, cl, changed[..i])
      {
        var c := changed[i];
        assert changed[..i + 1][..i] == changed[..i];
        if Visible(cl.viewer, c) {
          var p := pending[c];
          if p.countMoved {
            counts := counts + [CountUpdate(c, projection.Count(c))];
          }
          if c in cl.subscribed {
            var sorted := SortUpdates(c, p.members);
            members := members + sorted;
          }
        }
        i := i + 1;
      }
      assert changed[..|changed|] == changed;
      return Message(false, counts, members);
    }

    method ChangedChannels() returns (changed: seq<ID>)
      ensures changed == Changed(channels, pending)
      ensures forall c :: c in changed ==> c in pending
    {
      changed := [];
      var i := 0;
      while i < |channels|
        invariant 0 <= i <= |channels|
        invariant changed == Changed(channels[..i], pending)
        invariant forall c :: c in changed ==> c in pending
      {
        assert channels[..i + 1][..i] == channels[..i];
        if channels[i] in pending {
          changed := changed + [channels[i]];
        }
        i := i + 1;
      }
      assert channels[..|channels|] == channels;
    }

    /** Ends the interval: at most one message per attached client, and none pending. */
    method Flush() returns (out: seq<Delivery>)
      requires State().Sound()
      modifies this`pending
      ensures (State(), out) == old(State()).Flush(sees)
    {
      if pending == map[] {
        return [];
      }
      ghost var h := State();
      AttachedAreClients(h);
      hide Projection.Exact, OwnUpdates, Hub.MessageOver, Hub.Sound, Changed;
      var changed := ChangedChannels();
      out := [];
      var i := 0;
      while i < |attached|
        invariant 0 <= i <= |attached| && State() == h
        invariant out == h.DeliveriesTo(sees, attached[..i])
      {
        var id := attached[i];
        assert attached[..i + 1][..i] == attached[..i];
        assert id in attached;
        var msg := Compose(clients[id], changed);
        if !msg.IsEmpty() {
          out := out + [Delivery(id, msg)];
        }
        i := i + 1;
      }
      assert attached[..|attached|] == attached;
      FlushIs(h, sees);
      pending := map[];
    }
  }
}
