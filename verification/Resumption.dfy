/** Runs of the resume register: what its answers mean, what it keeps count of, and
    that refreshing what it names loses nothing. */
module ResumeRuns {
  import opened Listings
  import opened Ids
  import opened Presences
  import opened Hubs
  import opened Replicas
  import opened Resumes
  import opened Visibility

  /** The register, with the log of every batch published and where in it each held
      suspension began, and what has been accepted, resumed and reaped so far. */
  datatype World = World(reg: Register, log: seq<set<ID>>, began: map<Session, nat>,
                         accepted: nat, resumed: nat, reaped: nat)

  /** The channels of every batch from the k-th on. */
  function MovedSince(log: seq<set<ID>>, k: nat): set<ID>
    requires k <= |log|
  {
    if k == |log| then {} else MovedSince(log[..|log| - 1], k) + log[|log| - 1]
  }

  datatype Act =
    | Publishing(channels: seq<ID>)
    | Suspending(session: Session, member: ID, now: int)
    | Resuming(ticket: Ticket, member: ID, now: int)
    | Reaping(clock: nat -> int)

  ghost function Act1(w: World, a: Act): World
    requires w.reg.Sound()
  {
    OrderHeld(w.reg);
    match a
    case Publishing(channels) =>
      w.(reg := w.reg.Publish(channels), log := if |channels| == 0 then w.log else w.log + [Elements(channels)])
    case Suspending(session, member, now) =>
      var (r, o) := w.reg.Suspend(session, member, now);
      if o.Held? then w.(reg := r, began := w.began[session := |w.log|], accepted := w.accepted + 1)
      else w.(reg := r)
    case Resuming(t, member, now) =>
      var (r, ans) := w.reg.Resume(t, member, now);
      if ans.Refusal? then w.(reg := r)
      else w.(reg := r, began := w.began - {t.session}, resumed := w.resumed + 1)
    case Reaping(clock) =>
      var (r, gone) := w.reg.Reap(clock);
      w.(reg := r, began := map s | s in w.began && s in r.held :: w.began[s], reaped := w.reaped + |gone|)
  }

  /** What a suspension that began at k remembers of the log. */
  ghost predicate Remembers(s: Suspension, log: seq<set<ID>>, k: nat, breadth: nat) {
    k <= |log| && s.from == k % U64
    && s.missed == if |MovedSince(log, k)| > breadth then Everything else Channels(MovedSince(log, k))
  }

  ghost predicate WorldInv(w: World) {
    && w.reg.Sound()
    && w.reg.revision == |w.log| % U64
    && w.began.Keys == w.reg.held.Keys
    && w.accepted == w.resumed + w.reaped + |w.reg.held|
    && forall s :: s in w.reg.held ==> Remembers(w.reg.held[s], w.log, w.began[s], w.reg.breadth)
  }

  ghost function NewWorld(window: int, breadth: nat): World {
    World(Register(window, breadth, 0, map[], []), [], map[], 0, 0, 0)
  }

  /** The revision after n batches. */
  function RevisionOf(n: nat): nat { n % U64 }

  lemma SizeMonotone(a: set<ID>, b: set<ID>)
    requires a <= b
    ensures |a| <= |b|
  {
    assert b == a + (b - a);
  }

  /** One batch more: a set over the bound stays over it. */
  lemma RecordRemembers(s: Suspension, log: seq<set<ID>>, k: nat, breadth: nat, batch: set<ID>)
    requires Remembers(s, log, k, breadth)
    ensures Remembers(s.Record(batch, breadth), log + [batch], k, breadth)
  {
    assert (log + [batch])[..|log|] == log;
    SizeMonotone(MovedSince(log, k), MovedSince(log, k) + batch);
  }

  lemma PublishKeeps(w: World, channels: seq<ID>)
    requires WorldInv(w)
    ensures WorldInv(Act1(w, Publishing(channels)))
  {
    PublishSound(w.reg, channels);
    hide Register.Sound, Remembers, Suspension.Record, Elements;
    var v := Act1(w, Publishing(channels));
    if |channels| > 0 {
      forall s | s in v.reg.held ensures Remembers(v.reg.held[s], v.log, v.began[s], v.reg.breadth) {
        RecordRemembers(w.reg.held[s], w.log, w.began[s], w.reg.breadth, Elements(channels));
      }
      assert v.reg.held.Keys == w.reg.held.Keys;
      assert |v.reg.held| == |v.reg.held.Keys| == |w.reg.held|;
    }
  }

  /** An act that touches one suspension only leaves the others as they were. */
  lemma OneSession(w: World, v: World, x: Session)
    requires WorldInv(w) && v.reg.Sound() && v.log == w.log
    requires v.reg.revision == w.reg.revision && v.reg.breadth == w.reg.breadth
    requires v.began.Keys == v.reg.held.Keys && v.accepted == v.resumed + v.reaped + |v.reg.held|
    requires forall s :: s in v.reg.held && s != x ==>
      s in w.reg.held && v.reg.held[s] == w.reg.held[s] && s in w.began && v.began[s] == w.began[s]
    requires x in v.reg.held ==> Remembers(v.reg.held[x], v.log, v.began[x], v.reg.breadth)
    ensures WorldInv(v)
  {
    hide Register.Sound, Remembers;
  }

  lemma WorldFacts(w: World)
    requires WorldInv(w)
    ensures w.reg.Sound() && w.began.Keys == w.reg.held.Keys
    ensures w.accepted == w.resumed + w.reaped + |w.reg.held|
  {
    hide Register.Sound, Remembers;
  }

  lemma BeganWithin(w: World, session: Session)
    requires WorldInv(w) && session in w.reg.held
    ensures session in w.began && w.began[session] <= |w.log|
  {}

  lemma SuspendKeeps(w: World, session: Session, member: ID, now: int)
    requires WorldInv(w)
    ensures WorldInv(Act1(w, Suspending(session, member, now)))
  {
    WorldFacts(w);
    hide *;
    if w.reg.Suspend(session, member, now).1.Held? {
      SuspendSound(w.reg, session, member, now);
      FreshRemembers(w, member, now);
      SuspendShape(w, session, member, now);
      OneSession(w, Act1(w, Suspending(session, member, now)), session);
    } else {
      SuspendRefused(w, session, member, now);
    }
  }

  lemma SuspendRefused(w: World, session: Session, member: ID, now: int)
    requires w.reg.Sound() && w.reg.Suspend(session, member, now).1.Rejected?
    ensures Act1(w, Suspending(session, member, now)) == w
  {
    hide Register.Sound;
  }

  lemma SuspendShape(w: World, session: Session, member: ID, now: int)
    requires w.reg.Sound() && w.began.Keys == w.reg.held.Keys
    requires w.reg.Suspend(session, member, now).1.Held?
    ensures var v := Act1(w, Suspending(session, member, now));
      v.reg == w.reg.Suspend(session, member, now).0 && v.log == w.log
      && v.reg.revision == w.reg.revision && v.reg.breadth == w.reg.breadth
      && v.reg.held == w.reg.held[session := Suspension(member, now + w.reg.window, w.reg.revision, Channels({}))]
      && v.began == w.began[session := |w.log|] && session !in w.reg.held
      && |v.reg.held| == |w.reg.held| + 1
      && v.accepted == w.accepted + 1 && v.resumed == w.resumed && v.reaped == w.reaped
  {
    hide Register.Sound;
    MapSizes(w.reg.held, session, Suspension(member, now + w.reg.window, w.reg.revision, Channels({})));
  }

  lemma FreshRemembers(w: World, member: ID, now: int)
    requires WorldInv(w)
    ensures var s := Suspension(member, now + w.reg.window, w.reg.revision, Channels({}));
      Remembers(s, w.log, |w.log|, w.reg.breadth)
  {
    hide Register.Sound;
  }

  lemma ResumeKeeps(w: World, t: Ticket, member: ID, now: int)
    requires WorldInv(w)
    ensures WorldInv(Act1(w, Resuming(t, member, now)))
  {
    WorldFacts(w);
    hide *;
    ForgetSound(w.reg, t.session);
    ResumeShape(w, t, member, now);
    if !w.reg.Resume(t, member, now).1.Refusal? {
      OneSession(w, Act1(w, Resuming(t, member, now)), t.session);
    }
  }

  lemma ResumeShape(w: World, t: Ticket, member: ID, now: int)
    requires w.reg.Sound() && w.began.Keys == w.reg.held.Keys
    ensures var v := Act1(w, Resuming(t, member, now));
      if w.reg.Resume(t, member, now).1.Refusal? then v == w
      else
        v.reg == w.reg.Forget(t.session) && v.log == w.log && t.session in w.reg.held
        && v.reg.revision == w.reg.revision && v.reg.breadth == w.reg.breadth
        && v.reg.held == w.reg.held - {t.session} && v.began == w.began - {t.session}
        && v.accepted == w.accepted && v.resumed == w.resumed + 1 && v.reaped == w.reaped
  {
    hide Register.Sound, RemoveFirst, Listing;
  }

  lemma ReapKeeps(w: World, clock: nat -> int)
    requires WorldInv(w)
    ensures WorldInv(Act1(w, Reaping(clock)))
  {
    OrderHeld(w.reg);
    ReapSound(w.reg, clock);
    hide Register.Sound, Remembers, Register.Kept, Register.Gone;
  }

  /** Every act keeps the invariant, and with it the account: accepted suspensions are
      those resumed, those reaped and those still held. */
  lemma ActKeeps(w: World, a: Act)
    requires WorldInv(w)
    ensures WorldInv(Act1(w, a))
  {
    hide WorldInv, Act1;
    match a
    case Publishing(channels) => PublishKeeps(w, channels);
    case Suspending(session, member, now) => SuspendKeeps(w, session, member, now);
    case Resuming(t, member, now) => ResumeKeeps(w, t, member, now);
    case Reaping(clock) => ReapKeeps(w, clock);
  }

  /** What a ticket is answered, and when: the four refusals in their order, each of
      which changes nothing; everything, exactly when the ticket is behind the
      suspension or more channels moved than can be named; and otherwise the strictly
      sorted channels of every batch since. Tickets are held against revisions, which
      are the batches published until 2^64 of them. */
  lemma ResumeMeans(w: World, t: Ticket, member: ID, now: int)
    requires WorldInv(w)
    ensures var (r, ans) := w.reg.Resume(t, member, now);
      var held := t.session in w.reg.held;
      (ans.Refusal? ==> r == w.reg)
      && (ans == Refusal(NoSuspension) <==> !held)
      && (held ==>
            var s := w.reg.held[t.session];
            var k := w.began[t.session];
            var moved := MovedSince(w.log, k);
            (ans == Refusal(WindowPassed) <==> now >= s.deadline)
            && (ans == Refusal(NotYours) <==> now < s.deadline && s.member != member)
            && (ans == Refusal(Ahead) <==> now < s.deadline && s.member == member && t.folded > RevisionOf(|w.log|))
            && (!ans.Refusal? ==> t.session !in r.held && s.member == member)
            && (ans == Full(member) <==>
                  now < s.deadline && s.member == member && t.folded <= RevisionOf(|w.log|)
                  && (t.folded < RevisionOf(k) || |moved| > w.reg.breadth))
            && (ans.Difference? <==>
                  now < s.deadline && s.member == member
                  && RevisionOf(k) <= t.folded <= RevisionOf(|w.log|) && |moved| <= w.reg.breadth)
            && (ans.Difference? ==> ans.member == member && Lists(ans.missed, moved, IdBefore)))
  {
    if t.session in w.reg.held {
      var s, k := w.reg.held[t.session], w.began[t.session];
      assert Remembers(s, w.log, k, w.reg.breadth);
      IdsOrdered(MovedSince(w.log, k));
    }
    hide Register.Sound, RemoveFirst, Lists, Ordered, MovedSince, WorldInv;
  }

  /** A register's revision is the number of batches it has published, until 2^64. */
  lemma RevisionsAreBatches(w: World)
    requires WorldInv(w)
    ensures w.reg.revision == |w.log| <==> |w.log| < U64
  {
    hide Register.Sound, Remembers;
  }

  // Expiry.

  /** The deadlines are in the order of suspension. */
  ghost predicate DeadlinesRise(r: Register) {
    (forall s :: s in r.order ==> s in r.held)
    && forall i, j :: 0 <= i < j < |r.order| ==> r.held[r.order[i]].deadline <= r.held[r.order[j]].deadline
  }

  ghost predicate DeadlinesBy(r: Register, now: int) {
    forall s :: s in r.held ==> r.held[s].deadline <= now + r.window
  }

  /** The first n sessions of the order have expired, and those after have not. */
  ghost predicate ExpiredPrefix(r: Register, now: int, n: nat)
    requires forall s :: s in r.order ==> s in r.held
  {
    n <= |r.order|
    && (forall i :: 0 <= i < n ==> r.held[r.order[i]].Expired(now))
    && (forall i :: n <= i < |r.order| ==> !r.held[r.order[i]].Expired(now))
  }

  lemma {:induction false} KeptAfterPrefix(r: Register, clock: nat -> int, now: int, n: nat, k: nat)
    requires forall s :: s in r.order ==> s in r.held
    requires forall i :: clock(i) == now
    requires ExpiredPrefix(r, now, n) && k <= |r.order|
    ensures r.Kept(r.order[..k], clock) == if k <= n then [] else r.order[n..k]
    decreases k
  {
    hide *;
    PrefixLength(r, now, n);
    AsksUnfold(r, r.order[..k], clock);
    if k > 0 {
      PrefixStep(r, k - 1);
      KeptAfterPrefix(r, clock, now, n, k - 1);
      PrefixAt(r, now, n, k - 1);
      if k > n { assert r.order[n..k] == r.order[n..k - 1] + [r.order[k - 1]]; }
    }
  }

  lemma AsksUnfold(r: Register, sessions: seq<Session>, clock: nat -> int)
    requires forall s :: s in sessions ==> s in r.held
    ensures |sessions| == 0 ==> r.Kept(sessions, clock) == [] && r.Gone(sessions, clock) == []
    ensures |sessions| > 0 ==>
      var n := |sessions| - 1;
      var s, init := sessions[n], sessions[..n];
      if r.held[s].Expired(clock(n)) then
        r.Kept(sessions, clock) == r.Kept(init, clock)
        && r.Gone(sessions, clock) == r.Gone(init, clock) + [r.held[s].member]
      else
        r.Kept(sessions, clock) == r.Kept(init, clock) + [s] && r.Gone(sessions, clock) == r.Gone(init, clock)
  {}

  lemma PrefixStep(r: Register, k: nat)
    requires k < |r.order|
    ensures r.order[..k + 1][..k] == r.order[..k] && r.order[..k + 1][k] == r.order[k]
  {}

  lemma PrefixAt(r: Register, now: int, n: nat, i: nat)
    requires forall s :: s in r.order ==> s in r.held
    requires ExpiredPrefix(r, now, n) && i < |r.order|
    ensures r.held[r.order[i]].Expired(now) <==> i < n
  {}

  lemma {:induction false} GoneAfterPrefix(r: Register, clock: nat -> int, now: int, n: nat, k: nat)
    requires forall s :: s in r.order ==> s in r.held
    requires forall i :: clock(i) == now
    requires ExpiredPrefix(r, now, n) && k <= |r.order|
    ensures var gone := r.Gone(r.order[..k], clock);
      |gone| == (if k <= n then k else n) && forall i :: 0 <= i < |gone| ==> gone[i] == r.held[r.order[i]].member
    decreases k
  {
    hide *;
    PrefixLength(r, now, n);
    AsksUnfold(r, r.order[..k], clock);
    if k > 0 {
      PrefixStep(r, k - 1);
      GoneAfterPrefix(r, clock, now, n, k - 1);
      PrefixAt(r, now, n, k - 1);
    }
  }

  lemma PrefixLength(r: Register, now: int, n: nat)
    requires forall s :: s in r.order ==> s in r.held
    requires ExpiredPrefix(r, now, n)
    ensures n <= |r.order|
  {}

  /** With the clock still during the call, reaping removes exactly a prefix of the
      order: the expired sessions, reported in the order they suspended. */
  lemma ReapTakesPrefix(r: Register, now: int, n: nat)
    requires r.Sound() && DeadlinesRise(r) && ExpiredPrefix(r, now, n)
    ensures var (q, gone) := r.Reap(_ => now);
      q.order == r.order[n..] && |gone| == n && (forall i :: 0 <= i < n ==> gone[i] == r.held[r.order[i]].member)
      && q.held == Only(r.held, r.order[n..])
  {
    assert r.order[..|r.order|] == r.order;
    KeptAfterPrefix(r, _ => now, now, n, |r.order|);
    GoneAfterPrefix(r, _ => now, now, n, |r.order|);
    PrefixLength(r, now, n);
    hide Register.Kept, Register.Gone, ExpiredPrefix, Register.Sound;
  }

  lemma {:induction false} PrefixExists(r: Register, now: int, k: nat) returns (n: nat)
    requires DeadlinesRise(r) && k <= |r.order|
    requires forall i :: k <= i < |r.order| ==> !r.held[r.order[i]].Expired(now)
    ensures ExpiredPrefix(r, now, n)
  {
    if k == 0 || r.held[r.order[k - 1]].Expired(now) {
      n := k;
    } else {
      n := PrefixExists(r, now, k - 1);
    }
  }

  lemma {:induction false} RemoveFirstRises(held: map<Session, Suspension>, order: seq<Session>, x: Session)
    requires Rises(held, order)
    ensures Rises(held, RemoveFirst(order, x)) && forall s :: s in RemoveFirst(order, x) ==> s in order
  {
    if |order| > 0 {
      var tail := order[1..];
      assert forall i :: 0 <= i < |tail| ==> tail[i] == order[i + 1];
      RemoveFirstRises(held, tail, x);
      var t := RemoveFirst(tail, x);
      if order[0] != x {
        var v := [order[0]] + t;
        forall i, j | 0 <= i < j < |v|
          ensures v[i] in held && v[j] in held && held[v[i]].deadline <= held[v[j]].deadline
        {
          assert v[j] == t[j - 1] && v[j] in tail;
          if i > 0 { assert v[i] == t[i - 1]; }
        }
        assert forall s :: s in v ==> s == order[0] || s in t;
      }
    }
  }

  lemma {:induction false} KeptRises(r: Register, sessions: seq<Session>, clock: nat -> int)
    requires (forall s :: s in sessions ==> s in r.held) && Rises(r.held, sessions)
    ensures Rises(r.held, r.Kept(sessions, clock))
  {
    hide Suspension.Expired;
    if |sessions| > 0 {
      var n := |sessions| - 1;
      var init := sessions[..n];
      KeptRises(r, init, clock);
      KeptFrom(r, init, clock);
      var k := r.Kept(init, clock);
      forall s | s in k ensures r.held[s].deadline <= r.held[sessions[n]].deadline {
        assert s in init;
      }
    }
  }

  /** The deadlines of the listed sessions are in order. */
  ghost predicate Rises(held: map<Session, Suspension>, order: seq<Session>) {
    (forall s :: s in order ==> s in held)
    && forall i, j :: 0 <= i < j < |order| ==>
      order[i] in held && order[j] in held && held[order[i]].deadline <= held[order[j]].deadline
  }

  lemma RisesOn(held: map<Session, Suspension>, other: map<Session, Suspension>, order: seq<Session>)
    requires Rises(held, order)
    requires forall s :: s in order ==> s in other && other[s].deadline == held[s].deadline
    ensures Rises(other, order)
  {}

  /** No suspension is made at an earlier time than one before it. */
  ghost predicate Timed(acts: seq<Act>, t: int)
    decreases |acts|
  {
    |acts| > 0 ==>
      if acts[0].Suspending? then acts[0].now >= t && Timed(acts[1..], acts[0].now) else Timed(acts[1..], t)
  }

  ghost predicate InTime(r: Register, t: int) { Rises(r.held, r.order) && DeadlinesBy(r, t) }

  lemma SuspendInTime(r: Register, session: Session, member: ID, now: int, t: int)
    requires r.Sound() && InTime(r, t) && now >= t
    ensures InTime(r.Suspend(session, member, now).0, now)
  {
    assert forall s :: s in r.order ==> s in Elements(r.order);
    hide Elements;
  }

  lemma ForgetInTime(r: Register, session: Session, t: int)
    requires r.Sound() && InTime(r, t)
    ensures InTime(r.Forget(session), t)
  {
    ForgetSound(r, session);
    OrderHeld(r.Forget(session));
    RemoveFirstRises(r.held, r.order, session);
    hide RemoveFirst, Register.Sound, Rises;
    RisesOn(r.held, r.Forget(session).held, r.Forget(session).order);
  }

  lemma ReapInTime(r: Register, clock: nat -> int, t: int)
    requires r.Sound() && (forall s :: s in r.order ==> s in r.held) && InTime(r, t)
    ensures InTime(r.Reap(clock).0, t)
  {
    ReapSound(r, clock);
    OrderHeld(r.Reap(clock).0);
    KeptRises(r, r.order, clock);
    hide Register.Kept, Register.Gone, Register.Sound, Rises;
    RisesOn(r.held, r.Reap(clock).0.held, r.Reap(clock).0.order);
  }

  lemma PublishInTime(r: Register, channels: seq<ID>, t: int)
    requires r.Sound() && InTime(r, t)
    ensures InTime(r.Publish(channels), t)
  {
    OrderHeld(r);
    hide Elements, Rises, Register.Sound;
    RisesOn(r.held, r.Publish(channels).held, r.order);
  }

  lemma ActRegister(w: World, a: Act)
    requires w.reg.Sound()
    ensures (forall s :: s in w.reg.order ==> s in w.reg.held)
    ensures var v := Act1(w, a).reg;
      match a
      case Publishing(channels) => v == w.reg.Publish(channels)
      case Suspending(session, member, now) => v == w.reg.Suspend(session, member, now).0
      case Resuming(ticket, _, _) => v == w.reg || v == w.reg.Forget(ticket.session)
      case Reaping(clock) => (forall s :: s in w.reg.order ==> s in w.reg.held) && v == w.reg.Reap(clock).0
  {
    OrderHeld(w.reg);
    hide Register.Sound, RemoveFirst, Register.Kept, Register.Gone, Listing, Elements;
  }

  lemma ActInTime(w: World, a: Act, t: int)
    requires WorldInv(w) && InTime(w.reg, t) && (a.Suspending? ==> a.now >= t)
    ensures InTime(Act1(w, a).reg, if a.Suspending? then a.now else t)
  {
    hide *;
    WorldFacts(w);
    ActRegister(w, a);
    match a
    case Publishing(channels) => PublishInTime(w.reg, channels, t);
    case Suspending(session, member, now) => SuspendInTime(w.reg, session, member, now, t);
    case Resuming(ticket, member, now) => ForgetInTime(w.reg, ticket.session, t);
    case Reaping(clock) => ReapInTime(w.reg, clock, t);
  }

  lemma NewWorldInv(window: int, breadth: nat, t: int)
    ensures WorldInv(NewWorld(window, breadth)) && InTime(NewWorld(window, breadth).reg, t)
  {}

  /** In any run on a clock that does not go back the deadlines stay in the order of
      suspension, so reaping always takes a prefix. */
  lemma {:induction false} RunInTime(w: World, acts: seq<Act>, t: int)
    requires WorldInv(w) && InTime(w.reg, t) && Timed(acts, t)
    ensures DeadlinesRise(RunFrom(w, acts).reg) && RunFrom(w, acts).reg.Sound()
    decreases |acts|
  {
    hide WorldInv, InTime, Act1, Register.Sound, DeadlinesRise;
    WorldFacts(w);
    if |acts| > 0 {
      ActInTime(w, acts[0], t);
      ActKeeps(w, acts[0]);
      RunInTime(Act1(w, acts[0]), acts[1..], if acts[0].Suspending? then acts[0].now else t);
    } else {
      InTimeRises(w.reg, t);
    }
  }

  lemma InTimeRises(r: Register, t: int)
    requires InTime(r, t)
    ensures DeadlinesRise(r)
  {}

  ghost function RunFrom(w: World, acts: seq<Act>): World
    requires WorldInv(w)
    ensures WorldInv(RunFrom(w, acts))
    decreases |acts|
  {
    if |acts| == 0 then w
    else
      ActKeeps(w, acts[0]);
      RunFrom(Act1(w, acts[0]), acts[1..])
  }

  /** Every run of a new register, on a clock that does not go back: the account, and
      what reaping at the end of it takes, which is exactly a prefix of the order. */
  lemma RegisterRuns(window: int, breadth: nat, acts: seq<Act>, t: int, now: int) returns (n: nat)
    requires Timed(acts, t)
    ensures WorldInv(NewWorld(window, breadth))
    ensures var w := RunFrom(NewWorld(window, breadth), acts);
      w.accepted == w.resumed + w.reaped + |w.reg.held|
      && w.reg.Sound() && DeadlinesRise(w.reg) && ExpiredPrefix(w.reg, now, n) && n <= |w.reg.order|
      && var (q, gone) := w.reg.Reap(_ => now);
         q.order == w.reg.order[n..] && q.held == Only(w.reg.held, w.reg.order[n..])
         && |gone| == n && forall i :: 0 <= i < n ==> gone[i] == w.reg.held[w.reg.order[i]].member
  {
    NewWorldInv(window, breadth, t);
    hide *;
    var w := RunFrom(NewWorld(window, breadth), acts);
    WorldFacts(w);
    RunInTime(NewWorld(window, breadth), acts, t);
    Rising(w.reg);
    n := PrefixExists(w.reg, now, |w.reg.order|);
    PrefixLength(w.reg, now, n);
    ReapTakesPrefix(w.reg, now, n);
  }

  lemma Rising(r: Register)
    requires DeadlinesRise(r)
    ensures forall s :: s in r.order ==> s in r.held
  {}

  ghost predicate ExpiredOrGone(w: World, session: Session, t: int) {
    session in w.reg.held ==> w.reg.held[session].deadline <= t
  }

  lemma StaysExpired(w: World, a: Act, session: Session, t: int)
    requires WorldInv(w) && ExpiredOrGone(w, session, t)
    requires !(a.Suspending? && a.session == session)
    ensures ExpiredOrGone(Act1(w, a), session, t)
  {
    WorldFacts(w);
    hide WorldInv, Register.Sound, ExpiredOrGone;
    ActDeadlines(w, a, session);
    StillExpired(w, Act1(w, a), session, t);
  }

  lemma StillExpired(w: World, v: World, session: Session, t: int)
    requires ExpiredOrGone(w, session, t)
    requires session in v.reg.held ==>
      session in w.reg.held && v.reg.held[session].deadline == w.reg.held[session].deadline
    ensures ExpiredOrGone(v, session, t)
  {}

  /** No act but suspending it again gives a session a deadline. */
  lemma ActDeadlines(w: World, a: Act, session: Session)
    requires w.reg.Sound() && !(a.Suspending? && a.session == session)
    ensures var v := Act1(w, a);
      session in v.reg.held ==> session in w.reg.held && v.reg.held[session].deadline == w.reg.held[session].deadline
  {
    hide RemoveFirst, Register.Kept, Register.Gone, Register.Sound, Listing, Elements;
  }

  /** A session whose window has run out never resumes: from then on, until it is
      suspended anew, every ticket for it is refused. */
  lemma {:induction false} ExpiredNeverResumes(
    w: World, acts: seq<Act>, session: Session, t: int, ticket: Ticket, member: ID, now: int)
    requires WorldInv(w) && ExpiredOrGone(w, session, t) && now >= t && ticket.session == session
    requires forall i :: 0 <= i < |acts| ==> !(acts[i].Suspending? && acts[i].session == session)
    ensures RunFrom(w, acts).reg.Resume(ticket, member, now).1 in {Refusal(NoSuspension), Refusal(WindowPassed)}
    decreases |acts|
  {
    hide RemoveFirst, Register.Kept, Register.Gone, WorldInv, Act1, Listing;
    if |acts| > 0 {
      WorldFacts(w);
      StaysExpired(w, acts[0], session, t);
      ActKeeps(w, acts[0]);
      ExpiredNeverResumes(Act1(w, acts[0]), acts[1..], session, t, ticket, member, now);
    }
  }

  // Nothing is lost.

  /** The channels one event's flush moves, which the caller then publishes. */
  ghost function Batch(h: Hub, e: Event): seq<set<ID>> {
    if e == Flushing && h.pending != map[] then [h.pending.Keys] else []
  }

  /** The hub after the events, and the batches published on the way. */
  ghost function After(sees: Sight, h: Hub, es: seq<Event>): Hub {
    if |es| == 0 then h else Next(sees, After(sees, h, es[..|es| - 1]), es[|es| - 1])
  }

  ghost function Batches(sees: Sight, h: Hub, es: seq<Event>): seq<set<ID>> {
    if |es| == 0 then []
    else Batches(sees, h, es[..|es| - 1]) + Batch(After(sees, h, es[..|es| - 1]), es[|es| - 1])
  }

  lemma {:induction false} AfterSound(sees: Sight, h: Hub, es: seq<Event>)
    requires h.Sound()
    ensures After(sees, h, es).Sound()
  {
    hide Hub.Sound, Next;
    if |es| > 0 {
      AfterSound(sees, h, es[..|es| - 1]);
      NextSound(sees, After(sees, h, es[..|es| - 1]), es[|es| - 1]);
    }
  }

  lemma MovedSinceConcat(log: seq<set<ID>>, more: seq<set<ID>>, k: nat)
    requires k <= |log| && |more| <= 1
    ensures MovedSince(log + more, k) == MovedSince(log, k) + if |more| == 1 then more[0] else {}
  {
    if |more| == 1 { assert (log + more)[..|log|] == log; } else { assert log + more == log; }
  }

  /** One event: a channel not pending afterwards, nor in the event's batch, is as it was. */
  lemma EventMoves(sees: Sight, h: Hub, e: Event, c: ID)
    requires h.Sound() && c != NoID
    ensures var g, b := Next(sees, h, e), Batch(h, e);
      (|b| == 1 && c in b[0]) || c in g.pending
      || (c !in h.pending && g.projection.In(c) == h.projection.In(c) && g.projection.Count(c) == h.projection.Count(c))
  {
    hide *;
    if e.Reporting? {
      NextReport(sees, h, e);
      ReportOn(h, e.report, c);
      ReportedOnIs(h, e.report, c);
      CountIsSize(h, c);
      SlotMoves(h.pending, h.projection.In(c), e.report, c);
      SlotIs(h.pending, c);
      SlotIs(h.Apply(e.report).0.pending, c);
    } else {
      OtherEvent(sees, h, e);
    }
  }

  lemma NextReport(sees: Sight, h: Hub, e: Event)
    requires e.Reporting?
    ensures Next(sees, h, e) == h.Apply(e.report).0
  {
    hide Hub.Apply;
  }

  lemma ReportedOnIs(h: Hub, r: Report, c: ID)
    requires ReportedOn(h, r, c)
    ensures var g, was, accepts := h.Apply(r).0, h.projection.In(c), h.projection.Accepts(r);
      g.projection.In(c) == (if accepts then NewMembers(was, r, c) else was)
      && SlotOf(g.pending, c) == (if accepts then NewSlot(SlotOf(h.pending, c), was, r, c) else SlotOf(h.pending, c))
      && g.projection.Count(c) == |g.projection.In(c)|
  {}

  lemma OtherEvent(sees: Sight, h: Hub, e: Event)
    requires !e.Reporting?
    ensures var g, b := Next(sees, h, e), Batch(h, e);
      g.projection == h.projection && (g.pending == h.pending || (|b| == 1 && b[0] == h.pending.Keys))
  {
    hide Hub.CountsFor, Hub.ListMessage, RemoveFirst, Hub.DeliveriesTo;
  }

  lemma SlotIs(pending: map<ID, Pending>, c: ID)
    ensures SlotOf(pending, c).NoSlot? <==> c !in pending
  {}

  lemma SlotMoves(pending: map<ID, Pending>, was: map<ID, Presence>, r: Report, c: ID)
    ensures NewSlot(SlotOf(pending, c), was, r, c).NoSlot? ==>
      SlotOf(pending, c).NoSlot? && NewMembers(was, r, c) == was
  {}

  /** Over any events, a channel that is neither pending nor in a published batch is
      exactly as it was, and was not pending at the start. */
  lemma {:induction false} ToldOrUnmoved(sees: Sight, h: Hub, es: seq<Event>, c: ID)
    requires h.Sound() && c != NoID
    ensures var g := After(sees, h, es);
      c in MovedSince(Batches(sees, h, es), 0) || c in g.pending
      || (c !in h.pending && g.projection.In(c) == h.projection.In(c) && g.projection.Count(c) == h.projection.Count(c))
  {
    hide Hub.Sound, Next, Batch, Projection.In, Projection.Count;
    if |es| > 0 {
      var init, e := es[..|es| - 1], es[|es| - 1];
      ToldOrUnmoved(sees, h, init, c);
      AfterSound(sees, h, init);
      EventMoves(sees, After(sees, h, init), e, c);
      BatchSize(After(sees, h, init), e);
      MovedSinceConcat(Batches(sees, h, init), Batch(After(sees, h, init), e), 0);
    }
  }

  lemma BatchSize(h: Hub, e: Event)
    ensures |Batch(h, e)| <= 1
  {}

  /** Refreshing: subscribing to each channel named, and taking the answers there are. */
  ghost function Refresh(sees: Sight, v: Principal, rep: Replica, h: Hub, channels: seq<ID>): Replica {
    if |channels| == 0 then rep
    else
      var init, d := Refresh(sees, v, rep, h, channels[..|channels| - 1]), channels[|channels| - 1];
      if h.Visible(sees, v, d) then init.Take(h.ListMessage(d)) else init
  }

  lemma {:induction false} RefreshTells(
    sees: Sight, v: Principal, rep: Replica, h: Hub, channels: seq<ID>, c: ID, m: ID)
    requires h.Sound() && h.Visible(sees, v, c)
    ensures var told := Refresh(sees, v, rep, h, channels);
      told.Count(c) == (if c in channels then h.projection.Count(c) else rep.Count(c))
      && told.At(c, m) == (if c in channels then Where(h.projection, c, m) else rep.At(c, m))
  {
    hide Hub.Sound, Hub.ListMessage, Replica.Take, Replica.Count, Replica.At, Where, Projection.Count, Hub.Visible;
    if |channels| > 0 {
      var init, d := channels[..|channels| - 1], channels[|channels| - 1];
      assert c in channels <==> c in init || c == d;
      RefreshTells(sees, v, rep, h, init, c, m);
      ListTaken(h, Refresh(sees, v, rep, h, init), d, c, m);
    }
  }

  lemma {:induction false} MovedSinceMonotone(log: seq<set<ID>>, k: nat, n: nat)
    requires k <= n <= |log|
    ensures MovedSince(log, n) <= MovedSince(log, k)
    decreases |log|
  {
    if n < |log| { MovedSinceMonotone(log[..|log| - 1], k, n); }
  }

  /** Since the counter last wrapped, revisions are in the order of their batches. */
  lemma RevisionOrder(k: nat, n: nat, last: nat)
    requires k <= last && n / U64 == last / U64 && RevisionOf(k) <= RevisionOf(n)
    ensures k <= n
  {
    assert k / U64 <= last / U64;
  }

  /** Resuming is lossless. Take a client that had folded the first n batches, which are
      the revision its ticket says, and was faithful then, whether that was before or
      after it was suspended. Given a difference, and refreshing exactly the channels it
      names, it holds the truth about the members of every channel it is subscribed to,
      and about the count of every channel it now sees, that has no change still
      pending, when every flush since was published with the channels it had pending.
      The one exception is a channel that was occupied before the hub knew it and has
      not moved since. */
  lemma ResumeIsLossless(
    sees: Sight, h: Hub, es: seq<Event>, cl: Client, rep: Replica,
    w: World, n: nat, t: Ticket, member: ID, now: int, c: ID, m: ID)
    requires h.Sound() && Faithful(h, sees, cl, rep)
    requires WorldInv(w) && n <= |w.log| && n / U64 == |w.log| / U64 && t.folded == RevisionOf(n)
    requires w.log[n..] == Batches(sees, h, es)
    requires w.reg.Resume(t, member, now).1.Difference?
    requires After(sees, h, es).Visible(sees, cl.viewer, c) && c !in After(sees, h, es).pending
    ensures var g, missed := After(sees, h, es), w.reg.Resume(t, member, now).1.missed;
      var told := Refresh(sees, cl.viewer, rep, g, missed);
      (told.Count(c) == g.projection.Count(c) <==> c in missed || c in h.known || h.projection.Count(c) == 0)
      && (c in cl.subscribed ==> told.At(c, m) == Where(g.projection, c, m))
  {
    hide *;
    WorldFacts(w);
    ResumeMeans(w, t, member, now);
    var g, k := After(sees, h, es), w.began[t.session];
    var missed := w.reg.Resume(t, member, now).1.missed;
    BeganWithin(w, t.session);
    RevisionOrder(k, n, |w.log|);
    ListedAre(missed, MovedSince(w.log, k), c);
    MovedSinceMonotone(w.log, k, n);
    MovedSinceShift(w.log, n);
    AfterSound(sees, h, es);
    VisibleIsNamed(g, sees, cl.viewer, c);
    ToldOrUnmoved(sees, h, es, c);
    RefreshTells(sees, cl.viewer, rep, g, missed, c, m);
    if c !in missed {
      WhereIn(h.projection, g.projection, c, m);
      if c in h.known {
        StillSeen(h, g, sees, cl.viewer, c);
        FaithfulAt(h, sees, cl, rep, c, m);
      } else {
        UnknownIsBlank(h, sees, cl, rep, c);
        UnknownNotSubscribed(h, sees, cl, rep, c);
      }
    }
  }

  lemma StillSeen(h: Hub, g: Hub, sees: Sight, v: Principal, c: ID)
    requires g.Visible(sees, v, c) && c in h.known
    ensures h.Visible(sees, v, c)
  {}

  lemma UnknownNotSubscribed(h: Hub, sees: Sight, cl: Client, rep: Replica, c: ID)
    requires Faithful(h, sees, cl, rep) && c !in h.known
    ensures c !in cl.subscribed
  {
    hide Where;
  }

  lemma AfterAdding(sees: Sight, h: Hub, v: Principal, c: ID)
    requires c != NoID && c !in h.known && sees(v, c)
    ensures var g := After(sees, h, [AddingChannel(c)]);
      g == h.AddChannel(c).0 && g.Visible(sees, v, c) && g.projection == h.projection && g.pending == h.pending
  {
    assert After(sees, h, []) == h && [AddingChannel(c)][..0] == [];
  }

  lemma NothingSince(w: World)
    requires WorldInv(w)
    ensures w.reg.revision == RevisionOf(|w.log|) && MovedSince(w.log, |w.log|) == {}
    ensures |MovedSince(w.log, |w.log|)| <= w.reg.breadth
  {
    hide Register.Sound, Remembers;
  }

  /** The exception is real: a channel added while the client was away, occupied and with
      nothing pending, is not named, and the client goes on showing it empty. */
  lemma AddedWhileAway(
    sees: Sight, h: Hub, cl: Client, rep: Replica, w: World, t: Ticket, member: ID, now: int, c: ID)
    requires h.Sound() && Faithful(h, sees, cl, rep) && c != NoID && c !in h.known && sees(cl.viewer, c)
    requires h.projection.Count(c) != 0 && c !in h.pending
    requires WorldInv(w) && t.session in w.reg.held && w.began[t.session] == |w.log| && t.folded == w.reg.revision
    requires now < w.reg.held[t.session].deadline && w.reg.held[t.session].member == member
    ensures var g, ans := After(sees, h, [AddingChannel(c)]), w.reg.Resume(t, member, now).1;
      ans.Difference? && g.Visible(sees, cl.viewer, c) && c !in g.pending
      && Refresh(sees, cl.viewer, rep, g, ans.missed).Count(c) == 0 != g.projection.Count(c)
  {
    hide *;
    var g := h.AddChannel(c).0;
    AfterAdding(sees, h, cl.viewer, c);
    NothingSince(w);
    ResumeMeans(w, t, member, now);
    AddChannelSound(h, c);
    ListedAre(w.reg.Resume(t, member, now).1.missed, {}, c);
    RefreshTells(sees, cl.viewer, rep, g, w.reg.Resume(t, member, now).1.missed, c, NoID);
    UnknownIsBlank(h, sees, cl, rep, c);
  }

  lemma ListedAre(s: seq<ID>, e: set<ID>, c: ID)
    requires Lists(s, e, IdBefore)
    ensures c in s <==> c in e
  {
    assert c in s <==> c in Elements(s);
  }

  lemma {:induction false} MovedSinceShift(log: seq<set<ID>>, k: nat)
    requires k <= |log|
    ensures MovedSince(log, k) == MovedSince(log[k..], 0)
    decreases |log|
  {
    if k < |log| {
      MovedSinceShift(log[..|log| - 1], k);
      assert log[k..][..|log[k..]| - 1] == log[..|log| - 1][k..];
    }
  }

  lemma VisibleIsNamed(h: Hub, sees: Sight, v: Principal, c: ID)
    requires h.Sound() && h.Visible(sees, v, c)
    ensures c != NoID
  {
    assert c in Elements(h.channels);
  }

  lemma FaithfulAt(h: Hub, sees: Sight, cl: Client, rep: Replica, c: ID, m: ID)
    requires Faithful(h, sees, cl, rep) && h.Visible(sees, cl.viewer, c) && c !in h.pending
    ensures rep.Count(c) == h.projection.Count(c)
    ensures c in cl.subscribed ==> rep.At(c, m) == Where(h.projection, c, m)
  {
    hide Where;
  }

  lemma WhereIn(p: Projection, q: Projection, c: ID, m: ID)
    requires p.In(c) == q.In(c)
    ensures Where(p, c, m) == Where(q, c, m)
  {
    assert m in p.In(c) <==> m in q.In(c);
    assert m in p.In(c) ==> p.In(c)[m] == q.In(c)[m];
  }
}
