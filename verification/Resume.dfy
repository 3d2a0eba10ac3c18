/** The resume register: the places held for clients whose connections dropped, what
    moved while each was away, and the answers to their tickets. */
module Resumes {
  import opened Listings
  import opened Ids
  import opened Hubs

  type Session = string

  /** One more than the greatest value of Go's uint64. */
  const U64 := 0x1_0000_0000_0000_0000

  /** A period after which something that has not come back is gone. Each method is
      given what the clock says when it asks. */
  class Grace {
    var deadline: int

    constructor (now: int, d: int)
      ensures deadline == now + d
    {
      deadline := now + d;
    }

    predicate Expired(now: int)
      reads this
    {
      now >= deadline
    }

    function Remaining(now: int): (left: int)
      reads this
      ensures left >= 0 && (left == 0 <==> Expired(now)) && (left > 0 ==> now + left == deadline)
    {
      if deadline - now > 0 then deadline - now else 0
    }

    method Extend(now: int, d: int)
      modifies this
      ensures deadline == now + d && (d > 0 ==> !Expired(now))
    {
      deadline := now + d;
    }
  }

  /** The channels that moved while a client was away, while they can still be named. */
  datatype Missed = Everything | Channels(moved: set<ID>)

  datatype Suspension = Suspension(member: ID, deadline: int, from: nat, missed: Missed) {
    predicate Expired(now: int) { now >= deadline }

    function Record(batch: set<ID>, breadth: nat): Suspension {
      if missed.Everything? then this
      else
        var m := missed.moved + batch;
        this.(missed := if |m| > breadth then Everything else Channels(m))
    }
  }

  datatype Ticket = Ticket(session: Session, folded: nat)

  datatype ResumeError = NoSuspension | WindowPassed | NotYours | Ahead

  datatype Answer = Difference(member: ID, missed: seq<ID>) | Full(member: ID) | Refusal(error: ResumeError)

  datatype SuspendError = NamesNoSession | NamesNoMember | AlreadySuspended

  datatype SuspendOutcome = Held | Rejected(error: SuspendError)

  /** The suspensions of the listed sessions. */
  function Only(held: map<Session, Suspension>, listed: seq<Session>): map<Session, Suspension> {
    map s | s in held && s in listed :: held[s]
  }

  datatype Register = Register(window: int, breadth: nat, revision: nat,
                               held: map<Session, Suspension>, order: seq<Session>) {

    function Publish(channels: seq<ID>): Register {
      if |channels| == 0 then this
      else
        this.(revision := (revision + 1) % U64,
              held := map s | s in held :: held[s].Record(Elements(channels), breadth))
    }

    function Suspend(session: Session, member: ID, now: int): (Register, SuspendOutcome) {
      if session == "" then (this, Rejected(NamesNoSession))
      else if member == NoID then (this, Rejected(NamesNoMember))
      else if session in held then (this, Rejected(AlreadySuspended))
      else
        (this.(held := held[session := Suspension(member, now + window, revision, Channels({}))],
               order := order + [session]),
         SuspendOutcome.Held)
    }

    function Forget(session: Session): Register {
      this.(held := held - {session}, order := RemoveFirst(order, session))
    }

    ghost function Resume(t: Ticket, member: ID, now: int): (Register, Answer) {
      if t.session !in held then (this, Refusal(NoSuspension))
      else
        var s := held[t.session];
        if s.Expired(now) then (this, Refusal(WindowPassed))
        else if s.member != member then (this, Refusal(NotYours))
        else if t.folded > revision then (this, Refusal(Ahead))
        else if s.missed.Everything? || t.folded < s.from then (Forget(t.session), Full(s.member))
        else (Forget(t.session), Difference(s.member, Listing(s.missed.moved, IdBefore)))
    }

    /** The sessions of a prefix of the order that are kept, when the i-th is asked
        about at time `clock(i)`. */
    function Kept(sessions: seq<Session>, clock: nat -> int): seq<Session>
      requires forall s :: s in sessions ==> s in held
    {
      if |sessions| == 0 then []
      else
        var n := |sessions| - 1;
        var init := Kept(sessions[..n], clock);
        if held[sessions[n]].Expired(clock(n)) then init else init + [sessions[n]]
    }

    /** The members whose places run out, in the order they suspended. */
    function Gone(sessions: seq<Session>, clock: nat -> int): seq<ID>
      requires forall s :: s in sessions ==> s in held
    {
      if |sessions| == 0 then []
      else
        var n := |sessions| - 1;
        var init := Gone(sessions[..n], clock);
        if held[sessions[n]].Expired(clock(n)) then init + [held[sessions[n]].member] else init
    }

    function Reap(clock: nat -> int): (Register, seq<ID>)
      requires forall s :: s in order ==> s in held
    {
      var kept := Kept(order, clock);
      (this.(held := Only(held, kept), order := kept), Gone(order, clock))
    }

    /** The order lists exactly the held sessions, each once. */
    ghost predicate Sound() {
      held.Keys == Elements(order) && forall i, j :: 0 <= i < j < |order| ==> order[i] != order[j]
    }
  }

  lemma OrderHeld(r: Register)
    requires r.Sound()
    ensures forall s :: s in r.order ==> s in r.held
    ensures |r.order| == |r.held|
  {
    assert forall s :: s in r.order ==> s in Elements(r.order);
    DistinctSize(r.order);
    assert |r.held.Keys| == |r.held|;
  }

  lemma {:induction false} DistinctSize<T>(s: seq<T>)
    requires forall i, j :: 0 <= i < j < |s| ==> s[i] != s[j]
    ensures |Elements(s)| == |s|
  {
    if |s| > 0 {
      var init, x := s[..|s| - 1], s[|s| - 1];
      DistinctSize(init);
      assert Elements(s) == Elements(init) + {x} by {
        assert forall y :: y in s <==> y in init || y == x;
      }
      assert x !in init;
    }
  }

  lemma {:induction false} KeptFrom(r: Register, sessions: seq<Session>, clock: nat -> int)
    requires forall s :: s in sessions ==> s in r.held
    ensures var k := r.Kept(sessions, clock);
      (forall s :: s in k ==> s in sessions) && |k| + |r.Gone(sessions, clock)| == |sessions|
  {
    if |sessions| > 0 {
      var init := sessions[..|sessions| - 1];
      assert forall s :: s in sessions <==> s in init || s == sessions[|sessions| - 1];
      KeptFrom(r, init, clock);
    }
  }

  lemma {:induction false} KeptDistinct(r: Register, sessions: seq<Session>, clock: nat -> int)
    requires forall s :: s in sessions ==> s in r.held
    requires forall i, j :: 0 <= i < j < |sessions| ==> sessions[i] != sessions[j]
    ensures var k := r.Kept(sessions, clock); forall i, j :: 0 <= i < j < |k| ==> k[i] != k[j]
  {
    hide Suspension.Expired;
    if |sessions| > 0 {
      var n := |sessions| - 1;
      KeptDistinct(r, sessions[..n], clock);
      KeptFrom(r, sessions[..n], clock);
      assert sessions[n] !in sessions[..n];
      assert sessions[n] !in r.Kept(sessions[..n], clock);
    }
  }

  /** A session is kept exactly if it has not expired when it is asked about. */
  lemma {:induction false} KeptExactly(r: Register, sessions: seq<Session>, clock: nat -> int, i: nat)
    requires forall s :: s in sessions ==> s in r.held
    requires forall i, j :: 0 <= i < j < |sessions| ==> sessions[i] != sessions[j]
    requires i < |sessions|
    ensures sessions[i] in r.Kept(sessions, clock) <==> !r.held[sessions[i]].Expired(clock(i))
  {
    hide Suspension.Expired;
    var n := |sessions| - 1;
    var init := sessions[..n];
    assert sessions[n] !in init;
    KeptFrom(r, init, clock);
    assert sessions[n] !in r.Kept(init, clock);
    if i < n {
      assert init[i] == sessions[i] && sessions[i] != sessions[n];
      KeptExactly(r, init, clock, i);
    }
  }

  lemma PublishSound(r: Register, channels: seq<ID>)
    requires r.Sound()
    ensures r.Publish(channels).Sound()
  {}

  lemma SuspendSound(r: Register, session: Session, member: ID, now: int)
    requires r.Sound()
    ensures r.Suspend(session, member, now).0.Sound()
  {
    var q := r.Suspend(session, member, now).0;
    if q != r {
      assert q.order[|r.order|] == session;
      assert forall s :: s in r.order ==> s in Elements(r.order);
      assert forall s :: s in q.order ==> s in r.order || s == session;
    }
  }

  lemma ForgetSound(r: Register, session: Session)
    requires r.Sound()
    ensures r.Forget(session).Sound()
    ensures session in r.held ==> |r.Forget(session).held| == |r.held| - 1
  {
    RemoveFirstKeeps(r.order, session);
    assert (r.held - {session}).Keys == r.held.Keys - {session};
    assert |(r.held - {session}).Keys| == |r.held - {session}| && |r.held.Keys| == |r.held|;
  }

  lemma ReapSound(r: Register, clock: nat -> int)
    requires r.Sound() && forall s :: s in r.order ==> s in r.held
    ensures var (q, gone) := r.Reap(clock);
      q.Sound() && |q.held| + |gone| == |r.held|
  {
    OrderHeld(r);
    KeptFrom(r, r.order, clock);
    KeptDistinct(r, r.order, clock);
    hide Register.Kept, Register.Gone;
    var q := r.Reap(clock).0;
    assert q.held.Keys == Elements(q.order);
    OrderHeld(q);
  }

  class Resumptions {
    const window: int
    const breadth: nat
    var revision: nat
    var held: map<Session, Suspension>
    var order: seq<Session>

    ghost function State(): Register
      reads this
    {
      Register(window, breadth, revision, held, order)
    }

    constructor (window: int, breadth: nat)
      requires window > 0 && breadth > 0
      ensures State() == Register(window, breadth, 0, map[], [])
    {
      this.window, this.breadth := window, breadth;
      revision, held, order := 0, map[], [];
    }

    /** Records a batch of change, and returns the revision it carries. */
    method Published(channels: seq<ID>) returns (rev: nat)
      modifies this`revision, this`held
      ensures State() == old(State()).Publish(channels) && rev == revision
    {
      if |channels| == 0 {
        return revision;
      }
      revision := (revision + 1) % U64;
      hide Elements, Suspension.Record;
      ghost var was, batch := held, Elements(channels);
      var rest := held.Keys;
      while rest != {}
        invariant rest <= held.Keys == was.Keys && revision == (old(revision) + 1) % U64
        invariant forall s :: s in held ==> held[s] == if s in rest then was[s] else was[s].Record(batch, breadth)
        decreases rest
      {
        var s :| s in rest;
        var recorded := RecordBatch(held[s], channels);
        held := held[s := recorded];
        rest := rest - {s};
      }
      assert held == map s | s in was :: was[s].Record(batch, breadth);
      return revision;
    }

    /** One suspension's share of a batch. One that has given up records nothing more. */
    method RecordBatch(s: Suspension, channels: seq<ID>) returns (r: Suspension)
      ensures r == s.Record(Elements(channels), breadth)
    {
      if s.missed.Everything? {
        return s;
      }
      var all := s.missed.moved;
      var i := 0;
      while i < |channels|
        invariant 0 <= i <= |channels| && all == s.missed.moved + Elements(channels[..i])
      {
        all := all + {channels[i]};
        assert channels[..i + 1] == channels[..i] + [channels[i]];
        i := i + 1;
      }
      assert channels[..|channels|] == channels;
      return s.(missed := if |all| > breadth then Everything else Channels(all));
    }

    /** Starts the window of a client whose connection went. */
    method Suspend(session: Session, member: ID, now: int) returns (r: SuspendOutcome)
      modifies this`held, this`order
      ensures (State(), r) == old(State()).Suspend(session, member, now)
    {
      if session == "" {
        return Rejected(NamesNoSession);
      }
      if member == NoID {
        return Rejected(NamesNoMember);
      }
      if session in held {
        return Rejected(AlreadySuspended);
      }
      held := held[session := Suspension(member, now + window, revision, Channels({}))];
      order := order + [session];
      return SuspendOutcome.Held;
    }

    /** Answers a ticket on a connection authenticated as member. */
    method Resume(t: Ticket, member: ID, now: int) returns (a: Answer)
      modifies this`held, this`order
      ensures (State(), a) == old(State()).Resume(t, member, now)
    {
      if t.session !in held {
        return Refusal(NoSuspension);
      }
      var s := held[t.session];
      if now >= s.deadline {
        return Refusal(WindowPassed);
      }
      if s.member != member {
        return Refusal(NotYours);
      }
      if t.folded > revision {
        return Refusal(Ahead);
      }
      if s.missed.Everything? || t.folded < s.from {
        a := Full(s.member);
      } else {
        IdsOrdered(s.missed.moved);
        var sorted := Sort(s.missed.moved, IdBefore);
        IsListing(sorted, s.missed.moved, IdBefore);
        a := Difference(s.member, sorted);
      }
      Forget(t.session);
    }

    /** Removes a suspension from both the map and the order. */
    method Forget(session: Session)
      modifies this`held, this`order
      ensures State() == old(State()).Forget(session)
    {
      held := held - {session};
      Splice(session);
    }

    method Splice(session: Session)
      modifies this`order
      ensures order == RemoveFirst(old(order), session)
    {
      hide *;
      ghost var was := order;
      assert was == was[..0] + was[0..];
      var i := 0;
      while i < |order|
        invariant 0 <= i <= |order| && order == was
        invariant RemoveFirst(was, session) == was[..i] + RemoveFirst(was[i..], session)
      {
        if order[i] == session {
          RemoveFirstHere(was, i, session);
          order := order[..i] + order[i + 1..];
          return;
        }
        RemoveFirstPast(was, i, session);
        assert was[..i + 1] == was[..i] + [was[i]];
        i := i + 1;
      }
      RemoveFirstEnd(was, session);
    }

    /** Forgets every suspension whose window has run out. It walks a copy of the
        order, since forgetting splices the original. */
    method Reap(clock: nat -> int) returns (gone: seq<ID>)
      requires State().Sound() && forall s :: s in order ==> s in held
      modifies this`held, this`order
      ensures (State(), gone) == old(State()).Reap(clock)
    {
      hide RemoveFirst, Elements, Register.Kept, Register.Gone, Register.Sound, Register.Reap, Reaping, Only;
      ghost var r := State();
      var copy := order;
      gone := [];
      var i := 0;
      ReapStart(r, clock);
      while i < |copy|
        invariant 0 <= i <= |copy| && revision == r.revision
        invariant Reaping(r, clock, i, gone, held, order)
      {
        var session := copy[i];
        ghost var g, h, o := gone, held, order;
        ReapAsks(r, clock, i, g, h, o);
        if clock(i) >= held[session].deadline {
          gone := gone + [held[session].member];
          Forget(session);
        }
        ReapStep(r, clock, i, g, h, o);
        i := i + 1;
      }
      ReapEnd(r, clock, gone, held, order);
    }
  }

  /** What reaping has done after asking about i sessions. */
  ghost predicate Reaping(r: Register, clock: nat -> int, i: nat, gone: seq<ID>,
                          held: map<Session, Suspension>, order: seq<Session>)
    requires forall s :: s in r.order ==> s in r.held
  {
    i <= |r.order| && gone == r.Gone(r.order[..i], clock)
    && order == r.Kept(r.order[..i], clock) + r.order[i..]
    && held == Only(r.held, order)
  }

  lemma ReapStart(r: Register, clock: nat -> int)
    requires r.Sound() && forall s :: s in r.order ==> s in r.held
    ensures Reaping(r, clock, 0, [], r.held, r.order)
  {
    assert r.order[..0] == [] && r.order[0..] == r.order;
    OnlyAll(r);
  }

  lemma OnlyAll(r: Register)
    requires r.Sound()
    ensures Only(r.held, r.order) == r.held
  {
    assert forall s :: s in r.held ==> s in Elements(r.order);
  }

  lemma ReapAsks(
    r: Register, clock: nat -> int, i: nat, gone: seq<ID>, held: map<Session, Suspension>, order: seq<Session>)
    requires forall s :: s in r.order ==> s in r.held
    requires Reaping(r, clock, i, gone, held, order) && i < |r.order|
    ensures r.order[i] in held && held[r.order[i]] == r.held[r.order[i]]
  {
    assert order[|r.Kept(r.order[..i], clock)|] == r.order[i];
  }

  lemma ReapStep(
    r: Register, clock: nat -> int, i: nat, gone: seq<ID>, held: map<Session, Suspension>, order: seq<Session>)
    requires r.Sound() && forall s :: s in r.order ==> s in r.held
    requires Reaping(r, clock, i, gone, held, order) && i < |r.order|
    ensures var x := r.order[i];
      if clock(i) >= r.held[x].deadline
      then Reaping(r, clock, i + 1, gone + [r.held[x].member], held - {x}, RemoveFirst(order, x))
      else Reaping(r, clock, i + 1, gone, held, order)
  {
    hide RemoveFirst, Only, Elements, Register.Sound;
    var x, kept, tail := r.order[i], r.Kept(r.order[..i], clock), r.order[i + 1..];
    assert r.order[..i + 1][..i] == r.order[..i];
    assert r.order[i..] == [x] + tail;
    KeptFrom(r, r.order[..i], clock);
    OrderOnce(r, i);
    if clock(i) >= r.held[x].deadline {
      RemoveMiddle(kept, x, tail);
      OnlyWithout(r.held, kept, x, tail);
    } else {
      assert order == (kept + [x]) + tail;
    }
  }

  lemma OrderOnce(r: Register, i: nat)
    requires r.Sound() && i < |r.order|
    ensures r.order[i] !in r.order[..i] && r.order[i] !in r.order[i + 1..]
  {}

  lemma OnlyWithout(held: map<Session, Suspension>, a: seq<Session>, x: Session, b: seq<Session>)
    requires x !in a && x !in b
    ensures Only(held, a + ([x] + b)) - {x} == Only(held, a + b)
  {}

  lemma ReapEnd(r: Register, clock: nat -> int, gone: seq<ID>, held: map<Session, Suspension>, order: seq<Session>)
    requires forall s :: s in r.order ==> s in r.held
    requires Reaping(r, clock, |r.order|, gone, held, order)
    ensures r.Reap(clock) == (r.(held := held, order := order), gone)
  {
    assert r.order[..|r.order|] == r.order && r.order[|r.order|..] == [];
    assert order == r.Kept(r.order, clock);
  }

  lemma {:induction false} RemoveMiddle(a: seq<Session>, x: Session, b: seq<Session>)
    requires x !in a
    ensures RemoveFirst(a + ([x] + b), x) == a + b
  {
    if |a| > 0 {
      RemoveMiddle(a[1..], x, b);
      assert (a + ([x] + b))[1..] == a[1..] + ([x] + b);
      assert a + b == [a[0]] + (a[1..] + b);
    } else {
      assert a + ([x] + b) == [x] + b;
    }
  }
}
