/** What each operation of the resume register answers and does, in terms of its fields
    alone. */
module ResumeMeaning {
  import opened Listings
  import opened Ids
  import opened Hubs
  import opened Resumes
  import opened ResumeRuns

  /** A batch of no channel changes nothing. Any other takes the next revision, which is 0
      after the greatest of sixty-four bits, and adds its channels to what each suspension
      has missed, until those are more than can be named, and are given up for good. */
  lemma PublishMeans(r: Register, channels: seq<ID>, s: Session, c: ID)
    requires r.revision <= 18_446_744_073_709_551_615
    ensures channels == [] ==> r.Publish(channels) == r
    ensures channels != [] ==>
      var g := r.Publish(channels);
      g.revision == (if r.revision == 18_446_744_073_709_551_615 then 0 else r.revision + 1)
      && g.window == r.window && g.breadth == r.breadth && g.order == r.order && g.held.Keys == r.held.Keys
      && (s in r.held ==>
            var was, now := r.held[s], g.held[s];
            now.member == was.member && now.deadline == was.deadline && now.from == was.from
            && (was.missed.Everything? ==> now.missed.Everything?)
            && (was.missed.Channels? ==>
                  var all := was.missed.moved + set d | d in channels;
                  (now.missed.Everything? <==> |all| > r.breadth)
                  && (now.missed.Channels? ==>
                        (c in now.missed.moved <==> c in was.missed.moved || c in channels))))
  {
    assert Elements(channels) == set d | d in channels;
    if r.revision < 18_446_744_073_709_551_615 { assert (r.revision + 1) % U64 == r.revision + 1; }
    hide Elements;
  }

  /** A place is held for a session that has a name, for a member who has one, and once. It
      begins with nothing missed, ends one window from now, and comes last. */
  lemma SuspendMeans(r: Register, session: Session, member: ID, now: int)
    ensures var (g, o) := r.Suspend(session, member, now);
      (o == Rejected(NamesNoSession) <==> session == "")
      && (o == Rejected(NamesNoMember) <==> session != "" && member == NoID)
      && (o == Rejected(AlreadySuspended) <==> session != "" && member != NoID && session in r.held)
      && (o == SuspendOutcome.Held <==> session != "" && member != NoID && session !in r.held)
      && (o.Rejected? ==> g == r)
      && (o == SuspendOutcome.Held ==>
            g == r.(held := r.held[session := Suspension(member, now + r.window, r.revision, Channels({}))],
                    order := r.order + [session]))
  {}

  /** A place is given back to the member it was held for before its deadline and not at
      it, on a ticket no newer than the last revision; everything is owed for a ticket older
      than the suspension, or where what was missed was given up. */
  lemma ResumeAnswers(r: Register, t: Ticket, member: ID, now: int, a: seq<Session>, b: seq<Session>)
    requires r.Sound()
    ensures var (g, ans) := r.Resume(t, member, now);
      if t.session !in r.held then g == r && ans == Refusal(NoSuspension)
      else
        var s := r.held[t.session];
        var fit := now < s.deadline && s.member == member && t.folded <= r.revision;
        (ans == Refusal(WindowPassed) <==> now >= s.deadline)
        && (ans == Refusal(NotYours) <==> now < s.deadline && s.member != member)
        && (ans == Refusal(Ahead) <==> now < s.deadline && s.member == member && t.folded > r.revision)
        && (ans == Full(member) <==> fit && (s.missed.Everything? || t.folded < s.from))
        && (ans.Difference? <==> fit && s.missed.Channels? && t.folded >= s.from)
        && (ans.Difference? ==> ans.member == member && Lists(ans.missed, s.missed.moved, IdBefore))
        && (!fit ==> g == r)
        && (fit && r.order == a + ([t.session] + b) ==> g == r.(held := r.held - {t.session}, order := a + b))
  {
    if t.session in r.held {
      var s := r.held[t.session];
      if s.missed.Channels? { IdsOrdered(s.missed.moved); }
      if r.order == a + ([t.session] + b) {
        assert r.order[|a|] == t.session;
        forall i | 0 <= i < |a| ensures a[i] != t.session { assert r.order[i] == a[i]; }
        RemoveMiddle(a, t.session, b);
      }
    }
    hide Lists, Ordered, RemoveFirst, IdBefore;
  }

  // Reaping.

  /** The places, among the first i of these sessions, whose deadline the clock had reached
      when it was asked about them, */
  ghost function RunOut(r: Register, sessions: seq<Session>, clock: nat -> int, i: nat): set<nat>
    requires i <= |sessions| && forall s :: s in sessions ==> s in r.held
  {
    set j: nat | j < i && clock(j) >= r.held[sessions[j]].deadline
  }

  /** and those that have time left. */
  ghost function StillRunning(r: Register, sessions: seq<Session>, clock: nat -> int, i: nat): set<nat>
    requires i <= |sessions| && forall s :: s in sessions ==> s in r.held
  {
    set j: nat | j < i && clock(j) < r.held[sessions[j]].deadline
  }

  lemma {:induction false} AskedAbout(r: Register, sessions: seq<Session>, clock: nat -> int, i: nat)
    requires i < |sessions| && forall s :: s in sessions ==> s in r.held
    ensures var gone, kept := r.Gone(sessions, clock), r.Kept(sessions, clock);
      |gone| == |RunOut(r, sessions, clock, |sessions|)| && |kept| == |StillRunning(r, sessions, clock, |sessions|)|
      && var k, n := |RunOut(r, sessions, clock, i)|, |StillRunning(r, sessions, clock, i)|;
         if clock(i) >= r.held[sessions[i]].deadline then k < |gone| && gone[k] == r.held[sessions[i]].member
         else n < |kept| && kept[n] == sessions[i]
    decreases |sessions|
  {
    var n := |sessions| - 1;
    var init := sessions[..n];
    OneMore(r, sessions, clock, n);
    SameBefore(r, sessions, clock, i);
    SameBefore(r, sessions, clock, n);
    if n > 0 {
      AskedAbout(r, init, clock, if i < n then i else 0);
    } else {
      NoneYet(r, init, clock);
    }
    hide RunOut, StillRunning;
  }

  lemma NoneYet(r: Register, sessions: seq<Session>, clock: nat -> int)
    requires forall s :: s in sessions ==> s in r.held
    ensures RunOut(r, sessions, clock, 0) == {} && StillRunning(r, sessions, clock, 0) == {}
  {}

  lemma OneMore(r: Register, sessions: seq<Session>, clock: nat -> int, i: nat)
    requires i < |sessions| && forall s :: s in sessions ==> s in r.held
    ensures var out := clock(i) >= r.held[sessions[i]].deadline;
      |RunOut(r, sessions, clock, i + 1)| == |RunOut(r, sessions, clock, i)| + (if out then 1 else 0)
      && |StillRunning(r, sessions, clock, i + 1)| == |StillRunning(r, sessions, clock, i)| + if out then 0 else 1
  {
    if clock(i) >= r.held[sessions[i]].deadline {
      assert RunOut(r, sessions, clock, i + 1) == RunOut(r, sessions, clock, i) + {i};
      assert StillRunning(r, sessions, clock, i + 1) == StillRunning(r, sessions, clock, i);
    } else {
      assert RunOut(r, sessions, clock, i + 1) == RunOut(r, sessions, clock, i);
      assert StillRunning(r, sessions, clock, i + 1) == StillRunning(r, sessions, clock, i) + {i};
    }
  }

  lemma SameBefore(r: Register, sessions: seq<Session>, clock: nat -> int, i: nat)
    requires i < |sessions| && forall s :: s in sessions ==> s in r.held
    ensures var init := sessions[..|sessions| - 1];
      RunOut(r, init, clock, i) == RunOut(r, sessions, clock, i)
      && StillRunning(r, init, clock, i) == StillRunning(r, sessions, clock, i)
  {}

  /** The i-th session goes exactly if the clock had reached its deadline when it was asked
      about, and then its member is reported after those of the sessions before it that
      went; if not it stays as it was, after those before it that stay. */
  lemma ReapMeans(r: Register, clock: nat -> int, i: nat, s: Session)
    requires r.Sound() && i < |r.order| && forall x :: x in r.order ==> x in r.held
    ensures var (g, gone) := r.Reap(clock);
      var x := r.order[i];
      var k, n := |RunOut(r, r.order, clock, i)|, |StillRunning(r, r.order, clock, i)|;
      (x in g.held <==> clock(i) < r.held[x].deadline)
      && (if x in g.held then n < |g.order| && g.order[n] == x else k < |gone| && gone[k] == r.held[x].member)
      && |gone| == |RunOut(r, r.order, clock, |r.order|)|
      && |g.order| == |StillRunning(r, r.order, clock, |r.order|)|
      && g.revision == r.revision && (s in g.held ==> s in r.held && g.held[s] == r.held[s])
  {
    AskedAbout(r, r.order, clock, i);
    KeptExactly(r, r.order, clock, i);
    hide RunOut, StillRunning, Register.Kept, Register.Gone, Register.Sound;
  }

  /** What moved since the k-th batch: the channels of each from then on. */
  lemma {:induction false} MovedSinceMeans(log: seq<set<ID>>, k: nat, c: ID)
    requires k <= |log|
    ensures c in MovedSince(log, k) <==> exists i :: k <= i < |log| && c in log[i]
    decreases |log|
  {
    if k < |log| { MovedSinceMeans(log[..|log| - 1], k, c); }
  }
}
