/** The occupancy projection: a register per member in which the highest sequence
    wins, and a count per channel kept up as the registers move. */
module Presences {
  import opened Listings
  import opened Ids

  datatype Presence = Presence(channel: ID, member: ID, since: int, muted: bool)

  const NO_PRESENCE := Presence(NoID, NoID, 0, false)

  /** `sinceNanos` is the report's instant; what is published is its whole seconds. */
  datatype Report = Report(member: ID, seqno: nat, channel: ID, sinceNanos: int, muted: bool)

  datatype Change = Change(member: ID, left: ID, joined: ID, now: Presence) {
    predicate Moved() { left != joined }
  }

  const NO_CHANGE := Change(NoID, NoID, NoID, NO_PRESENCE)

  function Published(r: Report): Presence {
    Presence(r.channel, r.member, r.sinceNanos / 1_000_000_000, r.muted)
  }

  predicate WellFormed(r: Report) { r.member != NoID && r.seqno != 0 }

  function CountIn(counts: map<ID, nat>, c: ID): nat { if c in counts then counts[c] else 0 }

  /** The members in a channel, with what is published about each. */
  function MembersIn(present: map<ID, Presence>, c: ID): map<ID, Presence> {
    map m | m in present && present[m].channel == c :: present[m]
  }

  function Decremented(counts: map<ID, nat>, c: ID): map<ID, nat> {
    if CountIn(counts, c) <= 1 then counts - {c} else counts[c := counts[c] - 1]
  }

  function Incremented(counts: map<ID, nat>, c: ID): map<ID, nat> {
    counts[c := CountIn(counts, c) + 1]
  }

  /** Every count is the number of members present, and no empty channel is counted. */
  ghost predicate CountsExact(present: map<ID, Presence>, counts: map<ID, nat>) {
    (forall c: ID :: CountIn(counts, c) == |MembersIn(present, c)|)
    && (forall c :: c in counts ==> counts[c] > 0)
  }

  /** Every register names its own member, in a real channel. */
  ghost predicate OwnRegisters(seqs: map<ID, nat>, present: map<ID, Presence>) {
    forall m :: m in present ==>
      m != NoID && m in seqs && present[m].member == m && present[m].channel != NoID
  }

  datatype Projection = Projection(seqs: map<ID, nat>, present: map<ID, Presence>, counts: map<ID, nat>) {
    function Count(c: ID): nat { CountIn(counts, c) }

    function In(c: ID): map<ID, Presence> { MembersIn(present, c) }

    /** The members in a channel, longest present first. */
    ghost function Occupants(c: ID): seq<Presence> { Listing(In(c).Values, LongerPresent) }

    predicate Accepts(r: Report) {
      WellFormed(r) && (r.member in seqs ==> r.seqno > seqs[r.member])
    }

    /** Folding one report in: the new state, what it did, and whether it did anything. */
    function Apply(r: Report): (Projection, Change, bool) {
      if !Accepts(r) then (this, NO_CHANGE, false)
      else
        var m, s := r.member, seqs[r.member := r.seqno];
        var now := Published(r);
        if m !in present then
          if r.channel == NoID then (Projection(s, present, counts), NO_CHANGE, false)
          else
            (Projection(s, present[m := now], Incremented(counts, r.channel)),
             Change(m, NoID, r.channel, now), true)
        else
          var was := present[m].channel;
          if r.channel == NoID then
            (Projection(s, present - {m}, Decremented(counts, was)), Change(m, was, NoID, NO_PRESENCE), true)
          else if present[m] == now then (Projection(s, present, counts), NO_CHANGE, false)
          else if was == r.channel then
            (Projection(s, present[m := now], counts), Change(m, was, was, now), true)
          else
            (Projection(s, present[m := now], Incremented(Decremented(counts, was), r.channel)),
             Change(m, was, r.channel, now), true)
    }

    ghost predicate Exact() {
      OwnRegisters(seqs, present) && CountsExact(present, counts)
    }
  }

  const EMPTY := Projection(map[], map[], map[])

  predicate LongerPresent(a: Presence, b: Presence) {
    a.since < b.since || (a.since == b.since && IdBefore(a.member, b.member))
  }

  lemma OccupantsOrdered(p: Projection, c: ID)
    requires p.Exact()
    ensures Ordered(p.In(c).Values, LongerPresent)
  {
    var e := p.In(c).Values;
    forall a, b | a in e && b in e && a != b ensures LongerPresent(a, b) || LongerPresent(b, a) {
      IdsOrdered({a.member, b.member});
    }
    forall a | a in e ensures !LongerPresent(a, a) { IdsOrdered({a.member}); }
    forall a, b, d | a in e && b in e && d in e && LongerPresent(a, b) && LongerPresent(b, d)
      ensures LongerPresent(a, d)
    { IdsOrdered({a.member, b.member, d.member}); }
  }

  /** Exactly the members in the channel, longest present first, and those who came in
      the same second in the order of their identifiers. */
  lemma OccupantsMean(p: Projection, c: ID)
    requires p.Exact()
    ensures var s := p.Occupants(c);
      (forall x :: x in s <==> exists m :: m in p.present && p.present[m] == x && x.channel == c)
      && forall i, j :: 0 <= i < j < |s| ==>
           s[i].since < s[j].since
           || (s[i].since == s[j].since && Before(String(s[i].member), String(s[j].member)))
  {
    OccupantsOrdered(p, c);
    var s := p.Occupants(c);
    assert Lists(s, p.In(c).Values, LongerPresent);
    forall x ensures x in s <==> exists m :: m in p.present && p.present[m] == x && x.channel == c {
      assert x in s <==> x in Elements(s);
      if m :| m in p.present && p.present[m] == x && x.channel == c { assert m in p.In(c) && p.In(c)[m] == x; }
    }
    hide Before;
  }

  /** What a report does. It is accepted if it names a member and carries a number above
      the last of that member; then, and only then, the number is kept and the member is
      where it says, with its second and its mark. What moved is told exactly where what
      is published of the member changed: where they were, where they are, and as what. */
  lemma ApplyMeans(p: Projection, r: Report)
    requires p.Exact()
    ensures var (q, ch, moved) := p.Apply(r);
      var accepted := r.member != NoID && r.seqno > 0 && (r.member in p.seqs ==> p.seqs[r.member] < r.seqno);
      var was := if r.member in p.present then p.present[r.member].channel else NoID;
      (!accepted ==> q == p && !moved)
      && (accepted ==>
            q.seqs == p.seqs[r.member := r.seqno]
            && q.present - {r.member} == p.present - {r.member}
            && (r.member in q.present <==> r.channel != NoID)
            && (r.channel != NoID ==>
                  q.present[r.member] == Presence(r.channel, r.member, r.sinceNanos / 1_000_000_000, r.muted))
            && (moved <==> q.present != p.present))
      && (moved ==>
            ch.member == r.member && ch.left == was && ch.joined == r.channel
            && (r.channel != NoID ==> ch.now == q.present[r.member]))
  {
    hide Incremented, Decremented, CountsExact;
    var q := p.Apply(r).0;
    if p.Apply(r).2 {
      assert r.member in p.present && r.member in q.present ==> p.present[r.member] != q.present[r.member];
    }
  }

  // One step.

  lemma MapSizes<K, V>(f: map<K, V>, k: K, v: V)
    ensures |f - {k}| == |f| - if k in f then 1 else 0
    ensures |f[k := v]| == |f| + if k in f then 0 else 1
  {
    assert |f.Keys| == |f|;
    assert (f - {k}).Keys == f.Keys - {k};
    assert f[k := v].Keys == f.Keys + {k};
    assert |(f - {k}).Keys| == |f - {k}| && |f[k := v].Keys| == |f[k := v]|;
  }

  lemma MembersRemoved(present: map<ID, Presence>, m: ID, c: ID)
    ensures MembersIn(present - {m}, c) == MembersIn(present, c) - {m}
  {}

  lemma MembersUpdated(present: map<ID, Presence>, m: ID, now: Presence, c: ID)
    ensures MembersIn(present[m := now], c)
         == if now.channel == c then MembersIn(present, c)[m := now] else MembersIn(present, c) - {m}
  {}

  lemma LeaveCounts(present: map<ID, Presence>, counts: map<ID, nat>, m: ID)
    requires CountsExact(present, counts) && m in present
    ensures CountsExact(present - {m}, Decremented(counts, present[m].channel))
  {
    var d := Decremented(counts, present[m].channel);
    forall c: ID ensures CountIn(d, c) == |MembersIn(present - {m}, c)| {
      MembersRemoved(present, m, c);
      MapSizes(MembersIn(present, c), m, present[m]);
      assert CountIn(counts, c) == |MembersIn(present, c)|;
    }
  }

  lemma EnterCounts(present: map<ID, Presence>, counts: map<ID, nat>, m: ID, now: Presence)
    requires CountsExact(present, counts) && m !in present
    ensures CountsExact(present[m := now], Incremented(counts, now.channel))
  {
    var d := Incremented(counts, now.channel);
    forall c: ID ensures CountIn(d, c) == |MembersIn(present[m := now], c)| {
      MembersUpdated(present, m, now, c);
      MapSizes(MembersIn(present, c), m, now);
      assert CountIn(counts, c) == |MembersIn(present, c)|;
    }
  }

  /** Folding a report keeps the counts exact. */
  lemma ApplyExact(p: Projection, r: Report)
    requires p.Exact()
    ensures p.Apply(r).0.Exact()
  {
    hide CountsExact, Decremented, Incremented, MembersIn, CountIn;
    var m, now := r.member, Published(r);
    if p.Accepts(r) {
      if m in p.present {
        LeaveCounts(p.present, p.counts, m);
        EnterCounts(p.present - {m}, Decremented(p.counts, p.present[m].channel), m, now);
        assert (p.present - {m})[m := now] == p.present[m := now];
        if p.present[m].channel == r.channel {
          UpdateCounts(p.present, p.counts, m, now);
        }
      } else {
        EnterCounts(p.present, p.counts, m, now);
      }
    }
  }

  lemma UpdateCounts(present: map<ID, Presence>, counts: map<ID, nat>, m: ID, now: Presence)
    requires CountsExact(present, counts) && m in present && now.channel == present[m].channel
    ensures CountsExact(present[m := now], counts)
  {
    forall c: ID ensures CountIn(counts, c) == |MembersIn(present[m := now], c)| {
      MembersUpdated(present, m, now, c);
      MapSizes(MembersIn(present, c), m, now);
      assert CountIn(counts, c) == |MembersIn(present, c)|;
    }
  }

  // Whole streams of reports.

  function FoldAll(rs: seq<Report>): Projection {
    if |rs| == 0 then EMPTY else FoldAll(rs[..|rs| - 1]).Apply(rs[|rs| - 1]).0
  }

  datatype Latest = Nothing | Just(report: Report)

  /** The report of greatest sequence about m. */
  function LatestOf(rs: seq<Report>, m: ID): (l: Latest)
    ensures l.Just? ==> l.report in rs && l.report.member == m != NoID && l.report.seqno > 0
    ensures forall r :: r in rs && r.member == m != NoID && r.seqno > 0 ==> l.Just? && r.seqno <= l.report.seqno
  {
    if |rs| == 0 then Nothing
    else
      var l := LatestOf(rs[..|rs| - 1], m);
      var r := rs[|rs| - 1];
      assert forall x :: x in rs ==> x == r || x in rs[..|rs| - 1];
      if WellFormed(r) && r.member == m && (l.Nothing? || r.seqno > l.report.seqno) then Just(r) else l
  }

  /** The register a latest report leaves for its member. */
  ghost predicate Holds(p: Projection, l: Latest, m: ID) {
    (m in p.seqs <==> l.Just?)
    && (l.Just? ==> p.seqs[m] == l.report.seqno)
    && (m in p.present <==> l.Just? && l.report.channel != NoID)
    && (m in p.present ==>
          var now, r := p.present[m], l.report;
          now.channel == r.channel && now.member == m && now.muted == r.muted
          && now.since * 1_000_000_000 <= r.sinceNanos < (now.since + 1) * 1_000_000_000)
  }

  /** The fold holds, for each member, exactly that member's latest report. */
  lemma {:induction false} FoldIsLatest(rs: seq<Report>, m: ID)
    ensures Holds(FoldAll(rs), LatestOf(rs, m), m)
  {
    if |rs| > 0 {
      var init, r := rs[..|rs| - 1], rs[|rs| - 1];
      FoldIsLatest(init, m);
      var p, l := FoldAll(init), LatestOf(init, m);
      if WellFormed(r) && r.member == m {
        OwnStep(p, l, r);
      } else {
        OtherStep(p, r, m);
      }
    }
  }

  lemma OwnStep(p: Projection, l: Latest, r: Report)
    requires Holds(p, l, r.member) && WellFormed(r)
    ensures Holds(p.Apply(r).0, if l.Nothing? || r.seqno > l.report.seqno then Just(r) else l, r.member)
  {
    hide Incremented, Decremented;
  }

  lemma OtherStep(p: Projection, r: Report, m: ID)
    requires !WellFormed(r) || r.member != m
    ensures var q := p.Apply(r).0;
      (m in q.seqs <==> m in p.seqs) && (m in q.seqs ==> q.seqs[m] == p.seqs[m])
      && (m in q.present <==> m in p.present) && (m in q.present ==> q.present[m] == p.present[m])
  {
    hide Incremented, Decremented;
  }

  lemma {:induction false} FoldExact(rs: seq<Report>)
    ensures FoldAll(rs).Exact()
  {
    if |rs| > 0 {
      FoldExact(rs[..|rs| - 1]);
      ApplyExact(FoldAll(rs[..|rs| - 1]), rs[|rs| - 1]);
    } else {
      forall c: ID ensures MembersIn(map[], c) == map[] {}
    }
  }

  /** One member and sequence number name one report. */
  ghost predicate Consistent(rs: seq<Report>) {
    forall r, s :: r in rs && s in rs && r.member == s.member && r.seqno == s.seqno ==> r == s
  }

  /** Every report in rs that counts is matched or overtaken by one in ss. */
  ghost predicate Covered(rs: seq<Report>, ss: seq<Report>) {
    forall r :: r in rs && r.member != NoID && r.seqno > 0 ==>
      exists s :: s in ss && s.member == r.member && r.seqno <= s.seqno
  }

  /** Reordering, repeating, and losing what a later report overtakes make no
      difference to the state the reports fold to. */
  lemma FoldOrderIndependent(rs: seq<Report>, ss: seq<Report>)
    requires Consistent(rs + ss) && Covered(rs, ss) && Covered(ss, rs)
    ensures FoldAll(rs) == FoldAll(ss)
  {
    var p, q := FoldAll(rs), FoldAll(ss);
    FoldExact(rs);
    FoldExact(ss);
    hide *;
    forall m: ID
      ensures m in p.seqs <==> m in q.seqs
      ensures m in p.seqs ==> p.seqs[m] == q.seqs[m]
      ensures m in p.present <==> m in q.present
      ensures m in p.present ==> p.present[m] == q.present[m]
    {
      SameLatest(rs, ss, m);
      FoldIsLatest(rs, m);
      FoldIsLatest(ss, m);
      SameRegister(p, q, LatestOf(rs, m), m);
    }
    assert p.seqs == q.seqs && p.present == q.present;
    CountsDetermined(p, q);
  }

  lemma SameRegister(p: Projection, q: Projection, l: Latest, m: ID)
    requires Holds(p, l, m) && Holds(q, l, m)
    ensures m in p.seqs <==> m in q.seqs
    ensures m in p.seqs ==> p.seqs[m] == q.seqs[m]
    ensures m in p.present <==> m in q.present
    ensures m in p.present ==> p.present[m] == q.present[m]
  {}

  lemma SameLatest(rs: seq<Report>, ss: seq<Report>, m: ID)
    requires Consistent(rs + ss) && Covered(rs, ss) && Covered(ss, rs)
    ensures LatestOf(rs, m) == LatestOf(ss, m)
  {
    var a, b := LatestOf(rs, m), LatestOf(ss, m);
    hide *;
    if a.Just? {
      var s := Overtaking(rs, ss, a.report);
    }
    if b.Just? {
      var r := Overtaking(ss, rs, b.report);
    }
    if a.Just? && b.Just? {
      assert a.report in rs + ss && b.report in rs + ss;
      ConsistentAt(rs + ss, a.report, b.report);
    }
  }

  lemma Overtaking(rs: seq<Report>, ss: seq<Report>, r: Report) returns (s: Report)
    requires Covered(rs, ss) && r in rs && WellFormed(r)
    ensures s in ss && WellFormed(s) && s.member == r.member && r.seqno <= s.seqno
  {
    s :| s in ss && WellFormed(s) && s.member == r.member && r.seqno <= s.seqno;
  }

  lemma ConsistentAt(rs: seq<Report>, r: Report, s: Report)
    requires Consistent(rs) && r in rs && s in rs && r.member == s.member && r.seqno == s.seqno
    ensures r == s
  {}

  lemma CountsDetermined(p: Projection, q: Projection)
    requires p.Exact() && q.Exact() && p.present == q.present
    ensures p.counts == q.counts
  {
    forall c: ID ensures p.Count(c) == q.Count(c) {
      assert p.In(c) == q.In(c);
      assert p.Count(c) == |p.In(c)| && q.Count(c) == |q.In(c)|;
    }
    forall c: ID ensures c in p.counts <==> c in q.counts {
      assert p.Count(c) == q.Count(c);
    }
    forall c: ID | c in p.counts ensures p.counts[c] == q.counts[c] {
      assert p.Count(c) == q.Count(c);
    }
  }

  // The class.

  class PresenceProjection {
    var seqs: map<ID, nat>
    var present: map<ID, Presence>
    var counts: map<ID, nat>

    ghost function State(): Projection
      reads this
    {
      Projection(seqs, present, counts)
    }

    constructor ()
      ensures State() == EMPTY
    {
      seqs, present, counts := map[], map[], map[];
    }

    /** Folds one report into the registers and the counts. */
    method Apply(r: Report) returns (change: Change, moved: bool)
      modifies this
      ensures (State(), change, moved) == old(State()).Apply(r)
    {
      if r.member == NoID || r.seqno == 0 {
        return NO_CHANGE, false;
      }
      if r.member in seqs && r.seqno <= seqs[r.member] {
        return NO_CHANGE, false;
      }
      seqs := seqs[r.member := r.seqno];
      var wasPresent := r.member in present;
      change := Change(r.member, NoID, NoID, NO_PRESENCE);
      if wasPresent {
        change := change.(left := present[r.member].channel);
      }
      if r.channel == NoID {
        if !wasPresent {
          return NO_CHANGE, false;
        }
        var was := present[r.member];
        present := present - {r.member};
        Decrement(was.channel);
        return change, true;
      }
      var now := Published(r);
      if wasPresent && present[r.member] == now {
        return NO_CHANGE, false;
      }
      if wasPresent && present[r.member].channel != r.channel {
        Decrement(present[r.member].channel);
      }
      if !wasPresent || present[r.member].channel != r.channel {
        counts := counts[r.channel := Count(r.channel) + 1];
      }
      present := present[r.member := now];
      change := change.(joined := r.channel, now := now);
      return change, true;
    }

    /** One occupancy fewer, and no entry for a channel that empties. */
    method Decrement(c: ID)
      modifies this`counts
      ensures counts == Decremented(old(counts), c)
    {
      if Count(c) <= 1 {
        counts := counts - {c};
        return;
      }
      counts := counts[c := counts[c] - 1];
    }

    function Count(c: ID): (n: nat)
      reads this
      ensures n == State().Count(c)
    {
      if c in counts then counts[c] else 0
    }

    /** The members in a channel, longest present first and then in identifier order. */
    method Occupants(c: ID) returns (found: seq<Presence>)
      requires State().Exact()
      ensures found == State().Occupants(c)
    {
      var collected := map m | m in present && present[m].channel == c :: present[m];
      assert collected == State().In(c);
      OccupantsOrdered(State(), c);
      found := Sort(collected.Values, LongerPresent);
      IsListing(found, collected.Values, LongerPresent);
    }
  }
}
