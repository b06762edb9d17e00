/** Progress aggregation: the completion percentage, the three-band difficulty
    breakdown of the profile page, and the fixed fourteen-week breakdown and
    XP figure of the dashboard. */
module Stats {
  import opened Models

  /** Whole-number completion percentage, 0 for an empty total. */
  function Percent(completed: int, total: int): (p: int)
    ensures total <= 0 ==> p == 0
    ensures total > 0 ==> p * total <= 100 * completed < (p + 1) * total
    ensures total > 0 && 0 <= completed <= total ==> 0 <= p <= 100
  {
    if total > 0 then PercentBounds(completed, total); (100 * completed) / total else 0
  }

  lemma PercentBounds(completed: int, total: int)
    requires total > 0
    ensures ((100 * completed) / total) * total <= 100 * completed < ((100 * completed) / total + 1) * total
    ensures 0 <= completed <= total ==> 0 <= (100 * completed) / total <= 100
  {
    var q, r := (100 * completed) / total, (100 * completed) % total;
    assert 100 * completed == q * total + r && 0 <= r < total;
    assert (q + 1) * total == q * total + total;
  }

  // ---------------------------------------------------------------------
  // Substring test and difficulty bands

  /** Python's `sub in s` for strings, as a search from the left. */
  predicate Occurs(sub: string, s: string)
    decreases |s|
  {
    |sub| <= |s| && (s[..|sub|] == sub || Occurs(sub, s[1..]))
  }

  /** `sub` sits in `s` at position `i`. */
  predicate OccursAt(sub: string, s: string, i: int)
  {
    0 <= i <= |s| - |sub| && s[i..i + |sub|] == sub
  }

  /** `Occurs` finds exactly the contiguous occurrences. */
  lemma {:induction false} OccursExact(sub: string, s: string)
    ensures Occurs(sub, s) <==> exists i :: OccursAt(sub, s, i)
    decreases |s|
  {
    if |sub| <= |s| {
      if s[..|sub|] == sub {
        assert OccursAt(sub, s, 0);
      } else {
        OccursExact(sub, s[1..]);
        if Occurs(sub, s) {
          var i :| OccursAt(sub, s[1..], i);
          assert s[i + 1..i + 1 + |sub|] == s[1..][i..i + |sub|];
          assert OccursAt(sub, s, i + 1);
        }
        if exists i :: OccursAt(sub, s, i) {
          var i :| OccursAt(sub, s, i);
          assert i != 0;
          assert s[1..][i - 1..i - 1 + |sub|] == s[i..i + |sub|];
          assert OccursAt(sub, s[1..], i - 1);
        }
      }
    }
  }

  /** A word whose first letter is absent from `s` does not occur in it. */
  lemma {:induction false} FirstLetterAbsent(sub: string, s: string)
    requires |sub| > 0 && sub[0] !in s
    ensures !Occurs(sub, s)
    decreases |s|
  {
    if |sub| <= |s| {
      assert s[0] != sub[0];
      assert s[..|sub|] != sub;
      FirstLetterAbsent(sub, s[1..]);
    }
  }

  datatype Difficulty = Easy | Medium | Hard

  /** The band a free-text label falls in: "Easy" wins over "Medium", and a
      tag containing neither is Hard. */
  function Classify(tag: string): Difficulty
  {
    if Occurs("Easy", tag) then Easy
    else if Occurs("Medium", tag) then Medium
    else Hard
  }

  /** Classification in terms of occurrences: Easy exactly when "Easy"
      occurs, Medium exactly when "Medium" occurs and "Easy" does not. */
  lemma ClassifyOrder(tag: string)
    ensures Classify(tag) == Easy <==> exists i :: OccursAt("Easy", tag, i)
    ensures Classify(tag) == Medium <==>
      (!exists i :: OccursAt("Easy", tag, i)) && (exists i :: OccursAt("Medium", tag, i))
    ensures Classify(tag) == Hard <==>
      (!exists i :: OccursAt("Easy", tag, i)) && (!exists i :: OccursAt("Medium", tag, i))
  {
    OccursExact("Easy", tag);
    OccursExact("Medium", tag);
  }

  lemma ClassifyExamples()
    ensures Classify("Easy") == Easy && Classify("Medium") == Medium && Classify("Hard") == Hard
    ensures Classify("Easy/Medium") == Easy
    ensures Classify("Unrated") == Hard
  {
    assert "Easy/Medium"[..4] == "Easy";
    FirstLetterAbsent("Easy", "Medium");
    FirstLetterAbsent("Easy", "Hard");
    FirstLetterAbsent("Medium", "Hard");
    FirstLetterAbsent("Easy", "Unrated");
    FirstLetterAbsent("Medium", "Unrated");
  }

  /** Number of catalog questions in band `d`. */
  function BandTotal(catalog: seq<Question>, d: Difficulty): nat
    decreases |catalog|
  {
    if |catalog| == 0 then 0
    else BandTotal(catalog[..|catalog| - 1], d) + (if Classify(catalog[|catalog| - 1].difficulty) == d then 1 else 0)
  }

  /** Number of catalog questions in band `d` whose id is in `solved`. */
  function BandCompleted(catalog: seq<Question>, solved: set<int>, d: Difficulty): nat
    decreases |catalog|
  {
    if |catalog| == 0 then 0
    else
      var q := catalog[|catalog| - 1];
      BandCompleted(catalog[..|catalog| - 1], solved, d) + (if Classify(q.difficulty) == d && q.id in solved then 1 else 0)
  }

  /** Every question lands in exactly one band. */
  lemma {:induction false} BandsPartition(catalog: seq<Question>)
    ensures BandTotal(catalog, Easy) + BandTotal(catalog, Medium) + BandTotal(catalog, Hard) == |catalog|
    decreases |catalog|
  {
    if |catalog| > 0 {
      BandsPartition(catalog[..|catalog| - 1]);
    }
  }

  lemma {:induction false} BandCompletedBound(catalog: seq<Question>, solved: set<int>, d: Difficulty)
    ensures BandCompleted(catalog, solved, d) <= BandTotal(catalog, d)
    decreases |catalog|
  {
    if |catalog| > 0 {
      BandCompletedBound(catalog[..|catalog| - 1], solved, d);
    }
  }

  datatype Tally = Tally(completed: nat, total: nat)

  /** The `difficulty_breakdown` dictionary, one tally per band. */
  datatype Breakdown = Breakdown(easy: Tally, medium: Tally, hard: Tally)
  {
    function Of(d: Difficulty): Tally
    {
      match d
      case Easy => easy
      case Medium => medium
      case Hard => hard
    }

    function With(d: Difficulty, t: Tally): Breakdown
    {
      match d
      case Easy => this.(easy := t)
      case Medium => this.(medium := t)
      case Hard => this.(hard := t)
    }
  }

  datatype ProfileStats = ProfileStats(completed: nat, total: nat, percent: int, breakdown: Breakdown)

  /** The statistics of the profile page for a catalog and the user's rows. */
  method Profile(catalog: seq<Question>, progress: ProgressMap) returns (stats: ProfileStats)
    ensures stats.completed == |SolvedIds(progress)| && stats.total == |catalog|
    ensures stats.percent == Percent(stats.completed, stats.total)
    ensures forall d ::
      stats.breakdown.Of(d) == Tally(BandCompleted(catalog, SolvedIds(progress), d), BandTotal(catalog, d))
    ensures stats.breakdown.easy.total + stats.breakdown.medium.total + stats.breakdown.hard.total == stats.total
    ensures forall d :: stats.breakdown.Of(d).completed <= stats.breakdown.Of(d).total
  {
    var solvedIds := SolvedIds(progress);
    var breakdown := Breakdown(Tally(0, 0), Tally(0, 0), Tally(0, 0));
    var i := 0;
    while i < |catalog|
      invariant 0 <= i <= |catalog|
      invariant forall d ::
        breakdown.Of(d) == Tally(BandCompleted(catalog[..i], solvedIds, d), BandTotal(catalog[..i], d))
    {
      var q := catalog[i];
      assert catalog[..i + 1][..i] == catalog[..i];
      var d := Classify(q.difficulty);
      var t := breakdown.Of(d);
      breakdown := breakdown.With(d, Tally(if q.id in solvedIds then t.completed + 1 else t.completed, t.total + 1));
      i := i + 1;
    }
    assert catalog[..i] == catalog;
    stats := ProfileStats(|solvedIds|, |catalog|, Percent(|solvedIds|, |catalog|), breakdown);
    BandsPartition(catalog);
    forall d ensures stats.breakdown.Of(d).completed <= stats.breakdown.Of(d).total {
      BandCompletedBound(catalog, solvedIds, d);
    }
  }

  // ---------------------------------------------------------------------
  // Weekly breakdown

  const FirstWeek := 1
  const LastWeek := 14

  /** Number of catalog questions assigned to `week` (which may be missing). */
  function WeekTotal(catalog: seq<Question>, week: Option<int>): nat
    decreases |catalog|
  {
    if |catalog| == 0 then 0
    else WeekTotal(catalog[..|catalog| - 1], week) + (if catalog[|catalog| - 1].week == week then 1 else 0)
  }

  /** Number of catalog questions assigned to `week` whose row is solved. */
  function WeekCompleted(catalog: seq<Question>, progress: ProgressMap, week: Option<int>): nat
    decreases |catalog|
  {
    if |catalog| == 0 then 0
    else
      var q := catalog[|catalog| - 1];
      WeekCompleted(catalog[..|catalog| - 1], progress, week) + (if q.week == week && IsSolved(progress, q.id) then 1 else 0)
  }

  lemma {:induction false} WeekCompletedBound(catalog: seq<Question>, progress: ProgressMap, week: Option<int>)
    ensures WeekCompleted(catalog, progress, week) <= WeekTotal(catalog, week)
    decreases |catalog|
  {
    if |catalog| > 0 {
      WeekCompletedBound(catalog[..|catalog| - 1], progress, week);
    }
  }

  /** One question as the week accordion lists it. */
  datatype Entry = Entry(question: Question, solved: bool, bookmarked: bool)

  /** The questions of week `w`, in catalog order, with the user's flags. */
  function WeekEntries(catalog: seq<Question>, progress: ProgressMap, w: int): seq<Entry>
    decreases |catalog|
  {
    if |catalog| == 0 then []
    else
      var q := catalog[|catalog| - 1];
      WeekEntries(catalog[..|catalog| - 1], progress, w) +
        (if q.week == Some(w) then [Entry(q, ProgressOf(progress, q.id).solved, ProgressOf(progress, q.id).bookmarked)] else [])
  }

  /** Week `w` lists exactly its questions, each once per catalog occurrence,
      and as many of them show solved as the week's completed count. */
  lemma {:induction false} WeekEntriesAgree(catalog: seq<Question>, progress: ProgressMap, w: int)
    ensures |WeekEntries(catalog, progress, w)| == WeekTotal(catalog, Some(w))
    ensures forall e :: e in WeekEntries(catalog, progress, w) <==>
      e.question in catalog && e.question.week == Some(w) &&
      e.solved == IsSolved(progress, e.question.id) &&
      e.bookmarked == ProgressOf(progress, e.question.id).bookmarked
    ensures SolvedEntries(WeekEntries(catalog, progress, w)) == WeekCompleted(catalog, progress, Some(w))
    decreases |catalog|
  {
    if |catalog| > 0 {
      var prefix := catalog[..|catalog| - 1];
      var q := catalog[|catalog| - 1];
      WeekEntriesAgree(prefix, progress, w);
      assert catalog == prefix + [q];
      var tail := if q.week == Some(w) then [Entry(q, ProgressOf(progress, q.id).solved, ProgressOf(progress, q.id).bookmarked)] else [];
      SolvedEntriesAppend(WeekEntries(prefix, progress, w), tail);
      forall e ensures e in WeekEntries(catalog, progress, w) <==>
        e.question in catalog && e.question.week == Some(w) &&
        e.solved == IsSolved(progress, e.question.id) &&
        e.bookmarked == ProgressOf(progress, e.question.id).bookmarked
      {
        if e.question in catalog && e.question != q {
          var i :| 0 <= i < |catalog| && catalog[i] == e.question;
          assert prefix[i] == e.question;
        }
      }
    }
  }

  /** What the dashboard's query order (by week, then id) guarantees within
      each week: questions of the same week come in ascending id order. */
  predicate IdsAscendWithinWeek(catalog: seq<Question>)
  {
    forall i, j :: 0 <= i < j < |catalog| && catalog[i].week == catalog[j].week ==> catalog[i].id <= catalog[j].id
  }

  /** With the catalog read in that order, every week's list is in id order. */
  lemma {:induction false} WeekEntriesInIdOrder(catalog: seq<Question>, progress: ProgressMap, w: int)
    requires IdsAscendWithinWeek(catalog)
    ensures forall i, j :: 0 <= i < j < |WeekEntries(catalog, progress, w)| ==>
      WeekEntries(catalog, progress, w)[i].question.id <= WeekEntries(catalog, progress, w)[j].question.id
    decreases |catalog|
  {
    if |catalog| > 0 {
      var prefix := catalog[..|catalog| - 1];
      var q := catalog[|catalog| - 1];
      assert IdsAscendWithinWeek(prefix) by {
        forall i, j | 0 <= i < j < |prefix| && prefix[i].week == prefix[j].week
          ensures prefix[i].id <= prefix[j].id
        {
          assert prefix[i] == catalog[i] && prefix[j] == catalog[j];
        }
      }
      WeekEntriesInIdOrder(prefix, progress, w);
      if q.week == Some(w) {
        var before := WeekEntries(prefix, progress, w);
        WeekEntriesAgree(prefix, progress, w);
        forall e | e in before ensures e.question.id <= q.id {
          var k :| 0 <= k < |prefix| && prefix[k] == e.question;
          assert catalog[k] == e.question;
        }
        var after := WeekEntries(catalog, progress, w);
        forall i, j | 0 <= i < j < |after| ensures after[i].question.id <= after[j].question.id {
          if j < |before| {
            assert after[i] == before[i] && after[j] == before[j];
          } else {
            assert after[i] == before[i] && after[i] in before;
          }
        }
      }
    }
  }

  function SolvedEntries(entries: seq<Entry>): nat
    decreases |entries|
  {
    if |entries| == 0 then 0
    else SolvedEntries(entries[..|entries| - 1]) + (if entries[|entries| - 1].solved then 1 else 0)
  }

  lemma {:induction false} SolvedEntriesAppend(a: seq<Entry>, b: seq<Entry>)
    requires |b| <= 1
    ensures SolvedEntries(a + b) == SolvedEntries(a) + SolvedEntries(b)
  {
    if |b| == 1 {
      assert (a + b)[..|a + b| - 1] == a;
      assert SolvedEntries(b) == SolvedEntries(b[..0]) + (if b[0].solved then 1 else 0);
    } else {
      assert a + b == a;
    }
  }

  /** Questions without a week, or with a week outside 1..14, are in no
      week's total: the fourteen totals add up to the questions inside the
      curriculum. */
  lemma WeekTotalsCoverCurriculum(catalog: seq<Question>)
    ensures SumOfWeekTotals(catalog, LastWeek) == InCurriculum(catalog)
    ensures InCurriculum(catalog) <= |catalog|
  {
    WeekTotalsCoverWeeks(catalog, LastWeek);
  }

  /** The totals of weeks 1..n add up to the questions whose week is in 1..n. */
  lemma {:induction false} WeekTotalsCoverWeeks(catalog: seq<Question>, n: int)
    ensures SumOfWeekTotals(catalog, n) == InWeeks(catalog, n) <= |catalog|
    decreases |catalog|
  {
    if |catalog| > 0 {
      var prefix, q := catalog[..|catalog| - 1], catalog[|catalog| - 1];
      WeekTotalsCoverWeeks(prefix, n);
      SumOfWeekTotalsStep(prefix, q, n);
      assert prefix + [q] == catalog;
    } else {
      SumOfWeekTotalsEmpty(catalog, n);
    }
  }

  lemma {:induction false} SumOfWeekTotalsEmpty(catalog: seq<Question>, n: int)
    requires |catalog| == 0
    ensures SumOfWeekTotals(catalog, n) == 0
    decreases n
  {
    if n >= FirstWeek {
      SumOfWeekTotalsEmpty(catalog, n - 1);
    }
  }

  /** Sum of the totals of weeks 1..n. */
  function SumOfWeekTotals(catalog: seq<Question>, n: int): nat
    decreases n
  {
    if n < FirstWeek then 0 else SumOfWeekTotals(catalog, n - 1) + WeekTotal(catalog, Some(n))
  }

  /** Number of catalog questions whose week is in 1..n. */
  function InWeeks(catalog: seq<Question>, n: int): nat
    decreases |catalog|
  {
    if |catalog| == 0 then 0
    else
      var w := catalog[|catalog| - 1].week;
      InWeeks(catalog[..|catalog| - 1], n) + (if w.Some? && FirstWeek <= w.value <= n then 1 else 0)
  }

  /** Number of catalog questions inside the curriculum, weeks 1..14. */
  function InCurriculum(catalog: seq<Question>): nat
  {
    InWeeks(catalog, LastWeek)
  }

  lemma {:induction false} SumOfWeekTotalsStep(catalog: seq<Question>, q: Question, n: int)
    ensures SumOfWeekTotals(catalog + [q], n) ==
      SumOfWeekTotals(catalog, n) + (if q.week.Some? && FirstWeek <= q.week.value <= n then 1 else 0)
    decreases n
  {
    assert (catalog + [q])[..|catalog|] == catalog;
    if n >= FirstWeek {
      SumOfWeekTotalsStep(catalog, q, n - 1);
    }
  }

  /** How the three per-week views grow when one more catalog question is read. */
  lemma WeekStep(catalog: seq<Question>, progress: ProgressMap, i: int)
    requires 0 <= i < |catalog|
    ensures forall v ::
      WeekTotal(catalog[..i + 1], Some(v)) ==
      WeekTotal(catalog[..i], Some(v)) + (if catalog[i].week == Some(v) then 1 else 0)
    ensures forall v ::
      WeekCompleted(catalog[..i + 1], progress, Some(v)) ==
      WeekCompleted(catalog[..i], progress, Some(v)) +
      (if catalog[i].week == Some(v) && IsSolved(progress, catalog[i].id) then 1 else 0)
    ensures forall v ::
      WeekEntries(catalog[..i + 1], progress, v) ==
      WeekEntries(catalog[..i], progress, v) +
      (if catalog[i].week == Some(v)
       then [Entry(catalog[i], ProgressOf(progress, catalog[i].id).solved, ProgressOf(progress, catalog[i].id).bookmarked)]
       else [])
  {
    assert catalog[..i + 1][..i] == catalog[..i];
  }

  datatype WeekStats = WeekStats(total: nat, completed: nat, percent: int)

  /** What the dashboard renders besides the user name. */
  datatype DashboardView = DashboardView(
    weeks: map<int, seq<Entry>>,
    weekStats: map<int, WeekStats>,
    xp: int)

  /** The dashboard for a catalog (in display order) and the user's rows. */
  method Dashboard(catalog: seq<Question>, progress: ProgressMap) returns (view: DashboardView)
    ensures view.xp == Xp(progress)
    ensures forall w :: w in view.weeks <==> FirstWeek <= w <= LastWeek
    ensures view.weekStats.Keys == view.weeks.Keys
    ensures forall w :: w in view.weeks ==> view.weeks[w] == WeekEntries(catalog, progress, w)
    ensures forall w :: w in view.weekStats ==>
      var t, c := WeekTotal(catalog, Some(w)), WeekCompleted(catalog, progress, Some(w));
      view.weekStats[w] == WeekStats(t, c, Percent(c, t))
    ensures forall w :: w in view.weekStats ==>
      view.weekStats[w].completed <= view.weekStats[w].total && 0 <= view.weekStats[w].percent <= 100
    ensures IdsAscendWithinWeek(catalog) ==> forall w, i, j :: w in view.weeks && 0 <= i < j < |view.weeks[w]| ==>
      view.weeks[w][i].question.id <= view.weeks[w][j].question.id
  {
    var weeks, stats := EmptyWeeks();
    weeks, stats := TallyWeeks(catalog, progress, weeks, stats);
    stats := FillPercents(catalog, progress, stats);
    view := DashboardView(weeks, stats, Xp(progress));
    forall v | v in view.weekStats
      ensures view.weekStats[v].completed <= view.weekStats[v].total && 0 <= view.weekStats[v].percent <= 100
    {
      WeekCompletedBound(catalog, progress, Some(v));
    }
    if IdsAscendWithinWeek(catalog) {
      forall v | v in view.weeks {
        WeekEntriesInIdOrder(catalog, progress, v);
      }
    }
  }

  /** Weeks 1..14, each with no questions and zero statistics. */
  method EmptyWeeks() returns (weeks: map<int, seq<Entry>>, stats: map<int, WeekStats>)
    ensures forall v :: v in weeks <==> FirstWeek <= v <= LastWeek
    ensures stats.Keys == weeks.Keys
    ensures forall v :: v in weeks ==> weeks[v] == [] && stats[v] == WeekStats(0, 0, 0)
  {
    weeks, stats := map[], map[];
    var w := FirstWeek;
    while w <= LastWeek
      invariant FirstWeek <= w <= LastWeek + 1
      invariant forall v :: v in weeks <==> FirstWeek <= v < w
      invariant stats.Keys == weeks.Keys
      invariant forall v :: v in weeks ==> weeks[v] == [] && stats[v] == WeekStats(0, 0, 0)
    {
      weeks := weeks[w := []];
      stats := stats[w := WeekStats(0, 0, 0)];
      w := w + 1;
    }
  }

  /** Files every question whose week is already a key of the tables under
      that week and counts it; other questions are passed over. */
  method TallyWeeks(catalog: seq<Question>, progress: ProgressMap,
                    weeks0: map<int, seq<Entry>>, stats0: map<int, WeekStats>)
    returns (weeks: map<int, seq<Entry>>, stats: map<int, WeekStats>)
    requires stats0.Keys == weeks0.Keys
    requires forall v :: v in weeks0 ==> weeks0[v] == [] && stats0[v] == WeekStats(0, 0, 0)
    ensures weeks.Keys == weeks0.Keys && stats.Keys == weeks0.Keys
    ensures forall v :: v in weeks ==> weeks[v] == WeekEntries(catalog, progress, v)
    ensures forall v :: v in stats ==>
      stats[v] == WeekStats(WeekTotal(catalog, Some(v)), WeekCompleted(catalog, progress, Some(v)), 0)
  {
    weeks, stats := weeks0, stats0;
    var i := 0;
    assert catalog[..0] == [];
    while i < |catalog|
      invariant 0 <= i <= |catalog|
      invariant weeks.Keys == weeks0.Keys && stats.Keys == weeks0.Keys
      invariant forall v :: v in weeks ==> weeks[v] == WeekEntries(catalog[..i], progress, v)
      invariant forall v :: v in stats ==>
        stats[v] == WeekStats(WeekTotal(catalog[..i], Some(v)), WeekCompleted(catalog[..i], progress, Some(v)), 0)
    {
      WeekStep(catalog, progress, i);
      weeks, stats := FileQuestion(catalog[i], progress, weeks, stats);
      i := i + 1;
    }
    assert catalog[..i] == catalog;
  }

  /** One pass of the question loop: a question whose week is a key of the
      tables is appended to that week and counted there. */
  method FileQuestion(q: Question, progress: ProgressMap,
                      weeks0: map<int, seq<Entry>>, stats0: map<int, WeekStats>)
    returns (weeks: map<int, seq<Entry>>, stats: map<int, WeekStats>)
    requires stats0.Keys == weeks0.Keys
    ensures weeks.Keys == weeks0.Keys && stats.Keys == weeks0.Keys
    ensures forall v :: v in weeks ==>
      weeks[v] == weeks0[v] +
        (if q.week == Some(v) then [Entry(q, ProgressOf(progress, q.id).solved, ProgressOf(progress, q.id).bookmarked)] else [])
    ensures forall v :: v in stats ==>
      stats[v] == if q.week == Some(v)
        then WeekStats(stats0[v].total + 1, stats0[v].completed + (if IsSolved(progress, q.id) then 1 else 0), stats0[v].percent)
        else stats0[v]
  {
    weeks, stats := weeks0, stats0;
    if q.week.Some? && q.week.value in weeks {
      var wk := q.week.value;
      var p := ProgressOf(progress, q.id);
      weeks := weeks[wk := weeks[wk] + [Entry(q, p.solved, p.bookmarked)]];
      var s := stats[wk];
      stats := stats[wk := WeekStats(s.total + 1, if p.solved then s.completed + 1 else s.completed, s.percent)];
    }
  }

  /** Sets the percentage of every week that has questions. */
  method FillPercents(catalog: seq<Question>, progress: ProgressMap, stats0: map<int, WeekStats>)
    returns (stats: map<int, WeekStats>)
    requires forall v :: v in stats0 <==> FirstWeek <= v <= LastWeek
    requires forall v :: v in stats0 ==>
      stats0[v] == WeekStats(WeekTotal(catalog, Some(v)), WeekCompleted(catalog, progress, Some(v)), 0)
    ensures stats.Keys == stats0.Keys
    ensures forall v :: v in stats ==>
      var t, c := WeekTotal(catalog, Some(v)), WeekCompleted(catalog, progress, Some(v));
      stats[v] == WeekStats(t, c, Percent(c, t))
  {
    stats := stats0;
    var w := FirstWeek;
    while w <= LastWeek
      invariant FirstWeek <= w <= LastWeek + 1
      invariant stats.Keys == stats0.Keys
      invariant forall v :: v in stats ==>
        var t, c := WeekTotal(catalog, Some(v)), WeekCompleted(catalog, progress, Some(v));
        stats[v] == WeekStats(t, c, if v < w then Percent(c, t) else 0)
    {
      var s := stats[w];
      if s.total > 0 {
        stats := stats[w := s.(percent := Percent(s.completed, s.total))];
      }
      w := w + 1;
    }
  }
}
