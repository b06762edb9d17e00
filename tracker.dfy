/** The request handlers that change a user's state: the solve/bookmark toggle
    and the judge sync, both on top of the streak rule, plus the candidate
    filter of the random-question endpoint. A `User` object stands for the
    logged-in user together with that user's progress rows; its state after a
    method is the state committed at the end of the request. */
module Tracker {
  import opened Models
  import opened Streak
  import opened Stats
  import opened Slugs
  import opened Sync

  // ---------------------------------------------------------------------
  // Toggling one row

  /** A progress row after the toggle endpoint edits `field` of it: "solved"
      takes the explicit target when one is given and flips otherwise,
      "bookmarked" flips, any other field leaves the row as it is. */
  function Toggled(p: Progress, field: string, setToSolved: Option<bool>): Progress
  {
    if field == "solved" then p.(solved := if setToSolved.Some? then setToSolved.value else !p.solved)
    else if field == "bookmarked" then p.(bookmarked := !p.bookmarked)
    else p
  }

  /** Two plain toggles of either flag restore the row. */
  lemma ToggleTwiceRestores(p: Progress)
    ensures Toggled(Toggled(p, "solved", None), "solved", None) == p
    ensures Toggled(Toggled(p, "bookmarked", None), "bookmarked", None) == p
    ensures Toggled(p, "solved", None).solved == !p.solved
  {
  }

  /** An explicit target is what the row ends with, and applying it again
      changes nothing. */
  lemma SetSolvedIdempotent(p: Progress, target: bool)
    ensures Toggled(p, "solved", Some(target)).solved == target
    ensures Toggled(Toggled(p, "solved", Some(target)), "solved", Some(target)) == Toggled(p, "solved", Some(target))
  {
  }

  /** Each field leaves the other flag alone; an unknown field edits nothing. */
  lemma ToggleFieldsIndependent(p: Progress, field: string, setToSolved: Option<bool>)
    ensures field == "bookmarked" ==> Toggled(p, field, setToSolved).solved == p.solved
    ensures field == "solved" ==> Toggled(p, field, setToSolved).bookmarked == p.bookmarked
    ensures field != "solved" && field != "bookmarked" ==> Toggled(p, field, setToSolved) == p
  {
  }

  /** The catalog entry with this id (a primary-key lookup). */
  function FindQuestion(catalog: seq<Question>, id: int): (r: Option<Question>)
    ensures r.Some? ==> r.value in catalog && r.value.id == id
    ensures r.None? ==> forall q :: q in catalog ==> q.id != id
    decreases |catalog|
  {
    if |catalog| == 0 then None
    else if catalog[0].id == id then Some(catalog[0])
    else FindQuestion(catalog[1..], id)
  }

  /** Every row refers to a catalog question: the foreign key on
      `question_id` that the store enforces. */
  predicate RowsInCatalog(progress: ProgressMap, catalog: seq<Question>)
  {
    forall id :: id in progress ==> id in CatalogIds(catalog)
  }

  /** The lookup finds exactly the ids of the catalog. */
  lemma FoundInCatalog(catalog: seq<Question>, id: int)
    ensures FindQuestion(catalog, id).Some? <==> id in CatalogIds(catalog)
  {
    CatalogIdsExact(catalog);
  }

  /** A sync only marks catalog questions. */
  lemma {:induction false} MatchedInCatalog(catalog: seq<Question>, slugs: set<string>)
    ensures MatchedIds(catalog, slugs) <= CatalogIds(catalog)
    decreases |catalog|
  {
    if |catalog| > 0 {
      MatchedInCatalog(catalog[..|catalog| - 1], slugs);
    }
  }

  /** Ids of the catalog questions assigned to `week`. */
  function WeekIds(catalog: seq<Question>, week: Option<int>): set<int>
    decreases |catalog|
  {
    if |catalog| == 0 then {}
    else
      var q := catalog[|catalog| - 1];
      WeekIds(catalog[..|catalog| - 1], week) + (if q.week == week then {q.id} else {})
  }

  /** The count of the user's solved rows joined with their question's week. */
  function SolvedInWeek(catalog: seq<Question>, progress: ProgressMap, week: Option<int>): nat
  {
    |SolvedIds(progress) * WeekIds(catalog, week)|
  }

  predicate DistinctIds(catalog: seq<Question>)
  {
    forall i, j :: 0 <= i < j < |catalog| ==> catalog[i].id != catalog[j].id
  }

  /** With ids unique, the join count of the toggle endpoint agrees with the
      dashboard's per-question count, and never exceeds the week's total. */
  lemma {:induction false} SolvedInWeekAgrees(catalog: seq<Question>, progress: ProgressMap, week: Option<int>)
    requires DistinctIds(catalog)
    ensures SolvedInWeek(catalog, progress, week) == WeekCompleted(catalog, progress, week)
    decreases |catalog|
  {
    if |catalog| > 0 {
      var prefix := catalog[..|catalog| - 1];
      var q := catalog[|catalog| - 1];
      DistinctPrefix(catalog);
      SolvedInWeekAgrees(prefix, progress, week);
      var solved, earlier := SolvedIds(progress), WeekIds(prefix, week);
      assert WeekIds(catalog, week) == earlier + (if q.week == week then {q.id} else {});
      if q.week == week {
        NewIdNotInWeek(catalog, week);
        AddToIntersection(solved, earlier, q.id);
        assert IsSolved(progress, q.id) <==> q.id in solved;
      }
    }
  }

  lemma DistinctPrefix(catalog: seq<Question>)
    requires |catalog| > 0 && DistinctIds(catalog)
    ensures DistinctIds(catalog[..|catalog| - 1])
  {
    var prefix := catalog[..|catalog| - 1];
    forall i, j | 0 <= i < j < |prefix| ensures prefix[i].id != prefix[j].id {
      assert prefix[i] == catalog[i] && prefix[j] == catalog[j];
    }
  }

  lemma AddToIntersection(s: set<int>, w: set<int>, x: int)
    requires x !in w
    ensures |s * (w + {x})| == |s * w| + (if x in s then 1 else 0)
  {
    if x in s {
      assert s * (w + {x}) == s * w + {x};
    } else {
      assert s * (w + {x}) == s * w;
    }
  }

  /** With unique ids, the last question's id is in no earlier week. */
  lemma NewIdNotInWeek(catalog: seq<Question>, week: Option<int>)
    requires |catalog| > 0 && DistinctIds(catalog)
    ensures catalog[|catalog| - 1].id !in WeekIds(catalog[..|catalog| - 1], week)
  {
    var prefix := catalog[..|catalog| - 1];
    WeekIdsInCatalog(prefix, week);
    CatalogIdsExact(prefix);
  }

  lemma {:induction false} WeekIdsInCatalog(catalog: seq<Question>, week: Option<int>)
    ensures WeekIds(catalog, week) <= CatalogIds(catalog)
    decreases |catalog|
  {
    if |catalog| > 0 {
      WeekIdsInCatalog(catalog[..|catalog| - 1], week);
    }
  }

  lemma {:induction false} WeekIdsBound(catalog: seq<Question>, week: Option<int>)
    ensures |WeekIds(catalog, week)| <= WeekTotal(catalog, week)
    decreases |catalog|
  {
    if |catalog| > 0 {
      WeekIdsBound(catalog[..|catalog| - 1], week);
    }
  }

  /** The `week_data` of the toggle reply. */
  datatype WeekData = WeekData(week: Option<int>, completed: nat, total: nat, percent: int)

  function WeekDataFor(catalog: seq<Question>, progress: ProgressMap, id: int): Option<WeekData>
  {
    match FindQuestion(catalog, id)
    case None => None
    case Some(q) =>
      var c, t := SolvedInWeek(catalog, progress, q.week), WeekTotal(catalog, q.week);
      Some(WeekData(q.week, c, t, Percent(c, t)))
  }

  /** The week figures sent back after a solve toggle are consistent: the
      week is the toggled question's, completed never exceeds total and the
      percentage lies in 0..100. */
  lemma WeekDataBounds(catalog: seq<Question>, progress: ProgressMap, id: int)
    ensures WeekDataFor(catalog, progress, id).Some? <==> exists q :: q in catalog && q.id == id
    ensures WeekDataFor(catalog, progress, id).Some? ==>
      var d := WeekDataFor(catalog, progress, id).value;
      d.completed <= d.total && 0 <= d.percent <= 100 &&
      exists q :: q in catalog && q.id == id && q.week == d.week
  {
    match FindQuestion(catalog, id)
    case None =>
    case Some(q) =>
      var s, w := SolvedIds(progress), WeekIds(catalog, q.week);
      SubsetCard(s * w, w);
      WeekIdsBound(catalog, q.week);
  }

  /** The JSON reply of the toggle endpoint. */
  datatype ToggleReply = ToggleReply(newValue: bool, newXp: int, newStreak: Option<int>, weekData: Option<WeekData>)

  /** The reply computed from the committed state; `None` when `field` is
      neither "solved" nor "bookmarked", where the handler fails after its
      commit because the new value was never assigned. */
  function ReplyFor(catalog: seq<Question>, progress: ProgressMap, streak: Option<int>,
                    id: int, field: string): Option<ToggleReply>
    requires id in progress
  {
    if field == "solved" then
      Some(ToggleReply(progress[id].solved, Xp(progress), streak, WeekDataFor(catalog, progress, id)))
    else if field == "bookmarked" then
      Some(ToggleReply(progress[id].bookmarked, Xp(progress), streak, None))
    else None
  }

  // ---------------------------------------------------------------------
  // Judge sync

  /** What the judge's query endpoint answered: a transport or decoding
      failure, an error payload, or the list of accepted submissions. */
  datatype Remote = Unreachable | ErrorPayload(messages: seq<string>) | Submissions(slugs: seq<string>)

  /** How a sync request ends (the flash message it shows). */
  datatype SyncOutcome =
    | NoHandle
    | ApiError(message: string)
    | ConnectionFailed
    | NoSubmissions
    | Synced(marked: nat)

  predicate HasHandle(handle: Option<string>)
  {
    handle.Some? && handle.value != ""
  }

  /** Everything before the marking loop: `None` to go on marking with the
      reported slug set, or the outcome the request ends with. Reading the
      first message of an empty error list fails like a broken response. */
  function SyncPrecheck(handle: Option<string>, remote: Remote): (r: Option<SyncOutcome>)
  {
    if !HasHandle(handle) then Some(NoHandle)
    else match remote
      case Unreachable => Some(ConnectionFailed)
      case ErrorPayload(messages) => if |messages| == 0 then Some(ConnectionFailed) else Some(ApiError(messages[0]))
      case Submissions(slugs) => if |slugs| == 0 then Some(NoSubmissions) else None
  }

  /** The sync gets to the marking loop exactly when a handle is set and the
      judge answered with at least one accepted submission; otherwise it
      ends with the matching error. */
  lemma SyncPrecheckCases(handle: Option<string>, remote: Remote)
    ensures SyncPrecheck(handle, remote).None? <==> HasHandle(handle) && remote.Submissions? && |remote.slugs| > 0
    ensures !HasHandle(handle) ==> SyncPrecheck(handle, remote) == Some(NoHandle)
    ensures SyncPrecheck(handle, remote) != Some(Synced(0))
  {
  }

  function SlugSet(slugs: seq<string>): set<string>
  {
    set s | s in slugs
  }

  // ---------------------------------------------------------------------
  // The logged-in user

  class User {
    var leetcodeUsername: Option<string>
    var lastActiveDate: Option<int>
    var streakCount: Option<int>
    var progress: ProgressMap

    /** A user with no activity yet and a zero streak. `handle` is the judge
      username that `update_leetcode_username` sets; registration leaves it
      `None`. */
    constructor (handle: Option<string>)
      ensures leetcodeUsername == handle && lastActiveDate == None && streakCount == Some(0) && progress == map[]
    {
      leetcodeUsername := handle;
      lastActiveDate := None;
      streakCount := Some(0);
      progress := map[];
    }

    function Activity(): Streak.Activity
      reads this
    {
      Streak.Activity(lastActiveDate, streakCount)
    }

    /** `update_streak` on day `today`. */
    method UpdateStreak(today: int)
      modifies this
      ensures Activity() == StreakAfter(old(Activity()), today)
      ensures leetcodeUsername == old(leetcodeUsername) && progress == old(progress)
    {
      if lastActiveDate == Some(today) {
        return;
      }
      if lastActiveDate == Some(today - 1) {
        streakCount := Some(OrZero(streakCount) + 1);
      } else {
        streakCount := Some(1);
      }
      lastActiveDate := Some(today);
    }

    /** The toggle endpoint: creates the row if needed, applies the field's
      edit, updates the streak when the question ends up solved, and
      replies with the new value, XP, streak and, for a solve toggle, the
      figures of the question's week. A row must refer to a catalog
      question (the foreign key on `question_id`): for any other id the
      commit is rejected, so nothing is stored, the streak change made
      before the commit is rolled back with it, and the request fails. */
    method Toggle(catalog: seq<Question>, id: int, field: string, setToSolved: Option<bool>, today: int)
      returns (reply: Option<ToggleReply>)
      modifies this
      ensures FindQuestion(catalog, id).None? ==>
        reply.None? && progress == old(progress) && Activity() == old(Activity())
      ensures FindQuestion(catalog, id).Some? ==>
        progress == old(progress)[id := Toggled(ProgressOf(old(progress), id), field, setToSolved)] &&
        Activity() == (if field == "solved" && progress[id].solved then StreakAfter(old(Activity()), today) else old(Activity())) &&
        reply == ReplyFor(catalog, progress, streakCount, id, field)
      ensures RowsInCatalog(old(progress), catalog) ==> RowsInCatalog(progress, catalog)
      ensures leetcodeUsername == old(leetcodeUsername)
    {
      var question := FindQuestion(catalog, id);
      if question.None? {
        return None;
      }
      FoundInCatalog(catalog, id);
      var row := ProgressOf(progress, id);
      if field == "solved" {
        row := row.(solved := if setToSolved.Some? then setToSolved.value else !row.solved);
        progress := progress[id := row];
        if row.solved {
          UpdateStreak(today);
        }
      } else if field == "bookmarked" {
        row := row.(bookmarked := !row.bookmarked);
        progress := progress[id := row];
      } else {
        progress := progress[id := row];
      }
      // the figures are read back from the committed rows
      reply := ReplyFor(catalog, progress, streakCount, id, field);
    }

    /** The marking loop of the sync run on this user's rows. */
    method MarkReported(catalog: seq<Question>, slugs: set<string>) returns (marked: nat)
      modifies this
      ensures progress == MarkSolved(old(progress), MatchedIds(catalog, slugs))
      ensures marked == |Flipped(old(progress), MatchedIds(catalog, slugs))|
      ensures RowsInCatalog(old(progress), catalog) ==> RowsInCatalog(progress, catalog)
      ensures Activity() == old(Activity()) && leetcodeUsername == old(leetcodeUsername)
    {
      var rows;
      rows, marked := MarkAll(progress, catalog, slugs);
      MatchedInCatalog(catalog, slugs);
      progress := rows;
    }

    /** The sync endpoint, with the streak update committed together with
      the marks: after the checks, the reported questions are marked
      solved, and the streak is updated once if any row flipped. */
    method SyncLeetcode(catalog: seq<Question>, remote: Remote, today: int) returns (outcome: SyncOutcome)
      modifies this
      ensures SyncPrecheck(old(leetcodeUsername), remote).Some? ==>
        outcome == SyncPrecheck(old(leetcodeUsername), remote).value &&
        progress == old(progress) && Activity() == old(Activity())
      ensures SyncPrecheck(old(leetcodeUsername), remote).None? ==>
        var matched := MatchedIds(catalog, SlugSet(remote.slugs));
        progress == MarkSolved(old(progress), matched) &&
        outcome == Synced(|Flipped(old(progress), matched)|) &&
        Activity() == if outcome.marked > 0 then StreakAfter(old(Activity()), today) else old(Activity())
      ensures outcome == Synced(0) ==> progress == old(progress) && Activity() == old(Activity())
      ensures leetcodeUsername == old(leetcodeUsername)
    {
      var check := SyncPrecheck(leetcodeUsername, remote);
      if check.Some? {
        return check.value;
      }
      var marked := MarkReported(catalog, SlugSet(remote.slugs));
      MarkSolvedUnchanged(old(progress), MatchedIds(catalog, SlugSet(remote.slugs)));
      if marked > 0 {
        UpdateStreak(today);
      }
      outcome := Synced(marked);
    }

    /** The sync endpoint as the handler persists it: its streak update runs
      after the request's only commit and is discarded when the request's
      session ends, so the committed activity columns never change. */
    method SyncLeetcodeAsWritten(catalog: seq<Question>, remote: Remote, today: int) returns (outcome: SyncOutcome)
      modifies this
      ensures SyncPrecheck(old(leetcodeUsername), remote).Some? ==>
        outcome == SyncPrecheck(old(leetcodeUsername), remote).value && progress == old(progress)
      ensures SyncPrecheck(old(leetcodeUsername), remote).None? ==>
        var matched := MatchedIds(catalog, SlugSet(remote.slugs));
        progress == MarkSolved(old(progress), matched) &&
        outcome == Synced(|Flipped(old(progress), matched)|)
      ensures outcome == Synced(0) ==> progress == old(progress)
      ensures Activity() == old(Activity())
      ensures leetcodeUsername == old(leetcodeUsername)
    {
      var check := SyncPrecheck(leetcodeUsername, remote);
      if check.Some? {
        return check.value;
      }
      var marked := MarkReported(catalog, SlugSet(remote.slugs));
      MarkSolvedUnchanged(old(progress), MatchedIds(catalog, SlugSet(remote.slugs)));
      outcome := Synced(marked);
    }
  }

  // ---------------------------------------------------------------------
  // Random question

  /** The questions the random endpoint picks from: all of them, or in
      "unsolved" mode those the user has not solved. */
  function Candidates(catalog: seq<Question>, progress: ProgressMap, mode: string): (r: seq<Question>)
    ensures |r| <= |catalog|
    ensures forall q :: q in r <==> q in catalog && (mode == "unsolved" ==> !IsSolved(progress, q.id))
    decreases |catalog|
  {
    if |catalog| == 0 then []
    else
      var rest := Candidates(catalog[1..], progress, mode);
      assert forall q :: q in catalog <==> q == catalog[0] || q in catalog[1..];
      if mode == "unsolved" && IsSolved(progress, catalog[0].id) then rest else [catalog[0]] + rest
  }

  datatype RandomReply = NoQuestions | Picked(question: Question, solved: bool, bookmarked: bool)

  /** The random endpoint; `choice` stands for the random pick among the
      candidates. */
  function RandomQuestion(catalog: seq<Question>, progress: ProgressMap, mode: string, choice: nat): (r: RandomReply)
    ensures r.NoQuestions? <==> |Candidates(catalog, progress, mode)| == 0
    ensures r.Picked? ==>
      r.question in catalog &&
      r.solved == IsSolved(progress, r.question.id) &&
      r.bookmarked == ProgressOf(progress, r.question.id).bookmarked &&
      (mode == "unsolved" ==> !r.solved)
  {
    var candidates := Candidates(catalog, progress, mode);
    if |candidates| == 0 then NoQuestions
    else
      var q := candidates[choice % |candidates|];
      Picked(q, ProgressOf(progress, q.id).solved, ProgressOf(progress, q.id).bookmarked)
  }

  /** "Unsolved" mode offers nothing exactly when every question is solved. */
  lemma NoUnsolvedCandidates(catalog: seq<Question>, progress: ProgressMap)
    ensures |Candidates(catalog, progress, "unsolved")| == 0 <==> forall q :: q in catalog ==> IsSolved(progress, q.id)
  {
    var c := Candidates(catalog, progress, "unsolved");
    if |c| > 0 {
      assert c[0] in c;
    }
  }

  // ---------------------------------------------------------------------
  // Scenarios

  /** Two catalog questions whose links live under `site`. */
  function TwoSum(site: string): Question
  {
    Question(1, "Two Sum", "Arrays", "Easy", Some(site + "/" + "two-sum" + "/"), None, Some(1))
  }

  function AddTwoNumbers(site: string): Question
  {
    Question(2, "Add Two Numbers", "Lists", "Medium", Some(site + "/" + "add-two-numbers" + "/"), None, Some(2))
  }

  lemma ScenarioFirstMatches(site: string)
    ensures Matches(TwoSum(site), {"two-sum", "lru-cache"})
  {
    SlugOfProblemLink(site, "two-sum", "/");
  }

  lemma ScenarioSecondMisses(site: string)
    ensures !Matches(AddTwoNumbers(site), {"two-sum", "lru-cache"})
  {
    SlugOfProblemLink(site, "add-two-numbers", "/");
    assert "add-two-numbers" != "two-sum" && "add-two-numbers" != "lru-cache";
  }

  /** Reported slugs {two-sum, lru-cache} against links .../two-sum/ and
      .../add-two-numbers/ match exactly the first question, which a user
      without rows gets as one new solved row. */
  lemma ScenarioMatches(site: string)
    ensures MatchedIds([TwoSum(site), AddTwoNumbers(site)], {"two-sum", "lru-cache"}) == {1}
    ensures MarkSolved(map[], {1}) == map[1 := Progress(true, false)]
    ensures Flipped(map[], {1}) == {1}
  {
    var slugs := {"two-sum", "lru-cache"};
    ScenarioFirstMatches(site);
    ScenarioSecondMisses(site);
    var catalog := [TwoSum(site), AddTwoNumbers(site)];
    assert catalog[..1] == [TwoSum(site)] && catalog[..1][..0] == [];
    assert MatchedIds(catalog[..1][..0], slugs) == {};
    assert MatchedIds(catalog[..1], slugs) == {1};
    assert MatchedIds(catalog, slugs) == MatchedIds(catalog[..1], slugs);
    assert SolvedIds(map[]) == {};
  }

  /** The judge's answer in the scenario. */
  lemma ScenarioReport()
    ensures SlugSet(["two-sum", "lru-cache"]) == {"two-sum", "lru-cache"}
  {
  }

  /** The sync of that report commits one mark and, in the corrected
      handler, starts the streak. */
  method SyncScenario(site: string)
  {
    var remote := Submissions(["two-sum", "lru-cache"]);
    ScenarioReport();
    ScenarioMatches(site);
    var user := new User(Some("alice"));
    var outcome := user.SyncLeetcode([TwoSum(site), AddTwoNumbers(site)], remote, 100);
    assert outcome == Synced(1);
    assert user.progress == map[1 := Progress(true, false)];
    assert user.streakCount == Some(1) && user.lastActiveDate == Some(100);
  }

  /** The same sync as the handler persists it: the mark is committed, the
      streak is not. */
  method SyncScenarioAsWritten(site: string)
  {
    var remote := Submissions(["two-sum", "lru-cache"]);
    ScenarioReport();
    ScenarioMatches(site);
    var user := new User(Some("alice"));
    var outcome := user.SyncLeetcodeAsWritten([TwoSum(site), AddTwoNumbers(site)], remote, 100);
    assert outcome == Synced(1);
    assert user.progress == map[1 := Progress(true, false)];
    assert user.streakCount == Some(0) && user.lastActiveDate == None;
  }

  /** Without a handle nothing is written. */
  method SyncScenarioNoHandle(site: string)
  {
    var user := new User(None);
    var outcome := user.SyncLeetcode([TwoSum(site)], Submissions(["two-sum"]), 100);
    assert outcome == NoHandle && user.progress == map[];
  }

  /** Two plain solve toggles restore the row and leave the streak of the
      first one in place. */
  method ToggleScenario()
  {
    var q := Question(7, "LRU Cache", "Design", "Medium", Some("https://leetcode.com/problems/lru-cache/"), None, Some(3));
    var user := new User(None);
    var reply := user.Toggle([q], 7, "solved", None, 50);
    assert SolvedIds(map[7 := Progress(true, false)]) == {7};
    assert reply.Some? && reply.value.newValue && reply.value.newXp == 100;
    assert user.streakCount == Some(1);
    reply := user.Toggle([q], 7, "solved", None, 51);
    assert reply.Some? && !reply.value.newValue;
    assert user.progress[7] == Fresh && user.streakCount == Some(1);
    reply := user.Toggle([q], 8, "solved", None, 52);
    assert reply.None? && user.progress == map[7 := Fresh] && user.streakCount == Some(1);
  }
}
