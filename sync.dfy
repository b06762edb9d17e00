/** Reconciling the judge's list of accepted problems with the catalog: which
    questions match, what the user's rows become, and how many flip. */
module Sync {
  import opened Models
  import opened Slugs

  /** The question's slug is one the judge reported. */
  predicate Matches(q: Question, slugs: set<string>)
  {
    QuestionSlug(q).Some? && QuestionSlug(q).value in slugs
  }

  /** Ids of the catalog questions that match. */
  function MatchedIds(catalog: seq<Question>, slugs: set<string>): set<int>
    decreases |catalog|
  {
    if |catalog| == 0 then {}
    else
      var q := catalog[|catalog| - 1];
      MatchedIds(catalog[..|catalog| - 1], slugs) + (if Matches(q, slugs) then {q.id} else {})
  }

  /** Every matching question's id is among the matched ids ... */
  lemma {:induction false} MatchedIdsComplete(catalog: seq<Question>, slugs: set<string>, i: int)
    requires 0 <= i < |catalog| && Matches(catalog[i], slugs)
    ensures catalog[i].id in MatchedIds(catalog, slugs)
    decreases |catalog|
  {
    var prefix := catalog[..|catalog| - 1];
    if i < |prefix| {
      assert prefix[i] == catalog[i];
      MatchedIdsComplete(prefix, slugs, i);
    }
  }

  /** ... and every matched id is that of a matching question, found at index `i`. */
  lemma {:induction false} MatchedIdsSound(catalog: seq<Question>, slugs: set<string>, id: int) returns (i: int)
    requires id in MatchedIds(catalog, slugs)
    ensures 0 <= i < |catalog| && catalog[i].id == id && Matches(catalog[i], slugs)
    decreases |catalog|
  {
    var prefix := catalog[..|catalog| - 1];
    if id in MatchedIds(prefix, slugs) {
      i := MatchedIdsSound(prefix, slugs, id);
      assert catalog[i] == prefix[i];
    } else {
      i := |catalog| - 1;
    }
  }

  /** The user's rows after the matched questions are marked solved: a
      missing row is created solved (and not bookmarked), an existing row
      keeps its bookmark, and every other row is left as it was. */
  function MarkSolved(progress: ProgressMap, matched: set<int>): ProgressMap
  {
    map id | id in progress.Keys + matched ::
      if id in matched then ProgressOf(progress, id).(solved := true) else progress[id]
  }

  /** The matched questions that were not solved before: the ones the sync
      reports as newly marked. */
  function Flipped(progress: ProgressMap, matched: set<int>): set<int>
  {
    matched - SolvedIds(progress)
  }

  lemma MarkSolvedEffect(progress: ProgressMap, matched: set<int>)
    ensures forall id :: id in matched ==> IsSolved(MarkSolved(progress, matched), id)
    ensures forall id :: id !in matched ==>
      (id in MarkSolved(progress, matched) <==> id in progress) &&
      (id in progress ==> MarkSolved(progress, matched)[id] == progress[id])
    ensures forall id :: ProgressOf(MarkSolved(progress, matched), id).bookmarked == ProgressOf(progress, id).bookmarked
  {
  }

  /** Marking adds exactly the matched questions to the solved set, so the
      solved count (and 100 times it, the XP) grows by the flipped count. */
  lemma MarkSolvedCount(progress: ProgressMap, matched: set<int>)
    ensures SolvedIds(MarkSolved(progress, matched)) == SolvedIds(progress) + matched
    ensures |SolvedIds(MarkSolved(progress, matched))| == |SolvedIds(progress)| + |Flipped(progress, matched)|
    ensures Xp(MarkSolved(progress, matched)) == Xp(progress) + 100 * |Flipped(progress, matched)|
  {
    var after := MarkSolved(progress, matched);
    assert SolvedIds(after) == SolvedIds(progress) + matched by {
      forall id ensures id in SolvedIds(after) <==> id in SolvedIds(progress) + matched {
        if id in after && id !in matched {
          assert after[id] == progress[id];
        }
      }
    }
    assert SolvedIds(progress) + matched == SolvedIds(progress) + Flipped(progress, matched);
    assert SolvedIds(progress) * Flipped(progress, matched) == {};
  }

  /** Marking is idempotent: a second sync with the same report flips nothing. */
  lemma MarkSolvedIdempotent(progress: ProgressMap, matched: set<int>)
    ensures MarkSolved(MarkSolved(progress, matched), matched) == MarkSolved(progress, matched)
    ensures Flipped(MarkSolved(progress, matched), matched) == {}
  {
    var once := MarkSolved(progress, matched);
    var twice := MarkSolved(once, matched);
    assert twice.Keys == once.Keys;
    forall id | id in once ensures twice[id] == once[id] {
      if id in matched {
        assert once[id] == ProgressOf(progress, id).(solved := true);
      }
    }
    MarkSolvedCount(progress, matched);
  }

  /** Marking nothing changes nothing. */
  lemma MarkSolvedNothing(progress: ProgressMap)
    ensures MarkSolved(progress, {}) == progress && Flipped(progress, {}) == {}
  {
    assert MarkSolved(progress, {}).Keys == progress.Keys;
  }

  /** The marking changes the rows exactly when some matched row flips, so a
      sync that counts nothing writes nothing. */
  lemma MarkSolvedUnchanged(progress: ProgressMap, matched: set<int>)
    ensures MarkSolved(progress, matched) == progress <==> Flipped(progress, matched) == {}
  {
    if Flipped(progress, matched) == {} {
      forall id | id in matched ensures id in progress && progress[id].solved {
        assert id !in Flipped(progress, matched);
      }
      assert MarkSolved(progress, matched).Keys == progress.Keys;
    }
    if MarkSolved(progress, matched) == progress {
      MarkSolvedEffect(progress, matched);
      assert forall id :: id !in Flipped(progress, matched);
    }
  }

  /** What the marking loop does when it reaches one more matched question. */
  lemma MarkSolvedStep(progress: ProgressMap, matched: set<int>, id: int)
    ensures MarkSolved(progress, matched + {id}) ==
      MarkSolved(progress, matched)[id := ProgressOf(MarkSolved(progress, matched), id).(solved := true)]
    ensures !IsSolved(MarkSolved(progress, matched), id) ==>
      id !in Flipped(progress, matched) && Flipped(progress, matched + {id}) == Flipped(progress, matched) + {id}
    ensures IsSolved(MarkSolved(progress, matched), id) ==>
      Flipped(progress, matched + {id}) == Flipped(progress, matched) &&
      MarkSolved(progress, matched + {id}) == MarkSolved(progress, matched)
  {
    var before := MarkSolved(progress, matched);
    if IsSolved(before, id) {
      assert id in matched || IsSolved(progress, id);
      var after := MarkSolved(progress, matched + {id});
      assert after.Keys == before.Keys;
      forall k | k in after ensures after[k] == before[k] {
        if k == id && id !in matched {
          assert progress[id].solved;
        }
      }
    }
  }

  /** One step of the marking loop: question `q` is marked solved when its
      slug was reported; `flipped` says whether its row was missing or
      unsolved before. */
  method MarkOne(ghost progress: ProgressMap, ghost matched: set<int>, rows: ProgressMap,
                 q: Question, slugs: set<string>)
    returns (next: ProgressMap, flipped: bool)
    requires rows == MarkSolved(progress, matched)
    ensures next == MarkSolved(progress, matched + (if Matches(q, slugs) then {q.id} else {}))
    ensures Flipped(progress, matched + (if Matches(q, slugs) then {q.id} else {})) ==
      Flipped(progress, matched) + (if flipped then {q.id} else {})
    ensures |Flipped(progress, matched + (if Matches(q, slugs) then {q.id} else {}))| ==
      |Flipped(progress, matched)| + (if flipped then 1 else 0)
  {
    next, flipped := rows, false;
    var slug := QuestionSlug(q);
    if slug.Some? && slug.value in slugs {
      MarkSolvedStep(progress, matched, q.id);
      // A missing row is created solved, an unsolved row is set solved.
      if q.id !in rows || !rows[q.id].solved {
        next, flipped := rows[q.id := ProgressOf(rows, q.id).(solved := true)], true;
      }
    } else {
      assert matched + {} == matched;
    }
  }

  /** The marking loop of the sync: every catalog question with a link whose
      slug was reported is marked solved, and `marked` counts the rows that
      were missing or unsolved. */
  method MarkAll(progress: ProgressMap, catalog: seq<Question>, slugs: set<string>)
    returns (rows: ProgressMap, marked: nat)
    ensures rows == MarkSolved(progress, MatchedIds(catalog, slugs))
    ensures marked == |Flipped(progress, MatchedIds(catalog, slugs))|
  {
    rows := progress;
    marked := 0;
    var i := 0;
    assert catalog[..0] == [];
    MarkSolvedNothing(rows);
    while i < |catalog|
      invariant 0 <= i <= |catalog|
      invariant rows == MarkSolved(progress, MatchedIds(catalog[..i], slugs))
      invariant marked == |Flipped(progress, MatchedIds(catalog[..i], slugs))|
    {
      ghost var matched := MatchedIds(catalog[..i], slugs);
      assert catalog[..i + 1][..i] == catalog[..i] && catalog[..i + 1][i] == catalog[i];
      assert MatchedIds(catalog[..i + 1], slugs) ==
        matched + (if Matches(catalog[i], slugs) then {catalog[i].id} else {});
      var step;
      rows, step := MarkOne(progress, matched, rows, catalog[i], slugs);
      if step {
        marked := marked + 1;
      }
      i := i + 1;
    }
    assert catalog[..i] == catalog;
  }
}
