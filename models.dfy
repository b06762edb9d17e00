/** The three persisted entities of the tracker, as values, and the views of a
    user's progress rows that every other module reads. */
module Models {

  datatype Option<T> = None | Some(value: T)

  function OrZero(x: Option<int>): int
  {
    if x.Some? then x.value else 0
  }

  /** A catalog entry (table `dsa_questions`). The two links and the week are
      options; name, topic and difficulty, nullable in the table as well, are
      kept as strings. */
  datatype Question = Question(
    id: int,
    name: string,
    topic: string,
    difficulty: string,
    link: Option<string>,
    editorialLink: Option<string>,
    week: Option<int>)

  /** One `UserProgress` row of the current user. */
  datatype Progress = Progress(solved: bool, bookmarked: bool)

  /** Column defaults of a freshly created row. */
  const Fresh := Progress(false, false)

  /** The current user's progress rows, keyed by question id
      (at most one row per question). */
  type ProgressMap = map<int, Progress>

  /** The row for `id`, or the defaults when there is none (`.get(id, False)`). */
  function ProgressOf(progress: ProgressMap, id: int): Progress
  {
    if id in progress then progress[id] else Fresh
  }

  predicate IsSolved(progress: ProgressMap, id: int)
  {
    id in progress && progress[id].solved
  }

  /** `{p.question_id for p in rows if p.is_solved}` */
  function SolvedIds(progress: ProgressMap): set<int>
  {
    set id | id in progress && progress[id].solved
  }

  /** 100 XP per solved row. */
  function Xp(progress: ProgressMap): int
  {
    100 * |SolvedIds(progress)|
  }

  function CatalogIds(catalog: seq<Question>): set<int>
    decreases |catalog|
  {
    if |catalog| == 0 then {}
    else CatalogIds(catalog[..|catalog| - 1]) + {catalog[|catalog| - 1].id}
  }

  lemma {:induction false} CatalogIdsExact(catalog: seq<Question>)
    ensures forall id :: id in CatalogIds(catalog) <==> exists i :: 0 <= i < |catalog| && catalog[i].id == id
    decreases |catalog|
  {
    if |catalog| > 0 {
      var prefix := catalog[..|catalog| - 1];
      CatalogIdsExact(prefix);
      forall id | id in CatalogIds(catalog)
        ensures exists i :: 0 <= i < |catalog| && catalog[i].id == id
      {
        if id in CatalogIds(prefix) {
          var i :| 0 <= i < |prefix| && prefix[i].id == id;
          assert catalog[i].id == id;
        } else {
          assert catalog[|catalog| - 1].id == id;
        }
      }
      forall id | exists i :: 0 <= i < |catalog| && catalog[i].id == id
        ensures id in CatalogIds(catalog)
      {
        var i :| 0 <= i < |catalog| && catalog[i].id == id;
        if i < |prefix| {
          assert prefix[i].id == id;
        }
      }
    }
  }

  /** A catalog of n questions has at most n distinct ids. */
  lemma {:induction false} CatalogIdsBound(catalog: seq<Question>)
    ensures |CatalogIds(catalog)| <= |catalog|
    decreases |catalog|
  {
    if |catalog| > 0 {
      CatalogIdsBound(catalog[..|catalog| - 1]);
    }
  }

  /** When every solved row refers to a catalog question (the foreign key on
      `question_id`), no more questions are solved than the catalog holds. */
  lemma SolvedAtMostCatalog(catalog: seq<Question>, progress: ProgressMap)
    requires forall id :: id in progress ==> id in CatalogIds(catalog)
    ensures |SolvedIds(progress)| <= |catalog|
  {
    forall id | id in SolvedIds(progress) ensures id in CatalogIds(catalog) {
      assert id in progress;
    }
    SubsetCard(SolvedIds(progress), CatalogIds(catalog));
    CatalogIdsBound(catalog);
  }

  lemma SubsetCard(a: set<int>, b: set<int>)
    requires a <= b
    ensures |a| <= |b|
  {
    assert b == a + (b - a);
  }
}
