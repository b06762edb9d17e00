/** The problem identifier the external judge uses, read off the end of a
    question's stored link: `link.strip('/').split('/')[-1]`. */
module Slugs {
  import opened Models

  predicate AllSlashes(s: string)
  {
    forall k :: 0 <= k < |s| ==> s[k] == '/'
  }

  /** `s.lstrip('/')`: drops the leading slashes, keeps the rest. */
  function TrimLeft(s: string): (r: string)
    ensures |r| <= |s| && r == s[|s| - |r|..]
    ensures AllSlashes(s[..|s| - |r|])
    ensures |r| > 0 ==> r[0] != '/'
    decreases |s|
  {
    if |s| > 0 && s[0] == '/' then TrimLeft(s[1..]) else s
  }

  /** `s.rstrip('/')`: drops the trailing slashes, keeps the rest. */
  function TrimRight(s: string): (r: string)
    ensures |r| <= |s| && r == s[..|r|]
    ensures AllSlashes(s[|r|..])
    ensures |r| > 0 ==> r[|r| - 1] != '/'
    decreases |s|
  {
    if |s| > 0 && s[|s| - 1] == '/' then TrimRight(s[..|s| - 1]) else s
  }

  /** `s.strip('/')` */
  function Strip(s: string): string
  {
    TrimRight(TrimLeft(s))
  }

  /** `s.split('/')[-1]`: the text after the last slash, or all of `s`
      when it has none. */
  function LastSegment(s: string): (r: string)
    ensures '/' !in r
    decreases |s|
  {
    if |s| == 0 || s[|s| - 1] == '/' then ""
    else LastSegment(s[..|s| - 1]) + [s[|s| - 1]]
  }

  /** The last segment is a suffix of `s` that is either all of it or
      follows a slash. */
  lemma {:induction false} LastSegmentSuffix(s: string)
    ensures |LastSegment(s)| <= |s| && LastSegment(s) == s[|s| - |LastSegment(s)|..]
    ensures |LastSegment(s)| < |s| ==> s[|s| - |LastSegment(s)| - 1] == '/'
    decreases |s|
  {
    if |s| > 0 && s[|s| - 1] != '/' {
      var init, c := s[..|s| - 1], s[|s| - 1];
      LastSegmentSuffix(init);
      var r := LastSegment(init);
      var k := |init| - |r|;
      assert s == init + [c];
      assert LastSegment(s) == r + [c];
      assert init[k..] == r;
      assert s[k..] == init[k..] + [c];
      if |r| < |init| {
        assert s[k - 1] == init[k - 1];
      }
    }
  }

  function Slug(link: string): string
  {
    LastSegment(Strip(link))
  }

  /** The slug a question is matched by; a missing or empty link gives none. */
  function QuestionSlug(q: Question): Option<string>
  {
    if q.link.None? || q.link.value == "" then None else Some(Slug(q.link.value))
  }

  /** The last segment is determined by its two defining properties: a
      slash-free suffix that is all of `s` or follows a slash. */
  lemma {:induction false} LastSegmentOf(u: string, name: string)
    requires '/' !in name
    requires u == "" || u[|u| - 1] == '/'
    ensures LastSegment(u + name) == name
    decreases |name|
  {
    if |name| == 0 {
      assert u + name == u;
    } else {
      var s, init, c := u + name, name[..|name| - 1], name[|name| - 1];
      assert s[..|s| - 1] == u + init;
      assert s[|s| - 1] == c;
      assert c in name;
      assert forall ch :: ch in init ==> ch in name;
      LastSegmentOf(u, init);
      assert init + [c] == name;
    }
  }

  /** Stripping leading slashes stops at the first other character. */
  lemma {:induction false} TrimLeftConcat(x: string, y: string)
    requires |y| > 0 && y[0] != '/'
    ensures TrimLeft(x + y) == TrimLeft(x) + y
    decreases |x|
  {
    if |x| > 0 {
      assert (x + y)[0] == x[0];
      if x[0] == '/' {
        assert (x + y)[1..] == x[1..] + y;
        TrimLeftConcat(x[1..], y);
      }
    } else {
      assert x + y == y;
    }
  }

  /** Trailing slashes after a non-slash are all removed. */
  lemma {:induction false} TrimRightConcat(v: string, t: string)
    requires |v| > 0 && v[|v| - 1] != '/'
    requires AllSlashes(t)
    ensures TrimRight(v + t) == v
    decreases |t|
  {
    if |t| == 0 {
      assert v + t == v;
    } else {
      assert (v + t)[..|v + t| - 1] == v + t[..|t| - 1];
      TrimRightConcat(v, t[..|t| - 1]);
    }
  }

  /** A link of the form `<anything>/<name>` followed by any number of
      slashes has slug `<name>`, for a non-empty slash-free name. */
  lemma SlugOfProblemLink(prefix: string, name: string, trailing: string)
    requires |name| > 0 && '/' !in name
    requires AllSlashes(trailing)
    ensures Slug(prefix + "/" + name + trailing) == name
  {
    var x := prefix + "/";
    assert name[0] in name;
    assert prefix + "/" + name + trailing == x + (name + trailing);
    TrimLeftConcat(x, name + trailing);
    var u := TrimLeft(x);
    assert u == "" || u[|u| - 1] == '/';
    assert u + (name + trailing) == (u + name) + trailing;
    assert name[|name| - 1] in name;
    TrimRightConcat(u + name, trailing);
    LastSegmentOf(u, name);
  }

  /** A problem link gives the same slug with or without its trailing slash. */
  lemma SlugExample(link: string)
    requires link == "https://leetcode.com/problems/two-sum/" || link == "https://leetcode.com/problems/two-sum"
    ensures Slug(link) == "two-sum"
  {
    if link == "https://leetcode.com/problems/two-sum/" {
      assert link == "https://leetcode.com/problems" + "/" + "two-sum" + "/";
      SlugOfProblemLink("https://leetcode.com/problems", "two-sum", "/");
    } else {
      assert link == "https://leetcode.com/problems" + "/" + "two-sum" + "";
      SlugOfProblemLink("https://leetcode.com/problems", "two-sum", "");
    }
  }
}
