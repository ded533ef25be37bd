/**
 * The two values the action derives from its environment before fetching:
 * the pull-request number in the Git ref (`getPRNumber`) and the owner and
 * repository names in `owner/repo`. Only the string logic is modelled; the
 * strings themselves are parameters.
 */
module Inputs {

  import opened Wrappers
  import opened Strings

  const PullPrefix: string := "refs/pull/"
  const MergeSuffix: string := "/merge"

  /** The merge ref GitHub gives the pull request numbered `digits`. */
  function PullRef(digits: string): string
  {
    PullPrefix + digits + MergeSuffix
  }

  /**
   * The pattern `refs/pull/(\d+)/merge` matches at the start of `s` with
   * `digits` as its captured group.
   */
  ghost predicate Captures(s: string, digits: string)
  {
    |digits| > 0 && AllDigits(digits) && PullRef(digits) <= s
  }

  /** No match starts at any position in `[i, j)` of `ref`. */
  ghost predicate NoMatchBetween(ref: string, i: int, j: int)
  {
    forall p, e :: 0 <= i <= p < j && p <= |ref| ==> !Captures(ref[p..], e)
  }

  /** The length of the run of ASCII digits (`\d`) at the start of `s`. */
  function DigitRun(s: string): (n: nat)
    ensures n <= |s| && AllDigits(s[..n])
    ensures n < |s| ==> !IsDigit(s[n])
  {
    if s == [] || !IsDigit(s[0]) then 0
    else
      var n := 1 + DigitRun(s[1..]);
      assert s[..n] == [s[0]] + s[1..][..n - 1];
      n
  }

  /** Only one length satisfies the contract of `DigitRun`. */
  lemma DigitRunUnique(s: string, m: nat)
    requires m <= |s| && AllDigits(s[..m])
    requires m < |s| ==> !IsDigit(s[m])
    ensures DigitRun(s) == m
  {
    var n := DigitRun(s);
    forall k | 0 <= k < m
      ensures IsDigit(s[k])
    {
      assert s[..m][k] == s[k];
    }
    forall k | 0 <= k < n
      ensures IsDigit(s[k])
    {
      assert s[..n][k] == s[k];
    }
  }

  /** The pattern tried at the start of `s`: the captured digits, if it matches there. */
  function MatchHere(s: string): (r: Option<string>)
    ensures r.Some? ==> Captures(s, r.value)
    ensures r.None? ==> forall e :: !Captures(s, e)
  {
    if PullPrefix <= s then
      var rest := s[|PullPrefix|..];
      var n := DigitRun(rest);
      MatchHereSound(s, rest, n);
      if n > 0 && MergeSuffix <= rest[n..] then Some(rest[..n]) else None
    else None
  }

  lemma MatchHereSound(s: string, rest: string, n: nat)
    requires PullPrefix <= s && rest == s[|PullPrefix|..]
    requires n == DigitRun(rest)
    ensures n > 0 && MergeSuffix <= rest[n..] ==> Captures(s, rest[..n])
    ensures !(n > 0 && MergeSuffix <= rest[n..]) ==> forall e :: !Captures(s, e)
  {
    if n > 0 && MergeSuffix <= rest[n..] {
      assert s == PullPrefix + rest;
      assert PullRef(rest[..n]) == PullPrefix + (rest[..n] + MergeSuffix);
      assert rest[..n] + MergeSuffix <= rest;
    }
    forall e | Captures(s, e)
      ensures n > 0 && MergeSuffix <= rest[n..]
    {
      CapturedDigits(s, e);
      assert rest[|e|..|e| + |MergeSuffix|] == MergeSuffix;
    }
  }

  /** A captured group is the whole digit run after `refs/pull/`. */
  lemma CapturedDigits(s: string, e: string)
    requires Captures(s, e)
    ensures var rest := s[|PullPrefix|..];
      |e| == DigitRun(rest) && rest[..|e|] == e && MergeSuffix <= rest[|e|..]
  {
    var rest := s[|PullPrefix|..];
    var m := |e|;
    var whole := PullRef(e);
    assert s[..|whole|] == whole;
    assert whole[..|PullPrefix|] == PullPrefix && whole[|PullPrefix|..] == e + MergeSuffix;
    assert rest[..m + |MergeSuffix|] == e + MergeSuffix by {
      assert rest[..m + |MergeSuffix|] == s[|PullPrefix|..|whole|];
    }
    assert rest[..m] == e by {
      assert rest[..m] == rest[..m + |MergeSuffix|][..m];
    }
    assert rest[m..m + |MergeSuffix|] == MergeSuffix by {
      assert rest[m..m + |MergeSuffix|] == rest[..m + |MergeSuffix|][m..];
    }
    assert rest[m] == '/';
    DigitRunUnique(rest, m);
  }

  /** At one position the pattern captures at most one digit string. */
  lemma CapturesUnique(s: string, d1: string, d2: string)
    requires Captures(s, d1) && Captures(s, d2)
    ensures d1 == d2
  {
    CapturedDigits(s, d1);
    CapturedDigits(s, d2);
  }

  /** The first match at or after position `i` of `ref`. */
  function FindFrom(ref: string, i: nat): (r: Option<string>)
    requires i <= |ref|
    ensures r.Some? ==> exists j :: i <= j <= |ref| && Captures(ref[j..], r.value) && NoMatchBetween(ref, i, j)
    ensures r.None? ==> NoMatchBetween(ref, i, |ref| + 1)
    decreases |ref| - i
  {
    match MatchHere(ref[i..])
    case Some(d) => assert NoMatchBetween(ref, i, i); Some(d)
    case None =>
      if i == |ref| then None
      else
        var r := FindFrom(ref, i + 1);
        FindFromStep(ref, i, r);
        r
  }

  /** No match at `i` carries the recursive call's result back from `i + 1` to `i`. */
  lemma FindFromStep(ref: string, i: nat, r: Option<string>)
    requires i < |ref| && forall e :: !Captures(ref[i..], e)
    requires r.Some? ==> exists j :: i + 1 <= j <= |ref| && Captures(ref[j..], r.value) && NoMatchBetween(ref, i + 1, j)
    requires r.None? ==> NoMatchBetween(ref, i + 1, |ref| + 1)
    ensures r.Some? ==> exists j :: i <= j <= |ref| && Captures(ref[j..], r.value) && NoMatchBetween(ref, i, j)
    ensures r.None? ==> NoMatchBetween(ref, i, |ref| + 1)
  {
    if r.Some? {
      var j :| i + 1 <= j <= |ref| && Captures(ref[j..], r.value) && NoMatchBetween(ref, i + 1, j);
      assert NoMatchBetween(ref, i, j);
    }
  }

  /**
   * `getPRNumber`: the digits captured by the first match of the unanchored
   * pattern `refs/pull/(\d+)/merge` in `ref`, or `None` (the source's `null`).
   */
  function GetPRNumber(ref: string): (r: Option<string>)
    ensures r.Some? ==> |r.value| > 0 && AllDigits(r.value)
    ensures r.Some? ==> exists j :: 0 <= j <= |ref| && PullRef(r.value) <= ref[j..] && NoMatchBetween(ref, 0, j)
    ensures r.None? <==> forall j, e :: 0 <= j <= |ref| ==> !Captures(ref[j..], e)
  {
    FindFrom(ref, 0)
  }

  /**
   * `getPRNumber` returns the group of the first match: whenever a match
   * starts at `j` and none starts earlier, the result is that match's digits.
   */
  lemma GetPRNumberFirstMatch(ref: string, j: int, digits: string)
    requires 0 <= j <= |ref| && Captures(ref[j..], digits) && NoMatchBetween(ref, 0, j)
    ensures GetPRNumber(ref) == Some(digits)
  {
    var r := GetPRNumber(ref);
    var j' :| 0 <= j' <= |ref| && Captures(ref[j'..], r.value) && NoMatchBetween(ref, 0, j');
    // an earlier j' or j would contradict the other's NoMatchBetween
    if j' == j {
      CapturesUnique(ref[j..], r.value, digits);
    }
  }

  /** A ref that begins with a pull request's merge ref yields that pull request's number. */
  lemma GetPRNumberOfPullRef(digits: string, tail: string)
    requires |digits| > 0 && AllDigits(digits)
    ensures GetPRNumber(PullRef(digits) + tail) == Some(digits)
  {
    var ref := PullRef(digits) + tail;
    assert ref[0..] == ref;
    assert Captures(ref[0..], digits);
    GetPRNumberFirstMatch(ref, 0, digits);
  }

  // ---------------------------------------------------------------------------
  // `GITHUB_REPOSITORY.split("/")[0]` and `[1]`

  /** Element `[0]` of `repository.split("/")`: the text before the first `/`, or all of it. */
  function RepositoryOwner(repository: string): (owner: string)
    ensures '/' !in owner && owner <= repository
    ensures '/' in repository ==> |owner| < |repository| && repository[|owner|] == '/'
    ensures '/' !in repository ==> owner == repository
  {
    var parts := Split(repository, "/");
    SplitSlash(repository);
    parts[0]
  }

  /**
   * Element `[1]` of `repository.split("/")`: the text between the first and
   * second `/` (or to the end), and `None` (`undefined`) when there is no `/`.
   */
  function RepositoryName(repository: string): (repo: Option<string>)
    ensures repo.None? <==> '/' !in repository
    ensures repo.Some? ==> '/' !in repo.value && RepositoryOwner(repository) + "/" + repo.value <= repository
    ensures repo.Some? ==>
      var end := |RepositoryOwner(repository)| + 1 + |repo.value|;
      end == |repository| || (end < |repository| && repository[end] == '/')
  {
    SplitSlash(repository);
    SecondField(repository, "/")
  }

  lemma SplitSlash(s: string)
    ensures var parts := Split(s, "/");
      '/' !in parts[0] && parts[0] <= s &&
      ('/' in s ==> |parts[0]| < |s| && s[|parts[0]|] == '/') &&
      ('/' !in s ==> parts[0] == s) &&
      (|parts| > 1 <==> '/' in s) &&
      (|parts| > 1 ==>
         '/' !in parts[1] && parts[0] + "/" + parts[1] <= s &&
         var end := |parts[0]| + 1 + |parts[1]|;
         end == |s| || (end < |s| && s[end] == '/'))
  {
    var parts := Split(s, "/");
    OccursChar(s, '/');
    OccursChar(parts[0], '/');
    JoinPrefix(parts, "/");
    if |parts| > 1 {
      OccursChar(parts[1], '/');
      assert s[|parts[0]|..|parts[0]| + 1] == "/";
      var tail := parts[1..];
      JoinCons(parts[0], tail, "/");
      assert parts == [parts[0]] + tail;
      JoinPrefix(tail, "/");
      var end := |parts[0]| + 1 + |parts[1]|;
      if |tail| > 1 {
        JoinCons(tail[0], tail[1..], "/");
        assert tail == [tail[0]] + tail[1..];
        assert s[end] == '/';
      }
    }
  }

  /** Splitting `owner/repo` gives back both names. */
  lemma RepositoryRoundTrip(owner: string, repo: string)
    requires '/' !in owner && '/' !in repo
    ensures RepositoryOwner(owner + "/" + repo) == owner
    ensures RepositoryName(owner + "/" + repo) == Some(repo)
  {
    JoinCons(owner, [repo], "/");
    assert [owner, repo] == [owner] + [repo];
    SplitJoin([owner, repo], '/');
  }

}
