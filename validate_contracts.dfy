/** The contract pass of `validate.js`: every `| METHOD | path |` row of the
    API contracts document, in text order, and one issue when any path is
    listed more than once. */
module ValidateContracts {
  import opened Wrappers
  import opened Text
  import opened RegexScan
  import opened PassResults

  datatype Endpoint = Endpoint(verb: string, path: string)

  /** `{ method: match[1].trim(), path: match[2].trim() }` */
  function EndpointOf(m: Match): Endpoint {
    Endpoint(Trim(m.group1), Trim(m.group2))
  }

  function EndpointsOf(ms: seq<Match>): (es: seq<Endpoint>)
    ensures |es| == |ms|
    ensures forall k :: 0 <= k < |ms| ==> es[k] == EndpointOf(ms[k])
  {
    if ms == [] then [] else [EndpointOf(ms[0])] + EndpointsOf(ms[1..])
  }

  /** The endpoints the scanning loop collects from `content`. */
  function Endpoints(content: string): seq<Endpoint> {
    EndpointsOf(AllMatches(EndpointRow, content, 0))
  }

  /** The `while ((match = endpointPattern.exec(content)) !== null)` loop;
      `lastIndex` starts at 0 as the pattern is created afresh. */
  method ScanEndpoints(content: string) returns (endpoints: seq<Endpoint>)
    ensures endpoints == Endpoints(content)
  {
    endpoints := [];
    var lastIndex: nat := 0;
    var next := Exec(EndpointRow, content, lastIndex);
    while next.Some?
      invariant lastIndex <= |content|
      invariant next == Exec(EndpointRow, content, lastIndex)
      invariant endpoints + EndpointsOf(AllMatches(EndpointRow, content, lastIndex)) == Endpoints(content)
      decreases |content| - lastIndex
    {
      var m := next.value;
      var rest := AllMatches(EndpointRow, content, m.end);
      assert AllMatches(EndpointRow, content, lastIndex) == [m] + rest;
      assert EndpointsOf([m] + rest) == [EndpointOf(m)] + EndpointsOf(rest) by {
        assert ([m] + rest)[1..] == rest;
      }
      endpoints := endpoints + [EndpointOf(m)];
      lastIndex := m.end;
      next := Exec(EndpointRow, content, lastIndex);
    }
  }

  /** Each endpoint collected is a row of the contract table: its method is
      one of the five, and its path is the trimmed text between the bars. */
  lemma {:induction false} ScannedEndpoint(content: string, k: nat)
    requires k < |Endpoints(content)|
    ensures Endpoints(content)[k].verb in Methods
    ensures RowMatch(content, AllMatches(EndpointRow, content, 0)[k].start, AllMatches(EndpointRow, content, 0)[k])
    ensures Endpoints(content)[k] == Endpoint(AllMatches(EndpointRow, content, 0)[k].group1, Trim(AllMatches(EndpointRow, content, 0)[k].group2))
  {
    var m := AllMatches(EndpointRow, content, 0)[k];
    AllMatchesAreMatches(EndpointRow, content, 0, k);
    assert RowAt(content, m.start) == Some(m);
    RowAtSound(content, m.start);
    RowMatchVerb(content, m.start, m);
    TrimNoSpaces(m.group1);
  }

  function Paths(es: seq<Endpoint>): (ps: seq<string>)
    ensures |ps| == |es|
    ensures forall k :: 0 <= k < |es| ==> ps[k] == es[k].path
  {
    if es == [] then [] else [es[0].path] + Paths(es[1..])
  }

  /** `paths.indexOf(p)`, or |ps| where JavaScript answers -1. */
  function FirstIndex(ps: seq<string>, p: string): (i: nat)
    ensures i <= |ps|
    ensures i < |ps| ==> ps[i] == p
    ensures forall k :: 0 <= k < i ==> ps[k] != p
  {
    if ps == [] then 0
    else if ps[0] == p then 0
    else 1 + FirstIndex(ps[1..], p)
  }

  /** `paths.filter((p, i) => paths.indexOf(p) !== i)` over the first `n`
      paths: each later occurrence of a path already seen. */
  function DuplicatesBelow(ps: seq<string>, n: nat): seq<string>
    requires n <= |ps|
  {
    if n == 0 then []
    else DuplicatesBelow(ps, n - 1) + (if FirstIndex(ps, ps[n - 1]) != n - 1 then [ps[n - 1]] else [])
  }

  function Duplicates(ps: seq<string>): seq<string> {
    DuplicatesBelow(ps, |ps|)
  }

  /** `[...new Set(xs)]`: first occurrences, in the order first seen. */
  function Distinct(xs: seq<string>): seq<string>
    decreases |xs|
  {
    if xs == [] then []
    else
      var d := Distinct(xs[..|xs| - 1]);
      var last := xs[|xs| - 1];
      if last in d then d else d + [last]
  }

  /** The issue count is capped at one, however many paths repeat. */
  function ContractIssues(ps: seq<string>): nat {
    if |Duplicates(ps)| > 0 then 1 else 0
  }

  /** The contract pass: skipped without a contracts document. */
  function ContractPass(contents: Option<string>): PassResult {
    match contents
    case None => Skipped
    case Some(c) => Verdict(ContractIssues(Paths(Endpoints(c))))
  }

  /** The paths named in the warning line, when there is one. */
  function ReportedDuplicates(contents: Option<string>): seq<string> {
    match contents
    case None => []
    case Some(c) => Distinct(Duplicates(Paths(Endpoints(c))))
  }

  /** `validateContracts`: scan, then filter. */
  method RunContractPass(contents: Option<string>) returns (r: PassResult, reported: seq<string>)
    ensures r == ContractPass(contents)
    ensures reported == ReportedDuplicates(contents)
  {
    match contents
    case None =>
      r := Skipped;
      reported := [];
    case Some(c) =>
      var endpoints := ScanEndpoints(c);
      var paths := Paths(endpoints);
      var duplicates := Duplicates(paths);
      r := Verdict(if |duplicates| > 0 then 1 else 0);
      reported := Distinct(duplicates);
  }

  /** `indexOf(ps[n])` stops short of `n` exactly when `ps[n]` occurred
      before. */
  lemma {:induction false} FirstIndexBefore(ps: seq<string>, n: nat)
    requires n < |ps|
    ensures FirstIndex(ps, ps[n]) <= n
    ensures FirstIndex(ps, ps[n]) != n <==> exists i :: 0 <= i < n && ps[i] == ps[n]
  {
  }

  /** A path is reported as a duplicate exactly when it occurs twice. */
  lemma {:induction false} DuplicatesBelowIff(ps: seq<string>, n: nat, x: string)
    requires n <= |ps|
    ensures x in DuplicatesBelow(ps, n) <==> exists i, j :: 0 <= i < j < n && ps[i] == x && ps[j] == x
    decreases n
  {
    if n > 0 {
      DuplicatesBelowIff(ps, n - 1, x);
      FirstIndexBefore(ps, n - 1);
      var last := if FirstIndex(ps, ps[n - 1]) != n - 1 then [ps[n - 1]] else [];
      assert DuplicatesBelow(ps, n) == DuplicatesBelow(ps, n - 1) + last;
      if x in DuplicatesBelow(ps, n) {
        if x !in DuplicatesBelow(ps, n - 1) {
          assert x == ps[n - 1];
          var i :| 0 <= i < n - 1 && ps[i] == ps[n - 1];
          assert 0 <= i < n - 1 < n && ps[i] == x && ps[n - 1] == x;
        }
      }
      if exists i, j :: 0 <= i < j < n && ps[i] == x && ps[j] == x {
        var i, j :| 0 <= i < j < n && ps[i] == x && ps[j] == x;
        if j == n - 1 {
          assert FirstIndex(ps, ps[n - 1]) != n - 1;
          assert x in last;
        } else {
          assert x in DuplicatesBelow(ps, n - 1);
        }
      }
    }
  }

  lemma {:induction false} DuplicatesIff(ps: seq<string>, x: string)
    ensures x in Duplicates(ps) <==> exists i, j :: 0 <= i < j < |ps| && ps[i] == x && ps[j] == x
  {
    DuplicatesBelowIff(ps, |ps|, x);
  }

  /** One issue exactly when some path repeats (whatever the methods), and
      none otherwise. */
  lemma {:induction false} ContractIssuesIff(ps: seq<string>)
    ensures ContractIssues(ps) <= 1
    ensures ContractIssues(ps) == 1 <==> exists i, j :: 0 <= i < j < |ps| && ps[i] == ps[j]
  {
    if |Duplicates(ps)| > 0 {
      DuplicatesIff(ps, Duplicates(ps)[0]);
    }
    if exists i, j :: 0 <= i < j < |ps| && ps[i] == ps[j] {
      var i, j :| 0 <= i < j < |ps| && ps[i] == ps[j];
      DuplicatesIff(ps, ps[i]);
    }
  }

  /** The set built from the duplicates lists each repeated path once, in
      the order first seen. */
  lemma {:induction false} DistinctIff(xs: seq<string>, x: string)
    ensures x in Distinct(xs) <==> x in xs
    ensures forall i, j :: 0 <= i < j < |Distinct(xs)| ==> Distinct(xs)[i] != Distinct(xs)[j]
    decreases |xs|
  {
    if xs != [] {
      var init := xs[..|xs| - 1];
      DistinctIff(init, x);
      DistinctIff(init, xs[|xs| - 1]);
      assert xs == init + [xs[|xs| - 1]];
    }
  }

  /** The warning names exactly the repeated paths, each once. */
  lemma {:induction false} ReportedDuplicatesIff(c: string, x: string)
    ensures var ps := Paths(Endpoints(c));
      x in ReportedDuplicates(Some(c)) <==> exists i, j :: 0 <= i < j < |ps| && ps[i] == x && ps[j] == x
    ensures var r := ReportedDuplicates(Some(c));
      forall i, j :: 0 <= i < j < |r| ==> r[i] != r[j]
  {
    var ps := Paths(Endpoints(c));
    DistinctIff(Duplicates(ps), x);
    DuplicatesIff(ps, x);
  }

  /** A path occurs twice exactly when its multiplicity is at least two. */
  lemma {:induction false} RepeatIffMultiplicity(ps: seq<string>, n: nat, x: string)
    requires n <= |ps|
    ensures (exists i, j :: 0 <= i < j < n && ps[i] == x && ps[j] == x) <==> multiset(ps[..n])[x] >= 2
    decreases n
  {
    if n > 0 {
      RepeatIffMultiplicity(ps, n - 1, x);
      assert ps[..n] == ps[..n - 1] + [ps[n - 1]];
      if ps[n - 1] == x && multiset(ps[..n - 1])[x] >= 1 {
        assert x in ps[..n - 1];
        var i :| 0 <= i < n - 1 && ps[..n - 1][i] == x;
        assert 0 <= i < n - 1 < n && ps[i] == x && ps[n - 1] == x;
      }
      if exists i, j :: 0 <= i < j < n && ps[i] == x && ps[j] == x {
        var i, j :| 0 <= i < j < n && ps[i] == x && ps[j] == x;
        if j == n - 1 {
          assert ps[..n - 1][i] == x;
          assert x in multiset(ps[..n - 1]);
        } else {
          assert 0 <= i < j < n - 1 && ps[i] == x && ps[j] == x;
        }
      }
    }
  }

  /** The verdict and the paths reported depend on the rows only as a
      multiset: reordering the contract table changes neither. */
  lemma {:induction false} DuplicatesOrderFree(ps: seq<string>, qs: seq<string>)
    requires multiset(ps) == multiset(qs)
    ensures ContractIssues(ps) == ContractIssues(qs)
    ensures forall x :: x in Duplicates(ps) <==> x in Duplicates(qs)
  {
    assert ps[..|ps|] == ps && qs[..|qs|] == qs;
    forall x
      ensures x in Duplicates(ps) <==> x in Duplicates(qs)
    {
      DuplicatesIff(ps, x);
      DuplicatesIff(qs, x);
      RepeatIffMultiplicity(ps, |ps|, x);
      RepeatIffMultiplicity(qs, |qs|, x);
    }
    if |Duplicates(ps)| > 0 {
      assert Duplicates(ps)[0] in Duplicates(qs);
    }
    if |Duplicates(qs)| > 0 {
      assert Duplicates(qs)[0] in Duplicates(ps);
    }
  }

  /** Two rows with the same path, whatever their methods, make one issue. */
  lemma {:induction false} SamePathTwiceScenario(e1: Endpoint, e2: Endpoint)
    requires e1.path == e2.path
    ensures ContractIssues(Paths([e1, e2])) == 1
  {
    var ps := Paths([e1, e2]);
    assert ps[0] == ps[1];
    ContractIssuesIff(ps);
  }
}
