/** The two regular expressions of `validate.js`, written as dedicated
    matchers, and the way `RegExp.prototype.exec` walks a text under the `g`
    flag: each call finds the leftmost match at or after `lastIndex` and moves
    `lastIndex` to the end of that match.

    - EndpointRow: `\|\s*(GET|POST|PUT|PATCH|DELETE)\s*\|\s*([^\|]+)\|`
    - FileRef:     `` `([^`]*\.(ts|js|tsx|jsx|md|json))` `` */
module RegexScan {
  import opened Wrappers
  import opened Text

  datatype Pattern = EndpointRow | FileRef

  /** A match: the text from `start` up to (not including) `end`, and the two
      capture groups `match[1]`, `match[2]`. */
  datatype Match = Match(start: nat, end: nat, group1: string, group2: string)

  const Methods: seq<string> := ["GET", "POST", "PUT", "PATCH", "DELETE"]
  const Extensions: seq<string> := ["ts", "js", "tsx", "jsx", "md", "json"]

  /** The first of `alts` that occurs at `i`: an alternation tries its
      branches from left to right. */
  function FirstAlternative(alts: seq<string>, t: string, i: nat): (r: Option<string>)
    ensures r.Some? ==> i + |r.value| <= |t|
    decreases |alts|
  {
    if alts == [] then None
    else if OccursAt(t, alts[0], i) then Some(alts[0])
    else FirstAlternative(alts[1..], t, i)
  }

  /** The alternation picks one of its branches, and only one that occurs. */
  lemma {:induction false} FirstAlternativeSound(alts: seq<string>, t: string, i: nat)
    requires FirstAlternative(alts, t, i).Some?
    ensures FirstAlternative(alts, t, i).value in alts
    ensures OccursAt(t, FirstAlternative(alts, t, i).value, i)
    decreases |alts|
  {
    if !OccursAt(t, alts[0], i) {
      FirstAlternativeSound(alts[1..], t, i);
    }
  }

  /** The alternation fails only when no branch occurs. */
  lemma {:induction false} FirstAlternativeFound(alts: seq<string>, t: string, i: nat, v: string)
    requires v in alts && OccursAt(t, v, i)
    ensures FirstAlternative(alts, t, i).Some?
    decreases |alts|
  {
    if !OccursAt(t, alts[0], i) {
      assert v in alts[1..];
      FirstAlternativeFound(alts[1..], t, i, v);
    }
  }

  /** `(GET|POST|PUT|PATCH|DELETE)` at `i`: the method name found there, if
      any. */
  function MethodAt(t: string, i: nat): (r: Option<string>)
    ensures r.Some? ==> i + |r.value| <= |t|
  {
    FirstAlternative(Methods, t, i)
  }

  /** The alternative of `(ts|js|tsx|jsx|md|json)` that, after a dot, ends
      `inner`, compared character by character; at most one can. */
  function ExtensionOf(inner: string): (r: Option<string>)
  {
    var n := |inner|;
    if n >= 3 && inner[n - 3] == '.' && inner[n - 2] == 't' && inner[n - 1] == 's' then Some("ts")
    else if n >= 3 && inner[n - 3] == '.' && inner[n - 2] == 'j' && inner[n - 1] == 's' then Some("js")
    else if n >= 4 && inner[n - 4] == '.' && inner[n - 3] == 't' && inner[n - 2] == 's' && inner[n - 1] == 'x' then Some("tsx")
    else if n >= 4 && inner[n - 4] == '.' && inner[n - 3] == 'j' && inner[n - 2] == 's' && inner[n - 1] == 'x' then Some("jsx")
    else if n >= 3 && inner[n - 3] == '.' && inner[n - 2] == 'm' && inner[n - 1] == 'd' then Some("md")
    else if n >= 5 && inner[n - 5] == '.' && inner[n - 4] == 'j' && inner[n - 3] == 's' && inner[n - 2] == 'o' && inner[n - 1] == 'n' then Some("json")
    else None
  }

  /** The capture `([^\|]+)` after `\s*`, between `lo` and the bar at `e`.
      The `\s*` takes one space after another as long as a character is left
      for the group before the bar; when only spaces stand before the bar,
      the group is the last of them. */
  function PathGroup(t: string, lo: nat, e: nat): (g: string)
    requires lo < e < |t| && t[e] == '|'
    ensures g != []
    decreases e - lo
  {
    if lo + 1 < e && IsSpace(t[lo]) then PathGroup(t, lo + 1, e) else t[lo..e]
  }

  /** Either way, trimming the group gives the trimmed text between. */
  lemma {:induction false} PathGroupTrim(t: string, lo: nat, e: nat)
    requires lo < e < |t| && t[e] == '|'
    ensures Trim(PathGroup(t, lo, e)) == Trim(t[lo..e])
    decreases e - lo
  {
    if lo + 1 < e && IsSpace(t[lo]) {
      PathGroupTrim(t, lo + 1, e);
      assert t[lo..e][1..] == t[lo + 1..e];
    }
  }

  /** EndpointRow tried at position `p`. Both `\s*` around the method are
      forced to take every space, as a letter or a bar must follow. The path
      group runs to the next bar; when only spaces stand before that bar, the
      engine backtracks and the group is the last of those spaces. */
  function RowAt(t: string, p: nat): (r: Option<Match>)
    requires p <= |t|
    ensures r.Some? ==> r.value.start == p < r.value.end <= |t|
  {
    if p == |t| || t[p] != '|' then None
    else
      var m := SkipSpaces(t, p + 1);
      match MethodAt(t, m)
      case None => None
      case Some(verb) =>
        var b := SkipSpaces(t, m + |verb|);
        if b == |t| || t[b] != '|' then None
        else
          match IndexOfFrom(t, '|', b + 1)
          case None => None
          case Some(e) =>
            if e == b + 1 then None
            else
              Some(Match(p, e + 1, verb, PathGroup(t, b + 1, e)))
  }

  /** FileRef tried at position `p`: `[^`]*` cannot pass a backtick, so the
      closing backtick is the first one after `p`, and the text between must
      end in a known extension. */
  function RefAt(t: string, p: nat): (r: Option<Match>)
    requires p <= |t|
    ensures r.Some? ==> r.value.start == p < r.value.end <= |t|
  {
    if p == |t| || t[p] != '`' then None
    else
      match IndexOfFrom(t, '`', p + 1)
      case None => None
      case Some(e) =>
        var inner := t[p + 1..e];
        match ExtensionOf(inner)
        case None => None
        case Some(x) => Some(Match(p, e + 1, inner, x))
  }

  function MatchAt(pat: Pattern, t: string, p: nat): (r: Option<Match>)
    requires p <= |t|
    ensures r.Some? ==> r.value.start == p < r.value.end <= |t|
  {
    match pat
    case EndpointRow => RowAt(t, p)
    case FileRef => RefAt(t, p)
  }

  /** The pattern matches at no position in [lo, hi). */
  predicate NoMatchIn(pat: Pattern, t: string, lo: nat, hi: nat)
    requires hi <= |t|
    decreases hi - lo
  {
    lo >= hi || (MatchAt(pat, t, lo).None? && NoMatchIn(pat, t, lo + 1, hi))
  }

  lemma {:induction false} NoMatchInAt(pat: Pattern, t: string, lo: nat, hi: nat, q: nat)
    requires hi <= |t| && lo <= q < hi
    requires NoMatchIn(pat, t, lo, hi)
    ensures MatchAt(pat, t, q).None?
    decreases q - lo
  {
    if lo < q {
      NoMatchInAt(pat, t, lo + 1, hi, q);
    }
  }

  /** `pattern.exec(t)` with `lastIndex == from`: the leftmost match starting
      at or after `from`. */
  function Exec(pat: Pattern, t: string, from: nat): (r: Option<Match>)
    requires from <= |t|
    ensures r.Some? ==> from <= r.value.start < r.value.end <= |t|
    decreases |t| - from
  {
    var here := MatchAt(pat, t, from);
    if here.Some? then here
    else if from == |t| then None
    else Exec(pat, t, from + 1)
  }

  /** `exec` finds the leftmost match: the pattern matches nowhere from
      `from` up to the match returned, and nowhere from `from` on, the end
      of the text included, when none is returned. */
  lemma {:induction false} ExecLeftmost(pat: Pattern, t: string, from: nat)
    requires from <= |t|
    ensures Exec(pat, t, from).Some? ==> NoMatchIn(pat, t, from, Exec(pat, t, from).value.start)
    ensures Exec(pat, t, from).None? ==> NoMatchIn(pat, t, from, |t|) && MatchAt(pat, t, |t|).None?
    decreases |t| - from
  {
    if MatchAt(pat, t, from).None? && from < |t| {
      ExecLeftmost(pat, t, from + 1);
    }
  }

  /** What `exec` returns is what the pattern gives at the match's start. */
  lemma {:induction false} ExecMatches(pat: Pattern, t: string, from: nat)
    requires from <= |t|
    requires Exec(pat, t, from).Some?
    ensures MatchAt(pat, t, Exec(pat, t, from).value.start) == Exec(pat, t, from)
    decreases |t| - from
  {
    if MatchAt(pat, t, from).None? {
      ExecMatches(pat, t, from + 1);
    }
  }

  /** The matches a `while ((match = pattern.exec(t)) !== null)` loop visits
      when `lastIndex` starts at `from`. */
  function AllMatches(pat: Pattern, t: string, from: nat): seq<Match>
    requires from <= |t|
    decreases |t| - from
  {
    match Exec(pat, t, from)
    case None => []
    case Some(m) => [m] + AllMatches(pat, t, m.end)
  }

  /** One step of the loop: the first match, then the matches after it. */
  lemma {:induction false} AllMatchesStep(pat: Pattern, t: string, from: nat)
    requires from <= |t|
    requires Exec(pat, t, from).Some?
    ensures AllMatches(pat, t, from) == [Exec(pat, t, from).value] + AllMatches(pat, t, Exec(pat, t, from).value.end)
  {
  }

  /** Matches lying within [lo, hi), in text order, none overlapping the
      next. */
  predicate InOrder(ms: seq<Match>, lo: nat, hi: nat) {
    (forall k :: 0 <= k < |ms| ==> lo <= ms[k].start < ms[k].end <= hi)
    && (forall i, j :: 0 <= i < j < |ms| ==> ms[i].end <= ms[j].start)
  }

  /** A match within [lo, end) put before matches in order from its end on
      keeps them in order. */
  lemma {:induction false} InOrderCons(m: Match, rest: seq<Match>, lo: nat, hi: nat)
    requires lo <= m.start < m.end <= hi
    requires InOrder(rest, m.end, hi)
    ensures InOrder([m] + rest, lo, hi)
  {
    var ms := [m] + rest;
    forall k | 0 <= k < |ms|
      ensures lo <= ms[k].start < ms[k].end <= hi
    {
      if k > 0 {
        assert ms[k] == rest[k - 1];
      }
    }
    forall i, j | 0 <= i < j < |ms|
      ensures ms[i].end <= ms[j].start
    {
      assert ms[j] == rest[j - 1];
      if i > 0 {
        assert ms[i] == rest[i - 1];
      }
    }
  }

  /** The matches come in text order and do not overlap. */
  lemma {:induction false} AllMatchesOrdered(pat: Pattern, t: string, from: nat)
    requires from <= |t|
    ensures InOrder(AllMatches(pat, t, from), from, |t|)
    decreases |t| - from
  {
    var r := Exec(pat, t, from);
    if r.Some? {
      AllMatchesOrdered(pat, t, r.value.end);
      InOrderCons(r.value, AllMatches(pat, t, r.value.end), from, |t|);
    }
  }

  /** Each match visited is what the pattern gives at its start. */
  lemma {:induction false} AllMatchesAreMatches(pat: Pattern, t: string, from: nat, k: nat)
    requires from <= |t|
    requires k < |AllMatches(pat, t, from)|
    ensures var m := AllMatches(pat, t, from)[k];
      m.start <= |t| && MatchAt(pat, t, m.start) == Some(m)
  {
    var p := AllMatchesFirstOf(pat, t, from, k);
    AllMatchesHead(pat, t, p);
  }

  /** Each match visited is the first one visited from some later
      `lastIndex`. */
  lemma {:induction false} AllMatchesFirstOf(pat: Pattern, t: string, from: nat, k: nat) returns (p: nat)
    requires from <= |t|
    requires k < |AllMatches(pat, t, from)|
    ensures from <= p <= |t| && AllMatches(pat, t, p) != []
    ensures AllMatches(pat, t, from)[k] == AllMatches(pat, t, p)[0]
    decreases |t| - from
  {
    if k == 0 {
      p := from;
    } else {
      var next := AllMatchesTail(pat, t, from, k);
      p := AllMatchesFirstOf(pat, t, next, k - 1);
    }
  }

  /** The first match visited is the one `exec` finds. */
  lemma {:induction false} AllMatchesHead(pat: Pattern, t: string, from: nat)
    requires from <= |t|
    requires AllMatches(pat, t, from) != []
    ensures var m := AllMatches(pat, t, from)[0];
      m.start <= |t| && MatchAt(pat, t, m.start) == Some(m)
  {
    ExecMatches(pat, t, from);
  }

  /** The later matches are those visited from the end of the first. */
  lemma {:induction false} AllMatchesTail(pat: Pattern, t: string, from: nat, k: nat) returns (next: nat)
    requires from <= |t|
    requires 0 < k < |AllMatches(pat, t, from)|
    ensures next <= |t| && k - 1 < |AllMatches(pat, t, next)|
    ensures AllMatches(pat, t, from)[k] == AllMatches(pat, t, next)[k - 1]
    ensures |t| - next < |t| - from
  {
    var m := Exec(pat, t, from).value;
    next := m.end;
    ConsIndex(m, AllMatches(pat, t, next), k);
  }

  /** Indexing past the head of a sequence. */
  lemma {:induction false} ConsIndex<T>(x: T, rest: seq<T>, k: nat)
    requires 0 < k <= |rest|
    ensures ([x] + rest)[k] == rest[k - 1]
  {
  }

  predicate Covers(m: Match, q: nat) {
    m.start <= q < m.end
  }

  /** Nothing is missed: every position where the pattern would match lies
      inside one of the matches visited (the first match there, or one that
      overlaps it and was taken first). */
  lemma {:induction false} AllMatchesComplete(pat: Pattern, t: string, from: nat, q: nat)
    requires from <= q <= |t|
    requires MatchAt(pat, t, q).Some?
    ensures exists k :: 0 <= k < |AllMatches(pat, t, from)| && Covers(AllMatches(pat, t, from)[k], q)
    decreases |t| - from
  {
    var r := Exec(pat, t, from);
    ExecLeftmost(pat, t, from);
    if r.None? {
      if q < |t| {
        NoMatchInAt(pat, t, from, |t|, q);
      }
      assert false;
    }
    var m := r.value;
    if q < m.start {
      NoMatchInAt(pat, t, from, m.start, q);
      assert false;
    }
    var rest := AllMatches(pat, t, m.end);
    assert AllMatches(pat, t, from) == [m] + rest;
    if q < m.end {
      CoveredByHead(m, rest, q);
    } else {
      AllMatchesComplete(pat, t, m.end, q);
      CoveredByTail(m, rest, q);
    }
  }

  lemma {:induction false} CoveredByHead(m: Match, rest: seq<Match>, q: nat)
    requires Covers(m, q)
    ensures exists k :: 0 <= k < |[m] + rest| && Covers(([m] + rest)[k], q)
  {
    assert Covers(([m] + rest)[0], q);
  }

  lemma {:induction false} CoveredByTail(m: Match, rest: seq<Match>, q: nat)
    requires exists k :: 0 <= k < |rest| && Covers(rest[k], q)
    ensures exists k :: 0 <= k < |[m] + rest| && Covers(([m] + rest)[k], q)
  {
    var k :| 0 <= k < |rest| && Covers(rest[k], q);
    assert ([m] + rest)[k + 1] == rest[k];
  }

  /** The extension matcher recognises exactly the six extensions after a
      dot. */
  lemma {:induction false} ExtensionOfSound(inner: string)
    requires ExtensionOf(inner).Some?
    ensures ExtensionOf(inner).value in Extensions && EndsWith(inner, "." + ExtensionOf(inner).value)
  {
    var x := "." + ExtensionOf(inner).value;
    var n := |inner|;
    forall k | 0 <= k < |x|
      ensures inner[n - |x| + k] == x[k]
    {
    }
    assert inner[n - |x|..] == x;
  }

  lemma {:induction false} ExtensionOfComplete(inner: string, x: string)
    requires x in Extensions && EndsWith(inner, "." + x)
    ensures ExtensionOf(inner) == Some(x)
  {
    var d := "." + x;
    var n := |inner|;
    forall k | 0 <= k < |d|
      ensures inner[n - |d| + k] == d[k]
    {
      assert inner[n - |d|..][k] == inner[n - |d| + k];
    }
  }

  /** A file reference in declarative terms: a backtick at `p`, the next
      backtick at `e`, and between them text ending in `.ext`. */
  predicate IsFileRef(t: string, p: nat, e: nat) {
    p < e < |t| && t[p] == '`' && t[e] == '`'
    && (forall k :: p < k < e ==> t[k] != '`')
    && ExtensionOf(t[p + 1..e]).Some?
  }

  /** The reference matcher finds exactly the quoted references, and its
      first group is the text between the backticks. */
  lemma {:induction false} RefAtSound(t: string, p: nat)
    requires p <= |t|
    requires RefAt(t, p).Some?
    ensures IsFileRef(t, p, RefAt(t, p).value.end - 1)
    ensures RefAt(t, p).value.group1 == t[p + 1..RefAt(t, p).value.end - 1]
  {
    IndexOfFromFirst(t, '`', p + 1);
  }

  /** A match the reference pattern gives is a quoted reference, and its
      first group is the text between the backticks. */
  lemma {:induction false} FileRefMatchQuoted(t: string, m: Match)
    requires m.start <= |t| && MatchAt(FileRef, t, m.start) == Some(m)
    ensures IsFileRef(t, m.start, m.end - 1) && m.group1 == t[m.start + 1..m.end - 1]
  {
    RefAtSound(t, m.start);
  }

  lemma {:induction false} RefAtComplete(t: string, p: nat, e: nat)
    requires IsFileRef(t, p, e)
    ensures RefAt(t, p).Some? && RefAt(t, p).value.end == e + 1
  {
    IndexOfFromFinds(t, '`', p + 1, e);
  }

  /** The method matcher recognises only the five method names, and only
      where the name occurs. */
  lemma {:induction false} MethodAtSound(t: string, i: nat)
    requires MethodAt(t, i).Some?
    ensures MethodAt(t, i).value in Methods && OccursAt(t, MethodAt(t, i).value, i)
  {
    FirstAlternativeSound(Methods, t, i);
  }

  /** No method name is a prefix of another, so at most one occurs at a
      position. */
  lemma {:induction false} MethodsUnique(t: string, i: nat, v: string, w: string)
    requires v in Methods && w in Methods
    requires OccursAt(t, v, i) && OccursAt(t, w, i)
    ensures v == w
  {
    assert v[0] == t[i..i + |v|][0] == t[i] == t[i..i + |w|][0] == w[0];
    assert v[1] == t[i..i + |v|][1] == t[i + 1] == t[i..i + |w|][1] == w[1];
  }

  /** Each of the five names is recognised wherever it occurs. */
  lemma {:induction false} MethodAtComplete(t: string, i: nat, v: string)
    requires v in Methods && OccursAt(t, v, i)
    ensures MethodAt(t, i) == Some(v)
  {
    FirstAlternativeFound(Methods, t, i, v);
    MethodAtSound(t, i);
    MethodsUnique(t, i, MethodAt(t, i).value, v);
  }

  /** An endpoint row in declarative terms: a bar at `p`, spaces, the method
      at `m`, spaces, a bar at `b`, at least one character that is not a bar,
      and the bar just before `end` that closes the match. */
  predicate IsRow(t: string, p: nat, m: nat, verb: string, b: nat, end: nat) {
    p < m && m + |verb| <= b && b + 2 < end <= |t|
    && t[p] == '|' && t[b] == '|' && t[end - 1] == '|'
    && SpacesIn(t, p + 1, m)
    && verb in Methods && OccursAt(t, verb, m)
    && SpacesIn(t, m + |verb|, b)
    && (forall k :: b < k < end - 1 ==> t[k] != '|')
  }

  /** `r` is an endpoint row found at `p` whose trimmed path group is the
      trimmed text between the method's closing bar and the final bar. */
  ghost predicate RowMatch(t: string, p: nat, r: Match) {
    exists m: nat, b: nat :: IsRow(t, p, m, r.group1, b, r.end) && b + 1 <= r.end - 1 && Trim(r.group2) == Trim(t[b + 1..r.end - 1])
  }

  /** The method of a row is one of the five names, which hold no spaces. */
  lemma {:induction false} RowMatchVerb(t: string, p: nat, r: Match)
    requires RowMatch(t, p, r)
    ensures r.group1 in Methods && NoSpaces(r.group1)
  {
    var m: nat, b: nat :| IsRow(t, p, m, r.group1, b, r.end) && b + 1 <= r.end - 1 && Trim(r.group2) == Trim(t[b + 1..r.end - 1]);
    MethodHasNoSpaces(r.group1);
  }

  lemma {:induction false} MethodHasNoSpaces(v: string)
    requires v in Methods
    ensures NoSpaces(v)
  {
    forall k | 0 <= k < |v|
      ensures !IsSpace(v[k])
    {
      assert 'A' <= v[k] <= 'Z';
    }
  }

  /** Where the endpoint matcher stops at each step of a row it finds: the
      method `verb` at `m`, the bar at `b`, the closing bar at `e`. */
  lemma {:induction false} RowAtStops(t: string, p: nat) returns (m: nat, verb: string, b: nat, e: nat)
    requires p <= |t|
    requires RowAt(t, p).Some?
    ensures p < |t| && t[p] == '|' && m == SkipSpaces(t, p + 1) && MethodAt(t, m) == Some(verb)
    ensures b == SkipSpaces(t, m + |verb|) && b < |t| && t[b] == '|'
    ensures IndexOfFrom(t, '|', b + 1) == Some(e) && b + 1 < e
    ensures RowAt(t, p).value.end == e + 1 && RowAt(t, p).value.group1 == verb
    ensures RowAt(t, p).value.group2 == PathGroup(t, b + 1, e)
  {
    m := SkipSpaces(t, p + 1);
    verb := MethodAt(t, m).value;
    b := SkipSpaces(t, m + |verb|);
    e := IndexOfFrom(t, '|', b + 1).value;
    RowAtFromSteps(t, p, m, verb, b, e);
  }

  /** The stops of a row the endpoint matcher finds are those of the
      declarative shape. */
  lemma {:induction false} RowAtParts(t: string, p: nat) returns (m: nat, b: nat, e: nat)
    requires p <= |t|
    requires RowAt(t, p).Some?
    ensures IsRow(t, p, m, RowAt(t, p).value.group1, b, e + 1)
    ensures RowAt(t, p).value.end == e + 1
    ensures RowAt(t, p).value.group2 == PathGroup(t, b + 1, e)
  {
    var verb;
    m, verb, b, e := RowAtStops(t, p);
    MethodAtSound(t, m);
    IndexOfFromFirst(t, '|', b + 1);
  }

  /** Every row the endpoint matcher finds has the declarative shape. */
  lemma {:induction false} RowAtSound(t: string, p: nat)
    requires p <= |t|
    requires RowAt(t, p).Some?
    ensures RowMatch(t, p, RowAt(t, p).value)
  {
    var m, b, e := RowAtParts(t, p);
    var r := RowAt(t, p).value;
    assert r == Match(p, e + 1, r.group1, PathGroup(t, b + 1, e));
    RowMatchIntro(t, p, m, r.group1, b, e + 1);
  }

  lemma {:induction false} RowMatchIntro(t: string, p: nat, m: nat, verb: string, b: nat, end: nat)
    requires IsRow(t, p, m, verb, b, end)
    ensures RowMatch(t, p, Match(p, end, verb, PathGroup(t, b + 1, end - 1)))
  {
    PathGroupTrim(t, b + 1, end - 1);
  }

  /** On a row of the declarative shape, each step of the endpoint matcher
      lands where the shape says. */
  lemma {:induction false} RowAtSteps(t: string, p: nat, m: nat, verb: string, b: nat, end: nat)
    requires IsRow(t, p, m, verb, b, end)
    ensures SkipSpaces(t, p + 1) == m && MethodAt(t, m) == Some(verb)
    ensures SkipSpaces(t, m + |verb|) == b && IndexOfFrom(t, '|', b + 1) == Some(end - 1)
  {
    assert t[m] == t[m..m + |verb|][0];
    SkipSpacesFrom(t, p + 1, m);
    MethodAtComplete(t, m, verb);
    SkipSpacesFrom(t, m + |verb|, b);
    IndexOfFromFinds(t, '|', b + 1, end - 1);
  }

  /** Every row of the declarative shape is found by the endpoint matcher. */
  lemma {:induction false} RowAtComplete(t: string, p: nat, m: nat, verb: string, b: nat, end: nat)
    requires IsRow(t, p, m, verb, b, end)
    ensures RowAt(t, p).Some?
    ensures RowAt(t, p).value.end == end && RowAt(t, p).value.group1 == verb
  {
    RowAtSteps(t, p, m, verb, b, end);
    RowAtFromSteps(t, p, m, verb, b, end - 1);
  }

  /** The endpoint matcher's result, given where each of its steps lands. */
  lemma {:induction false} RowAtFromSteps(t: string, p: nat, m: nat, verb: string, b: nat, e: nat)
    requires p < |t| && t[p] == '|'
    requires m <= |t| && SkipSpaces(t, p + 1) == m && MethodAt(t, m) == Some(verb)
    requires b < |t| && t[b] == '|' && SkipSpaces(t, m + |verb|) == b
    requires IndexOfFrom(t, '|', b + 1) == Some(e) && b + 1 < e
    ensures RowAt(t, p).Some? && RowAt(t, p).value.end == e + 1 && RowAt(t, p).value.group1 == verb
    ensures RowAt(t, p).value.group2 == PathGroup(t, b + 1, e)
  {
  }
}
