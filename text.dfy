/** String operations the scripts take from JavaScript: the `\s` character
    class, `includes`, `startsWith`/`endsWith`, `trim`, `Array.prototype.join`
    and the decimal rendering of integers inside template literals. */
module Text {
  import opened Wrappers

  /** The characters matched by `\s` in a JavaScript regular expression, which
      are also the ones `String.prototype.trim` strips (WhiteSpace and
      LineTerminator of ECMAScript). */
  predicate IsSpace(c: char) {
    c == '\t' || c == '\n' || c == '\U{B}' || c == '\U{C}' || c == '\r' || c == ' '
    || c == '\U{A0}' || c == '\U{1680}' || ('\U{2000}' <= c <= '\U{200A}')
    || c == '\U{2028}' || c == '\U{2029}' || c == '\U{202F}' || c == '\U{205F}'
    || c == '\U{3000}' || c == '\U{FEFF}'
  }

  predicate NoSpaces(s: string) {
    forall k :: 0 <= k < |s| ==> !IsSpace(s[k])
  }

  lemma {:induction false} NoSpacesConcat(a: string, b: string)
    ensures NoSpaces(a + b) <==> NoSpaces(a) && NoSpaces(b)
  {
    if NoSpaces(a) && NoSpaces(b) {
      forall k | 0 <= k < |a + b|
        ensures !IsSpace((a + b)[k])
      {
        if k >= |a| {
          assert (a + b)[k] == b[k - |a|];
        }
      }
    }
    if NoSpaces(a + b) {
      forall k | 0 <= k < |a|
        ensures !IsSpace(a[k])
      {
        assert (a + b)[k] == a[k];
      }
      forall k | 0 <= k < |b|
        ensures !IsSpace(b[k])
      {
        assert (a + b)[|a| + k] == b[k];
      }
    }
  }

  predicate StartsWith(s: string, prefix: string) {
    |prefix| <= |s| && s[..|prefix|] == prefix
  }

  predicate EndsWith(s: string, suffix: string) {
    |suffix| <= |s| && s[|s| - |suffix|..] == suffix
  }

  /** `t` occurs in `s` starting at index `i`. */
  predicate OccursAt(s: string, t: string, i: nat) {
    i + |t| <= |s| && s[i..i + |t|] == t
  }

  /** `s.includes(t)`, searched position by position. */
  predicate Contains(s: string, t: string)
    decreases |s|
  {
    StartsWith(s, t) || (|s| > 0 && Contains(s[1..], t))
  }

  /** `Contains` agrees with the usual definition of a substring. */
  lemma {:induction false} ContainsIff(s: string, t: string)
    ensures Contains(s, t) <==> exists i: nat :: OccursAt(s, t, i)
    decreases |s|
  {
    if StartsWith(s, t) {
      assert OccursAt(s, t, 0);
    } else if |s| > 0 {
      ContainsIff(s[1..], t);
      if exists i: nat :: OccursAt(s[1..], t, i) {
        var i: nat :| OccursAt(s[1..], t, i);
        assert s[1..][i..i + |t|] == s[i + 1..i + 1 + |t|];
        assert OccursAt(s, t, i + 1);
      }
      if exists i: nat :: OccursAt(s, t, i) {
        var i: nat :| OccursAt(s, t, i);
        assert i != 0;
        assert s[1..][i - 1..i - 1 + |t|] == s[i..i + |t|];
        assert OccursAt(s[1..], t, i - 1);
      }
    } else {
      assert forall i: nat :: !OccursAt(s, t, i);
    }
  }

  /** A string cannot hold `t` if it lacks one of `t`'s characters. */
  lemma {:induction false} MissingCharNotContained(s: string, t: string, k: nat)
    requires k < |t|
    requires forall j :: 0 <= j < |s| ==> s[j] != t[k]
    ensures !Contains(s, t)
  {
    ContainsIff(s, t);
    if exists i: nat :: OccursAt(s, t, i) {
      var i: nat :| OccursAt(s, t, i);
      assert s[i..i + |t|][k] == s[i + k];
    }
  }

  /** First index at or after `from` holding `c`, as `indexOf(c, from)` would
      find it; None where JavaScript answers -1. */
  function IndexOfFrom(s: string, c: char, from: nat): (r: Option<nat>)
    requires from <= |s|
    ensures r.Some? ==> from <= r.value < |s| && s[r.value] == c
    decreases |s| - from
  {
    if from == |s| then None
    else if s[from] == c then Some(from)
    else IndexOfFrom(s, c, from + 1)
  }

  /** `indexOf` finds the first occurrence: `c` does not occur before the
      index returned, and nowhere from `from` on when none is returned. */
  lemma {:induction false} IndexOfFromFirst(s: string, c: char, from: nat)
    requires from <= |s|
    ensures IndexOfFrom(s, c, from).Some? ==> forall k :: from <= k < IndexOfFrom(s, c, from).value ==> s[k] != c
    ensures IndexOfFrom(s, c, from).None? ==> forall k :: from <= k < |s| ==> s[k] != c
    decreases |s| - from
  {
    if from < |s| && s[from] != c {
      IndexOfFromFirst(s, c, from + 1);
    }
  }

  /** The first occurrence of `c` from `from` on is the one `indexOf`
      returns. */
  lemma {:induction false} IndexOfFromFinds(s: string, c: char, from: nat, e: nat)
    requires from <= e < |s| && s[e] == c
    requires forall k :: from <= k < e ==> s[k] != c
    ensures IndexOfFrom(s, c, from) == Some(e)
  {
    IndexOfFromFirst(s, c, from);
  }

  /** Every character of `s` in [i, j) is a space. */
  predicate SpacesIn(s: string, i: nat, j: nat)
    requires j <= |s|
    decreases j - i
  {
    i >= j || (IsSpace(s[i]) && SpacesIn(s, i + 1, j))
  }

  lemma {:induction false} SpacesInSplit(s: string, i: nat, k: nat, j: nat)
    requires i <= k <= j <= |s|
    ensures SpacesIn(s, i, j) <==> SpacesIn(s, i, k) && SpacesIn(s, k, j)
    decreases k - i
  {
    if i < k {
      SpacesInSplit(s, i + 1, k, j);
    }
  }

  lemma {:induction false} SpacesInSlice(s: string, i: nat, j: nat, lo: nat, hi: nat)
    requires lo <= hi <= |s| && i <= j <= hi - lo
    ensures SpacesIn(s[lo..hi], i, j) <==> SpacesIn(s, lo + i, lo + j)
    decreases j - i
  {
    if i < j {
      SpacesInSlice(s, i + 1, j, lo, hi);
    }
  }

  /** First index at or after `i` that does not hold a space (or |s|). */
  function SkipSpaces(s: string, i: nat): (j: nat)
    requires i <= |s|
    ensures i <= j <= |s|
    ensures SpacesIn(s, i, j)
    ensures j == |s| || !IsSpace(s[j])
    decreases |s| - i
  {
    if i == |s| || !IsSpace(s[i]) then i else SkipSpaces(s, i + 1)
  }

  /** `String.prototype.trim`: spaces come off the front one at a time,
      then off the back. */
  function Trim(s: string): string
    decreases |s|
  {
    if s != [] && IsSpace(s[0]) then Trim(s[1..])
    else if s != [] && IsSpace(s[|s| - 1]) then Trim(s[..|s| - 1])
    else s
  }

  /** Where the trimmed text lies in `s`: only spaces are cut on either
      side. */
  lemma {:induction false} TrimBounds(s: string) returns (i: nat, j: nat)
    ensures i <= j <= |s| && Trim(s) == s[i..j]
    ensures SpacesIn(s, 0, i) && SpacesIn(s, j, |s|)
    decreases |s|
  {
    if s != [] && IsSpace(s[0]) {
      var u := s[1..];
      assert u == s[1..|s|];
      var i', j' := TrimBounds(u);
      i, j := i' + 1, j' + 1;
      assert u[i'..j'] == s[i..j];
      SpacesInSlice(s, 0, i', 1, |s|);
      SpacesInSlice(s, j', |u|, 1, |s|);
    } else if s != [] && IsSpace(s[|s| - 1]) {
      var u := s[..|s| - 1];
      assert u == s[0..|s| - 1];
      i, j := TrimBounds(u);
      assert u[i..j] == s[i..j];
      SpacesInSlice(s, 0, i, 0, |s| - 1);
      SpacesInSlice(s, j, |u|, 0, |s| - 1);
      SpacesInSplit(s, j, |s| - 1, |s|);
    } else {
      i, j := 0, |s|;
    }
  }

  /** The trimmed text neither starts nor ends with a space. */
  lemma {:induction false} TrimEnds(s: string)
    ensures Trim(s) == [] || (!IsSpace(Trim(s)[0]) && !IsSpace(Trim(s)[|Trim(s)| - 1]))
    decreases |s|
  {
    if s != [] && IsSpace(s[0]) {
      TrimEnds(s[1..]);
    } else if s != [] && IsSpace(s[|s| - 1]) {
      TrimEnds(s[..|s| - 1]);
    }
  }

  /** Trimming leaves the slice of `s` that neither starts nor ends with a
      space, with only spaces cut away on either side. */
  lemma {:induction false} TrimSound(s: string)
    ensures exists i, j :: 0 <= i <= j <= |s| && Trim(s) == s[i..j] && SpacesIn(s, 0, i) && SpacesIn(s, j, |s|)
    ensures Trim(s) == [] || (!IsSpace(Trim(s)[0]) && !IsSpace(Trim(s)[|Trim(s)| - 1]))
  {
    var i, j := TrimBounds(s);
    TrimEnds(s);
  }

  /** A string without spaces is its own trim. */
  lemma {:induction false} TrimNoSpaces(s: string)
    requires NoSpaces(s)
    ensures Trim(s) == s
  {
  }

  /** Leading spaces never reach the result of trimming. */
  lemma {:induction false} TrimSkipsLeadingSpaces(s: string, i: nat)
    requires i <= |s|
    requires SpacesIn(s, 0, i)
    ensures Trim(s) == Trim(s[i..])
    decreases i
  {
    if i > 0 {
      var u := s[1..];
      assert u == s[1..|s|];
      SpacesInSlice(s, 0, i - 1, 1, |s|);
      TrimSkipsLeadingSpaces(u, i - 1);
      assert u[i - 1..] == s[i..];
    }
  }

  /** First index at or after `i` that does not hold a space (or |s|), when
      it is `j`. */
  lemma {:induction false} SkipSpacesFrom(s: string, i: nat, j: nat)
    requires i <= j <= |s|
    requires SpacesIn(s, i, j) && (j == |s| || !IsSpace(s[j]))
    ensures SkipSpaces(s, i) == j
    decreases j - i
  {
    if i < j {
      SkipSpacesFrom(s, i + 1, j);
    }
  }

  /** `parts.join(sep)`. */
  function Join(parts: seq<string>, sep: string): string
    decreases |parts|
  {
    if parts == [] then ""
    else if |parts| == 1 then parts[0]
    else parts[0] + sep + Join(parts[1..], sep)
  }

  /** Joining with a non-empty separator gives "" exactly when there is
      nothing to join or a single empty part. */
  lemma {:induction false} JoinEmptyIff(parts: seq<string>, sep: string)
    requires sep != ""
    ensures Join(parts, sep) == "" <==> parts == [] || parts == [""]
  {
    if |parts| >= 2 {
      assert |Join(parts, sep)| >= |sep|;
    }
  }

  function DigitChar(d: nat): (c: char)
    requires d < 10
    ensures '0' <= c <= '9'
  {
    ['0', '1', '2', '3', '4', '5', '6', '7', '8', '9'][d]
  }

  /** Decimal rendering of a non-negative integer, as `${n}` renders it. */
  function NatToString(n: nat): (r: string)
    ensures r != []
    ensures forall k :: 0 <= k < |r| ==> '0' <= r[k] <= '9'
    ensures |r| > 1 ==> r[0] != '0'
  {
    if n < 10 then [DigitChar(n)] else NatToString(n / 10) + [DigitChar(n % 10)]
  }

  /** Decimal rendering of an integer, with a leading '-' when negative. */
  function IntToString(i: int): (r: string)
    ensures r != []
  {
    if i < 0 then "-" + NatToString(-i) else NatToString(i)
  }

  /** Reads back a string of decimal digits. */
  function ParseDigits(s: string): nat
    requires forall k :: 0 <= k < |s| ==> '0' <= s[k] <= '9'
  {
    if s == [] then 0 else 10 * ParseDigits(s[..|s| - 1]) + (s[|s| - 1] as int - '0' as int)
  }

  /** The rendering loses nothing: parsing it back gives the number. */
  lemma {:induction false} NatToStringRoundTrip(n: nat)
    ensures ParseDigits(NatToString(n)) == n
  {
    var r := NatToString(n);
    if n >= 10 {
      NatToStringRoundTrip(n / 10);
      assert r[..|r| - 1] == NatToString(n / 10);
    }
  }
}
