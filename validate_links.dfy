/** The link pass of `validate.js`: in every `.md` document of the blueprint
    tree, each backtick-quoted file reference that starts with `src/` and
    names no existing file is one issue. The directory walk is given as the
    list of files it visits, in order. */
module ValidateLinks {
  import opened Wrappers
  import opened Text
  import opened RegexScan
  import opened PassResults

  /** A file met by the walk: its path and its text. */
  datatype Doc = Doc(path: string, content: string)

  /** One `WARN: ... references missing: ...` line. */
  datatype BrokenLink = BrokenLink(doc: string, ref: string)

  /** `ref.startsWith('src/') && !fileExists(ref)`. */
  predicate Flagged(ref: string, fileExists: string -> bool) {
    StartsWith(ref, "src/") && !fileExists(ref)
  }

  /** The references `match[1]` of the matches `ms`. */
  function RefsOf(ms: seq<Match>): (rs: seq<string>)
    ensures |rs| == |ms|
    ensures forall k :: 0 <= k < |ms| ==> rs[k] == ms[k].group1
  {
    if ms == [] then [] else [ms[0].group1] + RefsOf(ms[1..])
  }

  /** Every reference the scanning loop meets in `content`, repeats kept. */
  function Refs(content: string): seq<string> {
    RefsOf(AllMatches(FileRef, content, 0))
  }

  /** The broken references among `rs`, reported against document `doc`. */
  function BrokenAmong(doc: string, rs: seq<string>, fileExists: string -> bool): seq<BrokenLink> {
    if rs == [] then []
    else (if Flagged(rs[0], fileExists) then [BrokenLink(doc, rs[0])] else []) + BrokenAmong(doc, rs[1..], fileExists)
  }

  /** `entry.name.endsWith('.md')`; the path ends as the name does. */
  predicate IsMarkdown(d: Doc) {
    EndsWith(d.path, ".md")
  }

  /** Broken links of the first `n` files walked. */
  function BrokenLinksBelow(docs: seq<Doc>, n: nat, fileExists: string -> bool): seq<BrokenLink>
    requires n <= |docs|
  {
    if n == 0 then []
    else
      var d := docs[n - 1];
      BrokenLinksBelow(docs, n - 1, fileExists)
      + (if IsMarkdown(d) then BrokenAmong(d.path, Refs(d.content), fileExists) else [])
  }

  function BrokenLinks(docs: seq<Doc>, fileExists: string -> bool): seq<BrokenLink> {
    BrokenLinksBelow(docs, |docs|, fileExists)
  }

  /** The link pass: skipped without a blueprint directory. */
  function LinkPass(blueprintDirExists: bool, docs: seq<Doc>, fileExists: string -> bool): PassResult {
    if !blueprintDirExists then Skipped else Verdict(|BrokenLinks(docs, fileExists)|)
  }

  /** `validateLinks`: skipped without the blueprint directory, otherwise
      the walk. */
  method RunLinkPass(blueprintDirExists: bool, docs: seq<Doc>, fileExists: string -> bool) returns (r: PassResult, warnings: seq<BrokenLink>)
    ensures r == LinkPass(blueprintDirExists, docs, fileExists)
    ensures blueprintDirExists ==> warnings == BrokenLinks(docs, fileExists)
    ensures !blueprintDirExists ==> warnings == []
  {
    if !blueprintDirExists {
      r := Skipped;
      warnings := [];
    } else {
      var issues;
      warnings, issues := CountBrokenLinks(docs, fileExists);
      r := Verdict(issues);
    }
  }

  /** `scanDir` over the walked files: one `exec` loop per Markdown file,
      which starts at `lastIndex` 0 because the previous loop ended on a
      failed `exec`, and that resets it. */
  method CountBrokenLinks(docs: seq<Doc>, fileExists: string -> bool) returns (warnings: seq<BrokenLink>, issues: nat)
    ensures warnings == BrokenLinks(docs, fileExists)
    ensures issues == |warnings|
  {
    warnings := [];
    issues := 0;
    for n := 0 to |docs|
      invariant warnings == BrokenLinksBelow(docs, n, fileExists)
      invariant issues == |warnings|
    {
      var d := docs[n];
      if IsMarkdown(d) {
        var found := ScanFile(d, fileExists);
        warnings := warnings + found;
        issues := issues + |found|;
      }
    }
  }

  /** The broken links the loop reports from `lastIndex` on, one match at
      a time. */
  function BrokenFrom(d: Doc, lastIndex: nat, fileExists: string -> bool): seq<BrokenLink>
    requires lastIndex <= |d.content|
    decreases |d.content| - lastIndex
  {
    match Exec(FileRef, d.content, lastIndex)
    case None => []
    case Some(m) =>
      (if Flagged(m.group1, fileExists) then [BrokenLink(d.path, m.group1)] else [])
      + BrokenFrom(d, m.end, fileExists)
  }

  /** The `while ((match = fileRefPattern.exec(content)) !== null)` loop of
      one file. */
  method ScanFile(d: Doc, fileExists: string -> bool) returns (found: seq<BrokenLink>)
    ensures found == BrokenAmong(d.path, Refs(d.content), fileExists)
  {
    found := [];
    var lastIndex: nat := 0;
    var next := Exec(FileRef, d.content, lastIndex);
    while next.Some?
      invariant lastIndex <= |d.content|
      invariant next == Exec(FileRef, d.content, lastIndex)
      invariant found + BrokenFrom(d, lastIndex, fileExists) == BrokenFrom(d, 0, fileExists)
      decreases |d.content| - lastIndex
    {
      var m := next.value;
      var ref := m.group1;
      ghost var rest := BrokenFrom(d, m.end, fileExists);
      assert BrokenFrom(d, lastIndex, fileExists)
        == (if Flagged(ref, fileExists) then [BrokenLink(d.path, ref)] else []) + rest;
      if Flagged(ref, fileExists) {
        assert found + ([BrokenLink(d.path, ref)] + rest) == found + [BrokenLink(d.path, ref)] + rest;
        found := found + [BrokenLink(d.path, ref)];
      } else {
        assert [] + rest == rest;
      }
      lastIndex := m.end;
      next := Exec(FileRef, d.content, lastIndex);
    }
    BrokenFromAll(d, 0, fileExists);
  }

  /** Reporting match by match gives the broken references among all the
      matches. */
  lemma {:induction false} BrokenFromAll(d: Doc, lastIndex: nat, fileExists: string -> bool)
    requires lastIndex <= |d.content|
    ensures BrokenFrom(d, lastIndex, fileExists)
      == BrokenAmong(d.path, RefsOf(AllMatches(FileRef, d.content, lastIndex)), fileExists)
    decreases |d.content| - lastIndex
  {
    match Exec(FileRef, d.content, lastIndex)
    case None =>
    case Some(m) =>
      BrokenFromAll(d, m.end, fileExists);
      AllMatchesStep(FileRef, d.content, lastIndex);
      RefsStep(d.path, m, AllMatches(FileRef, d.content, m.end), fileExists);
  }

  /** One match of the loop: its reference is reported first if broken. */
  lemma {:induction false} RefsStep(doc: string, m: Match, rest: seq<Match>, fileExists: string -> bool)
    ensures BrokenAmong(doc, RefsOf([m] + rest), fileExists)
      == (if Flagged(m.group1, fileExists) then [BrokenLink(doc, m.group1)] else []) + BrokenAmong(doc, RefsOf(rest), fileExists)
  {
    assert ([m] + rest)[1..] == rest;
    assert RefsOf([m] + rest) == [m.group1] + RefsOf(rest);
    assert ([m.group1] + RefsOf(rest))[1..] == RefsOf(rest);
  }

  lemma {:induction false} BrokenAmongIff(doc: string, rs: seq<string>, fileExists: string -> bool, b: BrokenLink)
    ensures b in BrokenAmong(doc, rs, fileExists) <==> b.doc == doc && b.ref in rs && Flagged(b.ref, fileExists)
    decreases |rs|
  {
    if rs != [] {
      BrokenAmongIff(doc, rs[1..], fileExists, b);
      assert rs == [rs[0]] + rs[1..];
    }
  }

  /** A link is reported exactly when it comes from a Markdown file, is one
      of the references found there, starts with `src/` and does not
      exist. */
  lemma {:induction false} BrokenLinksBelowIff(docs: seq<Doc>, n: nat, fileExists: string -> bool, b: BrokenLink)
    requires n <= |docs|
    ensures b in BrokenLinksBelow(docs, n, fileExists) <==>
      exists i :: 0 <= i < n && docs[i].path == b.doc && IsMarkdown(docs[i]) && b.ref in Refs(docs[i].content) && Flagged(b.ref, fileExists)
    decreases n
  {
    if n > 0 {
      var d := docs[n - 1];
      BrokenLinksBelowIff(docs, n - 1, fileExists, b);
      BrokenAmongIff(d.path, Refs(d.content), fileExists, b);
      if b in BrokenLinksBelow(docs, n, fileExists) && b !in BrokenLinksBelow(docs, n - 1, fileExists) {
        assert 0 <= n - 1 < n && docs[n - 1].path == b.doc;
      }
    }
  }

  lemma {:induction false} BrokenLinksIff(docs: seq<Doc>, fileExists: string -> bool, b: BrokenLink)
    ensures b in BrokenLinks(docs, fileExists) <==>
      exists i :: 0 <= i < |docs| && docs[i].path == b.doc && IsMarkdown(docs[i]) && b.ref in Refs(docs[i].content) && Flagged(b.ref, fileExists)
  {
    BrokenLinksBelowIff(docs, |docs|, fileExists, b);
  }

  /** Every reference met sits between two backticks with no backtick in
      between, and ends in one of the six extensions. */
  lemma {:induction false} RefIsQuoted(content: string, k: nat)
    requires k < |Refs(content)|
    ensures exists p: nat, e: nat :: IsFileRef(content, p, e) && Refs(content)[k] == content[p + 1..e]
  {
    var m := AllMatches(FileRef, content, 0)[k];
    AllMatchesAreMatches(FileRef, content, 0, k);
    FileRefMatchQuoted(content, m);
    assert IsFileRef(content, m.start, m.end - 1) && Refs(content)[k] == content[m.start + 1..m.end - 1];
  }
}
