/** The INI section scanner `parseIniContent` (src/utils/parseConfig.js):
    one pass over the lines of a device configuration that records every
    section header it recognises and the headers it takes to be disabled. */
module ParseConfig {
  import opened Text

  /** `n` is what `^\[(.+?)\]` captures at the start of `t`: a non-empty run
      of non-terminators right after the leading `[`, closed by the first `]`
      that leaves at least one character in the name. Whatever follows that
      `]` is ignored. */
  predicate IsLazyHeader(t: string, n: string) {
    && |n| >= 1
    && |n| + 2 <= |t|
    && t[0] == '['
    && t[1..|n| + 1] == n
    && t[|n| + 1] == ']'
    && NoLineTerminator(n)
    && forall j :: 1 <= j < |n| ==> n[j] != ']'
  }

  /** The group captured by `^\[(.+?)\]` in the trimmed line `t`. */
  function HeaderName(t: string): (r: Option<string>)
    ensures r.Some? ==> IsLazyHeader(t, r.value)
  {
    if |t| < 2 || t[0] != '[' || IsLineTerminator(t[1]) then None
    else CloseFrom(t, 2)
  }

  /** The lazy `.+?` has consumed `t[1..k]`; try to close at `t[k]`, else extend by one. */
  function CloseFrom(t: string, k: nat): (r: Option<string>)
    requires 2 <= k <= |t| && t[0] == '['
    requires NoLineTerminator(t[1..k])
    requires forall j :: 2 <= j < k ==> t[j] != ']'
    ensures r.Some? ==> IsLazyHeader(t, r.value)
    decreases |t| - k
  {
    if k == |t| then None
    else if t[k] == ']' then Some(t[1..k])
    else if IsLineTerminator(t[k]) then None
    else
      assert t[1..k + 1] == t[1..k] + [t[k]];
      CloseFrom(t, k + 1)
  }

  lemma {:induction false} CloseFromReaches(t: string, k: nat, n: string)
    requires IsLazyHeader(t, n)
    requires 2 <= k <= |n| + 1
    requires NoLineTerminator(t[1..k])
    requires forall j :: 2 <= j < k ==> t[j] != ']'
    ensures CloseFrom(t, k) == Some(n)
    decreases |n| + 1 - k
  {
    if k < |n| + 1 {
      assert t[k] == n[k - 1];
      assert t[1..k + 1] == n[..k];
      CloseFromReaches(t, k + 1, n);
    } else {
      assert t[1..k] == n;
    }
  }

  /** The header pattern captures exactly the shortest bracketed name. */
  lemma HeaderNameExact(t: string, n: string)
    requires IsLazyHeader(t, n)
    ensures HeaderName(t) == Some(n)
  {
    assert t[1] == n[0];
    assert t[1..2] == n[..1];
    CloseFromReaches(t, 2, n);
  }

  /** What one line contributes (src/utils/parseConfig.js:15-23): blank lines
      and `;` comments are skipped, every other line is tried against the
      header pattern after trimming. */
  function ScanLine(line: string): Option<string> {
    var t := Trim(line);
    if t == [] || (StartsWith(t, ";") && !StartsWith(t, "#")) then None
    else HeaderName(t)
  }

  /** A line declares `n` exactly when its trimmed form opens with the
      shortest bracketed name `n`. */
  lemma ScanLineExact(line: string, n: string)
    ensures ScanLine(line) == Some(n) <==> IsLazyHeader(Trim(line), n)
  {
    if IsLazyHeader(Trim(line), n) {
      HeaderNameExact(Trim(line), n);
    }
  }

  /** Blank lines, `;` lines and `#` lines never declare a section: a
      `#[X]` header is not recognised at all. */
  lemma CommentLinesNeverDeclare(line: string)
    requires Trim(line) == [] || StartsWith(Trim(line), ";") || StartsWith(Trim(line), "#")
             || StartsWith(line, "#")
    ensures ScanLine(line) == None
  {
    if StartsWith(line, "#") {
      TrimKeepsFirst(line);
    }
  }

  /** Whitespace around a header, `\r` included, does not hide it. */
  lemma PaddedHeaderRecognised(pre: string, t: string, post: string, n: string)
    requires AllSpace(pre) && AllSpace(post) && IsTrimmed(t)
    requires IsLazyHeader(t, n)
    ensures ScanLine(pre + t + post) == Some(n)
  {
    TrimPadded(pre, t, post);
    HeaderNameExact(t, n);
  }

  /** Text after the closing bracket is ignored: `[A] ; x` declares `A`. */
  lemma TrailingTextIgnored()
    ensures ScanLine("[A] ; x") == Some("A")
  {
    TrimTrimmed("[A] ; x");
    HeaderNameExact("[A] ; x", "A");
  }

  /** The names a line scanner records over `lines`, folded in order. */
  function Collect(lines: seq<string>, scan: string -> Option<string>): set<string> {
    if lines == [] then {}
    else
      var prior := Collect(lines[..|lines| - 1], scan);
      match scan(lines[|lines| - 1])
      case Some(n) => prior + {n}
      case None => prior
  }

  lemma {:induction false} CollectMembers(lines: seq<string>, scan: string -> Option<string>, n: string)
    ensures n in Collect(lines, scan) <==> exists i :: 0 <= i < |lines| && scan(lines[i]) == Some(n)
  {
    if lines != [] {
      var last := |lines| - 1;
      var init := lines[..last];
      CollectMembers(init, scan, n);
      if n in Collect(lines, scan) && scan(lines[last]) != Some(n) {
        var i :| 0 <= i < |init| && scan(init[i]) == Some(n);
        assert lines[i] == init[i];
      }
      if exists i :: 0 <= i < |lines| && scan(lines[i]) == Some(n) {
        var i :| 0 <= i < |lines| && scan(lines[i]) == Some(n);
        if i < last {
          assert init[i] == lines[i];
        }
      }
    }
  }

  /** The key set of `sections` after scanning `lines` in order. */
  function SectionsOf(lines: seq<string>): set<string> {
    Collect(lines, ScanLine)
  }

  /** A name is a section exactly when some line declares it. */
  lemma SectionsOfMembers(lines: seq<string>, n: string)
    ensures n in SectionsOf(lines) <==> exists i :: 0 <= i < |lines| && ScanLine(lines[i]) == Some(n)
  {
    CollectMembers(lines, ScanLine, n);
  }

  /** Every recorded name is non-empty and is the shortest bracketed name of some line. */
  lemma SectionNamesAreHeaders(lines: seq<string>, n: string)
    requires n in SectionsOf(lines)
    ensures |n| >= 1 && exists i :: 0 <= i < |lines| && IsLazyHeader(Trim(lines[i]), n)
  {
    SectionsOfMembers(lines, n);
    var i :| 0 <= i < |lines| && ScanLine(lines[i]) == Some(n);
    ScanLineExact(lines[i], n);
  }

  /** Duplicating or reordering lines leaves the section set unchanged. */
  lemma SectionsDependOnLineSet(a: seq<string>, b: seq<string>)
    requires forall l :: l in a <==> l in b
    ensures SectionsOf(a) == SectionsOf(b)
  {
    forall n ensures n in SectionsOf(a) <==> n in SectionsOf(b) {
      SectionsOfMembers(a, n);
      SectionsOfMembers(b, n);
      if n in SectionsOf(a) {
        var i :| 0 <= i < |a| && ScanLine(a[i]) == Some(n);
        assert a[i] in b;
        var j :| 0 <= j < |b| && b[j] == a[i];
      }
      if n in SectionsOf(b) {
        var i :| 0 <= i < |b| && ScanLine(b[i]) == Some(n);
        assert b[i] in a;
        var j :| 0 <= j < |a| && a[j] == b[i];
      }
    }
  }

  /** `parseIniContent(content)`: the section set, and the disabled list,
      which stays empty because a line starting with `#` cannot also trim to
      a line starting with `[`. */
  method ParseIniContent(content: string) returns (sections: set<string>, disabledSections: seq<string>)
    ensures sections == SectionsOf(Split(content, '\n'))
    ensures disabledSections == []
  {
    var lines := Split(content, '\n');
    sections := {};
    disabledSections := [];
    var currentSection: Option<string> := None;
    var i := 0;
    while i < |lines|
      invariant 0 <= i <= |lines|
      invariant sections == SectionsOf(lines[..i])
      invariant disabledSections == []
    {
      var line := lines[i];
      CommentLinesNeverDeclareRaw(line);
      var sectionMatch := ScanLine(line);
      if sectionMatch.Some? {
        var name := sectionMatch.value;
        currentSection := sectionMatch;
        sections := sections + {name};
        if StartsWith(line, "#") {
          disabledSections := disabledSections + [name];
        }
      }
      assert lines[..i + 1][..i] == lines[..i];
      i := i + 1;
    }
    assert lines[..|lines|] == lines;
  }

  lemma CommentLinesNeverDeclareRaw(line: string)
    ensures StartsWith(line, "#") ==> ScanLine(line) == None
  {
    if StartsWith(line, "#") {
      CommentLinesNeverDeclare(line);
    }
  }

  // ---------------------------------------------------------------------
  // The scan the comment at src/utils/parseConfig.js:26 describes: a header
  // written as `#[name]` is recorded as present and disabled.

  /** The (name, disabled) pair a line contributes under the intended rule:
      one leading `#` marks a disabled header and is stripped before matching. */
  function ScanLineIntended(line: string): Option<(string, bool)> {
    var t := Trim(line);
    if t == [] || (StartsWith(t, ";") && !StartsWith(t, "#")) then None
    else if StartsWith(t, "#") then
      match HeaderName(Trim(t[1..]))
      case Some(n) => Some((n, true))
      case None => None
    else
      match HeaderName(t)
      case Some(n) => Some((n, false))
      case None => None
  }

  /** The names a flagging scanner records over `lines`. */
  function FlaggedSections(lines: seq<string>, scan: string -> Option<(string, bool)>): set<string> {
    if lines == [] then {}
    else
      var prior := FlaggedSections(lines[..|lines| - 1], scan);
      match scan(lines[|lines| - 1])
      case Some(h) => prior + {h.0}
      case None => prior
  }

  /** The names a flagging scanner marks as disabled over `lines`, in order. */
  function FlaggedNames(lines: seq<string>, scan: string -> Option<(string, bool)>): seq<string> {
    if lines == [] then []
    else
      var prior := FlaggedNames(lines[..|lines| - 1], scan);
      match scan(lines[|lines| - 1])
      case Some(h) => if h.1 then prior + [h.0] else prior
      case None => prior
  }

  /** A `#[name]` header is recorded both as a section and as disabled. */
  lemma CommentedHeaderIsDisabled(line: string, n: string)
    requires StartsWith(Trim(line), "#")
    requires IsLazyHeader(Trim(Trim(line)[1..]), n)
    ensures ScanLineIntended(line) == Some((n, true))
  {
    HeaderNameExact(Trim(Trim(line)[1..]), n);
  }

  /** The as-written scan drops a commented header such as `#[A]` entirely. */
  lemma CommentedHeaderDropped(n: string)
    ensures SectionsOf(["#[" + n + "]"]) == {}
  {
    var line := "#[" + n + "]";
    CommentLinesNeverDeclare(line);
    var lines: seq<string> := [line];
    assert lines[..0] == [];
    assert Collect(lines, ScanLine) == Collect([], ScanLine);
  }

  /** The intended scan records a commented header such as `#[A]` as the
      disabled section `A`. */
  lemma CommentedHeaderRecorded(n: string)
    requires IsLazyHeader("[" + n + "]", n)
    ensures ScanLineIntended("#[" + n + "]") == Some((n, true))
  {
    var header := "[" + n + "]";
    var line := "#" + header;
    assert line == "#[" + n + "]";
    assert line[1..] == header;
    CommentedHeaderTrims(line, header);
    CommentedHeaderIsDisabled(line, n);
  }

  /** Stripping `#` from a trimmed `#[...]` line leaves the header, already trimmed. */
  lemma CommentedHeaderTrims(line: string, header: string)
    requires |header| >= 2 && header[0] == '[' && header[|header| - 1] == ']'
    requires |line| >= 1 && line[0] == '#' && line[1..] == header
    ensures StartsWith(Trim(line), "#") && Trim(Trim(line)[1..]) == header
  {
    assert line[|line| - 1] == ']';
    BracketedTrimmed(line);
    var t := Trim(line);
    assert t[..1] == "#" by {
      assert |t[..1]| == 1 && t[..1][0] == '#';
    }
    assert t[1..] == header;
    BracketedTrimmed(header);
  }

  /** A string framed by non-space characters is unchanged by `trim`. */
  lemma BracketedTrimmed(t: string)
    requires |t| >= 2 && t[0] in "#[" && t[|t| - 1] == ']'
    ensures Trim(t) == t
  {
    TrimTrimmed(t);
  }

  /** `parseIniContent` as the comment at line 26 intends it. Every
      disabled name is also a section. */
  method ParseIniContentIntended(content: string) returns (sections: set<string>, disabledSections: seq<string>)
    ensures sections == FlaggedSections(Split(content, '\n'), ScanLineIntended)
    ensures disabledSections == FlaggedNames(Split(content, '\n'), ScanLineIntended)
    ensures forall n :: n in disabledSections ==> n in sections
  {
    var lines := Split(content, '\n');
    sections := {};
    disabledSections := [];
    var i := 0;
    while i < |lines|
      invariant 0 <= i <= |lines|
      invariant sections == FlaggedSections(lines[..i], ScanLineIntended)
      invariant disabledSections == FlaggedNames(lines[..i], ScanLineIntended)
    {
      var header := ScanLineIntended(lines[i]);
      FlaggedStep(lines, i, ScanLineIntended);
      if header.Some? {
        sections := sections + {header.value.0};
        if header.value.1 {
          disabledSections := disabledSections + [header.value.0];
        }
      }
      i := i + 1;
    }
    assert lines[..|lines|] == lines;
    FlaggedNamesAreSections(lines, ScanLineIntended);
  }

  /** One more line adds what the scanner finds in it. */
  lemma FlaggedStep(lines: seq<string>, i: nat, scan: string -> Option<(string, bool)>)
    requires i < |lines|
    ensures FlaggedSections(lines[..i + 1], scan)
         == match scan(lines[i]) case Some(h) => FlaggedSections(lines[..i], scan) + {h.0}
                                 case None => FlaggedSections(lines[..i], scan)
    ensures FlaggedNames(lines[..i + 1], scan)
         == match scan(lines[i]) case Some(h) => FlaggedNames(lines[..i], scan) + (if h.1 then [h.0] else [])
                                 case None => FlaggedNames(lines[..i], scan)
  {
    assert lines[..i + 1][..i] == lines[..i];
  }

  /** Every name a flagging scanner marks as disabled is also recorded as a section. */
  lemma {:induction false} FlaggedNamesAreSections(lines: seq<string>, scan: string -> Option<(string, bool)>)
    ensures forall n :: n in FlaggedNames(lines, scan) ==> n in FlaggedSections(lines, scan)
  {
    if lines != [] {
      FlaggedNamesAreSections(lines[..|lines| - 1], scan);
    }
  }
}
