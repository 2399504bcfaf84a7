/** The view mode of the INI syntax highlighter (src/components/SyntaxHighlighter.js):
    the lines of a configuration are partitioned into groups, each opened by
    a section header, and every line is classified for colouring. */
module Highlighter {
  import opened Text

  /** `line.trim().match(/^\[.+\]$/)`: the whole trimmed line is `[`, at least
      one non-terminator, `]`. */
  predicate IsGroupHeader(line: string) {
    var t := Trim(line);
    |t| >= 3 && t[0] == '[' && t[|t| - 1] == ']' && NoLineTerminator(t[1..|t| - 1])
  }

  /** The colouring category of one line. */
  datatype LineKind = Comment | Header | KeyValue(key: string, value: string) | Plain

  /** `^([^=]+)=(.*)$` on the raw line: `[^=]` takes any character but `=`,
      terminators included, so the key runs up to the first `=`; `.*` must
      then reach the end without meeting a terminator. */
  function KeyValueMatch(line: string): (r: Option<(string, string)>)
    ensures r.Some? ==> r.value.0 != [] && '=' !in r.value.0
    ensures r.Some? ==> r.value.0 + "=" + r.value.1 == line
    ensures r.Some? ==> NoLineTerminator(r.value.1)
  {
    match IndexOf(line, "=", 0)
    case None => None
    case Some(e) =>
      if e == 0 || !NoLineTerminator(line[e + 1..]) then None
      else
        var key, value := line[..e], line[e + 1..];
        assert forall j :: 0 <= j < e ==> !StartsAt(line, "=", j) && line[j..j + 1] == [key[j]];
        assert key + "=" + value == line;
        Some((key, value))
  }

  /** The precedence of the render callback (src/components/SyntaxHighlighter.js:86-122):
      comment, then header, then key/value, then the default. */
  function Classify(line: string): LineKind {
    var t := Trim(line);
    if StartsWith(t, ";") || StartsWith(t, "#") then Comment
    else if IsGroupHeader(line) then Header
    else match KeyValueMatch(line)
      case Some((k, v)) => KeyValue(k, v)
      case None => Plain
  }

  /** The key/value pattern splits at the first `=`. */
  lemma {:induction false} FirstEquals(line: string, key: string, value: string)
    requires line == key + "=" + value && '=' !in key
    ensures IndexOf(line, "=", 0) == Some(|key|)
  {
    assert line[|key|..|key| + 1] == "=";
    forall j | 0 <= j < |key|
      ensures !StartsAt(line, "=", j)
    {
      assert line[j..j + 1] == [key[j]];
    }
    var e: nat := |key|;
    assert StartsAt(line, "=", e);
  }

  /** The key/value pattern accepts `key=value` exactly when the key is
      non-empty and `=`-free and the value holds no line terminator (so a
      trailing `\r` defeats it). */
  lemma KeyValueMatchExact(line: string, key: string, value: string)
    ensures KeyValueMatch(line) == Some((key, value))
        <==> (line == key + "=" + value && key != [] && '=' !in key && NoLineTerminator(value))
  {
    if line == key + "=" + value && '=' !in key {
      FirstEquals(line, key, value);
      assert line[..|key|] == key && line[|key| + 1..] == value;
    }
  }

  /** A line that is neither a comment nor a header is classified by the key/value pattern alone. */
  lemma ClassifyKeyValue(line: string, key: string, value: string)
    requires !StartsWith(Trim(line), ";") && !StartsWith(Trim(line), "#") && !IsGroupHeader(line)
    ensures Classify(line) == KeyValue(key, value)
        <==> (line == key + "=" + value && key != [] && '=' !in key && NoLineTerminator(value))
  {
    KeyValueMatchExact(line, key, value);
  }

  /** A trimmed line starting with `#` is a comment even when the rest is a header, as in `#[A]`. */
  lemma HashLineIsComment(line: string)
    requires StartsWith(Trim(line), "#")
    ensures Classify(line) == Comment
  {
  }

  /** A header must also end with `]` after trimming: `[A] ; note` is not one. */
  lemma HeaderNeedsClosingBracket(line: string)
    requires IsGroupHeader(line)
    ensures EndsWith(Trim(line), "]") && StartsWith(Trim(line), "[")
  {
    var t := Trim(line);
    assert t[|t| - 1..] == "]";
    assert t[..1] == "[";
  }

  /** The grouping loop's state: the closed groups and the group being filled. */
  datatype Grouping = Grouping(done: seq<seq<string>>, current: seq<string>)

  /** The state after a prefix of the lines, for a header test `opens`
      (src/components/SyntaxHighlighter.js:61-72). */
  function GroupState(lines: seq<string>, opens: string -> bool): Grouping {
    if lines == [] then Grouping([], [])
    else
      var g := GroupState(lines[..|lines| - 1], opens);
      var line := lines[|lines| - 1];
      if opens(line) && g.current != [] then Grouping(g.done + [g.current], [line])
      else Grouping(g.done, g.current + [line])
  }

  /** The groups once the last one is flushed (src/components/SyntaxHighlighter.js:74-77). */
  function GroupsBy(lines: seq<string>, opens: string -> bool): seq<seq<string>> {
    var g := GroupState(lines, opens);
    if g.current != [] then g.done + [g.current] else g.done
  }

  /** The section groups of the view, opened by `^\[.+\]$` headers. */
  function Groups(lines: seq<string>): seq<seq<string>> {
    GroupsBy(lines, IsGroupHeader)
  }

  function Flatten(groups: seq<seq<string>>): seq<string> {
    if groups == [] then [] else Flatten(groups[..|groups| - 1]) + groups[|groups| - 1]
  }

  function Count(lines: seq<string>, opens: string -> bool): nat {
    if lines == [] then 0
    else Count(lines[..|lines| - 1], opens) + (if opens(lines[|lines| - 1]) then 1 else 0)
  }

  /** A group is never empty and holds a header only at its head. */
  predicate WellFormedGroup(g: seq<string>, opens: string -> bool) {
    g != [] && forall j :: 1 <= j < |g| ==> !opens(g[j])
  }

  /** Every group after the first is opened by a header. */
  predicate OpenedByHeaders(groups: seq<seq<string>>, opens: string -> bool) {
    forall k :: 1 <= k < |groups| ==> groups[k] != [] && opens(groups[k][0])
  }

  function Lead(lines: seq<string>, opens: string -> bool): nat {
    if lines != [] && !opens(lines[0]) then 1 else 0
  }

  /** The grouping loop neither loses, duplicates nor reorders lines. */
  lemma {:induction false} GroupStateFlatten(lines: seq<string>, opens: string -> bool)
    ensures Flatten(GroupState(lines, opens).done) + GroupState(lines, opens).current == lines
    ensures GroupState(lines, opens).current == [] <==> lines == []
  {
    if lines != [] {
      var prefix, line := lines[..|lines| - 1], lines[|lines| - 1];
      assert lines == prefix + [line];
      GroupStateFlatten(prefix, opens);
      var g := GroupState(prefix, opens);
      if opens(line) && g.current != [] {
        var done' := g.done + [g.current];
        assert done'[..|done'| - 1] == g.done;
        assert Flatten(done') == Flatten(g.done) + g.current;
        assert GroupState(lines, opens) == Grouping(done', [line]);
      } else {
        assert GroupState(lines, opens) == Grouping(g.done, g.current + [line]);
        assert Flatten(g.done) + (g.current + [line]) == (Flatten(g.done) + g.current) + [line];
      }
    }
  }

  /** The grouping loop only ever starts a group at a header, and never leaves one empty. */
  lemma {:induction false} GroupStateShape(lines: seq<string>, opens: string -> bool)
    ensures var g := GroupState(lines, opens);
      && (forall k :: 0 <= k < |g.done| ==> WellFormedGroup(g.done[k], opens))
      && (forall j :: 1 <= j < |g.current| ==> !opens(g.current[j]))
      && OpenedByHeaders(g.done, opens)
      && (g.done != [] ==> g.current != [] && opens(g.current[0]))
  {
    if lines != [] {
      var prefix, line := lines[..|lines| - 1], lines[|lines| - 1];
      GroupStateShape(prefix, opens);
      var g := GroupState(prefix, opens);
      if opens(line) && g.current != [] {
        var done' := g.done + [g.current];
        assert WellFormedGroup(g.current, opens);
        forall k | 0 <= k < |done'| ensures WellFormedGroup(done'[k], opens) {
          if k < |g.done| {
            assert done'[k] == g.done[k];
          }
        }
        forall k | 1 <= k < |done'| ensures done'[k] != [] && opens(done'[k][0]) {
          if k < |g.done| {
            assert done'[k] == g.done[k];
          }
        }
      } else {
        var current' := g.current + [line];
        forall j | 1 <= j < |current'| ensures !opens(current'[j]) {
          if j < |g.current| {
            assert current'[j] == g.current[j];
          }
        }
        if g.current != [] {
          assert current'[0] == g.current[0];
        }
      }
    }
  }

  /** The grouping loop closes a group at every header but a leading one. */
  lemma {:induction false} GroupStateCount(lines: seq<string>, opens: string -> bool)
    ensures var g := GroupState(lines, opens);
      |g.done| + (if g.current != [] then 1 else 0) == Count(lines, opens) + Lead(lines, opens)
  {
    if lines != [] {
      var prefix := lines[..|lines| - 1];
      GroupStateCount(prefix, opens);
      GroupStateFlatten(prefix, opens);
      if prefix != [] {
        assert prefix[0] == lines[0];
      }
    }
  }

  /** Concatenating the groups gives back exactly the lines, no group is
      empty, a header only ever opens a group, every group after the first is
      opened by a header, and there is one group per header plus one for
      any lines before the first header. */
  lemma GroupsPartition(lines: seq<string>, opens: string -> bool)
    ensures Flatten(GroupsBy(lines, opens)) == lines
    ensures forall k :: 0 <= k < |GroupsBy(lines, opens)| ==> WellFormedGroup(GroupsBy(lines, opens)[k], opens)
    ensures OpenedByHeaders(GroupsBy(lines, opens), opens)
    ensures |GroupsBy(lines, opens)| == Count(lines, opens) + Lead(lines, opens)
  {
    GroupsFlatten(lines, opens);
    GroupsShape(lines, opens);
    GroupStateCount(lines, opens);
  }

  lemma GroupsFlatten(lines: seq<string>, opens: string -> bool)
    ensures Flatten(GroupsBy(lines, opens)) == lines
  {
    GroupStateFlatten(lines, opens);
    var g := GroupState(lines, opens);
    if g.current != [] {
      var groups := g.done + [g.current];
      assert groups[..|groups| - 1] == g.done;
    }
  }

  lemma GroupsShape(lines: seq<string>, opens: string -> bool)
    ensures forall k :: 0 <= k < |GroupsBy(lines, opens)| ==> WellFormedGroup(GroupsBy(lines, opens)[k], opens)
    ensures OpenedByHeaders(GroupsBy(lines, opens), opens)
  {
    GroupStateShape(lines, opens);
  }

  lemma GroupStateStep(lines: seq<string>, i: nat, opens: string -> bool)
    requires i < |lines|
    ensures var g := GroupState(lines[..i], opens);
      GroupState(lines[..i + 1], opens)
        == if opens(lines[i]) && g.current != [] then Grouping(g.done + [g.current], [lines[i]])
           else Grouping(g.done, g.current + [lines[i]])
  {
    assert lines[..i + 1][..i] == lines[..i];
  }

  /** The grouping loop of the view (src/components/SyntaxHighlighter.js:61-77). */
  method GroupLines(lines: seq<string>) returns (sections: seq<seq<string>>)
    ensures sections == Groups(lines)
  {
    sections := [];
    var currentSection: seq<string> := [];
    for i := 0 to |lines|
      invariant Grouping(sections, currentSection) == GroupState(lines[..i], IsGroupHeader)
    {
      var line := lines[i];
      GroupStateStep(lines, i, IsGroupHeader);
      if IsGroupHeader(line) && |currentSection| > 0 {
        sections := sections + [currentSection];
        currentSection := [];
      }
      currentSection := currentSection + [line];
    }
    assert lines[..|lines|] == lines;
    if |currentSection| > 0 {
      sections := sections + [currentSection];
    }
  }

  function ClassifyGroups(groups: seq<seq<string>>): (r: seq<seq<LineKind>>)
    ensures |r| == |groups|
    ensures forall k :: 0 <= k < |groups| ==> |r[k]| == |groups[k]|
  {
    seq(|groups|, k requires 0 <= k < |groups| =>
      seq(|groups[k]|, j requires 0 <= j < |groups[k]| => Classify(groups[k][j])))
  }

  /** The view: nothing for absent or empty content, otherwise the grouped
      lines with their categories (src/components/SyntaxHighlighter.js:46-127). */
  method Render(content: Option<string>) returns (view: Option<seq<seq<LineKind>>>)
    ensures view.None? <==> (content == None || content == Some(""))
    ensures view.Some? ==> view.value == ClassifyGroups(Groups(Split(content.value, '\n')))
  {
    if content == None || content == Some("") {
      return None;
    }
    var lines := Split(content.value, '\n');
    var sections := GroupLines(lines);
    view := Some(ClassifyGroups(sections));
  }
}
