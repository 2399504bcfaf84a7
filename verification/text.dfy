/** JavaScript string primitives the dashboard and the servers rely on:
    `trim`, `startsWith`, `endsWith`, `includes`, `split`, `replace` with a
    string pattern, ASCII case mapping, and the regular-expression fragments
    `\s`, `.` and `\s*=\s*(.+)`, each written out as an explicit function. */
module Text {

  datatype Option<T> = None | Some(value: T)

  /** The characters `.` in a JavaScript regular expression refuses to match. */
  predicate IsLineTerminator(c: char) {
    c == '\n' || c == '\r' || c == '\U{2028}' || c == '\U{2029}'
  }

  /** The characters `trim` removes and `\s` matches (WhiteSpace and LineTerminator). */
  predicate IsSpace(c: char) {
    IsLineTerminator(c) || c == ' ' || c == '\t' || c == '\U{000B}' || c == '\U{000C}'
    || c == '\U{00A0}' || c == '\U{FEFF}' || c == '\U{1680}' || ('\U{2000}' <= c <= '\U{200A}')
    || c == '\U{202F}' || c == '\U{205F}' || c == '\U{3000}'
  }

  predicate AllSpace(s: string) {
    forall k :: 0 <= k < |s| ==> IsSpace(s[k])
  }

  predicate NoLineTerminator(s: string) {
    forall k :: 0 <= k < |s| ==> !IsLineTerminator(s[k])
  }

  /** No whitespace at either end: what `trim` leaves. */
  predicate IsTrimmed(s: string) {
    s == [] || (!IsSpace(s[0]) && !IsSpace(s[|s| - 1]))
  }

  function TrimStart(s: string): (r: string)
    ensures |r| <= |s| && r == s[|s| - |r|..]
    ensures AllSpace(s[..|s| - |r|])
    ensures r != [] ==> !IsSpace(r[0])
  {
    if s != [] && IsSpace(s[0]) then TrimStart(s[1..]) else s
  }

  function TrimEnd(s: string): (r: string)
    ensures |r| <= |s| && r == s[..|r|]
    ensures AllSpace(s[|r|..])
    ensures r != [] ==> !IsSpace(r[|r| - 1])
  {
    if s != [] && IsSpace(s[|s| - 1]) then TrimEnd(s[..|s| - 1]) else s
  }

  /** `s.trim()` */
  function Trim(s: string): (r: string)
    ensures IsTrimmed(r)
  {
    var h := TrimStart(s);
    var r := TrimEnd(h);
    assert r != [] ==> r[0] == h[0];
    r
  }

  lemma {:induction false} TrimStartExact(p: string, r: string)
    requires AllSpace(p)
    requires r == [] || !IsSpace(r[0])
    ensures TrimStart(p + r) == r
    decreases |p|
  {
    if p == [] {
      assert p + r == r;
    } else {
      assert (p + r)[1..] == p[1..] + r;
      TrimStartExact(p[1..], r);
    }
  }

  lemma {:induction false} TrimEndExact(r: string, p: string)
    requires AllSpace(p)
    requires r == [] || !IsSpace(r[|r| - 1])
    ensures TrimEnd(r + p) == r
    decreases |p|
  {
    if p == [] {
      assert r + p == r;
    } else {
      assert (r + p)[..|r + p| - 1] == r + p[..|p| - 1];
      TrimEndExact(r, p[..|p| - 1]);
    }
  }

  /** Surrounding whitespace, `\r` included, never survives `trim`. */
  lemma TrimPadded(pre: string, t: string, post: string)
    requires AllSpace(pre) && AllSpace(post) && IsTrimmed(t)
    ensures Trim(pre + t + post) == t
  {
    if t == [] {
      assert pre + t + post == (pre + post) + [];
      TrimStartExact(pre + post, []);
      assert TrimEnd([]) == [];
    } else {
      assert pre + t + post == pre + (t + post);
      TrimStartExact(pre, t + post);
      TrimEndExact(t, post);
    }
  }

  /** `trim` leaves an already trimmed string alone. */
  lemma TrimTrimmed(t: string)
    requires IsTrimmed(t)
    ensures Trim(t) == t
  {
    TrimPadded([], t, []);
    assert [] + t + [] == t;
  }

  /** A line whose first character is not whitespace keeps that character first after `trim`. */
  lemma TrimKeepsFirst(s: string)
    requires s != [] && !IsSpace(s[0])
    ensures Trim(s) != [] && Trim(s)[0] == s[0]
  {
    assert TrimStart(s) == s;
  }

  function StartsWith(s: string, p: string): bool {
    |p| <= |s| && s[..|p|] == p
  }

  function EndsWith(s: string, x: string): bool {
    |x| <= |s| && s[|s| - |x|..] == x
  }

  predicate StartsAt(s: string, sub: string, i: nat) {
    i + |sub| <= |s| && s[i..i + |sub|] == sub
  }

  /** `s.includes(sub)` */
  predicate Contains(s: string, sub: string) {
    exists i: nat :: i <= |s| && StartsAt(s, sub, i)
  }

  /** `s.indexOf(sub, from)`, the leftmost occurrence at or after `from`. */
  function IndexOf(s: string, sub: string, from: nat): (r: Option<nat>)
    ensures r.Some? ==> from <= r.value && StartsAt(s, sub, r.value)
    ensures r.Some? ==> forall j: nat :: from <= j < r.value ==> !StartsAt(s, sub, j)
    ensures r.None? ==> forall j: nat :: from <= j ==> !StartsAt(s, sub, j)
    decreases |s| - from
  {
    if from + |sub| > |s| then None
    else if s[from..from + |sub|] == sub then Some(from)
    else IndexOf(s, sub, from + 1)
  }

  /** `s.replace(pat, with)` for a string pattern: only the first occurrence is replaced. */
  function ReplaceFirst(s: string, pat: string, with: string): (r: string)
  {
    match IndexOf(s, pat, 0)
    case None => s
    case Some(i) => s[..i] + with + s[i + |pat|..]
  }

  /** `s.split(sep)` for a one-character separator. */
  function Split(s: string, sep: char): (r: seq<string>)
    ensures |r| >= 1
    ensures forall k :: 0 <= k < |r| ==> sep !in r[k]
  {
    if s == [] then [[]]
    else
      var rest := Split(s[1..], sep);
      if s[0] == sep then [[]] + rest
      else [[s[0]] + rest[0]] + rest[1..]
  }

  /** `parts.join(sep)` */
  function Join(parts: seq<string>, sep: char): string {
    if parts == [] then []
    else if |parts| == 1 then parts[0]
    else parts[0] + [sep] + Join(parts[1..], sep)
  }

  lemma {:induction false} JoinSplit(s: string, sep: char)
    ensures Join(Split(s, sep), sep) == s
  {
    if s != [] {
      JoinSplit(s[1..], sep);
      var rest := Split(s[1..], sep);
      if s[0] == sep {
        assert Split(s, sep) == [[]] + rest;
        assert ([[]] + rest)[1..] == rest;
      } else {
        var r := Split(s, sep);
        assert r == [[s[0]] + rest[0]] + rest[1..];
        if |rest| == 1 {
          assert [s[0]] + rest[0] == [s[0]] + s[1..];
        } else {
          assert r[1..] == rest[1..];
          assert Join(rest, sep) == rest[0] + [sep] + Join(rest[1..], sep);
          assert Join(r, sep) == ([s[0]] + rest[0]) + [sep] + Join(rest[1..], sep);
        }
      }
    }
  }

  /** Splitting a text made by joining separator-free pieces gives the pieces back. */
  lemma {:induction false} SplitJoin(parts: seq<string>, sep: char)
    requires parts != []
    requires forall k :: 0 <= k < |parts| ==> sep !in parts[k]
    ensures Split(Join(parts, sep), sep) == parts
    decreases |parts|, |parts[0]|
  {
    if |parts| == 1 {
      SplitNoSep(parts[0], sep);
    } else if parts[0] == [] {
      var tail := Join(parts[1..], sep);
      assert Join(parts, sep) == [sep] + tail;
      assert ([sep] + tail)[1..] == tail;
      SplitJoin(parts[1..], sep);
      assert parts == [[]] + parts[1..];
    } else {
      var s := Join(parts, sep);
      var c := parts[0][0];
      var parts' := [parts[0][1..]] + parts[1..];
      assert parts'[1..] == parts[1..];
      assert Join(parts', sep) == parts[0][1..] + [sep] + Join(parts[1..], sep);
      assert s == [c] + Join(parts', sep);
      assert s[1..] == Join(parts', sep);
      SplitJoin(parts', sep);
      assert parts[0] == [c] + parts'[0];
    }
  }

  lemma {:induction false} SplitNoSep(s: string, sep: char)
    requires sep !in s
    ensures Split(s, sep) == [s]
  {
    if s != [] {
      SplitNoSep(s[1..], sep);
      assert [s[0]] + s[1..] == s;
    }
  }

  /** `s.split(sep)[0]`: the text before the first separator, or all of `s`. */
  lemma {:induction false} SplitHead(s: string, sep: char)
    ensures StartsWith(s, Split(s, sep)[0])
    ensures |Split(s, sep)[0]| < |s| ==> s[|Split(s, sep)[0]|] == sep
  {
    if s != [] {
      SplitHead(s[1..], sep);
    }
  }

  predicate IsDigit(c: char) {
    '0' <= c <= '9'
  }

  predicate IsAsciiLetter(c: char) {
    'a' <= c <= 'z' || 'A' <= c <= 'Z'
  }

  function LowerChar(c: char): char {
    if 'A' <= c <= 'Z' then (c as int + 32) as char else c
  }

  function UpperChar(c: char): char {
    if 'a' <= c <= 'z' then (c as int - 32) as char else c
  }

  /** `s.toLowerCase()`, restricted to the ASCII letters. */
  function ToLower(s: string): (r: string)
    ensures |r| == |s|
  {
    seq(|s|, k requires 0 <= k < |s| => LowerChar(s[k]))
  }

  /** `s.toUpperCase()`, restricted to the ASCII letters. */
  function ToUpper(s: string): (r: string)
    ensures |r| == |s|
  {
    seq(|s|, k requires 0 <= k < |s| => UpperChar(s[k]))
  }

  /** The leftmost `i >= from` where `p(s, i)` holds: an unanchored
      pattern is tried at each position of `s` from the left. */
  function FirstAt(p: (string, nat) -> bool, s: string, from: nat): (r: Option<nat>)
    ensures r.Some? ==> from <= r.value < |s| && p(s, r.value)
    ensures r.Some? ==> forall j: nat :: from <= j < r.value ==> !p(s, j)
    ensures r.None? ==> (forall j: nat :: from <= j < |s| ==> !p(s, j))
    decreases |s| - from
  {
    if from >= |s| then None
    else if p(s, from) then Some(from)
    else FirstAt(p, s, from + 1)
  }

  /** The search stops at the first position where `p` holds. */
  lemma {:induction false} FirstAtIs(p: (string, nat) -> bool, s: string, from: nat, i: nat)
    requires from <= i < |s| && p(s, i)
    requires forall j: nat :: from <= j < i ==> !p(s, j)
    ensures FirstAt(p, s, from) == Some(i)
    decreases i - from
  {
    if from < i {
      FirstAtIs(p, s, from + 1, i);
    }
  }

  /** Index of the first non-whitespace character at or after `i` (`|s|` if none):
      where a greedy `\s*` starting at `i` stops. */
  function SkipSpaces(s: string, i: nat): (j: nat)
    requires i <= |s|
    ensures i <= j <= |s|
    ensures forall k :: i <= k < j ==> IsSpace(s[k])
    ensures j < |s| ==> !IsSpace(s[j])
    decreases |s| - i
  {
    if i < |s| && IsSpace(s[i]) then SkipSpaces(s, i + 1) else i
  }

  /** End of the run of non-terminator characters starting at `i`: where a greedy `.+` stops. */
  function RunEnd(s: string, i: nat): (j: nat)
    requires i <= |s|
    ensures i <= j <= |s|
    ensures NoLineTerminator(s[i..j])
    ensures j < |s| ==> IsLineTerminator(s[j])
    decreases |s| - i
  {
    if i < |s| && !IsLineTerminator(s[i]) then
      var j := RunEnd(s, i + 1);
      assert s[i..j] == [s[i]] + s[i + 1..j];
      j
    else i
  }

  /** The largest index in `[lo, hi)` holding a non-terminator, if any. */
  function LastNonTerminator(s: string, lo: nat, hi: nat): (r: Option<nat>)
    requires lo <= hi <= |s|
    ensures r.Some? ==> lo <= r.value < hi && !IsLineTerminator(s[r.value])
    ensures r.Some? ==> forall k :: r.value < k < hi ==> IsLineTerminator(s[k])
    ensures r.None? ==> forall k :: lo <= k < hi ==> IsLineTerminator(s[k])
    decreases hi - lo
  {
    if lo == hi then None
    else if !IsLineTerminator(s[hi - 1]) then Some(hi - 1)
    else LastNonTerminator(s, lo, hi - 1)
  }

  /** Matches `\s*=\s*(.+)` at position `i`, with JavaScript's greedy
      backtracking, and returns the span of the captured group. When only
      whitespace follows `=`, the second `\s*` gives characters back until
      `.+` can take one, so the group is then made of whitespace. */
  function AssignTail(s: string, i: nat): (r: Option<(nat, nat)>)
    requires i <= |s|
    ensures r.Some? ==> i < r.value.0 < r.value.1 <= |s|
    ensures r.Some? ==> exists e :: i <= e < r.value.0 && s[e] == '='
                          && AllSpace(s[i..e]) && AllSpace(s[e + 1..r.value.0])
    ensures r.Some? ==> NoLineTerminator(s[r.value.0..r.value.1])
    ensures r.Some? ==> r.value.1 == |s| || IsLineTerminator(s[r.value.1])
  {
    var e := SkipSpaces(s, i);
    if e == |s| || s[e] != '=' then None
    else
      var w := SkipSpaces(s, e + 1);
      assert AllSpace(s[i..e]);
      if w < |s| then
        assert AllSpace(s[e + 1..w]);
        Some((w, RunEnd(s, w)))
      else
        match LastNonTerminator(s, e + 1, |s|)
        case None => None
        case Some(k) =>
          assert AllSpace(s[e + 1..k]);
          Some((k, RunEnd(s, k)))
  }
}
