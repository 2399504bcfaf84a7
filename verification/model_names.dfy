/** Model names of the form `"<name> (<code>)"`: the formatter of the device
    index (server/server.js:90), the two patterns that take such a name apart
    again (src/components/TestCaseMonitoringDashboard.js:39-48 and
    server/server.js:154) and the shortened forms the dashboard displays
    (src/components/TestCaseMonitoringDashboard.js:51-77). */
module ModelNames {
  import opened Text

  /** `${fullName} (${modelCode})` */
  function Format(full: string, code: string): string {
    full + " (" + code + ")"
  }

  /** `q` can end the greedy `^(.+)` before ` (`: a non-empty, terminator-free
      prefix followed by a space and an opening parenthesis. */
  predicate BaseSplitAt(s: string, q: nat) {
    1 <= q && StartsAt(s, " (", q) && NoLineTerminator(s[..q])
  }

  /** The largest `q <= hi` where `BaseSplitAt` holds: the greedy `.+` gives
      characters back one at a time from the end of its run. */
  function LastBaseSplit(s: string, hi: nat): (r: Option<nat>)
    requires hi <= RunEnd(s, 0)
    ensures r.Some? ==> r.value <= hi && BaseSplitAt(s, r.value)
    ensures r.Some? ==> forall q: nat :: r.value < q <= hi ==> !BaseSplitAt(s, q)
    ensures r.None? ==> forall q: nat :: q <= hi ==> !BaseSplitAt(s, q)
  {
    RunEndPrefix(s, hi);
    if hi == 0 then None
    else if StartsAt(s, " (", hi) then Some(hi)
    else LastBaseSplit(s, hi - 1)
  }

  /** Every prefix inside the run of non-terminators is terminator-free. */
  lemma RunEndPrefix(s: string, q: nat)
    requires q <= RunEnd(s, 0)
    ensures NoLineTerminator(s[..q])
  {
    assert s[..q] == s[0..RunEnd(s, 0)][..q];
  }

  /** `extractBaseName`: the text before the last ` (` that `.+` can reach,
      or the whole input when the pattern does not match. */
  function BaseName(s: string): (r: string)
    ensures StartsWith(s, r)
    ensures r == s || (r != [] && BaseSplitAt(s, |r|))
  {
    match LastBaseSplit(s, RunEnd(s, 0))
    case Some(q) => s[..q]
    case None => s
  }

  /** A split point beyond the run of non-terminators is impossible. */
  lemma BaseSplitWithinRun(s: string, q: nat)
    requires BaseSplitAt(s, q)
    ensures q <= RunEnd(s, 0)
  {
    forall k | 0 <= k < q
      ensures !IsLineTerminator(s[k])
    {
      assert s[..q][k] == s[k];
    }
  }

  /** `extractBaseName` returns the prefix before the last ` (` that has at
      least one character before it (and no line terminator), else the input. */
  lemma BaseNameLast(s: string)
    ensures BaseName(s) != s ==> forall q: nat :: |BaseName(s)| < q ==> !BaseSplitAt(s, q)
    ensures BaseName(s) == s ==> forall q: nat :: q < |s| ==> !BaseSplitAt(s, q)
  {
    forall q: nat | BaseSplitAt(s, q)
      ensures q <= RunEnd(s, 0)
    {
      BaseSplitWithinRun(s, q);
    }
  }

  /** The code group of `\(([^)]+)\)$` can open at `i`: `s[i]` is `(`, the
      last character is `)`, and what lies between is non-empty and `)`-free. */
  predicate CodeAt(s: string, i: nat) {
    i + 2 < |s| && s[i] == '(' && s[|s| - 1] == ')' && ')' !in s[i + 1..|s| - 1]
  }

  /** The leftmost `i >= from` where `CodeAt` holds: the unanchored pattern is
      tried at every position from the left. */
  function FirstCode(s: string, from: nat): (r: Option<nat>)
    ensures r.Some? ==> from <= r.value && CodeAt(s, r.value)
    ensures r.Some? ==> forall j: nat :: from <= j < r.value ==> !CodeAt(s, j)
    ensures r.None? ==> forall j: nat :: from <= j ==> !CodeAt(s, j)
    decreases |s| - from
  {
    if from + 2 >= |s| then None
    else if CodeAt(s, from) then Some(from)
    else FirstCode(s, from + 1)
  }

  /** `extractModelCode`: the parenthesised group that closes the string, or null. */
  function ModelCode(s: string): (r: Option<string>)
    ensures r.Some? <==> exists i: nat :: CodeAt(s, i)
    ensures r.Some? ==> r.value != [] && ')' !in r.value && EndsWith(s, r.value + ")")
    ensures r.Some? ==> exists i: nat :: CodeAt(s, i) && (forall j: nat :: j < i ==> !CodeAt(s, j))
                                        && r.value == s[i + 1..|s| - 1]
  {
    match FirstCode(s, 0)
    case Some(i) =>
      var code := s[i + 1..|s| - 1];
      assert s[|s| - |code + ")"|..] == code + ")";
      Some(code)
    case None => None
  }

  /** The group `(.+)` of `^(.+) \(([^)]+)\)$` can end at `q`. */
  predicate FullSplitAt(s: string, q: nat) {
    BaseSplitAt(s, q) && CodeAt(s, q + 1)
  }

  function LastFullSplit(s: string, hi: nat): (r: Option<nat>)
    ensures r.Some? ==> r.value <= hi && FullSplitAt(s, r.value)
    ensures r.Some? ==> forall q: nat :: r.value < q <= hi ==> !FullSplitAt(s, q)
    ensures r.None? ==> forall q: nat :: q <= hi ==> !FullSplitAt(s, q)
  {
    if hi == 0 then None
    else if FullSplitAt(s, hi) then Some(hi)
    else LastFullSplit(s, hi - 1)
  }

  /** `modelName.match(/^(.+) \(([^)]+)\)$/)` in the device lookup
      (server/server.js:154): the name and the code, with the name as long as
      the pattern allows. */
  function SplitFormatted(s: string): (r: Option<(string, string)>)
    ensures r.Some? ==> Format(r.value.0, r.value.1) == s
    ensures r.Some? ==> r.value.0 != [] && NoLineTerminator(r.value.0)
    ensures r.Some? ==> r.value.1 != [] && ')' !in r.value.1
    ensures r.None? <==> forall q: nat :: !FullSplitAt(s, q)
    ensures r.Some? ==> FullSplitAt(s, |r.value.0|) && forall q: nat :: |r.value.0| < q ==> !FullSplitAt(s, q)
  {
    match LastFullSplit(s, |s|)
    case Some(q) =>
      var full, code := s[..q], s[q + 2..|s| - 1];
      assert Format(full, code) == s by {
        assert s[q..q + 2] == " (";
        assert s == s[..q] + s[q..q + 2] + s[q + 2..|s| - 1] + [s[|s| - 1]];
      }
      Some((full, code))
    case None => None
  }

  /** A name made by the formatter has no later ` (` than the one it added. */
  lemma {:induction false} NoLaterSplit(full: string, code: string, q: nat)
    requires '(' !in code
    requires |full| < q
    ensures !StartsAt(Format(full, code), " (", q)
  {
    var s := Format(full, code);
    if q + 2 <= |s| {
      var k := q + 1 - |full| - 2;
      assert s[q + 1] == (code + ")")[k];
      assert (code + ")")[k] != '(' by {
        if k < |code| {
          assert (code + ")")[k] == code[k];
        }
      }
    }
  }

  /** The formatter and `extractBaseName` round-trip: the dashboard shows the
      full name the server put in front of the code. */
  lemma BaseNameOfFormat(full: string, code: string)
    requires full != [] && NoLineTerminator(full)
    requires '(' !in code
    ensures BaseName(Format(full, code)) == full
  {
    var s := Format(full, code);
    assert s[..|full|] == full;
    assert s[|full|..|full| + 2] == " (";
    assert BaseSplitAt(s, |full|);
    BaseSplitWithinRun(s, |full|);
    forall q: nat | |full| < q
      ensures !StartsAt(s, " (", q)
    {
      NoLaterSplit(full, code, q);
    }
    BaseNameLast(s);
  }

  /** The formatter and the lookup's pattern round-trip for a non-empty,
      parenthesis-free code: the code names the file and the name is the
      fallback search text (server/server.js:90, 154-166). */
  lemma SplitFormattedOfFormat(full: string, code: string)
    requires full != [] && NoLineTerminator(full)
    requires code != [] && '(' !in code && ')' !in code
    ensures SplitFormatted(Format(full, code)) == Some((full, code))
  {
    var s := Format(full, code);
    assert s[..|full|] == full;
    assert s[|full|..|full| + 2] == " (";
    assert s[|full| + 2..|s| - 1] == code;
    assert FullSplitAt(s, |full|);
    forall q: nat | |full| < q
      ensures !StartsAt(s, " (", q)
    {
      NoLaterSplit(full, code, q);
    }
  }

  /** The formatter and `extractModelCode` round-trip, provided every `(` of
      the name is closed later within the name. */
  lemma ModelCodeOfFormat(full: string, code: string)
    requires code != [] && ')' !in code
    requires forall i :: 0 <= i < |full| && full[i] == '(' ==> ')' in full[i + 1..]
    ensures ModelCode(Format(full, code)) == Some(code)
  {
    var s := Format(full, code);
    var i0 := |full| + 1;
    assert s[i0 + 1..|s| - 1] == code;
    assert CodeAt(s, i0);
    forall j: nat | j < i0
      ensures !CodeAt(s, j)
    {
      if j < |full| && full[j] == '(' {
        var k :| k in full[j + 1..] && k == ')';
        var m :| j + 1 <= m < |full| && full[m] == ')';
        assert s[m] == ')' && s[j + 1..|s| - 1][m - j - 1] == s[m];
      } else {
        assert j == |full| ==> s[j] == ' ';
        assert j < |full| ==> s[j] == full[j];
      }
    }
    var r := FirstCode(s, 0);
    assert r == Some(i0);
  }

  /** `${text.substring(0, n)}...` when longer than `n`, else the text itself. */
  function Shorten(text: string, n: nat): (r: string)
    ensures |r| <= n + 3
    ensures |text| <= n ==> r == text
    ensures |text| > n ==> |r| == n + 3 && StartsWith(text, r[..n]) && EndsWith(r, "...")
  {
    if |text| > n then
      var r := text[..n] + "...";
      assert r[..n] == text[..n] && r[n..] == "...";
      r
    else text
  }

  /** `getDisplayModelName`: the base name cut to 15 characters for table headers. */
  function DisplayModelName(s: string): (r: string)
    ensures |r| <= 18
  {
    Shorten(BaseName(s), 15)
  }

  /** `getCompactModelDisplay`: the base name cut to 10 characters for selection chips. */
  function CompactModelDisplay(s: string): (r: string)
    ensures |r| <= 13
  {
    Shorten(BaseName(s), 10)
  }

  /** The shortened forms never invent text: whatever precedes the ellipsis is
      a prefix of the model string, and a short base name is shown whole. */
  lemma DisplayIsPrefix(s: string, n: nat)
    ensures var r := Shorten(BaseName(s), n);
      if |BaseName(s)| <= n then r == BaseName(s) && StartsWith(s, r)
      else StartsWith(s, r[..n]) && EndsWith(r, "...")
  {
    var b := BaseName(s);
    if |b| > n {
      var r := Shorten(b, n);
      assert r[..n] == b[..n] == s[..n];
    }
  }

  /** For a formatted name whose full name fits, the table header shows that full name. */
  lemma DisplayOfFormat(full: string, code: string)
    requires full != [] && NoLineTerminator(full) && '(' !in code
    requires |full| <= 15
    ensures DisplayModelName(Format(full, code)) == full
    ensures |full| <= 10 ==> CompactModelDisplay(Format(full, code)) == full
  {
    BaseNameOfFormat(full, code);
  }
}
