/** The CSV text of the dashboard's export button
    (src/components/TestCaseMonitoringDashboard.js:519-603): one column per
    selected model in comparison mode, or the rows of the single model. The
    download itself is not modelled. */
module CsvExport {
  import opened Text
  import TestStatus
  import ModelNames

  /** `testCaseList.findIndex(item => item.testId === testId)` */
  function FindIndex(catalogue: seq<(string, string)>, testId: string): (r: Option<nat>)
    ensures r.Some? ==> r.value < |catalogue| && catalogue[r.value].0 == testId
    ensures r.Some? ==> forall k :: 0 <= k < r.value ==> catalogue[k].0 != testId
    ensures r.None? ==> forall k :: 0 <= k < |catalogue| ==> catalogue[k].0 != testId
  {
    if catalogue == [] then None
    else if catalogue[0].0 == testId then Some(0)
    else match FindIndex(catalogue[1..], testId)
      case Some(k) => Some(k + 1)
      case None => None
  }

  /** The status a model's rows leave in row `row`: the last row of `tcs`
      whose test id is found at `row`. */
  function StatusIn(tcs: seq<TestStatus.TestCase>, catalogue: seq<(string, string)>, row: nat): Option<string> {
    if tcs == [] then None
    else if FindIndex(catalogue, tcs[|tcs| - 1].testId) == Some(row) then Some(tcs[|tcs| - 1].status)
    else StatusIn(tcs[..|tcs| - 1], catalogue, row)
  }

  /** The status of the last row of `tcs` for `testId`. */
  function LastStatus(tcs: seq<TestStatus.TestCase>, testId: string): Option<string> {
    if tcs == [] then None
    else if tcs[|tcs| - 1].testId == testId then Some(tcs[|tcs| - 1].status)
    else LastStatus(tcs[..|tcs| - 1], testId)
  }

  /** A row receives a model's status only when it is the first catalogue
      entry of its test id; it then shows the status of the model's last row
      for that test. */
  lemma {:induction false} StatusInRow(tcs: seq<TestStatus.TestCase>, catalogue: seq<(string, string)>, row: nat)
    requires row < |catalogue|
    ensures StatusIn(tcs, catalogue, row)
        == if FindIndex(catalogue, catalogue[row].0) == Some(row) then LastStatus(tcs, catalogue[row].0) else None
  {
    if tcs != [] {
      StatusInRow(tcs[..|tcs| - 1], catalogue, row);
    }
  }

  /** One comparison cell: `tc.models[model] || 'unknown'`. */
  function Cell(catalogue: seq<(string, string)>, testCases: map<string, seq<TestStatus.TestCase>>,
                model: string, row: nat): string {
    var st := if model in testCases then StatusIn(testCases[model], catalogue, row) else None;
    if st.Some? && st.value != "" then st.value else "unknown"
  }

  /** The status maps of `testCaseList` once the models in `done` are filled in. */
  ghost predicate FilledBy(rows: seq<map<string, string>>, catalogue: seq<(string, string)>,
                     testCases: map<string, seq<TestStatus.TestCase>>, done: seq<string>) {
    forall r, m :: 0 <= r < |rows| ==>
      (m in rows[r] <==> m in done && m in testCases && StatusIn(testCases[m], catalogue, r).Some?)
      && (m in rows[r] ==> rows[r][m] == StatusIn(testCases[m], catalogue, r).value)
  }

  /** The inner loop for one model (src/components/TestCaseMonitoringDashboard.js:541-548). */
  method FillModel(rows: seq<map<string, string>>, catalogue: seq<(string, string)>,
                   model: string, tcs: seq<TestStatus.TestCase>)
    returns (filled: seq<map<string, string>>)
    requires |rows| == |catalogue|
    ensures |filled| == |rows|
    ensures forall r :: 0 <= r < |rows| ==>
      filled[r] == match StatusIn(tcs, catalogue, r) case Some(st) => rows[r][model := st] case None => rows[r]
  {
    filled := rows;
    for j := 0 to |tcs|
      invariant |filled| == |rows|
      invariant forall r :: 0 <= r < |rows| ==>
        filled[r] == match StatusIn(tcs[..j], catalogue, r) case Some(st) => rows[r][model := st] case None => rows[r]
    {
      var tc := tcs[j];
      assert tcs[..j + 1][..j] == tcs[..j];
      var testCaseIndex := FindIndex(catalogue, tc.testId);
      if testCaseIndex.Some? {
        var r := testCaseIndex.value;
        filled := filled[r := filled[r][model := tc.status]];
      }
    }
    assert tcs[..|tcs|] == tcs;
  }

  /** `"Test Case"` and one `,<base name>` per selected model. */
  function HeaderLine(models: seq<string>): string {
    if models == [] then "Test Case"
    else HeaderLine(models[..|models| - 1]) + "," + ModelNames.BaseName(models[|models| - 1])
  }

  /** `,"<text>"`: one further quoted field. */
  function Field(text: string): string {
    ",\"" + text + "\""
  }

  /** The quoted cells of one row after the quoted test name. */
  function RowCells(catalogue: seq<(string, string)>, testCases: map<string, seq<TestStatus.TestCase>>,
                    models: seq<string>, row: nat): string {
    if models == [] then []
    else RowCells(catalogue, testCases, models[..|models| - 1], row)
         + Field(Cell(catalogue, testCases, models[|models| - 1], row))
  }

  /** `tc.models[model] || 'unknown'` on one status map. */
  function CellOf(statuses: map<string, string>, model: string): string {
    if model in statuses && statuses[model] != "" then statuses[model] else "unknown"
  }

  /** Row `r`'s status map yields every selected model's cell. */
  ghost predicate RowAgrees(statuses: map<string, string>, catalogue: seq<(string, string)>,
                            testCases: map<string, seq<TestStatus.TestCase>>, models: seq<string>, r: nat) {
    forall m :: m in models ==> CellOf(statuses, m) == Cell(catalogue, testCases, m, r)
  }

  /** Every row's status map yields that row's cells. */
  ghost predicate RowsAgree(rows: seq<map<string, string>>, catalogue: seq<(string, string)>,
                            testCases: map<string, seq<TestStatus.TestCase>>, models: seq<string>) {
    forall r :: 0 <= r < |rows| ==> RowAgrees(rows[r], catalogue, testCases, models, r)
  }

  /** The filled status maps give each cell its value. */
  lemma FilledRows(rows: seq<map<string, string>>, catalogue: seq<(string, string)>,
                   testCases: map<string, seq<TestStatus.TestCase>>, models: seq<string>)
    requires FilledBy(rows, catalogue, testCases, models)
    ensures RowsAgree(rows, catalogue, testCases, models)
  {
  }

  function RowLine(catalogue: seq<(string, string)>, testCases: map<string, seq<TestStatus.TestCase>>,
                   models: seq<string>, row: nat): string
    requires row < |catalogue|
  {
    "\"" + catalogue[row].1 + "\"" + RowCells(catalogue, testCases, models, row)
  }

  /** The data lines, one per catalogue entry in catalogue order. */
  function RowLines(catalogue: seq<(string, string)>, testCases: map<string, seq<TestStatus.TestCase>>,
                    models: seq<string>, n: nat): (r: seq<string>)
    requires n <= |catalogue|
    ensures |r| == n
  {
    if n == 0 then [] else RowLines(catalogue, testCases, models, n - 1) + [RowLine(catalogue, testCases, models, n - 1)]
  }

  /** Data line `k` is the line of catalogue entry `k`. */
  lemma {:induction false} RowLinesAt(catalogue: seq<(string, string)>, testCases: map<string, seq<TestStatus.TestCase>>,
                                      models: seq<string>, n: nat, k: nat)
    requires k < n <= |catalogue|
    ensures RowLines(catalogue, testCases, models, n)[k] == RowLine(catalogue, testCases, models, k)
  {
    if k < n - 1 {
      RowLinesAt(catalogue, testCases, models, n - 1, k);
    }
  }

  /** Every line followed by a newline. */
  function Lines(ls: seq<string>): string {
    if ls == [] then [] else Lines(ls[..|ls| - 1]) + ls[|ls| - 1] + "\n"
  }

  /** Appending a line to the text adds that line and a newline. */
  lemma LinesAppend(ls: seq<string>, line: string)
    ensures Lines(ls + [line]) == Lines(ls) + line + "\n"
  {
    assert (ls + [line])[..|ls|] == ls;
  }

  /** Building `testCaseList` and filling in every selected model's statuses
      (src/components/TestCaseMonitoringDashboard.js:528-549). */
  method FillStatuses(catalogue: seq<(string, string)>, testCases: map<string, seq<TestStatus.TestCase>>,
                      selectedModels: seq<string>)
    returns (testCaseList: seq<map<string, string>>)
    ensures |testCaseList| == |catalogue|
    ensures RowsAgree(testCaseList, catalogue, testCases, selectedModels)
  {
    testCaseList := [];
    for k := 0 to |catalogue|
      invariant |testCaseList| == k
      invariant forall r :: 0 <= r < k ==> testCaseList[r] == map[]
    {
      testCaseList := testCaseList + [map[]];
    }
    for i := 0 to |selectedModels|
      invariant |testCaseList| == |catalogue|
      invariant FilledBy(testCaseList, catalogue, testCases, selectedModels[..i])
    {
      var model := selectedModels[i];
      assert selectedModels[..i + 1] == selectedModels[..i] + [model];
      if model in testCases {
        testCaseList := FillModel(testCaseList, catalogue, model, testCases[model]);
      }
    }
    assert selectedModels[..|selectedModels|] == selectedModels;
    FilledRows(testCaseList, catalogue, testCases, selectedModels);
  }

  /** One data line (src/components/TestCaseMonitoringDashboard.js:561-566). */
  method RowText(catalogue: seq<(string, string)>, testCases: map<string, seq<TestStatus.TestCase>>,
                 selectedModels: seq<string>, statuses: map<string, string>, r: nat)
    returns (line: string)
    requires r < |catalogue|
    requires RowAgrees(statuses, catalogue, testCases, selectedModels, r)
    ensures line == RowLine(catalogue, testCases, selectedModels, r)
  {
    var cells := [];
    for i := 0 to |selectedModels|
      invariant cells == RowCells(catalogue, testCases, selectedModels[..i], r)
    {
      assert selectedModels[..i + 1][..i] == selectedModels[..i];
      cells := cells + Field(CellOf(statuses, selectedModels[i]));
    }
    assert selectedModels[..|selectedModels|] == selectedModels;
    line := "\"" + catalogue[r].1 + "\"" + cells;
  }

  /** The header line (src/components/TestCaseMonitoringDashboard.js:552-557). */
  method HeaderText(selectedModels: seq<string>) returns (header: string)
    ensures header == HeaderLine(selectedModels)
  {
    header := "Test Case";
    for i := 0 to |selectedModels|
      invariant header == HeaderLine(selectedModels[..i])
    {
      assert selectedModels[..i + 1][..i] == selectedModels[..i];
      header := header + "," + ModelNames.BaseName(selectedModels[i]);
    }
    assert selectedModels[..|selectedModels|] == selectedModels;
  }

  lemma RowLinesStep(catalogue: seq<(string, string)>, testCases: map<string, seq<TestStatus.TestCase>>,
                     models: seq<string>, header: string, r: nat)
    requires r < |catalogue|
    ensures Lines([header] + RowLines(catalogue, testCases, models, r + 1))
         == Lines([header] + RowLines(catalogue, testCases, models, r)) + RowLine(catalogue, testCases, models, r) + "\n"
  {
    var before := [header] + RowLines(catalogue, testCases, models, r);
    LinesAppend(before, RowLine(catalogue, testCases, models, r));
    assert [header] + RowLines(catalogue, testCases, models, r + 1) == before + [RowLine(catalogue, testCases, models, r)];
  }

  /** The header line, its newline, and one line per catalogue entry
      (src/components/TestCaseMonitoringDashboard.js:557-567). */
  method RowsText(catalogue: seq<(string, string)>, testCases: map<string, seq<TestStatus.TestCase>>,
                  selectedModels: seq<string>, testCaseList: seq<map<string, string>>, header: string)
    returns (content: string)
    requires |testCaseList| == |catalogue|
    requires RowsAgree(testCaseList, catalogue, testCases, selectedModels)
    ensures content == Lines([header] + RowLines(catalogue, testCases, selectedModels, |catalogue|))
  {
    content := header + "\n";
    LinesAppend([], header);
    for r := 0 to |catalogue|
      invariant content == Lines([header] + RowLines(catalogue, testCases, selectedModels, r))
    {
      var line := RowText(catalogue, testCases, selectedModels, testCaseList[r], r);
      RowLinesStep(catalogue, testCases, selectedModels, header, r);
      content := content + line + "\n";
    }
  }

  /** The comparison export (src/components/TestCaseMonitoringDashboard.js:520-567):
      refused with an alert when no model is selected, otherwise the header
      line and one line per catalogue entry. */
  method ComparisonCsv(catalogue: seq<(string, string)>, testCases: map<string, seq<TestStatus.TestCase>>,
                       selectedModels: seq<string>)
    returns (csv: Option<string>)
    ensures csv.None? <==> selectedModels == []
    ensures csv.Some? ==> csv.value == Lines([HeaderLine(selectedModels)]
                                             + RowLines(catalogue, testCases, selectedModels, |catalogue|))
  {
    if |selectedModels| == 0 {
      return None;
    }
    var testCaseList := FillStatuses(catalogue, testCases, selectedModels);

    var header := HeaderText(selectedModels);
    var content := RowsText(catalogue, testCases, selectedModels, testCaseList, header);
    return Some(content);
  }

  /** `Join(a + [b])` adds one separator and `b`. */
  lemma {:induction false} JoinAppend(a: seq<string>, b: string, sep: char)
    requires a != []
    ensures Join(a + [b], sep) == Join(a, sep) + [sep] + b
  {
    if |a| > 1 {
      assert (a + [b])[1..] == a[1..] + [b];
      JoinAppend(a[1..], b, sep);
    }
  }

  /** Newline-terminated lines are the lines joined by newlines, plus a final empty piece. */
  lemma {:induction false} LinesJoin(ls: seq<string>)
    ensures Lines(ls) == Join(ls + [""], '\n')
  {
    if ls != [] {
      var prefix, last := ls[..|ls| - 1], ls[|ls| - 1];
      LinesJoin(prefix);
      assert ls + [""] == prefix + [last] + [""];
      if prefix == [] {
        assert ls + [""] == [last, ""];
      } else {
        JoinAppend(prefix, last, '\n');
        JoinAppend(prefix + [last], "", '\n');
        JoinAppend(prefix, "", '\n');
      }
    }
  }

  /** Newline-free lines read back from their text, with an empty last piece. */
  lemma LinesSplit(ls: seq<string>)
    requires forall k :: 0 <= k < |ls| ==> '\n' !in ls[k]
    ensures Split(Lines(ls), '\n') == ls + [""]
  {
    var parts := ls + [""];
    assert forall k :: 0 <= k < |parts| ==> parts[k] == if k < |ls| then ls[k] else "";
    var text := Join(parts, '\n');
    SplitJoin(parts, '\n');
    assert Split(text, '\n') == parts;
    LinesJoin(ls);
    assert Lines(ls) == text;
  }

  /** A header and newline-free lines read back in order. */
  lemma HeadedLinesSplit(header: string, body: seq<string>)
    requires '\n' !in header
    requires forall k :: 0 <= k < |body| ==> '\n' !in body[k]
    ensures Split(Lines([header] + body), '\n') == [header] + body + [""]
  {
    var ls := [header] + body;
    forall k | 0 <= k < |ls|
      ensures '\n' !in ls[k]
    {
      if 1 <= k {
        assert ls[k] == body[k - 1];
      }
    }
    LinesSplit(ls);
  }

  /** No test name, selected model name or recorded status holds a newline. */
  predicate NoNewlines(catalogue: seq<(string, string)>, testCases: map<string, seq<TestStatus.TestCase>>,
                       models: seq<string>) {
    && (forall r :: 0 <= r < |catalogue| ==> '\n' !in catalogue[r].1)
    && (forall k :: 0 <= k < |models| ==> '\n' !in models[k])
    && (forall m, k :: m in testCases && 0 <= k < |testCases[m]| ==> '\n' !in testCases[m][k].status)
  }

  /** A status a row receives is the status of one of the model's rows. */
  lemma {:induction false} StatusInFrom(tcs: seq<TestStatus.TestCase>, catalogue: seq<(string, string)>, row: nat)
    ensures StatusIn(tcs, catalogue, row).Some? ==>
      exists k :: 0 <= k < |tcs| && tcs[k].status == StatusIn(tcs, catalogue, row).value
  {
    if tcs != [] && FindIndex(catalogue, tcs[|tcs| - 1].testId) != Some(row) {
      var init := tcs[..|tcs| - 1];
      StatusInFrom(init, catalogue, row);
      if StatusIn(init, catalogue, row).Some? {
        var k :| 0 <= k < |init| && init[k].status == StatusIn(init, catalogue, row).value;
        assert tcs[k] == init[k];
      }
    }
  }

  lemma {:induction false} HeaderLineOneLine(models: seq<string>)
    requires forall k :: 0 <= k < |models| ==> '\n' !in models[k]
    ensures '\n' !in HeaderLine(models)
  {
    if models != [] {
      var init, m := models[..|models| - 1], models[|models| - 1];
      HeaderLineOneLine(init);
      var base := ModelNames.BaseName(m);
      assert forall i :: 0 <= i < |base| ==> base[i] == m[i];
    }
  }

  lemma {:induction false} RowCellsOneLine(catalogue: seq<(string, string)>, testCases: map<string, seq<TestStatus.TestCase>>,
                                           models: seq<string>, row: nat)
    requires NoNewlines(catalogue, testCases, models)
    ensures '\n' !in RowCells(catalogue, testCases, models, row)
  {
    if models != [] {
      var init, m := models[..|models| - 1], models[|models| - 1];
      assert NoNewlines(catalogue, testCases, init) by {
        forall k | 0 <= k < |init| ensures '\n' !in init[k] {
          assert init[k] == models[k];
        }
      }
      RowCellsOneLine(catalogue, testCases, init, row);
      if m in testCases {
        StatusInFrom(testCases[m], catalogue, row);
      }
      assert '\n' !in Cell(catalogue, testCases, m, row);
    }
  }

  /** Data line `k` of the export holds no newline. */
  lemma RowLinesOneLine(catalogue: seq<(string, string)>, testCases: map<string, seq<TestStatus.TestCase>>,
                        models: seq<string>)
    requires NoNewlines(catalogue, testCases, models)
    ensures forall k :: 0 <= k < |catalogue| ==> '\n' !in RowLines(catalogue, testCases, models, |catalogue|)[k]
  {
    forall k | 0 <= k < |catalogue|
      ensures '\n' !in RowLines(catalogue, testCases, models, |catalogue|)[k]
    {
      RowLinesAt(catalogue, testCases, models, |catalogue|, k);
      RowCellsOneLine(catalogue, testCases, models, k);
    }
  }

  /** When no test name, status or model name holds a newline, the export
      reads back as the header line, one line per catalogue entry in order,
      and the empty piece after the final newline. */
  lemma ComparisonCsvLines(catalogue: seq<(string, string)>, testCases: map<string, seq<TestStatus.TestCase>>,
                           models: seq<string>)
    requires NoNewlines(catalogue, testCases, models)
    ensures var lines := Split(Lines([HeaderLine(models)] + RowLines(catalogue, testCases, models, |catalogue|)), '\n');
      |lines| == |catalogue| + 2 && lines[0] == HeaderLine(models) && lines[|lines| - 1] == ""
      && forall r :: 0 <= r < |catalogue| ==> lines[r + 1] == RowLine(catalogue, testCases, models, r)
  {
    var body := RowLines(catalogue, testCases, models, |catalogue|);
    HeaderLineOneLine(models);
    RowLinesOneLine(catalogue, testCases, models);
    HeadedLinesSplit(HeaderLine(models), body);
    var lines := Split(Lines([HeaderLine(models)] + body), '\n');
    assert lines == [HeaderLine(models)] + body + [""];
    forall r | 0 <= r < |catalogue|
      ensures lines[r + 1] == RowLine(catalogue, testCases, models, r)
    {
      assert lines[r + 1] == body[r];
      RowLinesAt(catalogue, testCases, models, |catalogue|, r);
    }
  }

  /** A model without rows, or without a row for a test, exports `"unknown"`. */
  lemma UnknownWhenMissing(catalogue: seq<(string, string)>, testCases: map<string, seq<TestStatus.TestCase>>,
                           model: string, row: nat)
    requires row < |catalogue|
    requires model !in testCases || LastStatus(testCases[model], catalogue[row].0).None?
    ensures Cell(catalogue, testCases, model, row) == "unknown"
  {
    if model in testCases {
      StatusInRow(testCases[model], catalogue, row);
    }
  }

  /** One line of the single-model export. */
  function SingleLine(tc: TestStatus.TestCase): string {
    "\"" + tc.testCase + "\",\"" + tc.status + "\",\"" + tc.modified + "\""
  }

  function SingleLines(rows: seq<TestStatus.TestCase>): (r: seq<string>)
    ensures |r| == |rows|
    ensures forall k :: 0 <= k < |rows| ==> r[k] == SingleLine(rows[k])
  {
    if rows == [] then [] else SingleLines(rows[..|rows| - 1]) + [SingleLine(rows[|rows| - 1])]
  }

  const SingleHeader: string := "Test Case,Status,Last Modified"

  lemma SingleHeaderOneLine()
    ensures '\n' !in SingleHeader
  {
  }

  lemma SingleLinesStep(rows: seq<TestStatus.TestCase>, k: nat)
    requires k < |rows|
    ensures [SingleHeader] + SingleLines(rows[..k + 1]) == ([SingleHeader] + SingleLines(rows[..k])) + [SingleLine(rows[k])]
  {
    assert rows[..k + 1][..k] == rows[..k];
  }

  /** The single-model export (src/components/TestCaseMonitoringDashboard.js:587-603):
      refused without a model or without rows, otherwise the fixed header and
      one line per shown row. */
  method SingleModelCsv(selectedModel: string, filteredTestCases: seq<TestStatus.TestCase>)
    returns (csv: Option<string>)
    ensures csv.None? <==> selectedModel == "" || filteredTestCases == []
    ensures csv.Some? ==> csv.value == Lines([SingleHeader] + SingleLines(filteredTestCases))
  {
    if selectedModel == "" || |filteredTestCases| == 0 {
      return None;
    }
    var content := SingleHeader + "\n";
    LinesAppend([], SingleHeader);
    for k := 0 to |filteredTestCases|
      invariant content == Lines([SingleHeader] + SingleLines(filteredTestCases[..k]))
    {
      var tc := filteredTestCases[k];
      var line := "\"" + tc.testCase + "\",\"" + tc.status + "\",\"" + tc.modified + "\"";
      SingleLinesStep(filteredTestCases, k);
      LinesAppend([SingleHeader] + SingleLines(filteredTestCases[..k]), line);
      content := content + line + "\n";
    }
    assert filteredTestCases[..|filteredTestCases|] == filteredTestCases;
    return Some(content);
  }

  /** The single-model export reads back as its header, one line per row and
      the empty piece after the final newline. */
  lemma SingleModelCsvLines(rows: seq<TestStatus.TestCase>)
    requires forall k :: 0 <= k < |rows| ==> '\n' !in rows[k].testCase && '\n' !in rows[k].status && '\n' !in rows[k].modified
    ensures var lines := Split(Lines([SingleHeader] + SingleLines(rows)), '\n');
      |lines| == |rows| + 2 && lines[0] == SingleHeader && lines[|lines| - 1] == ""
      && forall k :: 0 <= k < |rows| ==> lines[k + 1] == SingleLine(rows[k])
  {
    SingleHeaderOneLine();
    forall k | 0 <= k < |rows| ensures '\n' !in SingleLine(rows[k]) {
      var tc := rows[k];
      assert SingleLine(tc) == "\"" + tc.testCase + "\",\"" + tc.status + "\",\"" + tc.modified + "\"";
    }
    HeadedLinesSplit(SingleHeader, SingleLines(rows));
  }
}
