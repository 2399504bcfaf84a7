/** The test-status table of the dashboard
    (src/components/TestCaseMonitoringDashboard.js:175-212, 907-910): the
    section-to-test mapping is inverted, the sections a device configuration
    declares are rolled up into one enabled/disabled status per catalogue
    entry, and the statuses are counted. The catalogue `testCaseMapping` and
    the mapping `iniSectionToTestMapping` are parameters. */
module TestStatus {
  import opened Text
  import ParseConfig

  /** The test that is enabled whatever the configuration says. */
  const RootTest: string := "root.RootTest"
  const Enabled: string := "enabled"
  const Disabled: string := "disabled"

  /** One row of the table. */
  datatype TestCase = TestCase(id: string, testId: string, testCase: string, status: string, modified: string)

  /** The section-to-test mapping is an object: no section is listed twice. */
  predicate DistinctSections(sectionMap: seq<(string, string)>) {
    forall i, j :: 0 <= i < j < |sectionMap| ==> sectionMap[i].0 != sectionMap[j].0
  }

  /** `iniSectionToTestMapping[section]` */
  function Lookup(sectionMap: seq<(string, string)>, section: string): (r: Option<string>)
    ensures r.Some? ==> (section, r.value) in sectionMap
    ensures r.None? ==> forall i :: 0 <= i < |sectionMap| ==> sectionMap[i].0 != section
  {
    if sectionMap == [] then None
    else if sectionMap[0].0 == section then Some(sectionMap[0].1)
    else
      var r := Lookup(sectionMap[1..], section);
      assert forall x :: x in sectionMap[1..] ==> x in sectionMap;
      r
  }

  /** The test ids the mapping mentions: the keys of `groupedSections`. */
  function TestIds(sectionMap: seq<(string, string)>): set<string> {
    set i | 0 <= i < |sectionMap| :: sectionMap[i].1
  }

  /** The sections mapped to `testId`, in mapping order: `groupedSections[testId]`. */
  function SectionsFor(sectionMap: seq<(string, string)>, testId: string): seq<string> {
    if sectionMap == [] then []
    else
      var prior := SectionsFor(sectionMap[..|sectionMap| - 1], testId);
      var (section, t) := sectionMap[|sectionMap| - 1];
      if t == testId then prior + [section] else prior
  }

  /** A section is listed under a test exactly when the mapping pairs them. */
  lemma {:induction false} SectionsForMembers(sectionMap: seq<(string, string)>, testId: string, section: string)
    ensures section in SectionsFor(sectionMap, testId) <==> (section, testId) in sectionMap
  {
    if sectionMap != [] {
      var prefix := sectionMap[..|sectionMap| - 1];
      SectionsForMembers(prefix, testId, section);
      assert sectionMap == prefix + [sectionMap[|sectionMap| - 1]];
      assert (section, testId) in sectionMap
          <==> (section, testId) in prefix || sectionMap[|sectionMap| - 1] == (section, testId);
    }
  }

  /** With distinct sections, no section is listed twice under one test. */
  lemma {:induction false} SectionsForDistinct(sectionMap: seq<(string, string)>, testId: string)
    requires DistinctSections(sectionMap)
    ensures var r := SectionsFor(sectionMap, testId);
      forall i, j :: 0 <= i < j < |r| ==> r[i] != r[j]
  {
    if sectionMap != [] {
      var prefix := sectionMap[..|sectionMap| - 1];
      var (section, t) := sectionMap[|sectionMap| - 1];
      SectionsForDistinct(prefix, testId);
      if t == testId {
        var prior := SectionsFor(prefix, testId);
        forall i | 0 <= i < |prior|
          ensures prior[i] != section
        {
          SectionsForMembers(prefix, testId, prior[i]);
          var k :| 0 <= k < |prefix| && prefix[k] == (prior[i], testId);
        }
      }
    }
  }

  /** `groupedSections` partitions the mapped sections: every section is listed
      once, under its own test and under no other, in mapping order. */
  lemma GroupedPartition(sectionMap: seq<(string, string)>, section: string, testId: string, other: string)
    requires DistinctSections(sectionMap)
    requires (section, testId) in sectionMap && other != testId
    ensures section in SectionsFor(sectionMap, testId)
    ensures multiset(SectionsFor(sectionMap, testId))[section] == 1
    ensures section !in SectionsFor(sectionMap, other)
  {
    SectionsForMembers(sectionMap, testId, section);
    SectionsForMembers(sectionMap, other, section);
    SectionsForDistinct(sectionMap, testId);
    var r := SectionsFor(sectionMap, testId);
    var i :| 0 <= i < |r| && r[i] == section;
    assert r == r[..i] + [section] + r[i + 1..];
    assert section !in r[..i] && section !in r[i + 1..] by {
      forall j | 0 <= j < |r| && j != i
        ensures r[j] != section
      {
        if j < i {
          assert r[j] != r[i];
        } else {
          assert r[i] != r[j];
        }
      }
    }
    assert multiset(r) == multiset(r[..i]) + multiset{section} + multiset(r[i + 1..]);
  }

  /** The `groupedSections` memo (src/components/TestCaseMonitoringDashboard.js:175-184). */
  method GroupedSections(sectionMap: seq<(string, string)>) returns (result: map<string, seq<string>>)
    ensures result.Keys == TestIds(sectionMap)
    ensures forall t :: t in result ==> result[t] == SectionsFor(sectionMap, t)
  {
    result := map[];
    for i := 0 to |sectionMap|
      invariant result.Keys == TestIds(sectionMap[..i])
      invariant forall t :: t in result ==> result[t] == SectionsFor(sectionMap[..i], t)
    {
      var (section, testId) := sectionMap[i];
      assert sectionMap[..i + 1][..i] == sectionMap[..i];
      assert TestIds(sectionMap[..i + 1]) == TestIds(sectionMap[..i]) + {testId} by {
        assert sectionMap[..i + 1] == sectionMap[..i] + [sectionMap[i]];
      }
      forall t | t in result && t != testId
        ensures SectionsFor(sectionMap[..i + 1], t) == SectionsFor(sectionMap[..i], t)
      {
      }
      if testId !in result {
        SectionsForUnmapped(sectionMap[..i], testId);
        result := result[testId := []];
      }
      result := result[testId := result[testId] + [section]];
    }
    assert sectionMap[..|sectionMap|] == sectionMap;
  }

  /** The present sections among `related`. */
  function PresentIn(related: seq<string>, sections: set<string>): (r: seq<string>)
    ensures |r| <= |related|
  {
    if related == [] then []
    else
      var prior := PresentIn(related[..|related| - 1], sections);
      if related[|related| - 1] in sections then prior + [related[|related| - 1]] else prior
  }

  /** The sections among `related` that the disabled list names. */
  function ListedIn(related: seq<string>, disabled: seq<string>): seq<string> {
    if related == [] then []
    else
      var prior := ListedIn(related[..|related| - 1], disabled);
      if related[|related| - 1] in disabled then prior + [related[|related| - 1]] else prior
  }

  /** The roll-up rule: the root test is always on; any other test with a
      non-empty id is on when some of its sections are present and not all
      of its present sections are counted as disabled. */
  predicate IsEnabled(testId: string, sectionMap: seq<(string, string)>, sections: set<string>, disabled: seq<string>) {
    var related := SectionsFor(sectionMap, testId);
    testId == RootTest
    || (testId != "" && |PresentIn(related, sections)| > 0
        && |ListedIn(related, disabled)| != |PresentIn(related, sections)|)
  }

  /** When every disabled section is present, the disabled ones among a test's
      sections are at most its present ones, and as many only when every
      present one is disabled. */
  lemma {:induction false} ListedWithinPresent(related: seq<string>, sections: set<string>, disabled: seq<string>)
    requires forall s :: s in disabled ==> s in sections
    ensures |ListedIn(related, disabled)| <= |PresentIn(related, sections)|
    ensures |ListedIn(related, disabled)| == |PresentIn(related, sections)|
        <==> forall s :: s in related && s in sections ==> s in disabled
  {
    if related != [] {
      var prefix, last := related[..|related| - 1], related[|related| - 1];
      ListedWithinPresent(prefix, sections, disabled);
      assert related == prefix + [last];
      if !(forall s :: s in prefix && s in sections ==> s in disabled) {
        var s :| s in prefix && s in sections && s !in disabled;
        assert s in related;
      }
    }
  }

  /** A test other than the root is enabled exactly when one of its sections
      is present and not disabled. */
  lemma EnabledIff(testId: string, sectionMap: seq<(string, string)>, sections: set<string>, disabled: seq<string>)
    requires forall s :: s in disabled ==> s in sections
    requires testId != RootTest && testId != ""
    ensures IsEnabled(testId, sectionMap, sections, disabled)
        <==> exists s :: (s, testId) in sectionMap && s in sections && s !in disabled
  {
    var related := SectionsFor(sectionMap, testId);
    ListedWithinPresent(related, sections, disabled);
    PresentNonEmpty(related, sections);
    forall s
      ensures s in related <==> (s, testId) in sectionMap
    {
      SectionsForMembers(sectionMap, testId, s);
    }
  }

  lemma {:induction false} PresentNonEmpty(related: seq<string>, sections: set<string>)
    ensures |PresentIn(related, sections)| > 0 <==> exists s :: s in related && s in sections
  {
    if related != [] {
      var prefix, last := related[..|related| - 1], related[|related| - 1];
      PresentNonEmpty(prefix, sections);
      assert related == prefix + [last];
    }
  }

  /** The test ids some present section maps to. */
  function Touched(sectionMap: seq<(string, string)>, present: set<string>): set<string> {
    set i | 0 <= i < |sectionMap| && sectionMap[i].0 in present :: sectionMap[i].1
  }

  /** A test is touched exactly when one of its listed sections is present. */
  lemma TouchedIffPresent(sectionMap: seq<(string, string)>, present: set<string>, testId: string)
    ensures testId in Touched(sectionMap, present) <==> |PresentIn(SectionsFor(sectionMap, testId), present)| > 0
  {
    PresentNonEmpty(SectionsFor(sectionMap, testId), present);
    forall s
      ensures s in SectionsFor(sectionMap, testId) <==> (s, testId) in sectionMap
    {
      SectionsForMembers(sectionMap, testId, s);
    }
  }

  /** The status after the first pass (src/components/TestCaseMonitoringDashboard.js:190-195). */
  predicate AfterFirstPass(testId: string, sectionMap: seq<(string, string)>, present: set<string>) {
    testId == RootTest || (testId != "" && testId in Touched(sectionMap, present))
  }

  /** The status after the second pass (src/components/TestCaseMonitoringDashboard.js:196-204). */
  predicate AfterSecondPass(testId: string, sectionMap: seq<(string, string)>, sections: set<string>,
                            disabled: seq<string>, checked: set<string>) {
    var related := SectionsFor(sectionMap, testId);
    if testId in checked && testId != RootTest then
      AfterFirstPass(testId, sectionMap, sections) && |PresentIn(related, sections)| > 0
      && |ListedIn(related, disabled)| != |PresentIn(related, sections)|
    else AfterFirstPass(testId, sectionMap, sections)
  }

  /** Once every test of the mapping has been checked, the status is the roll-up rule. */
  lemma SecondPassIsRollUp(testId: string, sectionMap: seq<(string, string)>, sections: set<string>, disabled: seq<string>)
    ensures AfterSecondPass(testId, sectionMap, sections, disabled, TestIds(sectionMap))
        == IsEnabled(testId, sectionMap, sections, disabled)
  {
    TouchedIffPresent(sectionMap, sections, testId);
    if testId !in TestIds(sectionMap) {
      SectionsForUnmapped(sectionMap, testId);
    }
  }

  /** A test the mapping never mentions has no sections. */
  lemma {:induction false} SectionsForUnmapped(sectionMap: seq<(string, string)>, testId: string)
    requires testId !in TestIds(sectionMap)
    ensures SectionsFor(sectionMap, testId) == []
  {
    if sectionMap != [] {
      var prefix := sectionMap[..|sectionMap| - 1];
      assert TestIds(prefix) <= TestIds(sectionMap);
      assert sectionMap[|sectionMap| - 1].1 in TestIds(sectionMap);
      SectionsForUnmapped(prefix, testId);
    }
  }

  /** Adding one present section touches only the test it maps to. */
  lemma TouchedAdd(sectionMap: seq<(string, string)>, present: set<string>, section: string)
    requires DistinctSections(sectionMap)
    ensures Touched(sectionMap, present + {section})
        == Touched(sectionMap, present) + (match Lookup(sectionMap, section) case Some(t) => {t} case None => {})
  {
    var l := Lookup(sectionMap, section);
    if l.Some? {
      var k :| 0 <= k < |sectionMap| && sectionMap[k] == (section, l.value);
      assert l.value in Touched(sectionMap, present + {section});
    }
  }

  /** `"TC-" + testId.split('.')[0]` */
  function CaseId(testId: string): (r: string)
    ensures StartsWith(r, "TC-")
  {
    var r := "TC-" + Split(testId, '.')[0];
    assert r[..3] == "TC-";
    r
  }

  /** The id is `TC-` followed by the test id up to its first `.`. */
  lemma CaseIdPrefix(testId: string)
    ensures var head := CaseId(testId)[3..];
      StartsWith(testId, head) && '.' !in head
      && (|head| < |testId| ==> testId[|head|] == '.')
  {
    SplitHead(testId, '.');
    assert CaseId(testId)[3..] == Split(testId, '.')[0];
  }

  function StatusText(on: bool): string {
    if on then Enabled else Disabled
  }

  /** The first pass (src/components/TestCaseMonitoringDashboard.js:192-195):
      every present section switches on the test it maps to, unless that id is empty. */
  method FirstPass(sectionMap: seq<(string, string)>, sections: set<string>, initial: map<string, bool>)
    returns (status: map<string, bool>)
    requires DistinctSections(sectionMap)
    requires forall t :: t in initial ==> initial[t] == (t == RootTest)
    ensures initial.Keys <= status.Keys
    ensures forall t :: t in status ==> status[t] == AfterFirstPass(t, sectionMap, sections)
  {
    status := initial;
    var remaining := sections;
    while remaining != {}
      invariant remaining <= sections
      invariant initial.Keys <= status.Keys
      invariant forall t :: t in status ==> status[t] == AfterFirstPass(t, sectionMap, sections - remaining)
      decreases remaining
    {
      var sectionName :| sectionName in remaining;
      TouchedAdd(sectionMap, sections - remaining, sectionName);
      assert (sections - remaining) + {sectionName} == sections - (remaining - {sectionName});
      var testId := Lookup(sectionMap, sectionName);
      if testId.Some? && testId.value != "" {
        status := status[testId.value := true];
      }
      remaining := remaining - {sectionName};
    }
  }

  /** The second pass (src/components/TestCaseMonitoringDashboard.js:196-204): a
      test other than the root with no present section, or whose present
      sections are all disabled, is switched off again. */
  method SecondPass(sectionMap: seq<(string, string)>, sections: set<string>, disabledSections: seq<string>,
                    first: map<string, bool>)
    returns (status: map<string, bool>)
    requires forall t :: t in first ==> first[t] == AfterFirstPass(t, sectionMap, sections)
    ensures first.Keys <= status.Keys
    ensures forall t :: t in status ==> status[t] == IsEnabled(t, sectionMap, sections, disabledSections)
  {
    var grouped := GroupedSections(sectionMap);
    status := first;
    var todo := grouped.Keys;
    while todo != {}
      invariant todo <= grouped.Keys
      invariant first.Keys <= status.Keys
      invariant forall t :: t in status ==>
        status[t] == AfterSecondPass(t, sectionMap, sections, disabledSections, grouped.Keys - todo)
      decreases todo
    {
      var testId :| testId in todo;
      if testId != RootTest {
        var relatedSections := grouped[testId];
        var sectionsInConfig := PresentIn(relatedSections, sections);
        var disabledSectionsForTest := ListedIn(relatedSections, disabledSections);
        if |sectionsInConfig| > 0 && |disabledSectionsForTest| == |sectionsInConfig| {
          status := status[testId := false];
        }
        if |sectionsInConfig| == 0 {
          status := status[testId := false];
        }
      }
      todo := todo - {testId};
    }
    forall t | t in status
      ensures status[t] == IsEnabled(t, sectionMap, sections, disabledSections)
    {
      SecondPassIsRollUp(t, sectionMap, sections, disabledSections);
    }
  }

  /** `generateTestCasesFromConfig` (src/components/TestCaseMonitoringDashboard.js:187-212):
      one row per catalogue entry, in catalogue order, with the status of the
      roll-up rule over what `parseIniContent` finds in the configuration.
      `stamp(i)` stands for the random date of row `i`. */
  method GenerateTestCasesFromConfig(catalogue: seq<(string, string)>, sectionMap: seq<(string, string)>,
                                     configContent: string, stamp: nat -> string)
    returns (cases: seq<TestCase>)
    requires DistinctSections(sectionMap)
    ensures |cases| == |catalogue|
    ensures forall i :: 0 <= i < |catalogue| ==>
      cases[i] == TestCase(CaseId(catalogue[i].0), catalogue[i].0, catalogue[i].1,
                           StatusText(IsEnabled(catalogue[i].0, sectionMap,
                                                ParseConfig.SectionsOf(Split(configContent, '\n')), [])),
                           stamp(i))
  {
    var sections, disabledSections := ParseConfig.ParseIniContent(configContent);
    var status: map<string, bool> := map[];
    for i := 0 to |catalogue|
      invariant forall k :: 0 <= k < i ==> catalogue[k].0 in status
      invariant forall t :: t in status ==> !status[t]
    {
      status := status[catalogue[i].0 := false];
    }
    status := status[RootTest := true];
    status := FirstPass(sectionMap, sections, status);
    status := SecondPass(sectionMap, sections, disabledSections, status);

    cases := [];
    for i := 0 to |catalogue|
      invariant |cases| == i
      invariant forall k :: 0 <= k < i ==>
        cases[k] == TestCase(CaseId(catalogue[k].0), catalogue[k].0, catalogue[k].1,
                             StatusText(IsEnabled(catalogue[k].0, sectionMap, sections, disabledSections)),
                             stamp(k))
    {
      var (testId, displayName) := catalogue[i];
      cases := cases + [TestCase(CaseId(testId), testId, displayName, StatusText(status[testId]), stamp(i))];
    }
  }

  /** Rows with the given status. */
  function CountStatus(cases: seq<TestCase>, status: string): nat {
    if cases == [] then 0
    else CountStatus(cases[..|cases| - 1], status) + (if cases[|cases| - 1].status == status then 1 else 0)
  }

  /** The header counters (src/components/TestCaseMonitoringDashboard.js:908-910):
      total, enabled and disabled rows of the selected model, all zero when
      no model is selected or it has no rows. */
  function Counters(testCases: map<string, seq<TestCase>>, selectedModel: string): (r: (nat, nat, nat))
    ensures r.1 <= r.0 && r.2 <= r.0
  {
    if selectedModel != "" && selectedModel in testCases then
      var rows := testCases[selectedModel];
      CountBounded(rows, Enabled);
      CountBounded(rows, Disabled);
      (|rows|, CountStatus(rows, Enabled), CountStatus(rows, Disabled))
    else (0, 0, 0)
  }

  lemma {:induction false} CountBounded(cases: seq<TestCase>, status: string)
    ensures CountStatus(cases, status) <= |cases|
  {
    if cases != [] {
      CountBounded(cases[..|cases| - 1], status);
    }
  }

  /** When every row is enabled or disabled, as generated rows are, the two
      counters add up to the total. */
  lemma {:induction false} CountersAddUp(cases: seq<TestCase>)
    requires forall i :: 0 <= i < |cases| ==> cases[i].status == Enabled || cases[i].status == Disabled
    ensures CountStatus(cases, Enabled) + CountStatus(cases, Disabled) == |cases|
  {
    if cases != [] {
      CountersAddUp(cases[..|cases| - 1]);
    }
  }

  /** The root test is enabled for every configuration text, the empty one included. */
  lemma RootAlwaysEnabled(sectionMap: seq<(string, string)>, configContent: string)
    ensures IsEnabled(RootTest, sectionMap, ParseConfig.SectionsOf(Split(configContent, '\n')), [])
  {
  }

  /** With the scanner as written nothing is ever disabled, so a test other
      than the root is enabled exactly when one of its sections is declared. */
  lemma AsWrittenEnabledIff(testId: string, sectionMap: seq<(string, string)>, configContent: string)
    requires testId != RootTest && testId != ""
    ensures var sections := ParseConfig.SectionsOf(Split(configContent, '\n'));
      (IsEnabled(testId, sectionMap, sections, [])
       <==> exists s :: (s, testId) in sectionMap && s in sections)
  {
    EnabledIff(testId, sectionMap, ParseConfig.SectionsOf(Split(configContent, '\n')), []);
  }

  /** With the corrected scanner a commented-out header counts as disabled,
      and the roll-up then enables a test other than the root exactly when
      one of its sections is declared and not commented out anywhere. */
  lemma IntendedEnabledIff(testId: string, sectionMap: seq<(string, string)>, configContent: string)
    requires testId != RootTest && testId != ""
    ensures var lines := Split(configContent, '\n');
      var sections := ParseConfig.FlaggedSections(lines, ParseConfig.ScanLineIntended);
      var disabled := ParseConfig.FlaggedNames(lines, ParseConfig.ScanLineIntended);
      (IsEnabled(testId, sectionMap, sections, disabled)
       <==> exists s :: (s, testId) in sectionMap && s in sections && s !in disabled)
  {
    var lines := Split(configContent, '\n');
    ParseConfig.FlaggedNamesAreSections(lines, ParseConfig.ScanLineIntended);
    EnabledIff(testId, sectionMap, ParseConfig.FlaggedSections(lines, ParseConfig.ScanLineIntended),
               ParseConfig.FlaggedNames(lines, ParseConfig.ScanLineIntended));
  }
}
