/** The selection, sorting and view state of the dashboard and the handlers
    that update it (src/components/TestCaseMonitoringDashboard.js:367-450). */
module DashboardState {
  import opened Text
  import TestStatus

  datatype Direction = Asc | Desc

  function Flip(d: Direction): (r: Direction)
    ensures r != d
  {
    if d == Asc then Desc else Asc
  }

  /** The sort field (null at first) and direction after a click on `field`
      (src/components/TestCaseMonitoringDashboard.js:367-370). */
  function SortAfter(sortField: Option<string>, dir: Direction, field: string): (r: (Option<string>, Direction))
    ensures r.0 == Some(field)
  {
    if sortField == Some(field) then (sortField, Flip(dir)) else (Some(field), Asc)
  }

  /** A click on the current field flips the direction, a click on another
      field sorts by it ascending, and two clicks on a field end ascending
      or where a sort on that field started. */
  lemma SortClicks(sortField: Option<string>, dir: Direction, field: string)
    ensures sortField == Some(field) ==> SortAfter(sortField, dir, field).1 == Flip(dir)
    ensures sortField != Some(field) ==> SortAfter(sortField, dir, field).1 == Asc
    ensures var (f1, d1) := SortAfter(sortField, dir, field);
      SortAfter(f1, d1, field) == (Some(field), if sortField == Some(field) then dir else Desc)
  {
  }

  /** `prev.filter(m => m !== model)` */
  function RemoveAll(models: seq<string>, model: string): (r: seq<string>)
    ensures model !in r
    ensures forall x :: x in r <==> x in models && x != model
    ensures forall x :: x != model ==> multiset(r)[x] == multiset(models)[x]
  {
    if models == [] then []
    else
      var prior := RemoveAll(models[..|models| - 1], model);
      var last := models[|models| - 1];
      assert models == models[..|models| - 1] + [last];
      if last == model then prior else prior + [last]
  }

  /** The update in `handleModelSelectionToggle`
      (src/components/TestCaseMonitoringDashboard.js:390-398). */
  function ToggleSelection(models: seq<string>, model: string): (r: seq<string>)
    ensures forall x :: x in r <==> (x in models <==> x != model)
  {
    if model in models then RemoveAll(models, model) else models + [model]
  }

  /** An absent model is appended at the end; a present one loses every copy
      while the others keep their order and multiplicity. */
  lemma ToggleSelectionEffect(models: seq<string>, model: string)
    ensures model !in models ==> ToggleSelection(models, model) == models + [model]
    ensures model in models ==> model !in ToggleSelection(models, model)
    ensures forall x :: x != model ==> multiset(ToggleSelection(models, model))[x] == multiset(models)[x]
  {
  }

  /** `RemoveAll` works piecewise, so the remaining models keep their order. */
  lemma {:induction false} RemoveAllConcat(front: seq<string>, back: seq<string>, model: string)
    ensures RemoveAll(front + back, model) == RemoveAll(front, model) + RemoveAll(back, model)
    decreases |back|
  {
    if back == [] {
      assert front + back == front;
    } else {
      var whole := front + back;
      assert whole[..|whole| - 1] == front + back[..|back| - 1];
      assert whole[|whole| - 1] == back[|back| - 1];
      RemoveAllConcat(front, back[..|back| - 1], model);
    }
  }

  /** Toggling an absent model twice restores the selection. */
  lemma {:induction false} ToggleTwice(models: seq<string>, model: string)
    requires model !in models
    ensures ToggleSelection(ToggleSelection(models, model), model) == models
  {
    var extended := models + [model];
    assert extended[..|extended| - 1] == models;
    NothingToRemove(models, model);
  }

  lemma {:induction false} NothingToRemove(models: seq<string>, model: string)
    requires model !in models
    ensures RemoveAll(models, model) == models
  {
    if models != [] {
      NothingToRemove(models[..|models| - 1], model);
      assert models == models[..|models| - 1] + [models[|models| - 1]];
    }
  }

  /** A selection without repeats stays without repeats. */
  lemma ToggleKeepsDistinct(models: seq<string>, model: string)
    requires forall x :: x in models ==> multiset(models)[x] == 1
    ensures forall x :: x in ToggleSelection(models, model) ==> multiset(ToggleSelection(models, model))[x] == 1
  {
    var r := ToggleSelection(models, model);
    if model !in models {
      assert multiset(r) == multiset(models) + multiset{model};
    }
  }

  /** The dashboard's state fields that the handlers update. */
  class Dashboard {
    var selectedManufacturer: string
    var selectedModel: string
    var selectedModels: seq<string>
    var isComparisonMode: bool
    var showAllManufacturerModels: bool
    var activeView: string
    var sortField: Option<string>
    var sortDirection: Direction
    var filteredTestCases: seq<TestStatus.TestCase>
    var error: Option<string>

    /** The initial state (src/components/TestCaseMonitoringDashboard.js:12-24). */
    constructor ()
      ensures selectedManufacturer == "" && selectedModel == "" && selectedModels == []
      ensures !isComparisonMode && !showAllManufacturerModels && activeView == "all"
      ensures sortField == None && sortDirection == Asc && filteredTestCases == [] && error == None
    {
      selectedManufacturer := "";
      selectedModel := "";
      selectedModels := [];
      isComparisonMode := false;
      showAllManufacturerModels := false;
      activeView := "all";
      sortField := None;
      sortDirection := Asc;
      filteredTestCases := [];
      error := None;
    }

    /** `handleSort` (src/components/TestCaseMonitoringDashboard.js:367-370). */
    method HandleSort(field: string)
      modifies this
      ensures (sortField, sortDirection) == SortAfter(old(sortField), old(sortDirection), field)
      ensures sortField == Some(field)
      ensures selectedManufacturer == old(selectedManufacturer) && selectedModel == old(selectedModel)
      ensures selectedModels == old(selectedModels) && isComparisonMode == old(isComparisonMode)
      ensures showAllManufacturerModels == old(showAllManufacturerModels) && activeView == old(activeView)
      ensures filteredTestCases == old(filteredTestCases) && error == old(error)
    {
      if sortField == Some(field) {
        sortDirection := if sortDirection == Asc then Desc else Asc;
      } else {
        sortField := Some(field);
        sortDirection := Asc;
      }
    }

    /** `handleManufacturerChange` (src/components/TestCaseMonitoringDashboard.js:372-381):
        a new manufacturer clears the model choice, the comparison and the sort. */
    method HandleManufacturerChange(manufacturer: string)
      modifies this
      ensures selectedManufacturer == manufacturer && selectedModel == "" && selectedModels == []
      ensures !showAllManufacturerModels && !isComparisonMode && sortField == None && error == None
      ensures sortDirection == old(sortDirection) && activeView == old(activeView)
      ensures filteredTestCases == old(filteredTestCases)
    {
      selectedManufacturer := manufacturer;
      selectedModel := "";
      selectedModels := [];
      showAllManufacturerModels := false;
      isComparisonMode := false;
      sortField := None;
      error := None;
    }

    /** `handleModelChange` (src/components/TestCaseMonitoringDashboard.js:383-388):
        ignored in comparison mode, otherwise a new model with no sort and no rows. */
    method HandleModelChange(model: string)
      modifies this
      ensures old(isComparisonMode) ==> unchanged(this)
      ensures !old(isComparisonMode) ==>
        selectedModel == model && sortField == None && filteredTestCases == []
        && selectedManufacturer == old(selectedManufacturer) && selectedModels == old(selectedModels)
        && isComparisonMode == old(isComparisonMode) && showAllManufacturerModels == old(showAllManufacturerModels)
        && activeView == old(activeView) && sortDirection == old(sortDirection) && error == old(error)
    {
      if isComparisonMode {
        return;
      }
      selectedModel := model;
      sortField := None;
      filteredTestCases := [];
    }

    /** `handleModelSelectionToggle` (src/components/TestCaseMonitoringDashboard.js:390-398). */
    method HandleModelSelectionToggle(model: string)
      modifies this
      ensures selectedModels == ToggleSelection(old(selectedModels), model)
      ensures selectedManufacturer == old(selectedManufacturer) && selectedModel == old(selectedModel)
      ensures isComparisonMode == old(isComparisonMode) && showAllManufacturerModels == old(showAllManufacturerModels)
      ensures activeView == old(activeView) && sortField == old(sortField) && sortDirection == old(sortDirection)
      ensures filteredTestCases == old(filteredTestCases) && error == old(error)
    {
      if model in selectedModels {
        selectedModels := RemoveAll(selectedModels, model);
      } else {
        selectedModels := selectedModels + [model];
      }
    }

    /** `toggleComparisonMode` (src/components/TestCaseMonitoringDashboard.js:400-415):
        entering selects the single model if it is not selected yet; leaving
        makes the first selected model the single one. */
    method ToggleComparisonMode()
      modifies this
      ensures isComparisonMode == !old(isComparisonMode)
      ensures isComparisonMode && old(selectedModel) != "" && old(selectedModel) !in old(selectedModels)
        ==> selectedModels == [old(selectedModel)]
      ensures !(isComparisonMode && old(selectedModel) != "" && old(selectedModel) !in old(selectedModels))
        ==> selectedModels == old(selectedModels)
      ensures !isComparisonMode && |old(selectedModels)| > 0 ==> selectedModel == old(selectedModels)[0]
      ensures !(!isComparisonMode && |old(selectedModels)| > 0) ==> selectedModel == old(selectedModel)
      ensures isComparisonMode && old(selectedModel) != "" ==> selectedModel in selectedModels
      ensures selectedManufacturer == old(selectedManufacturer) && showAllManufacturerModels == old(showAllManufacturerModels)
      ensures activeView == old(activeView) && sortField == old(sortField) && sortDirection == old(sortDirection)
      ensures filteredTestCases == old(filteredTestCases) && error == old(error)
    {
      var newMode := !isComparisonMode;
      isComparisonMode := newMode;
      if newMode {
        if selectedModel != "" && selectedModel !in selectedModels {
          selectedModels := [selectedModel];
        }
      } else {
        if |selectedModels| > 0 {
          selectedModel := selectedModels[0];
        }
      }
    }

    /** `toggleAllManufacturerModels` (src/components/TestCaseMonitoringDashboard.js:417-434):
        refused with an alert when no manufacturer is chosen; otherwise the
        show-all flag and comparison mode flip together, and switching off
        keeps only the single model. */
    method ToggleAllManufacturerModels() returns (alerted: bool)
      modifies this
      ensures alerted <==> old(selectedManufacturer) == ""
      ensures alerted ==> unchanged(this)
      ensures !alerted ==> (showAllManufacturerModels == !old(showAllManufacturerModels)
                            && isComparisonMode == showAllManufacturerModels)
      ensures !alerted && showAllManufacturerModels ==> selectedModels == old(selectedModels)
      ensures !alerted && !showAllManufacturerModels ==>
        selectedModels == (if old(selectedModel) != "" then [old(selectedModel)] else [])
      ensures !alerted ==> (selectedManufacturer == old(selectedManufacturer) && selectedModel == old(selectedModel)
                            && activeView == old(activeView) && sortField == old(sortField)
                            && sortDirection == old(sortDirection)
                            && filteredTestCases == old(filteredTestCases) && error == old(error))
    {
      if selectedManufacturer == "" {
        return true;
      }
      var newState := !showAllManufacturerModels;
      showAllManufacturerModels := newState;
      isComparisonMode := newState;
      if !newState {
        selectedModels := [];
        if selectedModel != "" {
          selectedModels := [selectedModel];
        }
      }
      return false;
    }

    /** `toggleView` (src/components/TestCaseMonitoringDashboard.js:444-450): the
        recent-changes view is refused with an alert in comparison mode. */
    method ToggleView(view: string) returns (alerted: bool)
      modifies this
      ensures alerted <==> old(isComparisonMode) && view == "changes"
      ensures alerted ==> unchanged(this)
      ensures !alerted ==> activeView == view
      ensures !alerted ==> (selectedManufacturer == old(selectedManufacturer) && selectedModel == old(selectedModel)
                            && selectedModels == old(selectedModels) && isComparisonMode == old(isComparisonMode)
                            && showAllManufacturerModels == old(showAllManufacturerModels)
                            && sortField == old(sortField) && sortDirection == old(sortDirection)
                            && filteredTestCases == old(filteredTestCases) && error == old(error))
    {
      if isComparisonMode && view == "changes" {
        return true;
      }
      activeView := view;
      return false;
    }
  }

  /** Switching show-all on and off again with a single model chosen leaves
      comparison mode with exactly that model selected. */
  method ShowAllTwice(d: Dashboard)
    requires d.selectedManufacturer != "" && d.selectedModel != "" && !d.showAllManufacturerModels
    modifies d
    ensures !d.showAllManufacturerModels && !d.isComparisonMode && d.selectedModels == [old(d.selectedModel)]
  {
    var a1 := d.ToggleAllManufacturerModels();
    var a2 := d.ToggleAllManufacturerModels();
  }
}
