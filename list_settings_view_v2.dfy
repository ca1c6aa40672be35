/** The second version's list settings screen: Save edits the list only
    when a name has been entered. */
module ListSettingsViewV2 {
  import opened Wrappers
  import opened ListViewV2
  import opened ListViewModelV2

  /** The Save button. Returns whether the screen is dismissed, which
      happens exactly when the name is non-empty and the update ran. */
  method Save(vm: ListViewModel, listID: Uuid, listName: string, listColor: ListColor) returns (dismissed: bool)
    modifies vm
    ensures dismissed <==> listName != ""
    ensures dismissed ==> vm.lists == Updated(old(vm.lists), listID, listName, listColor)
    ensures !dismissed ==> vm.lists == old(vm.lists)
    ensures old(vm.Valid()) ==> vm.Valid()
  {
    dismissed := false;
    if listName != "" {
      vm.UpdateList(listID, listName, listColor);
      dismissed := true;
    }
  }

  /** Saving never gives a list an empty title. */
  lemma SaveNeverBlanksATitle(ls: seq<ListModel>, listID: Uuid, listName: string, listColor: ListColor)
    requires listName != ""
    requires forall k | 0 <= k < |ls| :: ls[k].listTitle != ""
    ensures forall k | 0 <= k < |ls| :: Updated(ls, listID, listName, listColor)[k].listTitle != ""
  {
    var r := Updated(ls, listID, listName, listColor);
    forall k | 0 <= k < |ls| ensures r[k].listTitle != "" {
      if FirstIndexOf(ls, listID) != Some(k) {
        assert r[k] == ls[k];
      }
    }
  }
}
