/** The second version's list value and the home screen's search over
    lists (`ListView.filteredLists`). */
module ListViewV2 {
  import opened Seqs
  import opened Text

  /** Stands for a `UUID`; only equality matters. */
  type Uuid = nat

  /** The colours a second-version list can hold: the two seeds and the
      eight of the colour picker. */
  datatype ListColor = Orange | Red | Yellow | Purple | Blue | Indigo | Green | Mint

  datatype ListModel = ListModel(id: Uuid, listTitle: string, listColor: ListColor)

  /** A list is shown for `searchText` when the search is empty or its
      lower-cased title contains the lower-cased search. */
  predicate Shown(searchText: string, l: ListModel) {
    searchText == "" || Contains(Lower(l.listTitle), Lower(searchText))
  }

  function FilteredLists(lists: seq<ListModel>, searchText: string): (r: seq<ListModel>)
    ensures searchText == "" ==> r == lists
    ensures forall l :: l in r <==> l in lists && Shown(searchText, l)
    ensures IsSubsequence(r, lists)
  {
    FilterIsSubsequence(lists, l => Shown(searchText, l));
    FilterAll(lists, searchText);
    Filter(lists, l => Shown(searchText, l))
  }

  /** With an empty search every list passes the filter. */
  lemma {:induction false} FilterAll(lists: seq<ListModel>, searchText: string)
    ensures searchText == "" ==> Filter(lists, l => Shown(searchText, l)) == lists
  {
    if lists != [] && searchText == "" {
      FilterAll(lists[1..], searchText);
      assert lists == [lists[0]] + lists[1..];
    }
  }

  /** Searches that differ only in letter case select the same lists. */
  lemma SearchIsCaseInsensitive(lists: seq<ListModel>, s1: string, s2: string)
    requires Lower(s1) == Lower(s2)
    ensures FilteredLists(lists, s1) == FilteredLists(lists, s2)
  {
    assert (s1 == "") == (s2 == "") by {
      assert |Lower(s1)| == |s1| && |Lower(s2)| == |s2|;
    }
    if s1 != "" {
      FilterCongruent(lists, l => Shown(s1, l), l => Shown(s2, l));
    }
  }

  /** Narrowing the search narrows the result: if `longer` contains
      `shorter`, every list found for `longer` is found for `shorter`. */
  lemma NarrowerSearchFindsFewer(lists: seq<ListModel>, shorter: string, longer: string)
    requires Contains(longer, shorter)
    ensures forall l :: l in FilteredLists(lists, longer) ==> l in FilteredLists(lists, shorter)
  {
    forall l | l in FilteredLists(lists, longer) ensures l in FilteredLists(lists, shorter) {
      if shorter != "" {
        assert longer != "";
        LowerKeepsContains(longer, shorter);
        ContainsTransitive(Lower(l.listTitle), Lower(longer), Lower(shorter));
      }
    }
  }
}
