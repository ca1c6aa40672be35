/** The second version's list store: an observable array of lists that the
    screens append to and edit in place. */
module ListViewModelV2 {
  import opened Wrappers
  import opened ListViewV2

  /** No two lists share an id. */
  predicate IdsDistinct(ls: seq<ListModel>) {
    forall i, j | 0 <= i < j < |ls| :: ls[i].id != ls[j].id
  }

  predicate Fresh(ls: seq<ListModel>, id: Uuid) {
    forall k | 0 <= k < |ls| :: ls[k].id != id
  }

  /** `lists.firstIndex(where: { $0.id == listID })`. */
  function FirstIndexOf(ls: seq<ListModel>, id: Uuid): (r: Option<nat>)
    ensures r.Some? ==> r.value < |ls| && ls[r.value].id == id
    ensures r.Some? ==> forall k | 0 <= k < r.value :: ls[k].id != id
    ensures r.None? <==> Fresh(ls, id)
  {
    if ls == [] then None
    else if ls[0].id == id then Some(0)
    else match FirstIndexOf(ls[1..], id)
      case None => None
      case Some(k) => Some(k + 1)
  }

  /** The lists after `updateList(listID:listName:listColor:)`: the first
      list with that id takes the new title and colour, all others stay. */
  function Updated(ls: seq<ListModel>, id: Uuid, name: string, color: ListColor): (r: seq<ListModel>)
    ensures |r| == |ls|
    ensures forall k | 0 <= k < |ls| :: r[k].id == ls[k].id
    ensures Fresh(ls, id) ==> r == ls
    ensures forall k | 0 <= k < |ls| && FirstIndexOf(ls, id) != Some(k) :: r[k] == ls[k]
    ensures forall k | 0 <= k < |ls| && FirstIndexOf(ls, id) == Some(k) ::
              r[k].listTitle == name && r[k].listColor == color
  {
    match FirstIndexOf(ls, id)
    case None => ls
    case Some(k) => ls[k := ls[k].(listTitle := name, listColor := color)]
  }

  /** Appending a list with a fresh id keeps ids distinct. */
  lemma AppendFreshKeepsDistinct(ls: seq<ListModel>, l: ListModel)
    requires IdsDistinct(ls) && Fresh(ls, l.id)
    ensures IdsDistinct(ls + [l])
  {
    var r := ls + [l];
    forall i, j | 0 <= i < j < |r| ensures r[i].id != r[j].id {
      if j == |ls| {
        assert r[i] == ls[i];
      } else {
        assert r[i] == ls[i] && r[j] == ls[j];
      }
    }
  }

  /** Updating keeps ids distinct, since it keeps every id in place. */
  lemma UpdatedKeepsDistinct(ls: seq<ListModel>, id: Uuid, name: string, color: ListColor)
    requires IdsDistinct(ls)
    ensures IdsDistinct(Updated(ls, id, name, color))
  {
    var r := Updated(ls, id, name, color);
    forall i, j | 0 <= i < j < |r| ensures r[i].id != r[j].id {
      assert r[i].id == ls[i].id && r[j].id == ls[j].id;
    }
  }

  /** With distinct ids the first match is the only one: the list holding
      `id` is the one that takes the new title and colour. */
  lemma UpdatedFindsTheList(ls: seq<ListModel>, k: nat, name: string, color: ListColor)
    requires IdsDistinct(ls) && k < |ls|
    ensures Updated(ls, ls[k].id, name, color)[k] == ListModel(ls[k].id, name, color)
  {
    var id := ls[k].id;
    assert !Fresh(ls, id);
    var j := FirstIndexOf(ls, id).value;
    assert ls[j].id == ls[k].id;
    assert j == k;
  }

  /** Repeating an update changes nothing further. */
  lemma UpdatedIdempotent(ls: seq<ListModel>, id: Uuid, name: string, color: ListColor)
    ensures Updated(Updated(ls, id, name, color), id, name, color) == Updated(ls, id, name, color)
  {
    var once := Updated(ls, id, name, color);
    var twice := Updated(once, id, name, color);
    assert FirstIndexOf(once, id) == FirstIndexOf(ls, id) by {
      SameIdsSameIndex(ls, once, id);
    }
    assert |twice| == |once|;
    forall k | 0 <= k < |once| ensures twice[k] == once[k] {
      if FirstIndexOf(ls, id) == Some(k) {
        assert twice[k].listTitle == once[k].listTitle;
      }
    }
  }

  /** Lookups by id depend only on the sequence of ids. */
  lemma {:induction false} SameIdsSameIndex(a: seq<ListModel>, b: seq<ListModel>, id: Uuid)
    requires |a| == |b| && forall k | 0 <= k < |a| :: a[k].id == b[k].id
    ensures FirstIndexOf(a, id) == FirstIndexOf(b, id)
  {
    if a != [] && a[0].id != id {
      SameIdsSameIndex(a[1..], b[1..], id);
    }
  }

  class ListViewModel {
    var lists: seq<ListModel>

    predicate Valid()
      reads this
    {
      IdsDistinct(lists)
    }

    /** The seed: "Assignments" in red and "House Chores" in blue, each
        with its own fresh id. */
    constructor(assignmentsId: Uuid, choresId: Uuid)
      requires assignmentsId != choresId
      ensures lists == [ListModel(assignmentsId, "Assignments", Red), ListModel(choresId, "House Chores", Blue)]
      ensures Valid()
    {
      lists := [ListModel(assignmentsId, "Assignments", Red), ListModel(choresId, "House Chores", Blue)];
    }

    /** `addList`: one new list at the end; `newId` stands for the fresh
        `UUID()` the new value draws. */
    method AddList(listName: string, listColor: ListColor, newId: Uuid)
      requires Valid() && Fresh(lists, newId)
      modifies this
      ensures lists == old(lists) + [ListModel(newId, listName, listColor)]
      ensures Valid()
    {
      AppendFreshKeepsDistinct(lists, ListModel(newId, listName, listColor));
      lists := lists + [ListModel(newId, listName, listColor)];
    }

    /** `updateList`: finds the first list with `listID` and sets its
        title and colour; an absent id changes nothing. */
    method UpdateList(listID: Uuid, listName: string, listColor: ListColor)
      modifies this
      ensures lists == Updated(old(lists), listID, listName, listColor)
      ensures old(Valid()) ==> Valid()
    {
      if IdsDistinct(lists) {
        UpdatedKeepsDistinct(lists, listID, listName, listColor);
      }
      var found := FirstIndexOf(lists, listID);
      if found.Some? {
        var index := found.value;
        lists := lists[index := lists[index].(listTitle := listName)];
        lists := lists[index := lists[index].(listColor := listColor)];
      }
    }
  }
}
