/** The first version's list settings screen: the draft name and colour it
    starts from, the stored-name decoding it uses, and Save. */
module ListSettingsView {
  import opened Wrappers
  import opened Palette
  import opened Store
  import StatisticView

  /** The colour swatches, in display order. */
  const Colors: seq<Color> := [Orange, Red, Yellow, Green, Blue, Purple, Gray, Pink]

  /** The global `colorFromString(_: String)`: the eight names map to their
      colour and any other string to orange. */
  function ColorFromString(colorString: string): (c: Color)
    ensures IsPaletteName(colorString) ==> Name(c) == colorString
    ensures !IsPaletteName(colorString) ==> c == Orange
  {
    match colorString
    case "orange" => Orange
    case "red" => Red
    case "yellow" => Yellow
    case "green" => Green
    case "blue" => Blue
    case "purple" => Purple
    case "gray" => Gray
    case "pink" => Pink
    case _ => Orange
  }

  /** Every swatch has a name that decodes back to it, and the swatches are
      the whole palette. */
  lemma SwatchesRoundTrip()
    ensures forall c: Color :: c in Colors
    ensures forall k | 0 <= k < |Colors| :: ColorFromString(Name(Colors[k])) == Colors[k]
  {
    forall c: Color ensures c in Colors {
      match c
      case Orange => assert Colors[0] == c;
      case Red => assert Colors[1] == c;
      case Yellow => assert Colors[2] == c;
      case Green => assert Colors[3] == c;
      case Blue => assert Colors[4] == c;
      case Purple => assert Colors[5] == c;
      case Gray => assert Colors[6] == c;
      case Pink => assert Colors[7] == c;
    }
    forall k | 0 <= k < |Colors| ensures ColorFromString(Name(Colors[k])) == Colors[k] {
      NameInjective(ColorFromString(Name(Colors[k])), Colors[k]);
    }
  }

  /** On a string that is no colour name, this screen falls back to orange
      where the statistics screen falls back to gray; on names they agree. */
  lemma FallbacksDiffer(colorString: string)
    ensures !IsPaletteName(colorString) ==>
              ColorFromString(colorString) == Orange && StatisticView.ColorFromString(Some(colorString)) == Gray
    ensures IsPaletteName(colorString) ==>
              ColorFromString(colorString) == StatisticView.ColorFromString(Some(colorString))
  {
    if IsPaletteName(colorString) {
      NameInjective(ColorFromString(colorString), StatisticView.ColorFromString(Some(colorString)));
    }
  }

  /** The screen's two drafts. */
  datatype Draft = Draft(listName: string, selectedColor: Color)

  /** `init(existingList:)`: the list's name or "", and the decoded colour
      when one is stored, else the initial orange. */
  function InitDraft(l: TaskList): (d: Draft)
    ensures l.name.Some? ==> d.listName == l.name.value
    ensures l.name.None? ==> d.listName == ""
    ensures l.colorString.None? ==> d.selectedColor == Orange
    ensures l.colorString.Some? ==> d.selectedColor == ColorFromString(l.colorString.value)
    ensures l.colorString.Some? && !IsPaletteName(l.colorString.value) ==> d.selectedColor == Orange
  {
    Draft(l.name.GetOr(""), if l.colorString.Some? then ColorFromString(l.colorString.value) else Orange)
  }

  /** A list stored with a palette name opens with that colour selected. */
  lemma InitRecoversStoredColor(l: TaskList, c: Color)
    requires l.colorString == Some(Name(c))
    ensures InitDraft(l).selectedColor == c
  {
    NameInjective(ColorFromString(Name(c)), c);
  }

  /** `updateList()`: writes the draft name and the string the selected
      colour describes itself as (`colorDescription`, produced outside
      this model) into the edited list, the one at position `k`. */
  method UpdateList(store: Store, k: nat, listName: string, colorDescription: string)
    requires store.Valid() && k < |store.lists|
    modifies store
    ensures store.Valid()
    ensures store.tasks == old(store.tasks)
    ensures store.lists == old(store.lists)[k := old(store.lists[k]).(name := Some(listName), colorString := Some(colorDescription))]
  {
    var existingList := store.lists[k];
    store.SetList(k, existingList.(name := Some(listName)));
    store.SetList(k, store.lists[k].(colorString := Some(colorDescription)));
  }
}
