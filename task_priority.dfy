/** The task priority enumeration the add and edit forms pick from. Its
    declaration is not part of this model; it is taken to have the three
    cases Low, Medium and High with their names as raw values. */
module TaskPriority {
  import opened Wrappers

  datatype Priority = Low | Medium | High

  function RawValue(p: Priority): (s: string)
    ensures s == "Low" || s == "Medium" || s == "High"
  {
    match p
    case Low => "Low"
    case Medium => "Medium"
    case High => "High"
  }

  /** `TaskPriority(rawValue:)`: the case with that raw value, if any. */
  function FromRaw(s: string): (r: Option<Priority>)
    ensures r.Some? ==> RawValue(r.value) == s
    ensures r.None? ==> s != "Low" && s != "Medium" && s != "High"
  {
    if s == "Low" then Some(Low)
    else if s == "Medium" then Some(Medium)
    else if s == "High" then Some(High)
    else None
  }

  lemma RawValueRoundTrip(p: Priority)
    ensures FromRaw(RawValue(p)) == Some(p)
  {
  }
}
