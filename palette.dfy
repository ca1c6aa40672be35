/** The eight list colours the app offers, and the names it stores for
    them in a list's `colorString`. */
module Palette {

  datatype Color = Red | Orange | Yellow | Green | Blue | Purple | Gray | Pink

  /** The stored name of a palette colour. */
  function Name(c: Color): (s: string)
    ensures IsPaletteName(s)
  {
    match c
    case Red => "red"
    case Orange => "orange"
    case Yellow => "yellow"
    case Green => "green"
    case Blue => "blue"
    case Purple => "purple"
    case Gray => "gray"
    case Pink => "pink"
  }

  predicate IsPaletteName(s: string) {
    s == "red" || s == "orange" || s == "yellow" || s == "green"
    || s == "blue" || s == "purple" || s == "gray" || s == "pink"
  }

  /** Distinct colours have distinct names. */
  lemma NameInjective(a: Color, b: Color)
    ensures Name(a) == Name(b) ==> a == b
  {
  }
}
