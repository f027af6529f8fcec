/**
 The older palette switcher (kaya/utils/theme.py): a fixed table of named
 palettes with "matrix" as the default, applied by name and persisted in
 the same one-line store file.
 */
module Themes {
  import opened Text
  import opened ThemeStore

  /** `THEMES.keys()`, in declaration order. */
  const Names: seq<string> := ["matrix", "amber", "cyan", "mag", "mono"]

  const Default: string := "matrix"

  /** `available()`: every palette name, in declaration order, the default
      first. */
  function Available(): (ns: seq<string>)
    ensures ns == Names && |ns| == 5 && ns[0] == Default
    ensures forall i, j :: 0 <= i < j < |ns| ==> ns[i] != ns[j]
  {
    Names
  }

  /** What `apply_theme` does: the palette it styles with and the name it
      returns. */
  datatype Applied = Applied(palette: string, name: string)

  /** `apply_theme`: a known name is applied and returned as given; an
      unknown one applies the default palette and returns the default name,
      so the palette used and the name reported always agree. */
  function ApplyTheme(name: string): (r: Applied)
    ensures r.palette == r.name && r.name in Names
    ensures name in Names ==> r.name == name
    ensures name !in Names ==> r.name == Default
  {
    var palette := if name in Names then name else Default;
    Applied(palette, if name !in Names then Default else name)
  }

  /** The name `load_and_apply` asks for: the stripped file text, or the
      default when the file is missing, unreadable or blank. */
  function StoredName(st: Store): (name: string)
    ensures name != ""
    ensures st.Holds? && Strip(st.text) != "" ==> name == Strip(st.text)
    ensures !st.Holds? || Strip(st.text) == "" ==> name == Default
  {
    match st
    case Holds(t) => if Strip(t) != "" then Strip(t) else Default
    case _ => Default
  }

  /** `load_and_apply`: the name applied at start-up, always a palette name. */
  function LoadAndApply(st: Store): (r: Applied)
    ensures r.name in Names && r.palette == r.name
    ensures !st.Holds? ==> r.name == Default
    ensures st.Holds? && Strip(st.text) in Names ==> r.name == Strip(st.text)
    ensures st.Holds? && Strip(st.text) !in Names ==> r.name == Default
  {
    ApplyTheme(StoredName(st))
  }

  /** `save_current`: stores the stripped name; a failed write is ignored. */
  function SaveCurrent(st: Store, writable: bool, name: string): (r: Store)
    ensures writable ==> r == Holds(Strip(name))
    ensures !writable ==> r == st
  {
    Write(st, writable, Strip(name))
  }

  /** Saving a palette name and loading it back applies that palette. */
  lemma SaveThenLoad(st: Store, name: string)
    requires name in Names
    ensures LoadAndApply(SaveCurrent(st, true, name)) == Applied(name, name)
  {
    assert NoSpace(name);
    NoSpaceStrip(name);
  }
}
