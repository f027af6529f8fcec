/**
 `time_based_greeting` (kaya/utils/greetings.py, repeated verbatim in
 kaya/ui/terminal_page.py): a Turkish greeting chosen by the hour of the
 day, with the user's name appended when there is one. The clock and the
 time zone are not part of this model: the hour is a parameter.
 */
module Greetings {
  import opened Wrappers
  import opened Text

  /** The four parts of the day the greeting distinguishes. */
  datatype Part = Morning | Afternoon | Evening | Night

  /** 05-12 morning, 12-17 afternoon, 17-22 evening, otherwise night. */
  function PartOf(hour: int): Part {
    if 5 <= hour < 12 then Morning
    else if 12 <= hour < 17 then Afternoon
    else if 17 <= hour < 22 then Evening
    else Night
  }

  /** "Günaydın", "Tünaydın", "İyi akşamlar", "İyi geceler". */
  function Word(p: Part): (g: string)
    ensures g != [] && !EndsWith(g, ".")
  {
    match p
    case Morning => "G\U{FC}nayd\U{131}n"
    case Afternoon => "T\U{FC}nayd\U{131}n"
    case Evening => "\U{130}yi ak\U{15F}amlar"
    case Night => "\U{130}yi geceler"
  }

  /** `time_based_greeting(name)` at the given hour: the greeting, then
      `, name` when the name is truthy, then a full stop. */
  function Greeting(hour: int, name: Option<string>): (r: string)
    ensures StartsWith(r, Word(PartOf(hour))) && EndsWith(r, ".")
  {
    var g := Word(PartOf(hour));
    if name.Some? && name.value != "" then g + ", " + name.value + "." else g + "."
  }

  // ---------------------------------------------------------------------
  // Facts about the greeting

  /** The greeting changes exactly at 05:00, 12:00, 17:00 and 22:00. */
  lemma ChangesAtBoundaries(h: int)
    requires 0 <= h < 24
    ensures PartOf(h) != PartOf((h + 1) % 24) <==> (h + 1) % 24 in {5, 12, 17, 22}
  {
  }

  /** The four greetings differ from each other, so the text tells the
      part of the day. */
  lemma WordsDistinct(p: Part, q: Part)
    requires p != q
    ensures Word(p) != Word(q)
  {
    assert Word(p)[0] != Word(q)[0] || Word(p)[4] != Word(q)[4];
  }

  /** The name can be read back from the greeting: it sits between the
      greeting's comma and the full stop. A missing or empty name gives
      the bare greeting. */
  lemma NameReadBack(hour: int, name: Option<string>)
    ensures var g := Word(PartOf(hour));
      var r := Greeting(hour, name);
      && (name.Some? && name.value != "" ==> r[|g|..|g| + 2] == ", " && r[|g| + 2..|r| - 1] == name.value)
      && (name.None? || name.value == "" ==> r == g + ".")
  {
  }
}
