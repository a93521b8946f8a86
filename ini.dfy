/**
 * The records an INI parser hands to a key handler. The parser itself is
 * not part of this model: a parse is the sequence of `name = value` lines it
 * reports, in file order, each with the section it sits in, plus whether
 * the parse reported an error.
 */
module Ini {
  import opened Wrappers

  /** One `name = value` line of an INI file and the section it sits in. */
  datatype IniEntry = IniEntry(section: string, name: string, value: string)

  /** Reference definition: the value the last `name` line of `section` gives, if any line does. */
  function LastValue(es: seq<IniEntry>, section: string, name: string): (r: Option<string>)
    ensures r.None? ==> forall k | 0 <= k < |es| :: es[k].section != section || es[k].name != name
    decreases |es|
  {
    if es == [] then None
    else
      var e := es[|es| - 1];
      if e.section == section && e.name == name then Some(e.value)
      else LastValue(es[..|es| - 1], section, name)
  }

  /** The lines of `section`, in file order. */
  function InSection(es: seq<IniEntry>, section: string): (r: seq<IniEntry>)
    ensures |r| <= |es|
    ensures forall k | 0 <= k < |r| :: r[k].section == section
    decreases |es|
  {
    if es == [] then []
    else
      var e := es[|es| - 1];
      InSection(es[..|es| - 1], section) + (if e.section == section then [e] else [])
  }
}
