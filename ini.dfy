/**
 * The shape of a loaded INI file as the configuration code sees it: an
 * ordered list of sections, each an ordered list of `key = value` lines.
 * The INI library always provides a section named `DEFAULT` (the keys that
 * stand before any section header), merges repeated section headers so
 * that section names are unique, and keeps key names unique within a
 * section. The model does not enforce either uniqueness: it states unique
 * key names as `UniqueNames` where a property depends on it, and a file
 * with a repeated section name is outside what the library produces.
 */
module Ini {

  datatype KeyValue = KeyValue(name: string, value: string)

  datatype Section = Section(name: string, keys: seq<KeyValue>)

  datatype File = File(sections: seq<Section>)

  /** The name the INI library gives to the unnamed leading section. */
  const DefaultSectionName: string := "DEFAULT"

  /** The key names of a section, in file order. */
  function KeyNames(keys: seq<KeyValue>): (names: seq<string>)
    ensures |names| == |keys|
    ensures forall i :: 0 <= i < |keys| ==> names[i] == keys[i].name
  {
    if keys == [] then [] else [keys[0].name] + KeyNames(keys[1..])
  }

  /** The section has a line for key `name` (whatever its value, "" included). */
  predicate HasKey(s: Section, name: string) {
    name in KeyNames(s.keys)
  }

  /** No two lines of `keys` share a name. */
  predicate UniqueNames(keys: seq<KeyValue>) {
    forall i, j :: 0 <= i < j < |keys| ==> keys[i].name != keys[j].name
  }

  /**
   * `section.Key(name).String()`: the value on the section's line for
   * `name`, or "" when the section has no such line. Values are taken as
   * written: the INI library's `%(key)s` references are not expanded.
   */
  function Value(s: Section, name: string): (v: string)
    ensures !HasKey(s, name) ==> v == ""
    ensures HasKey(s, name) ==> KeyValue(name, v) in s.keys
  {
    ValueIn(s.keys, name)
  }

  function ValueIn(keys: seq<KeyValue>, name: string): (v: string)
    ensures name !in KeyNames(keys) ==> v == ""
    ensures name in KeyNames(keys) ==> KeyValue(name, v) in keys
  {
    if keys == [] then ""
    else if keys[0].name == name then keys[0].value
    else ValueIn(keys[1..], name)
  }

  /** `cfg.Section("")`: the DEFAULT section, or an empty one if the file had none. */
  function DefaultSection(f: File): (d: Section)
    ensures d.name == DefaultSectionName
    ensures d in f.sections || d.keys == []
    ensures (exists i :: 0 <= i < |f.sections| && f.sections[i].name == DefaultSectionName) ==> d in f.sections
    ensures (forall i :: 0 <= i < |f.sections| ==> f.sections[i].name != DefaultSectionName) ==> d == Section(DefaultSectionName, [])
  {
    DefaultIn(f.sections)
  }

  function DefaultIn(sections: seq<Section>): (d: Section)
    ensures d.name == DefaultSectionName
    ensures d in sections || d.keys == []
    ensures (exists i :: 0 <= i < |sections| && sections[i].name == DefaultSectionName) ==> d in sections
    ensures (forall i :: 0 <= i < |sections| ==> sections[i].name != DefaultSectionName) ==> d == Section(DefaultSectionName, [])
  {
    if sections == [] then Section(DefaultSectionName, [])
    else if sections[0].name == DefaultSectionName then sections[0]
    else DefaultIn(sections[1..])
  }
}
