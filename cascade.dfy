/**
 * `getOverallDefault` and `getSectionValue`: the precedence rules by which a
 * setting falls back from one source to the next. An empty string always
 * counts as "not set".
 */
module Cascade {
  import opened Ini

  /**
   * The reference definition of precedence: the first non-empty candidate,
   * candidates ordered from highest precedence to lowest, or `last` when
   * every candidate is empty.
   */
  function FirstNonEmpty(candidates: seq<string>, last: string): string {
    if candidates == [] then last
    else if candidates[0] != "" then candidates[0]
    else FirstNonEmpty(candidates[1..], last)
  }

  lemma FirstNonEmptyOfTwo(first: string, second: string, last: string)
    ensures FirstNonEmpty([first, second], last)
         == if first != "" then first else if second != "" then second else last
  {
    assert [first, second][1..] == [second];
    assert [second][1..] == [];
    assert FirstNonEmpty([], last) == last;
    assert FirstNonEmpty([second], last) == (if second != "" then second else last);
    assert FirstNonEmpty([first, second], last) == (if first != "" then first else FirstNonEmpty([second], last));
  }

  /**
   * `getOverallDefault`: the command-line flag when non-empty, else the
   * DEFAULT section's value when non-empty, else the built-in constant.
   */
  function OverallDefault(f: File, builtin: string, flag: string, key: string): (r: string)
    ensures r in {flag, Value(DefaultSection(f), key), builtin}
    ensures r == "" <==> flag == "" && Value(DefaultSection(f), key) == "" && builtin == ""
  {
    if |flag| != 0 then flag
    else
      var iniValue := Value(DefaultSection(f), key);
      if |iniValue| != 0 then iniValue else builtin
  }

  /** `getSectionValue`: the section's own value when non-empty, else the fallback. */
  function SectionValue(s: Section, key: string, fallback: string): (r: string)
    ensures r in {Value(s, key), fallback}
    ensures r == "" <==> Value(s, key) == "" && fallback == ""
  {
    var v := Value(s, key);
    if |v| != 0 then v else fallback
  }

  /** The overall default is the first non-empty of flag and DEFAULT value, else the built-in constant. */
  lemma OverallDefaultPrecedence(f: File, builtin: string, flag: string, key: string)
    ensures OverallDefault(f, builtin, flag, key) == FirstNonEmpty([flag, Value(DefaultSection(f), key)], builtin)
  {
    FirstNonEmptyOfTwo(flag, Value(DefaultSection(f), key), builtin);
  }

  /** A section's value is taken when non-empty, else the fallback. */
  lemma SectionValuePrecedence(s: Section, key: string, fallback: string)
    ensures SectionValue(s, key, fallback) == FirstNonEmpty([Value(s, key)], fallback)
  {
    assert [Value(s, key)][1..] == [];
  }

  /**
   * No source of lower precedence ever wins: if candidate `i` is non-empty,
   * the result is a non-empty candidate at `i` or before it.
   */
  lemma {:induction false} FirstNonEmptyPrecedence(candidates: seq<string>, last: string, i: nat)
    requires i < |candidates| && candidates[i] != ""
    ensures exists j :: 0 <= j <= i && FirstNonEmpty(candidates, last) == candidates[j] != ""
  {
    if candidates[0] == "" {
      FirstNonEmptyPrecedence(candidates[1..], last, i - 1);
      var j :| 0 <= j <= i - 1 && FirstNonEmpty(candidates[1..], last) == candidates[1..][j] != "";
      assert candidates[j + 1] == candidates[1..][j];
    }
  }

  /** The candidates ahead of the first non-empty one are all empty, and `last` is reached only when all are. */
  lemma {:induction false} FirstNonEmptyFallsThrough(candidates: seq<string>, last: string)
    ensures FirstNonEmpty(candidates, last) == last
         || (exists j :: 0 <= j < |candidates| && FirstNonEmpty(candidates, last) == candidates[j] != ""
               && forall t :: 0 <= t < j ==> candidates[t] == "")
    ensures (forall t :: 0 <= t < |candidates| ==> candidates[t] == "") ==> FirstNonEmpty(candidates, last) == last
  {
    if candidates != [] && candidates[0] == "" {
      var rest := candidates[1..];
      FirstNonEmptyFallsThrough(rest, last);
      if FirstNonEmpty(rest, last) != last {
        var j :| 0 <= j < |rest| && FirstNonEmpty(rest, last) == rest[j] != ""
          && forall t :: 0 <= t < j ==> rest[t] == "";
        assert candidates[j + 1] == rest[j];
        forall t | 0 <= t < j + 1 ensures candidates[t] == "" {
          if t > 0 { assert candidates[t] == rest[t - 1]; }
        }
      }
      if forall t :: 0 <= t < |candidates| ==> candidates[t] == "" {
        forall t | 0 <= t < |rest| ensures rest[t] == "" {
          assert rest[t] == candidates[t + 1];
        }
      }
    }
  }

  /**
   * The whole cascade of a per-account setting: the section's value, then
   * the command-line flag, then the DEFAULT section's value, then the
   * built-in constant.
   */
  lemma SectionValueCascade(f: File, s: Section, key: string, builtin: string, flag: string)
    ensures SectionValue(s, key, OverallDefault(f, builtin, flag, key))
         == FirstNonEmpty([Value(s, key), flag, Value(DefaultSection(f), key)], builtin)
  {
    var c := [Value(s, key), flag, Value(DefaultSection(f), key)];
    assert c[1..] == [flag, Value(DefaultSection(f), key)];
    OverallDefaultPrecedence(f, builtin, flag, key);
  }
}
