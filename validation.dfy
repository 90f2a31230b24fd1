/**
 * `validateConfigWithErr`: the checks a loaded INI file must pass before
 * any account is built. Sections are checked in file order and, within a
 * section, in a fixed order (unknown key, missing required key, either/or
 * keys, keys forbidden in DEFAULT); the first violation found is the result.
 *
 * The functions below specify that search; `SectionValid` states the same
 * rules declaratively; the methods at the end are the source's loops,
 * proved to compute the specification.
 */
module Validation {
  import opened Wrappers
  import opened Ini
  import opened Settings

  /** Index of the first line whose key is not on the allow-list (|keys| when there is none). */
  function FirstInvalidKey(keys: seq<KeyValue>): (i: nat)
    ensures i <= |keys|
    ensures forall t :: 0 <= t < i ==> keys[t].name in ValidKeys
    ensures i < |keys| ==> keys[i].name !in ValidKeys
  {
    if keys == [] then 0
    else if keys[0].name !in ValidKeys then 0
    else 1 + FirstInvalidKey(keys[1..])
  }

  /** Index of the first of `wanted` the section has no line for (|wanted| when it has them all). */
  function FirstAbsent(s: Section, wanted: seq<string>): (i: nat)
    ensures i <= |wanted|
    ensures forall t :: 0 <= t < i ==> HasKey(s, wanted[t])
    ensures i < |wanted| ==> !HasKey(s, wanted[i])
  {
    if wanted == [] then 0
    else if !HasKey(s, wanted[0]) then 0
    else 1 + FirstAbsent(s, wanted[1..])
  }

  /** Index of the first of `wanted` the section has a line for (|wanted| when it has none). */
  function FirstPresent(s: Section, wanted: seq<string>): (i: nat)
    ensures i <= |wanted|
    ensures forall t :: 0 <= t < i ==> !HasKey(s, wanted[t])
    ensures i < |wanted| ==> HasKey(s, wanted[i])
  {
    if wanted == [] then 0
    else if HasKey(s, wanted[0]) then 0
    else 1 + FirstPresent(s, wanted[1..])
  }

  /** How many entries of `list` equal `name`. */
  function Occurrences(list: seq<string>, name: string): nat {
    if list == [] then 0
    else Occurrences(list[..|list| - 1], name) + (if list[|list| - 1] == name then 1 else 0)
  }

  /** The `foundEitherOr` counter: matches between the lines of `keys` and EitherOrKeys. */
  function EitherOrCount(keys: seq<KeyValue>): nat {
    if keys == [] then 0
    else EitherOrCount(keys[..|keys| - 1]) + Occurrences(EitherOrKeys, keys[|keys| - 1].name)
  }

  /** The first violation in one section, checks taken in the source's order. */
  function SectionViolation(s: Section): (r: Option<ConfigError>)
    ensures r.Some? ==>
      && (r.value.InvalidKey? || r.value.MissingRequiredKey? || r.value.MoreThanOneEitherOr?
          || r.value.NoEitherOr? || r.value.UnsupportedDefaultKey?)
      && r.value.section == s.name
  {
    var isDefault := s.name == DefaultSectionName;
    var bad := FirstInvalidKey(s.keys);
    var missing := FirstAbsent(s, RequiredKeys);
    var forbidden := FirstPresent(s, DefaultForbiddenKeys);
    if bad < |s.keys| then Some(InvalidKey(s.name, s.keys[bad].name, s.keys[bad].value))
    else if !isDefault && missing < |RequiredKeys| then Some(MissingRequiredKey(s.name, RequiredKeys[missing]))
    else if !isDefault && EitherOrCount(s.keys) > 1 then Some(MoreThanOneEitherOr(s.name))
    else if !isDefault && EitherOrCount(s.keys) == 0 then Some(NoEitherOr(s.name))
    else if isDefault && forbidden < |DefaultForbiddenKeys| then
      Some(UnsupportedDefaultKey(s.name, DefaultForbiddenKeys[forbidden]))
    else None
  }

  /** Index of the first section with a violation (|sections| when there is none). */
  function FirstViolatingSection(sections: seq<Section>): (i: nat)
    ensures i <= |sections|
    ensures forall t :: 0 <= t < i ==> SectionViolation(sections[t]).None?
    ensures i < |sections| ==> SectionViolation(sections[i]).Some?
  {
    if sections == [] then 0
    else if SectionViolation(sections[0]).Some? then 0
    else 1 + FirstViolatingSection(sections[1..])
  }

  /** What `validateConfigWithErr` returns: the first violation of the file, or none. */
  function Validate(f: File): (r: Option<ConfigError>)
    ensures r.None? <==> forall i :: 0 <= i < |f.sections| ==> SectionViolation(f.sections[i]).None?
    ensures r.Some? ==> exists i :: 0 <= i < |f.sections| && r == SectionViolation(f.sections[i])
  {
    var i := FirstViolatingSection(f.sections);
    if i < |f.sections| then SectionViolation(f.sections[i]) else None
  }

  /** The rules of a well-formed section, stated without any search order. */
  predicate SectionValid(s: Section) {
    && (forall i :: 0 <= i < |s.keys| ==> s.keys[i].name in ValidKeys)
    && (s.name != DefaultSectionName ==>
          && HasKey(s, "email")
          && (HasKey(s, "password_command") != HasKey(s, "password_insecure")))
    && (s.name == DefaultSectionName ==>
          && !HasKey(s, "email")
          && !HasKey(s, "password_insecure")
          && !HasKey(s, "password_command"))
  }

  function Indicator(b: bool): nat {
    if b then 1 else 0
  }

  lemma OccurrencesOfEitherOrKeys(name: string)
    ensures Occurrences(EitherOrKeys, name)
         == Indicator(name == "password_command") + Indicator(name == "password_insecure")
  {
    var one := EitherOrKeys[..1];
    assert EitherOrKeys[..|EitherOrKeys| - 1] == one;
    assert one[..|one| - 1] == [];
    assert Occurrences(one, name) == Indicator(name == "password_command");
  }

  lemma KeyNamesSnoc(keys: seq<KeyValue>, name: string)
    requires keys != []
    ensures name in KeyNames(keys) <==> name in KeyNames(keys[..|keys| - 1]) || keys[|keys| - 1].name == name
  {
    assert KeyNames(keys) == KeyNames(keys[..|keys| - 1]) + [keys[|keys| - 1].name];
  }

  /**
   * Each either/or key present adds at least one to the counter, and the
   * counter is zero only when neither is present.
   */
  lemma {:induction false} EitherOrCountBounds(keys: seq<KeyValue>)
    ensures EitherOrCount(keys)
         >= Indicator("password_command" in KeyNames(keys)) + Indicator("password_insecure" in KeyNames(keys))
    ensures EitherOrCount(keys) == 0
        <==> "password_command" !in KeyNames(keys) && "password_insecure" !in KeyNames(keys)
    decreases |keys|
  {
    if keys != [] {
      var init := keys[..|keys| - 1];
      var last := keys[|keys| - 1];
      EitherOrCountBounds(init);
      OccurrencesOfEitherOrKeys(last.name);
      KeyNamesSnoc(keys, "password_command");
      KeyNamesSnoc(keys, "password_insecure");
    }
  }

  /** With unique key names (as the INI library guarantees) the counter counts the either/or keys present. */
  lemma {:induction false} EitherOrCountExact(keys: seq<KeyValue>)
    requires UniqueNames(keys)
    ensures EitherOrCount(keys)
         == Indicator("password_command" in KeyNames(keys)) + Indicator("password_insecure" in KeyNames(keys))
    decreases |keys|
  {
    if keys != [] {
      var init := keys[..|keys| - 1];
      var last := keys[|keys| - 1];
      assert UniqueNames(init) by {
        forall i, j | 0 <= i < j < |init| ensures init[i].name != init[j].name {
          assert init[i] == keys[i] && init[j] == keys[j];
        }
      }
      EitherOrCountExact(init);
      OccurrencesOfEitherOrKeys(last.name);
      KeyNamesSnoc(keys, "password_command");
      KeyNamesSnoc(keys, "password_insecure");
    }
  }

  /** A key outside the allow-list is reported before anything else about its section, naming that key. */
  lemma InvalidKeyReportedFirst(s: Section, t: nat)
    requires t < |s.keys| && s.keys[t].name !in ValidKeys
    ensures var r := SectionViolation(s);
      && r.Some? && r.value.InvalidKey? && r.value.section == s.name
      && r.value.key !in ValidKeys && KeyValue(r.value.key, r.value.value) in s.keys
      && r.value == InvalidKey(s.name, s.keys[FirstInvalidKey(s.keys)].name, s.keys[FirstInvalidKey(s.keys)].value)
  {
  }

  /** Outside DEFAULT, a section with only known keys but no `email` line is missing a required key. */
  lemma MissingEmailRejected(s: Section)
    requires forall i :: 0 <= i < |s.keys| ==> s.keys[i].name in ValidKeys
    requires s.name != DefaultSectionName && !HasKey(s, "email")
    ensures SectionViolation(s) == Some(MissingRequiredKey(s.name, "email"))
  {
  }

  /** DEFAULT needs neither `email` nor a password key: only unknown or forbidden keys reject it. */
  lemma DefaultSectionExempt(s: Section)
    requires s.name == DefaultSectionName
    ensures SectionViolation(s).Some? ==> SectionViolation(s).value.InvalidKey? || SectionViolation(s).value.UnsupportedDefaultKey?
  {
  }

  /** Outside DEFAULT, with known keys and an `email`: both password keys, or neither, is an error. */
  lemma EitherOrRejected(s: Section)
    requires forall i :: 0 <= i < |s.keys| ==> s.keys[i].name in ValidKeys
    requires s.name != DefaultSectionName && HasKey(s, "email")
    ensures HasKey(s, "password_command") && HasKey(s, "password_insecure")
        ==> SectionViolation(s) == Some(MoreThanOneEitherOr(s.name))
    ensures !HasKey(s, "password_command") && !HasKey(s, "password_insecure")
        ==> SectionViolation(s) == Some(NoEitherOr(s.name))
  {
    EitherOrCountBounds(s.keys);
  }

  /** A DEFAULT section with known keys and one of the forbidden keys is rejected, naming the first of them. */
  lemma DefaultForbiddenRejected(s: Section, k: nat)
    requires forall i :: 0 <= i < |s.keys| ==> s.keys[i].name in ValidKeys
    requires s.name == DefaultSectionName
    requires k < |DefaultForbiddenKeys| && HasKey(s, DefaultForbiddenKeys[k])
    requires forall t :: 0 <= t < k ==> !HasKey(s, DefaultForbiddenKeys[t])
    ensures SectionViolation(s) == Some(UnsupportedDefaultKey(s.name, DefaultForbiddenKeys[k]))
  {
  }

  lemma RequiredKeysPresent(s: Section)
    ensures FirstAbsent(s, RequiredKeys) == |RequiredKeys| <==> HasKey(s, "email")
  {
    assert RequiredKeys[0] == "email";
  }

  lemma ForbiddenKeysAbsent(s: Section)
    ensures FirstPresent(s, DefaultForbiddenKeys) == |DefaultForbiddenKeys|
        <==> !HasKey(s, "email") && !HasKey(s, "password_insecure") && !HasKey(s, "password_command")
  {
    var i := FirstPresent(s, DefaultForbiddenKeys);
    assert DefaultForbiddenKeys[0] == "email";
    assert DefaultForbiddenKeys[1] == "password_insecure";
    assert DefaultForbiddenKeys[2] == "password_command";
    if i == |DefaultForbiddenKeys| {
      assert !HasKey(s, DefaultForbiddenKeys[0]);
      assert !HasKey(s, DefaultForbiddenKeys[1]);
      assert !HasKey(s, DefaultForbiddenKeys[2]);
    }
  }

  /** The search finds nothing in a section exactly when the section obeys every rule. */
  lemma SectionViolationNoneIffValid(s: Section)
    requires UniqueNames(s.keys)
    ensures SectionViolation(s).None? <==> SectionValid(s)
  {
    EitherOrCountExact(s.keys);
    RequiredKeysPresent(s);
    ForbiddenKeysAbsent(s);
    var allKnown := FirstInvalidKey(s.keys) == |s.keys|;
    assert allKnown <==> forall i :: 0 <= i < |s.keys| ==> s.keys[i].name in ValidKeys;
  }

  /** A violation in any section rejects the whole file, and the error reported is that of the first such section. */
  lemma ViolationRejectsFile(f: File, i: nat)
    requires i < |f.sections| && SectionViolation(f.sections[i]).Some?
    ensures Validate(f).Some?
    ensures exists j :: (0 <= j <= i && Validate(f) == SectionViolation(f.sections[j])
                         && forall t :: 0 <= t < j ==> SectionViolation(f.sections[t]).None?)
  {
  }

  /** `validateConfigWithErr` returns nil exactly when every section obeys every rule. */
  lemma ValidateNoneIffAllValid(f: File)
    requires forall i :: 0 <= i < |f.sections| ==> UniqueNames(f.sections[i].keys)
    ensures Validate(f).None? <==> forall i :: 0 <= i < |f.sections| ==> SectionValid(f.sections[i])
  {
    forall i | 0 <= i < |f.sections| {
      SectionViolationNoneIffValid(f.sections[i]);
    }
  }

  /** The `found` loops: a linear search for `x` that stops at the first match. */
  method Contains(list: seq<string>, x: string) returns (found: bool)
    ensures found <==> x in list
  {
    found := false;
    var i := 0;
    while i < |list|
      invariant 0 <= i <= |list|
      invariant forall t :: 0 <= t < i ==> list[t] != x
    {
      if list[i] == x {
        found := true;
        break;
      }
      i := i + 1;
    }
  }

  /** One iteration of the outer loop of `validateConfigWithErr`: all checks on one section. */
  method CheckSection(s: Section) returns (err: Option<ConfigError>)
    ensures err == SectionViolation(s)
  {
    // Every key must be on the allow-list.
    var j := 0;
    while j < |s.keys|
      invariant 0 <= j <= |s.keys|
      invariant forall t :: 0 <= t < j ==> s.keys[t].name in ValidKeys
    {
      var found := Contains(ValidKeys, s.keys[j].name);
      if !found {
        assert FirstInvalidKey(s.keys) == j;
        return Some(InvalidKey(s.name, s.keys[j].name, s.keys[j].value));
      }
      j := j + 1;
    }
    assert FirstInvalidKey(s.keys) == |s.keys|;
    // Every section but DEFAULT must have the required keys.
    var m := 0;
    while m < |RequiredKeys|
      invariant 0 <= m <= |RequiredKeys|
      invariant s.name != DefaultSectionName ==> forall t :: 0 <= t < m ==> HasKey(s, RequiredKeys[t])
    {
      var found := Contains(KeyNames(s.keys), RequiredKeys[m]);
      if !found && s.name != DefaultSectionName {
        assert FirstAbsent(s, RequiredKeys) == m;
        return Some(MissingRequiredKey(s.name, RequiredKeys[m]));
      }
      m := m + 1;
    }
    assert s.name != DefaultSectionName ==> FirstAbsent(s, RequiredKeys) == |RequiredKeys|;
    // Count the either/or keys.
    var foundEitherOr := 0;
    j := 0;
    while j < |s.keys|
      invariant 0 <= j <= |s.keys|
      invariant foundEitherOr == EitherOrCount(s.keys[..j])
    {
      var n := 0;
      while n < |EitherOrKeys|
        invariant 0 <= n <= |EitherOrKeys|
        invariant foundEitherOr == EitherOrCount(s.keys[..j]) + Occurrences(EitherOrKeys[..n], s.keys[j].name)
      {
        assert EitherOrKeys[..n + 1][..n] == EitherOrKeys[..n];
        if EitherOrKeys[n] == s.keys[j].name {
          foundEitherOr := foundEitherOr + 1;
        }
        n := n + 1;
      }
      assert EitherOrKeys[..n] == EitherOrKeys;
      assert s.keys[..j + 1][..j] == s.keys[..j];
      j := j + 1;
    }
    assert s.keys[..j] == s.keys;
    if foundEitherOr > 1 && s.name != DefaultSectionName {
      return Some(MoreThanOneEitherOr(s.name));
    }
    if foundEitherOr == 0 && s.name != DefaultSectionName {
      return Some(NoEitherOr(s.name));
    }
    // DEFAULT supports every key but a few.
    if s.name == DefaultSectionName {
      m := 0;
      while m < |DefaultForbiddenKeys|
        invariant 0 <= m <= |DefaultForbiddenKeys|
        invariant forall t :: 0 <= t < m ==> !HasKey(s, DefaultForbiddenKeys[t])
      {
        var found := Contains(KeyNames(s.keys), DefaultForbiddenKeys[m]);
        if found {
          assert FirstPresent(s, DefaultForbiddenKeys) == m;
          return Some(UnsupportedDefaultKey(s.name, DefaultForbiddenKeys[m]));
        }
        m := m + 1;
      }
      assert FirstPresent(s, DefaultForbiddenKeys) == |DefaultForbiddenKeys|;
    }
    return None;
  }

  /** `validateConfigWithErr`: check the sections in file order and stop at the first violation. */
  method ValidateConfig(f: File) returns (err: Option<ConfigError>)
    ensures err == Validate(f)
  {
    var i := 0;
    while i < |f.sections|
      invariant 0 <= i <= |f.sections|
      invariant forall t :: 0 <= t < i ==> SectionViolation(f.sections[t]).None?
    {
      err := CheckSection(f.sections[i]);
      if err.Some? {
        assert FirstViolatingSection(f.sections) == i;
        return;
      }
      i := i + 1;
    }
    assert FirstViolatingSection(f.sections) == |f.sections|;
    return None;
  }
}
