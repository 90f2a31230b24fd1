/**
 * Two complete configurations worked through validation and resolution:
 * DEFAULT supplies the server and the idle timeout to one account, and an
 * account whose own idle timeout is 45 minutes is refused.
 */
module Scenarios {
  import opened Wrappers
  import opened Ini
  import opened Settings
  import opened Apply
  import Validation

  const NoFlags: Flags := Flags("", "", "")

  const SharedDefaults: Section :=
    Section("DEFAULT", [KeyValue("server", "mail.example.com:993"), KeyValue("idle_timeout_minutes", "10")])

  const Personal: Section :=
    Section("personal", [
      KeyValue("email", "a@example.com"),
      KeyValue("password_insecure", "x"),
      KeyValue("command", "notify-send hi")])

  /** `Personal` with its own idle timeout appended. */
  const Impatient: Section :=
    Section("personal", Personal.keys + [KeyValue("idle_timeout_minutes", "45")])

  lemma SharedDefaultsValues()
    ensures Value(SharedDefaults, "server") == "mail.example.com:993"
    ensures Value(SharedDefaults, "idle_timeout_minutes") == "10"
    ensures Value(SharedDefaults, "folder") == ""
    ensures Value(SharedDefaults, "command") == ""
  {
    var k := SharedDefaults.keys;
    assert k[1..][1..] == [];
    assert KeyNames(k) == ["server", "idle_timeout_minutes"];
  }

  lemma PersonalNames(s: Section)
    requires s == Personal || s == Impatient
    ensures s == Personal ==> KeyNames(s.keys) == ["email", "password_insecure", "command"]
    ensures s == Impatient ==> KeyNames(s.keys) == ["email", "password_insecure", "command", "idle_timeout_minutes"]
  {
    var k := s.keys;
    if s == Personal {
      assert k[1..][1..][1..] == [];
    } else {
      assert k[1..][1..][1..][1..] == [];
    }
  }

  lemma PersonalValues(s: Section)
    requires s == Personal || s == Impatient
    ensures Value(s, "email") == "a@example.com"
    ensures Value(s, "password_insecure") == "x"
    ensures Value(s, "command") == "notify-send hi"
  {
    var k := s.keys;
    assert k[..3] == Personal.keys;
    assert k[0] == KeyValue("email", "a@example.com");
    assert k[1..][0] == KeyValue("password_insecure", "x");
    assert k[1..][1..][0] == KeyValue("command", "notify-send hi");
  }

  lemma PersonalAbsent(s: Section)
    requires s == Personal || s == Impatient
    ensures Value(s, "folder") == ""
    ensures Value(s, "server") == ""
    ensures Value(s, "password_command") == ""
    ensures s == Personal ==> Value(s, "idle_timeout_minutes") == ""
  {
    PersonalNames(s);
  }

  lemma ImpatientTimeout()
    ensures Value(Impatient, "idle_timeout_minutes") == "45"
  {
    var k := Impatient.keys;
    assert k[1..][1..][1..][0] == KeyValue("idle_timeout_minutes", "45");
  }

  lemma SharedDefaultsResolve(sections: seq<Section>)
    requires |sections| == 2 && sections[0] == SharedDefaults
    ensures OverallDefaults(File(sections), NoFlags) == Defaults("mail.example.com:993", "INBOX", "", "10")
  {
    assert DefaultSection(File(sections)) == SharedDefaults;
    SharedDefaultsValues();
  }

  /** The account draws its server and timeout from DEFAULT and keeps its own password. */
  lemma CascadingFileResolves(run: PasswordRunner)
    ensures ApplyResult(File([SharedDefaults, Personal]), NoFlags, run)
         == Resolution([Account("personal", "notify-send hi", "a@example.com", "INBOX", "", "x", "mail.example.com:993", 10)], None)
  {
    var sections := [SharedDefaults, Personal];
    SharedDefaultsResolve(sections);
    var d := Defaults("mail.example.com:993", "INBOX", "", "10");
    PersonalResolves(d, run);
    WalkDefaultThenAccount(SharedDefaults, Personal, AccountResolver(d, run));
  }

  /** A timeout of 45 minutes in the account section is refused, naming account, email and value. */
  lemma TimeoutOf45Refused(run: PasswordRunner)
    ensures ApplyResult(File([SharedDefaults, Impatient]), NoFlags, run)
         == Resolution([], Some(IdleTooLarge("personal", "a@example.com", "45")))
  {
    var sections := [SharedDefaults, Impatient];
    SharedDefaultsResolve(sections);
    var d := Defaults("mail.example.com:993", "INBOX", "", "10");
    ImpatientRefused(d, run);
    WalkDefaultThenAccount(SharedDefaults, Impatient, AccountResolver(d, run));
  }

  /** A file of a DEFAULT section followed by one account section resolves to that account or its error. */
  lemma WalkDefaultThenAccount(dflt: Section, s: Section, resolve: Resolver)
    requires dflt.name == DefaultSectionName && s.name != DefaultSectionName
    ensures ResolveSections([dflt, s], resolve)
         == match resolve(s)
            case Ok(a) => Resolution([a], None)
            case Err(e) => Resolution([], Some(e))
  {
    var sections := [dflt, s];
    assert sections[..0] == [];
    WalkSkipsDefault(sections, 0, resolve);
    match resolve(s)
    case Ok(a) =>
      WalkAppends(sections, 1, resolve, a);
      assert sections[..2] == sections;
    case Err(e) =>
      WalkFails(sections, 1, resolve, e);
  }

  lemma PersonalResolves(d: Defaults, run: PasswordRunner)
    requires d == Defaults("mail.example.com:993", "INBOX", "", "10")
    ensures ResolveAccount(Personal, d, run)
         == Ok(Account("personal", "notify-send hi", "a@example.com", "INBOX", "", "x", "mail.example.com:993", 10))
  {
    PersonalValues(Personal);
    PersonalAbsent(Personal);
    IdleTimeoutAccepted();
    var draft := Draft(Personal, d);
    assert draft == Account("personal", "notify-send hi", "a@example.com", "INBOX", "", "x", "mail.example.com:993", 0);
    assert RawIdleTimeout(Personal, d) == "10";
  }

  lemma ImpatientRefused(d: Defaults, run: PasswordRunner)
    requires d == Defaults("mail.example.com:993", "INBOX", "", "10")
    ensures ResolveAccount(Impatient, d, run) == Err(IdleTooLarge("personal", "a@example.com", "45"))
  {
    PersonalValues(Impatient);
    ImpatientTimeout();
    IdleTimeoutTooLarge();
    assert RawIdleTimeout(Impatient, d) == "45";
  }

  /** Both files pass validation: DEFAULT holds no account key and the account has email and one password source. */
  lemma ScenariosValidate(s: Section)
    requires s == Personal || s == Impatient
    ensures Validation.Validate(File([SharedDefaults, s])).None?
  {
    SharedDefaultsValid();
    PersonalValid(s);
    TwoValidSections(SharedDefaults, s);
  }

  /** A file of two sections, each with unique key names and valid, passes validation. */
  lemma TwoValidSections(a: Section, b: Section)
    requires UniqueNames(a.keys) && Validation.SectionValid(a)
    requires UniqueNames(b.keys) && Validation.SectionValid(b)
    ensures Validation.Validate(File([a, b])).None?
  {
    var f := File([a, b]);
    assert forall i :: 0 <= i < |f.sections| ==> f.sections[i] == a || f.sections[i] == b;
    Validation.ValidateNoneIffAllValid(f);
  }

  lemma SharedDefaultsValid()
    ensures UniqueNames(SharedDefaults.keys) && Validation.SectionValid(SharedDefaults)
  {
    var k := SharedDefaults.keys;
    assert k[1..][1..] == [];
    assert KeyNames(k) == ["server", "idle_timeout_minutes"];
  }

  lemma PersonalValid(s: Section)
    requires s == Personal || s == Impatient
    ensures UniqueNames(s.keys) && Validation.SectionValid(s)
  {
    PersonalNames(s);
  }
}
