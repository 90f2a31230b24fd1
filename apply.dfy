/**
 * `applyConfigWithErr`: building the list of accounts from a loaded INI file.
 *
 * Four overall defaults are computed first (server, folder, command, idle
 * timeout). Then every section but DEFAULT, in file order, becomes one
 * account whose settings cascade from the section to those defaults; the
 * account is appended to the caller's list. The first section that cannot
 * be resolved stops the walk with an error, leaving the accounts already
 * appended in place. A file without account sections is an error too.
 *
 * The password command is run through `/bin/sh -c`; here it is a function
 * parameter of type `PasswordRunner` whose behaviour the model does not fix.
 */
module Apply {
  import opened Wrappers
  import opened Strconv
  import opened Ini
  import opened Settings
  import opened Cascade
  import Validation

  /** The variables the password command sees (IMAPIDOL_ACCOUNT, _EMAIL, _FOLDER and _SERVER). */
  datatype AccountEnv = AccountEnv(account: string, email: string, folder: string, server: string)

  /** What running a shell command gives: its standard output, or a failure with a diagnostic. */
  datatype CommandOutcome = Exited(stdout: string) | Failed(diagnostic: string)

  /** Runs a password command with an account's environment. */
  type PasswordRunner = (string, AccountEnv) -> CommandOutcome

  /** The overall defaults computed at the start of `applyConfigWithErr`. */
  datatype Defaults = Defaults(server: string, folder: string, command: string, idleTimeoutMinutes: string)

  /** The accounts one run appends, and the error that stopped it, if any. */
  datatype Resolution = Resolution(added: seq<Account>, err: Option<ConfigError>)

  datatype IdleProblem = NotANumber | NotPositive | TooLarge

  function EnvOf(a: Account): AccountEnv {
    AccountEnv(a.account, a.email, a.folder, a.server)
  }

  /**
   * The four overall defaults: flag, then DEFAULT section, then built-in
   * constant. The idle timeout has no command-line flag.
   */
  function OverallDefaults(f: File, flags: Flags): (d: Defaults)
    ensures d.server != "" && d.folder != "" && d.idleTimeoutMinutes != ""
  {
    Defaults(
      OverallDefault(f, BuiltinServer, flags.server, "server"),
      OverallDefault(f, BuiltinFolder, flags.folder, "folder"),
      OverallDefault(f, BuiltinCommand, flags.command, "command"),
      OverallDefault(f, BuiltinIdleTimeoutMinutes, "", "idle_timeout_minutes"))
  }

  /** The checks on `idle_timeout_minutes`: a number, above zero, at most 29. */
  function IdleTimeout(raw: string): (r: Result<int, IdleProblem>)
    ensures r.Ok? ==> 1 <= r.value <= MaxIdleTimeoutMinutes && Atoi(raw) == Some(r.value)
    ensures r.Ok? <==> Atoi(raw).Some? && 1 <= Atoi(raw).value <= MaxIdleTimeoutMinutes
    ensures r == Err(NotANumber) <==> Atoi(raw).None?
    ensures r == Err(NotPositive) <==> Atoi(raw).Some? && Atoi(raw).value <= 0
    ensures r == Err(TooLarge) <==> Atoi(raw).Some? && Atoi(raw).value > MaxIdleTimeoutMinutes
  {
    match Atoi(raw)
    case None => Err(NotANumber)
    case Some(n) =>
      if n <= 0 then Err(NotPositive)
      else if n > MaxIdleTimeoutMinutes then Err(TooLarge)
      else Ok(n)
  }

  /** The account's settings as the section and the overall defaults give them, before any check. */
  function Draft(s: Section, d: Defaults): (a: Account)
    ensures a.account == s.name && a.idleTimeoutMinutes == 0
  {
    Account(
      account := s.name,
      command := SectionValue(s, "command", d.command),
      email := SectionValue(s, "email", ""),
      folder := SectionValue(s, "folder", d.folder),
      passwordCommand := SectionValue(s, "password_command", ""),
      passwordInsecure := SectionValue(s, "password_insecure", ""),
      server := SectionValue(s, "server", d.server),
      idleTimeoutMinutes := 0)
  }

  /** The idle timeout as the section and the overall default give it, still a string. */
  function RawIdleTimeout(s: Section, d: Defaults): string {
    SectionValue(s, "idle_timeout_minutes", d.idleTimeoutMinutes)
  }

  /** The password step: run the password command only when no password is given. */
  function WithPassword(a: Account, run: PasswordRunner): (r: Result<Account, ConfigError>)
    ensures r.Ok? ==> r.value == a.(passwordInsecure := r.value.passwordInsecure, passwordCommand := r.value.passwordCommand)
    ensures a.passwordInsecure != "" ==> r == Ok(a)
    ensures a.passwordInsecure == "" && r.Ok? ==>
      r.value.passwordCommand == "" && run(a.passwordCommand, EnvOf(a)) == Exited(r.value.passwordInsecure)
    ensures r.Err? ==>
      && run(a.passwordCommand, EnvOf(a)).Failed?
      && r.error == PasswordCommandFailed(a.account, a.passwordCommand, run(a.passwordCommand, EnvOf(a)).diagnostic)
  {
    if |a.passwordInsecure| != 0 then Ok(a)
    else
      match run(a.passwordCommand, EnvOf(a))
      case Failed(diagnostic) => Err(PasswordCommandFailed(a.account, a.passwordCommand, diagnostic))
      case Exited(out) => Ok(a.(passwordInsecure := out, passwordCommand := ""))
  }

  /** The idle-timeout checks, then the password step. */
  function CheckedAccount(draft: Account, raw: string, run: PasswordRunner): (r: Result<Account, ConfigError>)
    ensures IdleTimeout(raw) == Err(NotANumber) ==> r == Err(BadIdleNumber(draft.account, draft.email, raw))
    ensures IdleTimeout(raw) == Err(NotPositive) ==> r == Err(IdleNotPositive(draft.account, draft.email, raw))
    ensures IdleTimeout(raw) == Err(TooLarge) ==> r == Err(IdleTooLarge(draft.account, draft.email, raw))
    ensures IdleTimeout(raw).Ok? ==> r == WithPassword(draft.(idleTimeoutMinutes := IdleTimeout(raw).value), run)
  {
    match IdleTimeout(raw)
    case Err(NotANumber) => Err(BadIdleNumber(draft.account, draft.email, raw))
    case Err(NotPositive) => Err(IdleNotPositive(draft.account, draft.email, raw))
    case Err(TooLarge) => Err(IdleTooLarge(draft.account, draft.email, raw))
    case Ok(minutes) => WithPassword(draft.(idleTimeoutMinutes := minutes), run)
  }

  /** One account from one non-DEFAULT section: the body of the loop of `applyConfigWithErr`. */
  function ResolveAccount(s: Section, d: Defaults, run: PasswordRunner): (r: Result<Account, ConfigError>)
    ensures r.Ok? ==> r.value.account == s.name
    ensures r.Err? ==>
      && (r.error.NoCommand? || r.error.BadIdleNumber? || r.error.IdleNotPositive?
          || r.error.IdleTooLarge? || r.error.PasswordCommandFailed?)
      && r.error.account == s.name
  {
    var draft := Draft(s, d);
    if |draft.command| == 0 then Err(NoCommand(draft.account, draft.email))
    else CheckedAccount(draft, RawIdleTimeout(s, d), run)
  }

  /**
   * An account that resolves is named after its section, has a non-empty
   * command, a timeout in 1..29, and the cascaded email, folder and server;
   * an error names the section's account.
   */
  lemma ResolveAccountSound(s: Section, d: Defaults, run: PasswordRunner)
    ensures var r := ResolveAccount(s, d, run);
      r.Ok? ==>
        && r.value.account == s.name
        && r.value.command != ""
        && 1 <= r.value.idleTimeoutMinutes <= MaxIdleTimeoutMinutes
        && r.value.email == Value(s, "email")
        && r.value.command == SectionValue(s, "command", d.command)
        && r.value.folder == SectionValue(s, "folder", d.folder)
        && r.value.server == SectionValue(s, "server", d.server)
    ensures var r := ResolveAccount(s, d, run);
      r.Err? ==>
        && (r.error.NoCommand? || r.error.BadIdleNumber? || r.error.IdleNotPositive?
            || r.error.IdleTooLarge? || r.error.PasswordCommandFailed?)
        && r.error.account == s.name
  {
  }

  /** The sections `applyConfigWithErr` turns into accounts: all but DEFAULT, in file order. */
  function AccountSections(sections: seq<Section>): (r: seq<Section>)
    ensures |r| <= |sections|
    ensures forall j :: 0 <= j < |r| ==> r[j] in sections && r[j].name != DefaultSectionName
  {
    if sections == [] then []
    else
      var last := sections[|sections| - 1];
      AccountSections(sections[..|sections| - 1]) + (if last.name != DefaultSectionName then [last] else [])
  }

  /**
   * The filter keeps file order: the account sections of two consecutive
   * runs of sections are those of the first run followed by those of the second.
   */
  lemma {:induction false} AccountSectionsConcat(a: seq<Section>, b: seq<Section>)
    ensures AccountSections(a + b) == AccountSections(a) + AccountSections(b)
    decreases |b|
  {
    if b == [] {
      assert a + b == a;
    } else {
      var init := b[..|b| - 1];
      var last := b[|b| - 1];
      AccountSectionsConcat(a, init);
      assert (a + b)[..|a + b| - 1] == a + init;
      assert (a + b)[|a + b| - 1] == last;
    }
  }

  /** Every non-DEFAULT section of the file is an account section. */
  lemma {:induction false} AccountSectionsComplete(sections: seq<Section>)
    ensures forall t :: t in sections && t.name != DefaultSectionName ==> t in AccountSections(sections)
  {
    if sections != [] {
      var init := sections[..|sections| - 1];
      AccountSectionsComplete(init);
      assert sections == init + [sections[|sections| - 1]];
    }
  }

  /** A single section is an account section exactly when it is not DEFAULT. */
  lemma AccountSectionsSingle(s: Section)
    ensures AccountSections([s]) == if s.name != DefaultSectionName then [s] else []
  {
    assert [s][..0] == [];
  }

  /** Turns one account section into its account or the error that stops the walk. */
  type Resolver = Section -> Result<Account, ConfigError>

  /** The resolver `applyConfigWithErr` uses: `ResolveAccount` under fixed defaults and password runner. */
  function AccountResolver(d: Defaults, run: PasswordRunner): Resolver {
    s => ResolveAccount(s, d, run)
  }

  /**
   * The walk over `sections`: resolve each account section in turn, stop at
   * the first error. It is stated for any resolver; `applyConfigWithErr`
   * walks with `AccountResolver`.
   */
  function ResolveSections(sections: seq<Section>, resolve: Resolver): (r: Resolution)
    ensures |r.added| <= |sections|
    ensures r.err.Some? ==> exists s :: s in sections && s.name != DefaultSectionName && resolve(s) == Err(r.err.value)
  {
    if sections == [] then Resolution([], None)
    else
      var prev := ResolveSections(sections[..|sections| - 1], resolve);
      var s := sections[|sections| - 1];
      if prev.err.Some? || s.name == DefaultSectionName then prev
      else
        match resolve(s)
        case Err(e) => Resolution(prev.added, Some(e))
        case Ok(a) => Resolution(prev.added + [a], None)
  }

  /** What `applyConfigWithErr` appends to `*ii`, and the error it returns. */
  function ApplyResult(f: File, flags: Flags, run: PasswordRunner): (r: Resolution)
    ensures r.err.None? ==> |r.added| > 0
    ensures r.err == Some(NoSections) ==> r.added == []
  {
    var r := ResolveSections(f.sections, AccountResolver(OverallDefaults(f, flags), run));
    if r.err.None? && |r.added| == 0 then Resolution([], Some(NoSections)) else r
  }

  /** Once the walk has stopped at an error, the sections after it change nothing. */
  lemma {:induction false} WalkStopsAtError(sections: seq<Section>, i: nat, resolve: Resolver)
    requires i <= |sections| && ResolveSections(sections[..i], resolve).err.Some?
    ensures ResolveSections(sections, resolve) == ResolveSections(sections[..i], resolve)
    decreases |sections| - i
  {
    if i < |sections| {
      assert sections[..i + 1][..i] == sections[..i];
      WalkStopsAtError(sections, i + 1, resolve);
    } else {
      assert sections[..i] == sections;
    }
  }

  /** The walk passes over a DEFAULT section. */
  lemma WalkSkipsDefault(sections: seq<Section>, i: nat, resolve: Resolver)
    requires i < |sections| && sections[i].name == DefaultSectionName
    ensures ResolveSections(sections[..i + 1], resolve) == ResolveSections(sections[..i], resolve)
  {
    var p := sections[..i + 1];
    assert p[..|p| - 1] == sections[..i];
    assert p[|p| - 1] == sections[i];
  }

  /** The walk appends the account of an account section that resolves. */
  lemma WalkAppends(sections: seq<Section>, i: nat, resolve: Resolver, a: Account)
    requires i < |sections| && sections[i].name != DefaultSectionName
    requires ResolveSections(sections[..i], resolve).err.None?
    requires resolve(sections[i]) == Ok(a)
    ensures ResolveSections(sections[..i + 1], resolve)
         == Resolution(ResolveSections(sections[..i], resolve).added + [a], None)
  {
    var p := sections[..i + 1];
    assert p[..|p| - 1] == sections[..i];
    assert p[|p| - 1] == sections[i];
  }

  /** The walk stops at an account section that does not resolve, with that section's error. */
  lemma {:induction false} WalkFails(sections: seq<Section>, i: nat, resolve: Resolver, e: ConfigError)
    requires i < |sections| && sections[i].name != DefaultSectionName
    requires ResolveSections(sections[..i], resolve).err.None?
    requires resolve(sections[i]) == Err(e)
    ensures ResolveSections(sections, resolve) == Resolution(ResolveSections(sections[..i], resolve).added, Some(e))
    decreases |sections|
  {
    var init := sections[..|sections| - 1];
    if |sections| == i + 1 {
      assert init == sections[..i];
    } else {
      assert init[..i] == sections[..i];
      WalkFails(init, i, resolve, e);
    }
  }

  /**
   * The walk appends, in order, the account of every account section it
   * gets through; on success that is every account section, and on failure
   * the error is that of the next account section.
   */
  lemma {:induction false} ResolveSectionsAccounts(sections: seq<Section>, resolve: Resolver)
    ensures var r := ResolveSections(sections, resolve);
      var accountSections := AccountSections(sections);
      && |r.added| <= |accountSections|
      && (forall j :: 0 <= j < |r.added| ==> resolve(accountSections[j]) == Ok(r.added[j]))
      && (r.err.None? ==> |r.added| == |accountSections|)
      && (r.err.Some? ==>
            |r.added| < |accountSections| && resolve(accountSections[|r.added|]) == Err(r.err.value))
    decreases |sections|
  {
    if sections != [] {
      var init := sections[..|sections| - 1];
      ResolveSectionsAccounts(init, resolve);
      var prevSections := AccountSections(init);
      var accountSections := AccountSections(sections);
      assert forall j :: 0 <= j < |prevSections| ==> accountSections[j] == prevSections[j];
    }
  }

  /** On success, exactly one account per non-DEFAULT section, in section order, named after its section. */
  lemma ApplySucceeds(f: File, flags: Flags, run: PasswordRunner)
    requires ApplyResult(f, flags, run).err.None?
    ensures var added := ApplyResult(f, flags, run).added;
      var accountSections := AccountSections(f.sections);
      && |added| == |accountSections| > 0
      && forall j :: 0 <= j < |added| ==>
           && added[j].account == accountSections[j].name
           && ResolveAccount(accountSections[j], OverallDefaults(f, flags), run) == Ok(added[j])
  {
    var d := OverallDefaults(f, flags);
    ResolveSectionsAccounts(f.sections, AccountResolver(d, run));
    var added := ApplyResult(f, flags, run).added;
    forall j | 0 <= j < |added| ensures added[j].account == AccountSections(f.sections)[j].name {
      ResolveAccountSound(AccountSections(f.sections)[j], d, run);
    }
  }

  /** On failure, the accounts appended are those of the account sections before the failing one. */
  lemma ApplyFails(f: File, flags: Flags, run: PasswordRunner)
    requires ApplyResult(f, flags, run).err.Some? && ApplyResult(f, flags, run).err != Some(NoSections)
    ensures var r := ApplyResult(f, flags, run);
      var accountSections := AccountSections(f.sections);
      && |r.added| < |accountSections|
      && (forall j :: 0 <= j < |r.added| ==>
            ResolveAccount(accountSections[j], OverallDefaults(f, flags), run) == Ok(r.added[j]))
      && ResolveAccount(accountSections[|r.added|], OverallDefaults(f, flags), run) == Err(r.err.value)
  {
    ResolveSectionsAccounts(f.sections, AccountResolver(OverallDefaults(f, flags), run));
  }

  /** "There are no sections to work on" is reported exactly when the file has no account section. */
  lemma NoSectionsIff(f: File, flags: Flags, run: PasswordRunner)
    ensures ApplyResult(f, flags, run).err == Some(NoSections) <==> AccountSections(f.sections) == []
  {
    ResolveSectionsAccounts(f.sections, AccountResolver(OverallDefaults(f, flags), run));
  }

  /** Every account appended, whether or not a later section fails, has a command and a timeout in 1..29. */
  lemma AddedAccountsSound(f: File, flags: Flags, run: PasswordRunner)
    ensures forall a :: a in ApplyResult(f, flags, run).added ==>
      a.command != "" && 1 <= a.idleTimeoutMinutes <= MaxIdleTimeoutMinutes
  {
    var d := OverallDefaults(f, flags);
    ApplyResultAdded(f, flags, run);
    forall a | a in ResolveSections(f.sections, AccountResolver(d, run)).added
      ensures a.command != "" && 1 <= a.idleTimeoutMinutes <= MaxIdleTimeoutMinutes
    {
      var s := AddedFromSection(f.sections, AccountResolver(d, run), a);
      ResolveAccountSound(s, d, run);
    }
  }

  /** Whether or not the walk fails, it appends what `ResolveSections` appends. */
  lemma ApplyResultAdded(f: File, flags: Flags, run: PasswordRunner)
    ensures ApplyResult(f, flags, run).added
         == ResolveSections(f.sections, AccountResolver(OverallDefaults(f, flags), run)).added
  {
  }

  /** Every account the walk appends is that of an account section of the file. */
  lemma {:induction false} AddedFromSection(sections: seq<Section>, resolve: Resolver, a: Account) returns (s: Section)
    requires a in ResolveSections(sections, resolve).added
    ensures s in sections && s.name != DefaultSectionName && resolve(s) == Ok(a)
    decreases |sections|
  {
    var init := sections[..|sections| - 1];
    var last := sections[|sections| - 1];
    if a in ResolveSections(init, resolve).added {
      s := AddedFromSection(init, resolve, a);
    } else {
      s := last;
    }
  }

  /**
   * Server, folder and command defaults: flag, then DEFAULT value, then
   * built-in constant; the idle-timeout default takes no flag at all.
   */
  lemma OverallDefaultsPrecedence(f: File, flags: Flags)
    ensures var d := OverallDefaults(f, flags);
      && d.server == FirstNonEmpty([flags.server, Value(DefaultSection(f), "server")], BuiltinServer)
      && d.folder == FirstNonEmpty([flags.folder, Value(DefaultSection(f), "folder")], BuiltinFolder)
      && d.command == FirstNonEmpty([flags.command, Value(DefaultSection(f), "command")], BuiltinCommand)
      && d.idleTimeoutMinutes
         == FirstNonEmpty([Value(DefaultSection(f), "idle_timeout_minutes")], BuiltinIdleTimeoutMinutes)
  {
    OverallDefaultPrecedence(f, BuiltinServer, flags.server, "server");
    OverallDefaultPrecedence(f, BuiltinFolder, flags.folder, "folder");
    OverallDefaultPrecedence(f, BuiltinCommand, flags.command, "command");
    OverallDefaultPrecedence(f, BuiltinIdleTimeoutMinutes, "", "idle_timeout_minutes");
    var iniIdle := Value(DefaultSection(f), "idle_timeout_minutes");
    assert [iniIdle][1..] == [] && ["", iniIdle][1..] == [iniIdle];
  }

  /** The idle-timeout default takes no command-line flag: the flags never change it. */
  lemma IdleDefaultIgnoresFlags(f: File, flags1: Flags, flags2: Flags)
    ensures OverallDefaults(f, flags1).idleTimeoutMinutes == OverallDefaults(f, flags2).idleTimeoutMinutes
  {
  }

  /**
   * A per-account setting cascades section value, then flag, then DEFAULT
   * value, then built-in constant: shown for the folder and the server.
   */
  lemma FolderAndServerCascade(f: File, flags: Flags, s: Section, run: PasswordRunner)
    requires ResolveAccount(s, OverallDefaults(f, flags), run).Ok?
    ensures var a := ResolveAccount(s, OverallDefaults(f, flags), run).value;
      && a.folder == FirstNonEmpty([Value(s, "folder"), flags.folder, Value(DefaultSection(f), "folder")], BuiltinFolder)
      && a.server == FirstNonEmpty([Value(s, "server"), flags.server, Value(DefaultSection(f), "server")], BuiltinServer)
  {
    SectionValueCascade(f, s, "folder", BuiltinFolder, flags.folder);
    SectionValueCascade(f, s, "server", BuiltinServer, flags.server);
  }

  /** Spelled as a number, an idle timeout is accepted exactly when it lies in 1..29. */
  lemma IdleTimeoutOfNumber(n: int)
    requires IntMin <= n <= IntMax
    ensures IdleTimeout(Itoa(n))
         == if n <= 0 then Err(NotPositive) else if n > MaxIdleTimeoutMinutes then Err(TooLarge) else Ok(n)
  {
    AtoiItoa(n);
  }

  /** Zero and a negative number are not positive. */
  lemma IdleTimeoutNotPositive()
    ensures IdleTimeout("0") == Err(NotPositive)
    ensures IdleTimeout("-5") == Err(NotPositive)
  {
    IdleTimeoutOfNumber(0);
    IdleTimeoutOfNumber(-5);
  }

  /** 30 minutes and above are too large. */
  lemma IdleTimeoutTooLarge()
    ensures IdleTimeout("30") == Err(TooLarge)
    ensures IdleTimeout("45") == Err(TooLarge)
  {
    IdleTimeoutOfTwoDigits("30");
    IdleTimeoutOfTwoDigits("45");
  }

  /** A two-digit spelling is read as tens and units. */
  lemma IdleTimeoutOfTwoDigits(raw: string)
    requires |raw| == 2 && IsDigit(raw[0]) && IsDigit(raw[1])
    ensures var n := DigitValue(raw[0]) * 10 + DigitValue(raw[1]);
      IdleTimeout(raw) == if n <= 0 then Err(NotPositive) else if n > MaxIdleTimeoutMinutes then Err(TooLarge) else Ok(n)
  {
    assert Unsigned(raw) == raw;
    assert AllDigits(raw);
    assert raw[..1] == [raw[0]] && raw[..1][..0] == [];
    assert DigitsValue(raw[..1]) == DigitValue(raw[0]);
    assert DigitsValue(raw) == DigitValue(raw[0]) * 10 + DigitValue(raw[1]);
  }

  /** Words, a number with trailing letters and the empty string are not numbers. */
  lemma IdleTimeoutNotANumber()
    ensures IdleTimeout("ten") == Err(NotANumber)
    ensures IdleTimeout("15m") == Err(NotANumber)
    ensures IdleTimeout("") == Err(NotANumber)
  {
    AtoiRejectsNonDigit("ten", 0);
    AtoiRejectsNonDigit("15m", 2);
  }

  /** The two ends of the allowed range, 1 and 29, are taken, and so is 10. */
  lemma IdleTimeoutAccepted()
    ensures IdleTimeout("1") == Ok(1)
    ensures IdleTimeout("10") == Ok(10)
    ensures IdleTimeout("29") == Ok(29)
  {
    IdleTimeoutOfNumber(1);
    assert NatDigits(10) == NatDigits(1) + [DigitChar(0)];
    IdleTimeoutOfNumber(10);
    IdleTimeoutOfNumber(29);
  }

  /** An idle timeout that fails its checks stops resolution with an error naming the account and the raw value. */
  lemma IdleTimeoutErrorNamesAccount(s: Section, d: Defaults, run: PasswordRunner)
    requires SectionValue(s, "command", d.command) != ""
    requires IdleTimeout(SectionValue(s, "idle_timeout_minutes", d.idleTimeoutMinutes)).Err?
    ensures var r := ResolveAccount(s, d, run);
      var raw := SectionValue(s, "idle_timeout_minutes", d.idleTimeoutMinutes);
      && r.Err?
      && (r.error.BadIdleNumber? || r.error.IdleNotPositive? || r.error.IdleTooLarge?)
      && r.error.account == s.name && r.error.raw == raw
  {
  }

  /** An account whose command is empty after cascading is an error naming the account. */
  lemma EmptyCommandRejected(s: Section, d: Defaults, run: PasswordRunner)
    requires SectionValue(s, "command", d.command) == ""
    ensures ResolveAccount(s, d, run) == Err(NoCommand(s.name, Value(s, "email")))
  {
  }

  /**
   * With `password_insecure` set, the password command is not run: the
   * result does not depend on the runner, and the password is the value given.
   */
  lemma InsecurePasswordKept(s: Section, d: Defaults, run1: PasswordRunner, run2: PasswordRunner)
    requires Value(s, "password_insecure") != ""
    ensures ResolveAccount(s, d, run1) == ResolveAccount(s, d, run2)
    ensures ResolveAccount(s, d, run1).Ok? ==>
      && ResolveAccount(s, d, run1).value.passwordInsecure == Value(s, "password_insecure")
      && ResolveAccount(s, d, run1).value.passwordCommand == Value(s, "password_command")
  {
  }

  /**
   * With `password_insecure` empty, the password is the output of the
   * password command, run with the account's environment, and the command
   * is cleared; a failing command is an error naming the account and command.
   */
  lemma PasswordFromCommand(s: Section, d: Defaults, run: PasswordRunner)
    requires Value(s, "password_insecure") == ""
    ensures var r := ResolveAccount(s, d, run);
      r.Ok? ==>
        && r.value.passwordCommand == ""
        && run(Value(s, "password_command"), EnvOf(r.value)) == Exited(r.value.passwordInsecure)
    ensures var r := ResolveAccount(s, d, run);
      var env := AccountEnv(s.name, Value(s, "email"), SectionValue(s, "folder", d.folder), SectionValue(s, "server", d.server));
      && SectionValue(s, "command", d.command) != ""
      && IdleTimeout(SectionValue(s, "idle_timeout_minutes", d.idleTimeoutMinutes)).Ok?
      && run(Value(s, "password_command"), env).Failed?
      ==> r == Err(PasswordCommandFailed(s.name, Value(s, "password_command"), run(Value(s, "password_command"), env).diagnostic))
  {
  }

  /** A valid account section yields an account whose password command is empty. */
  lemma ValidSectionClearsCommand(s: Section, d: Defaults, run: PasswordRunner)
    requires Validation.SectionValid(s) && s.name != DefaultSectionName
    requires ResolveAccount(s, d, run).Ok?
    ensures ResolveAccount(s, d, run).value.passwordCommand == ""
  {
    var draft := Draft(s, d);
    if Value(s, "password_insecure") != "" {
      assert HasKey(s, "password_insecure");
      assert !HasKey(s, "password_command");
      assert draft.passwordCommand == "";
    }
  }

  /**
   * After validation, every account built carries its password in
   * `passwordInsecure` and an empty `passwordCommand`: a section sets only
   * one of the two keys, and a command that was run is cleared.
   */
  lemma ValidatedAccountsHoldNoCommand(f: File, flags: Flags, run: PasswordRunner)
    requires forall i :: 0 <= i < |f.sections| ==> UniqueNames(f.sections[i].keys)
    requires Validation.Validate(f).None?
    ensures forall a :: a in ApplyResult(f, flags, run).added ==> a.passwordCommand == ""
  {
    var d := OverallDefaults(f, flags);
    Validation.ValidateNoneIffAllValid(f);
    ApplyResultAdded(f, flags, run);
    forall a | a in ResolveSections(f.sections, AccountResolver(d, run)).added ensures a.passwordCommand == "" {
      var s := AddedFromSection(f.sections, AccountResolver(d, run), a);
      var i :| 0 <= i < |f.sections| && f.sections[i] == s;
      ValidSectionClearsCommand(s, d, run);
    }
  }

  /** The caller's account slice that `applyConfigWithErr` appends to through `ii`. */
  class AccountList {
    var accounts: seq<Account>

    constructor ()
      ensures accounts == []
    {
      accounts := [];
    }
  }

  /**
   * The body of the loop of `applyConfigWithErr` for one account section:
   * fill the account field by field, checking as the fields are set.
   */
  method BuildAccount(s: Section, d: Defaults, run: PasswordRunner) returns (r: Result<Account, ConfigError>)
    ensures r == ResolveAccount(s, d, run)
  {
    var acct := Account("", "", "", "", "", "", "", 0);
    acct := acct.(account := s.name);
    acct := acct.(email := SectionValue(s, "email", ""));
    acct := acct.(passwordInsecure := SectionValue(s, "password_insecure", ""));
    acct := acct.(passwordCommand := SectionValue(s, "password_command", ""));
    acct := acct.(command := SectionValue(s, "command", d.command));
    if |acct.command| == 0 {
      return Err(NoCommand(acct.account, acct.email));
    }
    acct := acct.(folder := SectionValue(s, "folder", d.folder));
    acct := acct.(server := SectionValue(s, "server", d.server));
    assert acct == Draft(s, d);
    var idleTimeoutMinutesVal := SectionValue(s, "idle_timeout_minutes", d.idleTimeoutMinutes);
    var idleTimeoutMinutes := Atoi(idleTimeoutMinutesVal);
    if idleTimeoutMinutes.None? {
      return Err(BadIdleNumber(acct.account, acct.email, idleTimeoutMinutesVal));
    }
    if idleTimeoutMinutes.value <= 0 {
      return Err(IdleNotPositive(acct.account, acct.email, idleTimeoutMinutesVal));
    }
    if idleTimeoutMinutes.value > MaxIdleTimeoutMinutes {
      return Err(IdleTooLarge(acct.account, acct.email, idleTimeoutMinutesVal));
    }
    acct := acct.(idleTimeoutMinutes := idleTimeoutMinutes.value);
    if |acct.passwordInsecure| == 0 {
      var outcome := run(acct.passwordCommand, EnvOf(acct));
      if outcome.Failed? {
        return Err(PasswordCommandFailed(acct.account, acct.passwordCommand, outcome.diagnostic));
      }
      acct := acct.(passwordInsecure := outcome.stdout, passwordCommand := "");
    }
    return Ok(acct);
  }

  /** Build the account of the `i`-th section, an account section, and say where that leaves the walk. */
  method NextAccount(sections: seq<Section>, i: nat, d: Defaults, run: PasswordRunner, ghost done: Resolution)
    returns (r: Result<Account, ConfigError>)
    requires i < |sections| && sections[i].name != DefaultSectionName
    requires done == ResolveSections(sections[..i], AccountResolver(d, run)) && done.err.None?
    ensures r.Ok? ==> ResolveSections(sections[..i + 1], AccountResolver(d, run)) == Resolution(done.added + [r.value], None)
    ensures r.Err? ==> ResolveSections(sections, AccountResolver(d, run)) == Resolution(done.added, Some(r.error))
  {
    r := BuildAccount(sections[i], d, run);
    if r.Err? {
      WalkFails(sections, i, AccountResolver(d, run), r.error);
    } else {
      WalkAppends(sections, i, AccountResolver(d, run), r.value);
    }
  }

  /**
   * The loop of `applyConfigWithErr`: walk the sections in order, append
   * the account of every account section to `ii.accounts`, count them in
   * `foundSections`, and stop at the first section that does not resolve.
   */
  method AppendAccounts(sections: seq<Section>, d: Defaults, run: PasswordRunner, ii: AccountList)
    returns (foundSections: nat, err: Option<ConfigError>)
    modifies ii
    ensures ii.accounts == old(ii.accounts) + ResolveSections(sections, AccountResolver(d, run)).added
    ensures err == ResolveSections(sections, AccountResolver(d, run)).err
    ensures foundSections == |ResolveSections(sections, AccountResolver(d, run)).added|
  {
    foundSections := 0;
    var i := 0;
    ghost var done := Resolution([], None);
    while i < |sections|
      invariant 0 <= i <= |sections|
      invariant done == ResolveSections(sections[..i], AccountResolver(d, run))
      invariant done.err.None?
      invariant ii.accounts == old(ii.accounts) + done.added
      invariant foundSections == |done.added|
    {
      var s := sections[i];
      if s.name != DefaultSectionName {
        var acct := NextAccount(sections, i, d, run, done);
        if acct.Err? {
          return foundSections, Some(acct.error);
        }
        ii.accounts := ii.accounts + [acct.value];
        foundSections := foundSections + 1;
        done := Resolution(done.added + [acct.value], None);
      } else {
        WalkSkipsDefault(sections, i, AccountResolver(d, run));
      }
      i := i + 1;
    }
    assert sections[..i] == sections;
    return foundSections, None;
  }

  /**
   * `applyConfigWithErr`: compute the four overall defaults, append one
   * account per account section to `ii.accounts`, keeping what was there
   * before, and return the first error; no account section is an error.
   */
  method ApplyConfig(f: File, flags: Flags, run: PasswordRunner, ii: AccountList) returns (err: Option<ConfigError>)
    modifies ii
    ensures ii.accounts == old(ii.accounts) + ApplyResult(f, flags, run).added
    ensures err == ApplyResult(f, flags, run).err
  {
    var ourDefaultServer := OverallDefault(f, BuiltinServer, flags.server, "server");
    var ourDefaultFolder := OverallDefault(f, BuiltinFolder, flags.folder, "folder");
    var ourDefaultCommand := OverallDefault(f, BuiltinCommand, flags.command, "command");
    var ourDefaultIdleTimeoutMinutes := OverallDefault(f, BuiltinIdleTimeoutMinutes, "", "idle_timeout_minutes");
    var d := Defaults(ourDefaultServer, ourDefaultFolder, ourDefaultCommand, ourDefaultIdleTimeoutMinutes);
    assert d == OverallDefaults(f, flags);
    var foundSections;
    foundSections, err := AppendAccounts(f.sections, d, run, ii);
    if err.Some? {
      return;
    }
    if foundSections == 0 {
      return Some(NoSections);
    }
    return None;
  }
}
