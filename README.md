# imapidol configuration resolution, modelled in Dafny

imapidol watches IMAP folders with IDLE and runs a command when new mail
arrives. Before it opens any connection it reads an INI file: one section
per account plus an optional `DEFAULT` section. This project models the
two steps in `main.go` that turn that file into the list of accounts to
watch.

- **Validation** (`validateConfigWithErr`). Sections are checked in file
  order. Within a section the checks run in this order:
  1. every key is on the allow-list;
  2. a non-DEFAULT section has `email`;
  3. a non-DEFAULT section has exactly one of `password_command` and
     `password_insecure`;
  4. DEFAULT has none of `email`, `password_insecure` and
     `password_command`.

  The first violation is the result.
- **Resolution** (`applyConfigWithErr`, `getOverallDefault`,
  `getSectionValue`). Command, folder and server resolve from the section's
  own value, then the command-line flag, then the DEFAULT value, then a
  built-in constant. The idle timeout skips the flag level. An empty string
  always counts as unset.

  Each non-DEFAULT section becomes an `IMAPIDOLAccount`. It must have a
  non-empty command and an idle timeout in 1..29 minutes; the 29-minute
  cap comes from section 3 of RFC 2177. When `password_insecure` is empty,
  the password is the output of the password command. Accounts are
  appended to the caller's slice one by one, and the walk stops at the
  first error. A file with no account section is an error.

Files:

- `wrappers.dfy`: `Option` and `Result`.
- `strconv.dfy`: `strconv.Atoi` on a 64-bit `int`, and `Itoa` with the
  round-trip proof.
- `ini.dfy`: the loaded INI file as values. A key lookup gives `""` when
  the key is absent, as go-ini's `Key(name).String()` does. `DEFAULT` is
  the unnamed section.
- `settings.dfy`: the key lists, the built-in defaults, `IMAPIDOLAccount`
  and the error cases.
- `validation.dfy`: the validation rules.
  - Specification functions give the first violation.
  - `SectionValid` states the rules without any search order.
  - The source's nested loops are methods proved equal to the
    specification.
- `cascade.dfy`: the two lookup helpers, proved against `FirstNonEmpty`, a
  reference definition of "first non-empty source wins".
- `apply.dfy`: account resolution.
  - Specification functions cover one account, the walk over the sections
    and the whole call.
  - The password command is an oracle parameter.
  - `AccountList` stands for the caller's slice, `*ii`.
  - The methods `BuildAccount`, `AppendAccounts` and `ApplyConfig` mirror
    the source's loop, proved against the specification.
- `scenarios.dfy`: two concrete configurations worked through end to end.

Where the comments in `main.go` and its code differ, the model follows the
code:

- **Presence, not a non-empty value.** The comments at main.go:40 and
  main.go:48 call `email` and one of the password keys REQUIRED, but the
  checks at main.go:187-215 only test that a line with that key is present.
  So `email =` passes validation. An empty `password_insecure =` also
  counts for the either/or rule; later, because the value is empty, the
  password command is run with an empty command string.
- **The idle-timeout default.** It has no command-line flag: `""` is passed
  as the flag (main.go:279).

## Model

| member | source | states |
|---|---|---|
| Strconv.Atoi | main.go:305 | `strconv.Atoi` with a 64-bit `int`: it succeeds only on an optional sign followed by one or more digits, and then gives their value, negated after `-`. Every such spelling whose value fits the 64-bit range succeeds. An empty string or a lone sign fails. |
| Strconv.AtoiRejectsNonDigit | main.go:305 | Any character other than a digit, except a leading sign, makes `Atoi` fail. |
| Strconv.AtoiAcceptsExamples | main.go:305 | "+5", "007" and "-0" parse as 5, 7 and 0. |
| Strconv.AtoiRejectsExamples | main.go:305 | "1x", "1 2" and "+-3" do not parse. |
| Strconv.Itoa | main.go:305 | The canonical decimal spelling of an integer is a well-formed `Atoi` input, with a leading `-` exactly when the integer is negative. |
| Strconv.NatDigitsValue | main.go:305 | The decimal spelling of a natural number is all digits and reads back as that number. |
| Strconv.AtoiItoa | main.go:305 | Parsing the canonical spelling of any 64-bit integer gives that integer back. |
| Ini.KeyNames | main.go:174-185 | The names of a section's lines, in order, one per line. |
| Ini.Value | main.go:249-251 | `Key(name).String()`: `""` when the section has no line for `name`, otherwise the value, as written, on a line named `name`. |
| Ini.DefaultSection | main.go:241 | `cfg.Section("")` is the section named DEFAULT. When the file has a DEFAULT section it is one of the file's DEFAULT sections; when it has none it is an empty DEFAULT section. |
| Validation.FirstInvalidKey | main.go:174-185 | Index of the first line whose key is not in `validINIKeys` (main.go:30-38). Every line before it has a valid key. |
| Validation.FirstAbsent | main.go:187-199 | Index of the first key of `requiredINIKeys` (main.go:41-46) the section lacks. Every earlier one is present. |
| Validation.FirstPresent | main.go:217-230 | Index of the first key of `invalidINIKeysDefault` (main.go:55-62) the section has. Every earlier one is absent. |
| Validation.SectionViolation | main.go:173-230 | The error for one section is one of the five validation errors and names that section. |
| Validation.Validate | main.go:171-233 | The file passes exactly when no section has a violation; otherwise the error is the violation of one of its sections. |
| Validation.FirstViolatingSection | main.go:172 | The first section, in file order, with a violation. Every section before it passes. |
| Validation.OccurrencesOfEitherOrKeys | main.go:203-207 | The inner loop over `requiredINIKeysEitherOr` (main.go:49-52) adds one exactly for `password_command` or `password_insecure`. |
| Validation.EitherOrCountBounds | main.go:200-208 | `foundEitherOr` counts each either/or key present at least once. It is zero exactly when neither key is present. |
| Validation.EitherOrCountExact | main.go:200-208 | With unique key names, `foundEitherOr` is the number of either/or keys present. |
| Validation.InvalidKeyReportedFirst | main.go:174-184 | A key off the allow-list rejects its section before any other check. The error names the section and the first line whose key is not allowed, with that line's raw value. |
| Validation.MissingEmailRejected | main.go:195-198 | A non-DEFAULT section with only known keys and no `email` is rejected as missing `email`. |
| Validation.DefaultSectionExempt | main.go:195-230 | A DEFAULT section can be rejected only for an unknown key or a forbidden key. |
| Validation.EitherOrRejected | main.go:210-215 | A non-DEFAULT section with both password keys is rejected as having more than one. One with neither is rejected as having none. |
| Validation.DefaultForbiddenRejected | main.go:217-230 | A DEFAULT section with a forbidden key is rejected, naming the first such key in list order. |
| Validation.SectionViolationNoneIffValid | main.go:172-231 | A section passes every check exactly when it obeys the rules stated declaratively (`SectionValid`). |
| Validation.ViolationRejectsFile | main.go:172-233 | Any violating section makes the file fail. The error is the violation of a section at or before it, and every section before that one passes. |
| Validation.ValidateNoneIffAllValid | main.go:171-233 | The file validates exactly when every section obeys the rules. |
| Validation.Contains | main.go:175-181 | The `found` search loop: true exactly when the key is in the list. |
| Validation.CheckSection | main.go:173-230 | The loops for one section compute exactly the first violation of that section. |
| Validation.ValidateConfig | main.go:171-233 | `validateConfigWithErr`: the loop over the sections computes exactly the first violation of the file. |
| Cascade.FirstNonEmptyOfTwo | main.go:235-247 | A two-level cascade gives the first source if non-empty, else the second if non-empty, else the last. |
| Cascade.OverallDefault | main.go:235-247 | `getOverallDefault` returns one of flag, DEFAULT value and built-in default. It is empty exactly when all three are. |
| Cascade.SectionValue | main.go:249-255 | `getSectionValue` returns the section's value or the fallback. It is empty exactly when both are. |
| Cascade.OverallDefaultPrecedence | main.go:235-247 | The overall default is the first non-empty of flag and DEFAULT value, else the built-in constant. |
| Cascade.SectionValuePrecedence | main.go:249-255 | The section's value is used when non-empty, else the fallback. |
| Cascade.FirstNonEmptyPrecedence | main.go:235-255 | No lower-precedence source wins over a non-empty higher one. |
| Cascade.FirstNonEmptyFallsThrough | main.go:235-255 | The winner is preceded only by empty sources. The last resort is used when every source is empty. |
| Cascade.SectionValueCascade | main.go:297-304 | A per-account setting comes from the section, then the flag, then DEFAULT, then the built-in constant. |
| Apply.OverallDefaults | main.go:267-282 | The server, folder and idle-timeout defaults are never empty, because their built-in constants are not. |
| Apply.IdleTimeout | main.go:304-318 | The idle timeout is accepted exactly when `Atoi` gives a value in 1..29. It is "not a number" exactly when `Atoi` fails, "not positive" exactly when `Atoi` gives a value of 0 or less, and "too large" exactly when `Atoi` gives a value over 29. |
| Apply.Draft | main.go:290-302 | The account built from a section is named after the section. |
| Apply.WithPassword | main.go:319-340 | A given `password_insecure` is kept and the command is not run. Otherwise the password is the command's output and the command is cleared. A failing command gives an error naming the account and the command. |
| Apply.CheckedAccount | main.go:304-340 | Each idle-timeout failure gives its own error, naming the account, email and raw value. Otherwise the password step follows. |
| Apply.ResolveAccountSound | main.go:289-340 | A resolved account is named after its section and has a non-empty command, a timeout in 1..29, the section's email and the cascaded command, folder and server. An error names the account. |
| Apply.ResolveAccount | main.go:289-340 | One account section gives an account named after the section, or one of the five account errors naming that account. |
| Apply.AccountSections | main.go:288-289 | The sections that become accounts are non-DEFAULT sections of the file, at most one per section. |
| Apply.AccountSectionsComplete | main.go:288-289 | Every non-DEFAULT section of the file is among the account sections. |
| Apply.AccountSectionsConcat | main.go:288-289 | The account sections keep file order: those of two files joined are those of the first followed by those of the second. |
| Apply.ResolveSections | main.go:287-344 | The walk appends at most one account per section. When it stops with an error, the error is that of a non-DEFAULT section of the file. |
| Apply.ApplyResult | main.go:287-348 | Without an error at least one account is appended; "no sections" comes with no account at all. |
| Apply.WalkStopsAtError | main.go:288-344 | After the first error, later sections change nothing. |
| Apply.WalkSkipsDefault | main.go:289 | A DEFAULT section adds no account and no error. |
| Apply.WalkAppends | main.go:341-342 | A resolving account section appends its account, in order. |
| Apply.WalkFails | main.go:298-334 | A failing account section ends the walk with its error, whatever sections follow it. The accounts already appended remain. |
| Apply.ResolveSectionsAccounts | main.go:287-344 | The walk appends, in order, the account of each account section it gets through. The error, if any, is that of the next account section. |
| Apply.ApplySucceeds | main.go:287-348 | On success there is exactly one account per non-DEFAULT section, in section order, and at least one. |
| Apply.ApplyFails | main.go:287-344 | On an account error, the accounts appended are those of the account sections before the failing one. The error is the failing one's. |
| Apply.NoSectionsIff | main.go:345-347 | "No sections to work on" is reported exactly when the file has no non-DEFAULT section. |
| Apply.AddedAccountsSound | main.go:297-341 | Every appended account has a non-empty command and a timeout in 1..29. |
| Apply.AddedFromSection | main.go:288-342 | Every account the walk appends is the resolved account of a non-DEFAULT section of the file. |
| Apply.OverallDefaultsPrecedence | main.go:267-282 | Server, folder and command defaults come from the flag, then DEFAULT, then the built-in constant. The idle-timeout default comes from DEFAULT, then "15". |
| Apply.IdleDefaultIgnoresFlags | main.go:279 | The idle-timeout default does not depend on any command-line flag. |
| Apply.FolderAndServerCascade | main.go:301-302 | An account's folder and server come from the section, then the flag, then DEFAULT, then the built-in constant. |
| Apply.IdleTimeoutOfNumber | main.go:305-318 | A timeout spelled as a 64-bit integer is accepted exactly when it lies in 1..29. Zero or less is "not positive", and over 29 is "too large". |
| Apply.IdleTimeoutNotPositive | main.go:309-311 | "0" and "-5" are refused as not positive. |
| Apply.IdleTimeoutTooLarge | main.go:315-317 | "30" and "45" are refused as too large. |
| Apply.IdleTimeoutNotANumber | main.go:305-308 | "ten", "15m" and "" are refused as not numbers. |
| Apply.IdleTimeoutAccepted | main.go:305-318 | "1", "10" and "29" are accepted as 1, 10 and 29. |
| Apply.IdleTimeoutErrorNamesAccount | main.go:304-317 | A bad idle timeout stops resolution with an error naming the account and the raw value. |
| Apply.EmptyCommandRejected | main.go:297-300 | An empty command after cascading is an error naming the account and its email. |
| Apply.InsecurePasswordKept | main.go:321 | With `password_insecure` set, the result does not depend on the password command. The given password and command are kept. |
| Apply.PasswordFromCommand | main.go:321-339 | With no `password_insecure`, the password is the command's output, run with the account's environment (account, email, folder, server), and the command is cleared. A failing command is an error naming the account and command. |
| Apply.ValidSectionClearsCommand | main.go:321-340 | A resolved account from a valid section has an empty password command. |
| Apply.ValidatedAccountsHoldNoCommand | main.go:266-349 | After validation, every account appended has an empty password command. |
| Apply.AccountList.constructor | main.go:130 | The caller's account slice starts empty. |
| Apply.BuildAccount | main.go:290-340 | The loop body, written field by field with early returns, computes exactly the specified account or error. |
| Apply.NextAccount | main.go:290-342 | One pass of the loop body over an account section: on success the walk so far gains exactly that account; on an error the whole walk ends with that error. |
| Apply.AppendAccounts | main.go:287-344 | The loop appends exactly the specified accounts to `*ii` and no more. It stops with the specified error and counts the appended accounts in `foundSections`. |
| Apply.ApplyConfig | main.go:266-349 | `applyConfigWithErr` appends exactly the specified accounts to `*ii` and returns the specified error. |
| Scenarios.CascadingFileResolves | main.go:266-349 | DEFAULT sets the server and a 10-minute timeout, and the account sets email, password and command. The result is one account with folder INBOX, the DEFAULT server and timeout 10. |
| Scenarios.TimeoutOf45Refused | main.go:315-317 | An account with `idle_timeout_minutes = 45` is refused with "too large", naming the account, its email and "45". No account is added. |
| Scenarios.ScenariosValidate | main.go:171-233 | Both concrete files pass validation. |
| Scenarios.TwoValidSections | main.go:171-233 | A file of two sections with unique keys that each obey the rules passes validation. |
| Scenarios.WalkDefaultThenAccount | main.go:288-343 | A DEFAULT section followed by one account section resolves to that account, or to its error. |

## Left out

- Loading and parsing the INI file: `getConfig`, and go-ini's file syntax, quoting, comments and case handling. The model starts from the parsed sections.
- go-ini's duplicate-key handling: it leaves one line per key. The model does not enforce this; the lemmas that need it take `UniqueNames` as a premise.
- Ini.Value: values are taken as written. go-ini's `%(name)s` value references, which `String()` expands, are not modelled; a value holding such a reference resolves in the model to its literal text.
- go-ini's merging of repeated section headers: the library yields unique section names, but the model's `File` does not enforce this. A file with a repeated section name is outside what the library produces.
- go-ini's parent/child section inheritance (`[a.b]` reading keys from `[a]`). It is not modelled.
- The `validateConfig` and `applyConfig` wrappers: they print the error and exit the process.
- Running the password command (`/bin/sh -c`, `exec.Command`, stdout/stderr buffers, `os.Environ`). It is a function parameter: given the command and the account's environment, it returns the output or a diagnostic. The inherited process environment is not modelled.
- Debug and verbose logging in `applyConfigWithErr`: it has no effect on the result.
- The exact text of the Go error messages. Errors are modelled as a datatype that carries the same parameters (section, key, value, account, email, raw timeout, command, diagnostic).
- The command-line flags are parameters (`Flags`): `setupFlags`, `printUsage` and the dump options are not part of this model.
- Not part of this model: the IDLE connection handling, the lock file and process lifecycle (`handleAccount`, `runIMAPIDOL`, `grabLockOrExit`), and `writeLogger`.
