/**
 * The fixed vocabulary of the configuration: which keys a section may hold,
 * the built-in defaults, the record built per account, the errors that
 * validation and resolution report, and the command-line overrides.
 */
module Settings {

  /** Keys any section may contain. */
  const ValidKeys: seq<string> :=
    ["command", "email", "folder", "password_command", "password_insecure", "server", "idle_timeout_minutes"]

  /** Keys every section but DEFAULT must contain. */
  const RequiredKeys: seq<string> := ["email"]

  /** Every section but DEFAULT must contain exactly one of these. */
  const EitherOrKeys: seq<string> := ["password_command", "password_insecure"]

  /** Keys the DEFAULT section must not contain, in the order they are checked. */
  const DefaultForbiddenKeys: seq<string> := ["email", "password_insecure", "password_command"]

  const BuiltinFolder: string := "INBOX"
  const BuiltinServer: string := "imap.gmail.com:993"
  const BuiltinIdleTimeoutMinutes: string := "15"
  const BuiltinCommand: string := ""

  /**
   * Section 3 of RFC 2177 advises re-issuing IDLE at least every 29 minutes,
   * so a configured idle timeout must lie in 1..MaxIdleTimeoutMinutes.
   */
  const MaxIdleTimeoutMinutes: int := 29

  /** The values given with `-folder`, `-server` and `-command` ("" when absent). */
  datatype Flags = Flags(folder: string, server: string, command: string)

  /** One account's whole configuration (`IMAPIDOLAccount`). */
  datatype Account = Account(
    account: string,
    command: string,
    email: string,
    folder: string,
    passwordCommand: string,
    passwordInsecure: string,
    server: string,
    idleTimeoutMinutes: int)

  /** The errors `validateConfigWithErr` and `applyConfigWithErr` return. */
  datatype ConfigError =
    | InvalidKey(section: string, key: string, value: string)
    | MissingRequiredKey(section: string, key: string)
    | MoreThanOneEitherOr(section: string)
    | NoEitherOr(section: string)
    | UnsupportedDefaultKey(section: string, key: string)
    | NoCommand(account: string, email: string)
    | BadIdleNumber(account: string, email: string, raw: string)
    | IdleNotPositive(account: string, email: string, raw: string)
    | IdleTooLarge(account: string, email: string, raw: string)
    | PasswordCommandFailed(account: string, passwordCommand: string, detail: string)
    | NoSections
}
