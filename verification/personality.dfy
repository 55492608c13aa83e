/** The vocabulary of the personality-driven URL input: moods, the typing behaviours
    the input reacts to, the URL patterns it recognises, and one observed input state. */
module Personality {
  import opened Wrappers

  datatype Mood = Sassy | Bored | Bruh | Bro | Party | Chill | Wholesome

  datatype Behavior =
    | StartedTyping | ClearedAll | PastedBig | RemovedTld | AddedTld
    | BrokeValidity | FixedError | Oscillating | HasSpaces | HasPort
    | HasSwearwords | TooShort | DotWithoutTld | UsingHttp | Typing

  datatype Pattern =
    | MissingTld | MissingProtocol | InvalidGeneral | InsanelyLong | UtmTracking
    | LoginPage | AdminPage | IpAddress | Valid

  /** The URL flags the behaviour rules read. An optional flag the analyser left unset
      is `false`, which is how the rules' truthiness tests treat it. */
  datatype UrlFlags = UrlFlags(
    valid: bool,
    hasTld: bool,
    isHttp: bool,
    hasSpaces: bool,
    hasPort: bool,
    hasSwearwords: bool,
    isShort: bool,
    dotWithoutTld: bool)

  /** What the input held at one keystroke: its text, the URL it parsed to (if any,
      as its serialisation), and its flags. */
  datatype InputState = InputState(value: string, parsed: Option<string>, flags: UrlFlags)
}
