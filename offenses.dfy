/** Diagnostic records reported by the theme checker ("offenses") and the
    fail levels `theme check` accepts. */
module Offenses {
  import opened Wrappers

  /** Severity of an offense, with the constructors of theme-check's Severity enum. */
  datatype Severity = ERROR | WARNING | INFO {

    /** The enum's numeric value; sorting by it ascending puts errors first. */
    function Rank(): nat {
      match this
      case ERROR => 0
      case WARNING => 1
      case INFO => 2
    }

    /** Place in the order info < suggestion < warning < error that a fail level is
        measured against (higher is more severe; no offense has weight 1, suggestion's). */
    function Weight(): nat {
      match this
      case INFO => 0
      case WARNING => 2
      case ERROR => 3
    }

    /** The lower-case name written into JSON output. */
    function Label(): (l: string)
      ensures ParseSeverity(l) == Some(this)
    {
      match this
      case ERROR => "error"
      case WARNING => "warning"
      case INFO => "info"
    }
  }

  /** Reads a lower-case severity name back. */
  function ParseSeverity(l: string): Option<Severity> {
    if l == "error" then Some(ERROR)
    else if l == "warning" then Some(WARNING)
    else if l == "info" then Some(INFO)
    else None
  }

  /** Rank orders severities exactly opposite to Weight. */
  lemma RankReversesWeight(a: Severity, b: Severity)
    ensures a.Rank() <= b.Rank() <==> a.Weight() >= b.Weight()
  {
  }

  /** A point in a source file: offset, line and column (line counted from 0). */
  datatype Position = Position(index: nat, line: nat, character: nat)

  /** One diagnostic record. */
  datatype Offense = Offense(
    check: string,
    message: string,
    absolutePath: string,
    severity: Severity,
    start: Position,
    end: Position)

  /** The `--fail-level` option: a severity threshold, or `crash`. */
  datatype FailLevel = Crash | Error | Suggestion | Warning | Info {

    /** The threshold's place in the order info < suggestion < warning < error. */
    function Weight(): nat
      requires !Crash?
    {
      match this
      case Info => 0
      case Suggestion => 1
      case Warning => 2
      case Error => 3
    }
  }
}
