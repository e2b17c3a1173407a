/** The row bot.py appends to its giveaway history for every finished dwell
    (_log_giveaway), and a reader for it that shows what the row keeps. */
module GiveawayLog {
  import opened Search
  import opened Decimal
  import opened Policy

  /** streamer, type, wait and viewers columns (the timestamp column is the
      wall clock and is not modelled). */
  datatype Row = Row(streamer: string, kind: string, wait: string, viewers: string)

  function KindCell(isPack: bool): string { if isPack then "pack" else "other" }

  /** `str(int(wait))`, with "+" appended when the dwell hit its cap. */
  function WaitCell(wait: Seconds, capped: bool): (s: string)
    ensures |s| > 0 && (s[|s| - 1] == '+' <==> capped)
  {
    NatToString(wait.Floor as nat) + (if capped then "+" else "")
  }

  /** `viewers or "?"`: an unknown count and a count of zero both print "?". */
  function ViewersCell(viewers: Option<nat>): (s: string)
    ensures s == "?" <==> viewers.None? || viewers.value == 0
  {
    if viewers.None? || viewers.value == 0 then "?" else NatToString(viewers.value)
  }

  /** The row _log_giveaway writes: the streamer as read, the type, the
      wait marked when capped, and "?" for an unknown or zero count. */
  function FormatRow(streamer: string, isPack: bool, wait: Seconds, capped: bool,
                     viewers: Option<nat>): (r: Row)
    ensures r.streamer == streamer && ReadKind(r.kind) == Some(isPack)
    ensures |r.wait| > 0 && (r.wait[|r.wait| - 1] == '+' <==> capped)
    ensures r.viewers == "?" <==> viewers.None? || viewers.value == 0
  {
    Row(streamer, KindCell(isPack), WaitCell(wait, capped), ViewersCell(viewers))
  }

  /** What a row says about the giveaway it records. */
  datatype Record = Record(streamer: string, isPack: bool, waitSeconds: nat, capped: bool,
                           viewers: Option<nat>)

  function ReadKind(s: string): Option<bool>
  {
    if s == "pack" then Some(true) else if s == "other" then Some(false) else None
  }

  /** The whole seconds and the capped flag of a wait cell. */
  function ReadWait(s: string): Option<(nat, bool)>
  {
    var capped := |s| > 0 && s[|s| - 1] == '+';
    var digits := if capped then s[..|s| - 1] else s;
    if IsDigits(digits) then Some((DigitsValue(digits), capped)) else None
  }

  function ReadViewers(s: string): Option<Option<nat>>
  {
    if s == "?" then Some(None) else if IsDigits(s) then Some(Some(DigitsValue(s))) else None
  }

  /** Reads a row back; None for a row this bot could not have written. */
  function ReadRow(r: Row): Option<Record>
  {
    match (ReadKind(r.kind), ReadWait(r.wait), ReadViewers(r.viewers))
    case (Some(isPack), Some((seconds, capped)), Some(viewers)) =>
      Some(Record(r.streamer, isPack, seconds, capped, viewers))
    case _ => None
  }

  lemma {:induction false} ReadWaitCell(wait: Seconds, capped: bool)
    ensures ReadWait(WaitCell(wait, capped)) == Some((wait.Floor as nat, capped))
  {
    var w := WaitCell(wait, capped);
    var digits := NatToString(wait.Floor as nat);
    NatToStringValue(wait.Floor as nat);
    assert (if capped then w[..|w| - 1] else w) == digits;
  }

  lemma {:induction false} ReadViewersCell(viewers: Option<nat>)
    ensures ReadViewers(ViewersCell(viewers)) == Some(if viewers == Some(0) then None else viewers)
  {
    if viewers.Some? && viewers.value != 0 {
      NatToStringValue(viewers.value);
    }
  }

  /** A formatted row keeps the streamer, the type, the whole seconds of the
      wait and the capped flag; the viewer count survives unless it was zero,
      which prints as unknown. */
  lemma {:induction false} ReadFormattedRow(streamer: string, isPack: bool, wait: Seconds,
                                            capped: bool, viewers: Option<nat>)
    ensures ReadRow(FormatRow(streamer, isPack, wait, capped, viewers))
            == Some(Record(streamer, isPack, wait.Floor as nat, capped,
                           if viewers == Some(0) then None else viewers))
  {
    ReadWaitCell(wait, capped);
    ReadViewersCell(viewers);
  }
}
