/** The match-clock computation of `utils/wider_utils.py`: each event's
    timestamp within its period is shifted by the period's start and turned
    into a match minute, capped at the period's nominal end. */
module WiderUtils {
  import opened Seqs

  /** A time of day as `pd.to_datetime` reads an event timestamp such as
      `00:12:34.567` (the seconds do not affect the minute). */
  datatype Clock = Clock(hour: nat, minute: nat, second: nat)

  type ClockTime = c: Clock | c.hour < 24 && c.minute < 60 && c.second < 60
    witness Clock(0, 0, 0)

  /** The `timestamp` cell: unparseable text becomes NaT. */
  datatype Timestamp = Unparseable | Parsed(time: ClockTime)

  /** An input row: its timestamp, its period and its other columns. */
  datatype TimedRow<T> = TimedRow(timestamp: Timestamp, period: int, rest: T)

  /** An output row: the parsed timestamp, the added `adjusted_timestamp`
      and `minutes` columns, and the row's other columns unchanged. */
  datatype AdjustedRow<T> = AdjustedRow(timestamp: ClockTime, period: int, rest: T, adjusted: ClockTime, minutes: int)

  /** The minutes added for a period: its nominal start. */
  function PeriodOffset(period: int): (m: nat)
    ensures period == 2 ==> m == 45
    ensures period == 3 ==> m == 90
    ensures period == 4 ==> m == 105
    ensures period == 5 ==> m == 120
    ensures !(2 <= period <= 5) ==> m == 0
  {
    if period == 2 then 45
    else if period == 3 then 90
    else if period == 4 then 105
    else if period == 5 then 120
    else 0
  }

  /** The time of day `offset` minutes after `c`, wrapping at midnight. */
  function AddMinutes(c: ClockTime, offset: nat): (r: ClockTime)
    ensures r.second == c.second
    ensures r.hour * 60 + r.minute == (c.hour * 60 + c.minute + offset) % 1440
  {
    var total := (c.hour * 60 + c.minute + offset) % 1440;
    Clock(total / 60, total % 60, c.second)
  }

  /** One parsed row: the adjusted clock, its `hour * 60 + minute`, capped
      by `period * 45`. */
  function AdjustRow<T>(t: ClockTime, period: int, rest: T): (r: AdjustedRow<T>)
    ensures r.timestamp == t && r.period == period && r.rest == rest
    ensures r.minutes == Min((t.hour * 60 + t.minute + PeriodOffset(period)) % 1440, period * 45)
  {
    var adjusted := AddMinutes(t, PeriodOffset(period));
    AdjustedRow(t, period, rest, adjusted, Min(adjusted.hour * 60 + adjusted.minute, period * 45))
  }

  predicate IsParsed<T>(r: TimedRow<T>) { r.timestamp.Parsed? }

  /** `time_adjustment(data)` on a copy of the frame: the result holds
      exactly the rows whose timestamp parses, in order, each adjusted. */
  function TimeAdjustment<T>(rows: seq<TimedRow<T>>): (r: seq<AdjustedRow<T>>)
    ensures var kept := Filter(rows, IsParsed);
      |r| == |kept| &&
      forall i :: 0 <= i < |kept| ==> r[i] == AdjustRow(kept[i].timestamp.time, kept[i].period, kept[i].rest)
  {
    if rows == [] then []
    else
      var last := rows[|rows| - 1];
      TimeAdjustment(rows[..|rows| - 1])
        + (if last.timestamp.Parsed? then [AdjustRow(last.timestamp.time, last.period, last.rest)] else [])
  }

  /** Every minute is at most `period * 45`, and is either that cap or the
      clock minute of the adjusted time. */
  lemma MinutesCapped<T>(rows: seq<TimedRow<T>>)
    ensures forall i :: 0 <= i < |TimeAdjustment(rows)| ==>
      var r := TimeAdjustment(rows)[i];
      && r.minutes <= r.period * 45
      && (r.minutes == r.period * 45 || r.minutes == r.adjusted.hour * 60 + r.adjusted.minute)
  {
  }

  /** An event at 00:12 of the second half is at minute 57. */
  lemma SecondHalfExample()
    ensures AdjustRow(Clock(0, 12, 5), 2, 0).minutes == 57
  {
  }
}
