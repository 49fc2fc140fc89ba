/**
 * Turning the optional start and end texts of a GraphQL query into a time
 * window (internal/convert/converter.go).  The clock reading and the RFC 3339
 * parser are parameters; an empty text selects the default bound.
 */
module ConvertTime {
  import opened Wrappers
  import opened Mdl

  /** `time.Hour`, in nanoseconds. */
  const Hour: int := 3_600_000_000_000

  /** An RFC 3339 parser: an instant, or the parser's error text. */
  type TimeParser = string -> Result<Instant>

  /** `timeToGQLDateTime`: the UTC RFC 3339 text of an instant. */
  type TimeFormatter = Instant -> string

  const StartAfterEnd := "start time must be before end time"

  /**
   * `GqlDateTimeToDuration`: the start defaults to an hour before `now` and
   * the end to `now`; a text that is given must parse (the start is examined
   * first); a start later than the end is refused, an equal one accepted.
   */
  function GqlDateTimeToDuration(startTime: string, endTime: string, now: Instant, parse: TimeParser): (r: Result<Duration>)
    ensures r.Ok? ==> r.value.start <= r.value.end
    ensures r.Ok? ==> if startTime == "" then r.value.start == now - Hour else parse(startTime) == Ok(r.value.start)
    ensures r.Ok? ==> if endTime == "" then r.value.end == now else parse(endTime) == Ok(r.value.end)
    ensures startTime != "" && parse(startTime).Err? ==> r == Err("invalid start time: " + parse(startTime).error)
    ensures (startTime == "" || parse(startTime).Ok?) && endTime != "" && parse(endTime).Err? ==>
      r == Err("invalid end time: " + parse(endTime).error)
  {
    var start := if startTime == "" then Ok(now - Hour) else parse(startTime);
    if start.Err? then Err("invalid start time: " + start.error) else
    var end := if endTime == "" then Ok(now) else parse(endTime);
    if end.Err? then Err("invalid end time: " + end.error) else
    if After(start.value, end.value) then Err(StartAfterEnd)
    else Ok(NewDuration(start.value, end.value))
  }

  /**
   * Once both bounds are known, the call fails exactly when the start is
   * later than the end; with no texts at all it is the last hour.
   */
  lemma DurationOrderDecides(startTime: string, endTime: string, now: Instant, parse: TimeParser)
    ensures var s := if startTime == "" then Ok(now - Hour) else parse(startTime);
            var e := if endTime == "" then Ok(now) else parse(endTime);
            s.Ok? && e.Ok? ==>
              (GqlDateTimeToDuration(startTime, endTime, now, parse).Ok? <==> s.value <= e.value) &&
              (s.value > e.value ==> GqlDateTimeToDuration(startTime, endTime, now, parse) == Err(StartAfterEnd))
    ensures GqlDateTimeToDuration("", "", now, parse) == Ok(Duration(now - Hour, now))
  {
  }

  /** With no start given, an end more than an hour before `now` is refused. */
  lemma StaleEndRefused(endTime: string, now: Instant, parse: TimeParser)
    requires endTime != "" && parse(endTime).Ok? && parse(endTime).value < now - Hour
    ensures GqlDateTimeToDuration("", endTime, now, parse) == Err(StartAfterEnd)
  {
  }
}
