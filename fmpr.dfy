/**
 * Mapping fix-its between the domain records and the GraphQL schema
 * (internal/convert/fmpr.go): the status enum in both directions, single
 * records and lists, the two input records, and the query parameters.
 */
module ConvertFixit {
  import opened Wrappers
  import opened Decimal
  import opened Mdl
  import opened ConvertTime
  import Gql = GqlModel

  predicate IsKnownStatus(s: StatusType)
  {
    s == Pending || s == InProgress || s == Completed
  }

  /** `FixitStatusFromGql`: the three schema values onto the three stored values. */
  function FixitStatusFromGql(g: Gql.Status): (r: Result<StatusType>)
    ensures r.Ok? <==> Gql.IsValid(g)
    ensures g == Gql.StatusPending ==> r == Ok(Pending)
    ensures g == Gql.StatusInProgress ==> r == Ok(InProgress)
    ensures g == Gql.StatusCompleted ==> r == Ok(Completed)
    ensures r.Err? ==> r.error == "invalid status: " + g
  {
    match g
    case "PENDING" => Ok(Pending)
    case "IN_PROGRESS" => Ok(InProgress)
    case "COMPLETED" => Ok(Completed)
    case _ => Err("invalid status: " + g)
  }

  /** `fixitStatusToGql`: the three stored values onto the three schema values. */
  function FixitStatusToGql(s: StatusType): (r: Result<Gql.Status>)
    ensures r.Ok? <==> IsKnownStatus(s)
    ensures s == Pending ==> r == Ok(Gql.StatusPending)
    ensures s == InProgress ==> r == Ok(Gql.StatusInProgress)
    ensures s == Completed ==> r == Ok(Gql.StatusCompleted)
    ensures r.Err? ==> r.error == "unknown status: " + s
  {
    if s == Pending then Ok("PENDING")
    else if s == InProgress then Ok("IN_PROGRESS")
    else if s == Completed then Ok("COMPLETED")
    else Err("unknown status: " + s)
  }

  /** The two status conversions are inverse bijections between the valid values. */
  lemma StatusRoundTrip(g: Gql.Status, s: StatusType)
    ensures FixitStatusFromGql(g).Ok? ==> FixitStatusToGql(FixitStatusFromGql(g).value) == Ok(g)
    ensures FixitStatusToGql(s).Ok? ==> FixitStatusFromGql(FixitStatusToGql(s).value) == Ok(s)
  {
    StatusConstantsDistinct();
  }

  /** `FixitToGql`: a missing record or an unknown status is an error. */
  function FixitToGql(from: Option<Fixit>, format: TimeFormatter): (r: Result<Gql.Fixit>)
    ensures from.None? ==> r == Err("expected a fixit record but found nothing")
    ensures from.Some? ==> (r.Ok? <==> IsKnownStatus(from.value.status))
    ensures from.Some? && r.Err? ==> r == Err("unknown status: " + from.value.status)
    ensures r.Ok? ==> Gql.IsValid(r.value.status) && FixitStatusToGql(from.value.status) == Ok(r.value.status)
    ensures r.Ok? ==>
      var f := from.value;
      r.value.id == IntToString(f.id) && r.value.vocabId == IntToString(f.vocabId) &&
      r.value.fieldName == f.fieldName && r.value.comments == f.comments &&
      r.value.createdBy == f.createdBy && r.value.created == format(f.created)
  {
    if from.None? then Err("expected a fixit record but found nothing") else
    var f := from.value;
    var status := FixitStatusToGql(f.status);
    if status.Err? then Err(status.error)
    else Ok(Gql.Fixit(IntToString(f.id), IntToString(f.vocabId), status.value, f.fieldName, f.comments,
                      f.createdBy, format(f.created)))
  }

  /** `NewFixitFromGql`: the vocab id must be an integer, then the status must be valid. */
  function NewFixitFromGql(from: Option<Gql.NewFixit>): (r: Result<Fixit>)
    ensures from.None? ==> r == Err("expected a NewFixit from gql, but found nothing")
    ensures from.Some? && ParseInt(from.value.vocabId).Err? ==> r == Err("invalid VocabID " + from.value.vocabId)
    ensures from.Some? && ParseInt(from.value.vocabId).Ok? && !Gql.IsValid(from.value.status) ==>
      r == Err("invalid status: " + from.value.status)
    ensures from.Some? && ParseInt(from.value.vocabId).Ok? && Gql.IsValid(from.value.status) ==> r.Ok?
    ensures r.Ok? ==> r.value.id == 0 && r.value.createdBy == "" && r.value.created == ZeroInstant
    ensures r.Ok? ==> ParseInt(from.value.vocabId) == Ok(r.value.vocabId) &&
                      FixitStatusToGql(r.value.status) == Ok(from.value.status) &&
                      r.value.fieldName == from.value.fieldName && r.value.comments == from.value.comments
  {
    if from.None? then Err("expected a NewFixit from gql, but found nothing") else
    var n := from.value;
    var vocabId := ParseInt(n.vocabId);
    if vocabId.Err? then Err("invalid VocabID " + n.vocabId) else
    var status := FixitStatusFromGql(n.status);
    if status.Err? then Err(status.error) else
    StatusRoundTrip(n.status, status.value);
    Ok(Fixit(0, vocabId.value, status.value, n.fieldName, n.comments, "", ZeroInstant))
  }

  /** `UpdateFixitFromGql`: the id must be an integer, then the status must be valid. */
  function UpdateFixitFromGql(from: Option<Gql.UpdateFixit>): (r: Result<Fixit>)
    ensures from.None? ==> r == Err("expected an UpdateFixit from gql, but found nothing")
    ensures from.Some? && ParseInt(from.value.id).Err? ==> r == Err("invalid ID " + from.value.id)
    ensures from.Some? && ParseInt(from.value.id).Ok? && !Gql.IsValid(from.value.status) ==>
      r == Err("invalid status: " + from.value.status)
    ensures from.Some? && ParseInt(from.value.id).Ok? && Gql.IsValid(from.value.status) ==> r.Ok?
    ensures r.Ok? ==> r.value.vocabId == 0 && r.value.createdBy == "" && r.value.created == ZeroInstant
    ensures r.Ok? ==> ParseInt(from.value.id) == Ok(r.value.id) &&
                      FixitStatusToGql(r.value.status) == Ok(from.value.status) &&
                      r.value.fieldName == from.value.fieldName && r.value.comments == from.value.comments
  {
    if from.None? then Err("expected an UpdateFixit from gql, but found nothing") else
    var u := from.value;
    var id := ParseInt(u.id);
    if id.Err? then Err("invalid ID " + u.id) else
    var status := FixitStatusFromGql(u.status);
    if status.Err? then Err(status.error) else
    StatusRoundTrip(u.status, status.value);
    Ok(Fixit(id.value, 0, status.value, u.fieldName, u.comments, "", ZeroInstant))
  }

  /**
   * A stored fix-it with 64-bit ids survives the trip out to the schema and
   * back through either input record, up to the fields that record does not
   * carry.
   */
  lemma FixitGqlRoundTrip(f: Fixit, format: TimeFormatter)
    requires IsInt64(f.id) && IsInt64(f.vocabId) && IsKnownStatus(f.status)
    ensures FixitToGql(Some(f), format).Ok?
    ensures var g := FixitToGql(Some(f), format).value;
      UpdateFixitFromGql(Some(Gql.UpdateFixit(g.id, g.status, g.fieldName, g.comments)))
        == Ok(f.(vocabId := 0, createdBy := "", created := ZeroInstant)) &&
      NewFixitFromGql(Some(Gql.NewFixit(g.vocabId, g.status, g.fieldName, g.comments)))
        == Ok(f.(id := 0, createdBy := "", created := ZeroInstant)) &&
      g.createdBy == f.createdBy && g.created == format(f.created)
  {
    var g := FixitToGql(Some(f), format).value;
    ParseIntToString(f.id);
    ParseIntToString(f.vocabId);
    StatusRoundTrip(g.status, f.status);
  }

  /**
   * `FixitsToGql`: a missing list is an error; otherwise every element is
   * mapped in order into a result of the same length, and the first element
   * that fails fails the whole call.
   */
  method FixitsToGql(from: Option<seq<Fixit>>, format: TimeFormatter) returns (r: Result<seq<Gql.Fixit>>)
    ensures from.None? ==> r == Err("expected a list of fixit records but found nothing")
    ensures from.Some? ==> (r.Ok? <==> forall i :: 0 <= i < |from.value| ==> FixitToGql(Some(from.value[i]), format).Ok?)
    ensures from.Some? && r.Ok? ==>
      |r.value| == |from.value| &&
      forall i :: 0 <= i < |from.value| ==> FixitToGql(Some(from.value[i]), format) == Ok(r.value[i])
    ensures from.Some? && r.Err? ==>
      exists i :: 0 <= i < |from.value| && FixitToGql(Some(from.value[i]), format) == Err(r.error) &&
                  forall j :: 0 <= j < i ==> FixitToGql(Some(from.value[j]), format).Ok?
  {
    if from.None? {
      return Err("expected a list of fixit records but found nothing");
    }
    var fs := from.value;
    var result := new Gql.Fixit[|fs|];
    for i := 0 to |fs|
      invariant forall j :: 0 <= j < i ==> FixitToGql(Some(fs[j]), format) == Ok(result[j])
    {
      var g := FixitToGql(Some(fs[i]), format);
      if g.Err? {
        return Err(g.error);
      }
      result[i] := g.value;
    }
    return Ok(result[..]);
  }

  /** The parameters of a fix-it query, in the form the store takes them. */
  datatype FixitQuery = FixitQuery(status: StatusType, vocabId: int, duration: Duration)

  /**
   * `FixitsQueryMapper`: status, then vocab id, then the time window; the
   * first failure is returned unchanged.
   */
  function FixitsQueryMapper(status: Gql.Status, vocabId: string, startTime: string, endTime: string,
                             now: Instant, parse: TimeParser): (r: Result<FixitQuery>)
    ensures !Gql.IsValid(status) ==> r == Err("invalid status: " + status)
    ensures Gql.IsValid(status) && ParseInt(vocabId).Err? ==> r == Err(ParseInt(vocabId).error)
    ensures Gql.IsValid(status) && ParseInt(vocabId).Ok? && GqlDateTimeToDuration(startTime, endTime, now, parse).Err? ==>
      r == Err(GqlDateTimeToDuration(startTime, endTime, now, parse).error)
    ensures Gql.IsValid(status) && ParseInt(vocabId).Ok? && GqlDateTimeToDuration(startTime, endTime, now, parse).Ok? ==>
      r.Ok?
    ensures r.Ok? ==> FixitStatusToGql(r.value.status) == Ok(status) && ParseInt(vocabId) == Ok(r.value.vocabId) &&
                      GqlDateTimeToDuration(startTime, endTime, now, parse) == Ok(r.value.duration) &&
                      r.value.duration.start <= r.value.duration.end
  {
    var s := FixitStatusFromGql(status);
    if s.Err? then Err(s.error) else
    var id := ParseInt(vocabId);
    if id.Err? then Err(id.error) else
    var d := GqlDateTimeToDuration(startTime, endTime, now, parse);
    if d.Err? then Err(d.error) else
    StatusRoundTrip(status, s.value);
    Ok(FixitQuery(s.value, id.value, d.value))
  }

  /**
   * The store reads status "" as "any status", but the query mapper refuses
   * it: a query through the schema always names a status.
   */
  lemma QueryAlwaysNamesStatus(vocabId: string, startTime: string, endTime: string, now: Instant, parse: TimeParser)
    ensures FixitsQueryMapper("", vocabId, startTime, endTime, now, parse) == Err("invalid status: ")
    ensures forall st :: FixitsQueryMapper(st, vocabId, startTime, endTime, now, parse).Ok? ==>
      FixitsQueryMapper(st, vocabId, startTime, endTime, now, parse).value.status != ""
  {
  }
}
