/**
 * Mapping audit entries to the GraphQL schema and audit query parameters to
 * the store's form (internal/convert/ampr.go).
 */
module ConvertAudit {
  import opened Wrappers
  import opened Decimal
  import opened Mdl
  import opened ConvertTime
  import Gql = GqlModel

  /** `AuditToGql`: a missing record is an error; the texts are copied verbatim. */
  function AuditToGql(from: Option<Audit>, format: TimeFormatter): (r: Result<Gql.Audit>)
    ensures from.None? <==> r == Err("expected an audit record but found nothing")
    ensures r.Ok? ==> from.Some? && r.value.created == format(from.value.created)
  {
    if from.None? then Err("expected an audit record but found nothing") else
    var a := from.value;
    Ok(Gql.Audit(IntToString(a.id), IntToString(a.objectId), a.tableName, a.diff, a.before, a.after,
                 a.comments, a.createdBy, format(a.created)))
  }

  /**
   * An audit entry with 64-bit ids comes out with both ids readable back and
   * every text field unchanged.
   */
  lemma AuditGqlFaithful(a: Audit, format: TimeFormatter)
    requires IsInt64(a.id) && IsInt64(a.objectId)
    ensures AuditToGql(Some(a), format).Ok?
    ensures var g := AuditToGql(Some(a), format).value;
      ParseInt(g.id) == Ok(a.id) && ParseInt(g.objectId) == Ok(a.objectId) &&
      g.tableName == a.tableName && g.diff == a.diff && g.before == a.before && g.after == a.after &&
      g.comments == a.comments && g.createdBy == a.createdBy
  {
    ParseIntToString(a.id);
    ParseIntToString(a.objectId);
  }

  /**
   * `AuditsToGql`: a missing list is an error; otherwise every element is
   * mapped in order into a result of the same length.
   */
  method AuditsToGql(from: Option<seq<Audit>>, format: TimeFormatter) returns (r: Result<seq<Gql.Audit>>)
    ensures from.None? <==> r.Err?
    ensures from.None? ==> r == Err("expected a list of audit records but found nothing")
    ensures r.Ok? ==>
      |r.value| == |from.value| &&
      forall i :: 0 <= i < |from.value| ==> AuditToGql(Some(from.value[i]), format) == Ok(r.value[i])
  {
    if from.None? {
      return Err("expected a list of audit records but found nothing");
    }
    var audits := from.value;
    var result := new Gql.Audit[|audits|];
    for i := 0 to |audits|
      invariant forall j :: 0 <= j < i ==> AuditToGql(Some(audits[j]), format) == Ok(result[j])
    {
      var g := AuditToGql(Some(audits[i]), format);
      if g.Err? {
        assert false;
      }
      result[i] := g.value;
    }
    return Ok(result[..]);
  }

  /** The parameters of an audit query, in the form the store takes them. */
  datatype AuditQuery = AuditQuery(objectId: int, duration: Duration)

  /** `AuditQueryMapper`: the object id first, then the time window; errors pass through. */
  function AuditQueryMapper(objectId: string, startTime: string, endTime: string,
                            now: Instant, parse: TimeParser): (r: Result<AuditQuery>)
    ensures ParseInt(objectId).Err? ==> r == Err(ParseInt(objectId).error)
    ensures ParseInt(objectId).Ok? && GqlDateTimeToDuration(startTime, endTime, now, parse).Err? ==>
      r == Err(GqlDateTimeToDuration(startTime, endTime, now, parse).error)
    ensures ParseInt(objectId).Ok? && GqlDateTimeToDuration(startTime, endTime, now, parse).Ok? ==> r.Ok?
    ensures r.Ok? ==> ParseInt(objectId) == Ok(r.value.objectId) &&
                      GqlDateTimeToDuration(startTime, endTime, now, parse) == Ok(r.value.duration) &&
                      r.value.duration.start <= r.value.duration.end
  {
    var id := ParseInt(objectId);
    if id.Err? then Err(id.error) else
    var d := GqlDateTimeToDuration(startTime, endTime, now, parse);
    if d.Err? then Err(d.error) else
    Ok(AuditQuery(id.value, d.value))
  }
}
