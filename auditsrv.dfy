/**
 * The audit service (internal/srv/audit.go): build one audit entry from the
 * before and after JSON of a record and append it to the audit store.
 *
 * JSON encoding and decoding belong to Go's library; here they are the four
 * functions of a `Codec`, fixed when the service is built.
 */
module AuditSrv {
  import opened Wrappers
  import opened Decimal
  import opened Json
  import opened Diff
  import opened Mdl
  import opened Validation
  import opened Repos
  import DiffLaws

  /**
   * `decode` is `json.Unmarshal` into an `interface{}`; `marshalDiffs` is
   * `json.Marshal` of a non-empty diff list; `vocabJson` and `fixitJson` are
   * the records' `JSON` methods.
   */
  datatype Codec = Codec(
    decode: string -> Option<JsonValue>,
    marshalDiffs: seq<DiffResult> -> string,
    vocabJson: Vocab -> string,
    fixitJson: Fixit -> string)

  /** Unmarshalling into a `map[string]interface{}`: anything but an object leaves the map nil, that is, empty. */
  function DecodeObject(c: Codec, s: string): seq<Member>
  {
    match c.decode(s)
    case Some(JObject(ms)) => ms
    case _ => []
  }

  /** `json.Marshal` of the diff slice: a nil slice, which is what an empty diff is, encodes as `null`. */
  function MarshalDiffs(c: Codec, ds: seq<DiffResult>): string
  {
    if ds == [] then "null" else c.marshalDiffs(ds)
  }

  /** Diffing the two decoded texts does not panic. */
  predicate Comparable(c: Codec, s1: string, s2: string)
  {
    NoArrayClash(DecodeObject(c, s1), DecodeObject(c, s2))
  }

  /** `c` decodes `s` to a JSON object. */
  predicate DecodesToObject(c: Codec, s: string)
  {
    c.decode(s).Some? && c.decode(s).value.JObject?
  }

  /**
   * `CompareJSON`: decode both texts, diff them from the top level, encode the
   * findings.  No findings encode as "null", in particular when the first text
   * is not an object and so leaves its map nil; otherwise the result is the
   * encoding of the sorted findings.
   */
  function CompareJson(c: Codec, s1: string, s2: string): (r: string)
    requires Comparable(c, s1, s2)
    ensures !DecodesToObject(c, s1) ==> r == "null"
    ensures var ds := Diffs(DecodeObject(c, s1), DecodeObject(c, s2), "");
      (ds == [] ==> r == "null") && (ds != [] ==> r == c.marshalDiffs(ds))
  {
    assert Collect([], DecodeObject(c, s2), "") == [];
    MarshalDiffs(c, Diffs(DecodeObject(c, s1), DecodeObject(c, s2), ""))
  }

  /** A text compared with itself has no findings, when it decodes to keys that are unique at every depth. */
  lemma CompareJsonSelf(c: Codec, s: string)
    requires Comparable(c, s, s)
    requires c.decode(s).Some? && c.decode(s).value.JObject? ==> WellFormedMembers(c.decode(s).value.members)
    ensures CompareJson(c, s, s) == "null"
  {
    if c.decode(s).Some? && c.decode(s).value.JObject? {
      DiffLaws.SelfDiffEmpty(DecodeObject(c, s), "");
    } else {
      assert Collect([], [], "") == [];
    }
  }

  /**
   * `json.Unmarshal` builds Go maps, so a decoded object never holds a key
   * twice (a repeated key in the text keeps its last value).
   */
  ghost predicate DecodesToMaps(c: Codec)
  {
    forall s :: c.decode(s).Some? ==> WellFormed(c.decode(s).value)
  }

  /**
   * Two texts whose decoded objects differ in one non-object member only
   * compare as the encoding of that single change.
   */
  lemma CompareJsonSingleLeaf(c: Codec, s1: string, s2: string, a: seq<Member>, i: nat, v: JsonValue)
    requires WellFormedMembers(a) && i < |a| && !a[i].value.JObject? && v != a[i].value
    requires c.decode(s1) == Some(JObject(a)) && c.decode(s2) == Some(JObject(a[i := Member(a[i].key, v)]))
    requires Comparable(c, s1, s2)
    ensures CompareJson(c, s1, s2) == c.marshalDiffs([Changed(a[i].key, a[i].value, v)])
  {
    DiffLaws.SingleLeafChange(a, "", i, v);
    assert "" + a[i].key == a[i].key;
  }

  /** The JSON of any two vocabs, and of any two fix-its, can be diffed. */
  ghost predicate EntityJsonComparable(c: Codec)
  {
    (forall v1, v2 :: VocabsComparable(c, v1, v2)) && (forall f1, f2 :: FixitsComparable(c, f1, f2))
  }

  predicate VocabsComparable(c: Codec, v1: Vocab, v2: Vocab)
  {
    Comparable(c, c.vocabJson(v1), c.vocabJson(v2))
  }

  predicate FixitsComparable(c: Codec, f1: Fixit, f2: Fixit)
  {
    Comparable(c, c.fixitJson(f1), c.fixitJson(f2))
  }

  const MaxCommentsLen := 1000

  /**
   * The entry `CreateAudit` stores, before the store assigns its id, or the
   * comment validation error.  An entry is built exactly when the comments
   * pass (so 1000 runes without markup are accepted); it carries every input
   * unchanged, with an empty diff when there is no before text and the
   * comparison of the two texts otherwise.
   */
  function NewAudit(c: Codec, tableName: string, objectId: int, comments: string, createdBy: string,
                    beforeJson: string, afterJson: string): (r: Result<Audit>)
    requires beforeJson != "" ==> Comparable(c, beforeJson, afterJson)
    ensures r.Ok? <==> ValidateFieldContent(comments, "comments", 1000).Pass?
    ensures r.Err? ==> r.error == ValidateFieldContent(comments, "comments", 1000).error
    ensures r.Ok? ==>
      r.value.id == 0 && r.value.tableName == tableName && r.value.objectId == objectId &&
      r.value.comments == comments && r.value.createdBy == createdBy &&
      r.value.before == beforeJson && r.value.after == afterJson &&
      (beforeJson == "" ==> r.value.diff == "") && (beforeJson != "" ==> r.value.diff == CompareJson(c, beforeJson, afterJson))
  {
    var check := ValidateFieldContent(comments, "comments", MaxCommentsLen);
    if check.Fail? then Err(check.error)
    else
      var diff := if |beforeJson| > 0 then CompareJson(c, beforeJson, afterJson) else "";
      Ok(Audit(0, objectId, tableName, diff, beforeJson, afterJson, comments, createdBy, ZeroInstant))
  }

  lemma ThousandText()
    ensures IntToString(1000) == "1000"
  {
    assert NaturalToString(1) == "1";
    assert NaturalToString(10) == "10";
    assert NaturalToString(100) == "100";
  }

  /** Comments longer than 1000 runes are refused with the length message. */
  lemma NewAuditCommentsTooLong(c: Codec, tableName: string, objectId: int, comments: string, createdBy: string,
                                beforeJson: string, afterJson: string)
    requires beforeJson != "" ==> Comparable(c, beforeJson, afterJson)
    requires |comments| > 1000
    ensures NewAudit(c, tableName, objectId, comments, createdBy, beforeJson, afterJson)
              == Err("comments must be shorter than 1000 characters")
  {
    ThousandText();
    var check := ValidateFieldContent(comments, "comments", MaxCommentsLen);
    assert check == Fail(TooLongMessage("comments", 1000));
    assert TooLongMessage("comments", 1000) == "comments must be shorter than 1000 characters";
  }

  function MismatchMessage(kind: string, beforeId: int, afterId: int): string
  {
    kind + " before id " + IntToString(beforeId) + " and after id " + IntToString(afterId) + " mismatch"
  }

  /**
   * `CreateVocabAudit`'s checks, then the entry for table "vocab": a missing
   * `after` is refused whatever `before` is, a before/after id mismatch is
   * refused before the comments are looked at, and an entry is for object
   * `after.ID` with the before JSON, or "" when there is no before.
   */
  function VocabAudit(c: Codec, comments: string, createdBy: string, before: Option<Vocab>, after: Option<Vocab>)
    : (r: Result<Audit>)
    requires EntityJsonComparable(c)
    ensures after.None? ==> r == Err("after value for vocab is required")
    ensures after.Some? && before.Some? && before.value.id != after.value.id ==>
      r == Err(MismatchMessage("audit", before.value.id, after.value.id))
    ensures after.Some? && !(before.Some? && before.value.id != after.value.id) ==>
      (r.Ok? <==> ValidateFieldContent(comments, "comments", 1000).Pass?)
    ensures r.Ok? ==>
      r.value.tableName == "vocab" && r.value.objectId == after.value.id &&
      r.value.comments == comments && r.value.createdBy == createdBy &&
      r.value.before == (if before.Some? then c.vocabJson(before.value) else "") &&
      r.value.after == c.vocabJson(after.value)
  {
    if after.None? then Err("after value for vocab is required")
    else if before.Some? && before.value.id != after.value.id then Err(MismatchMessage("audit", before.value.id, after.value.id))
    else
      var beforeJson := if before.Some? then c.vocabJson(before.value) else "";
      assert beforeJson != "" ==> VocabsComparable(c, before.value, after.value);
      NewAudit(c, "vocab", after.value.id, comments, createdBy, beforeJson, c.vocabJson(after.value))
  }

  /** `CreateFixitAudit`'s checks and entry, with the fix-it wording and table "fixit". */
  function FixitAudit(c: Codec, comments: string, createdBy: string, before: Option<Fixit>, after: Option<Fixit>)
    : (r: Result<Audit>)
    requires EntityJsonComparable(c)
    ensures after.None? ==> r == Err("after value for fixit is required")
    ensures after.Some? && before.Some? && before.value.id != after.value.id ==>
      r == Err(MismatchMessage("fixit", before.value.id, after.value.id))
    ensures after.Some? && !(before.Some? && before.value.id != after.value.id) ==>
      (r.Ok? <==> ValidateFieldContent(comments, "comments", 1000).Pass?)
    ensures r.Ok? ==>
      r.value.tableName == "fixit" && r.value.objectId == after.value.id &&
      r.value.comments == comments && r.value.createdBy == createdBy &&
      r.value.before == (if before.Some? then c.fixitJson(before.value) else "") &&
      r.value.after == c.fixitJson(after.value)
  {
    if after.None? then Err("after value for fixit is required")
    else if before.Some? && before.value.id != after.value.id then Err(MismatchMessage("fixit", before.value.id, after.value.id))
    else
      var beforeJson := if before.Some? then c.fixitJson(before.value) else "";
      assert beforeJson != "" ==> FixitsComparable(c, before.value, after.value);
      NewAudit(c, "fixit", after.value.id, comments, createdBy, beforeJson, c.fixitJson(after.value))
  }

  /**
   * The effect of one audit write on the store: on an error nothing changes;
   * otherwise exactly one entry is added, under the next sequence number.
   */
  ghost predicate AuditWritten(r: Result<Audit>, err: Outcome,
                               oldAudits: map<int, Audit>, oldSeq: int, audits: map<int, Audit>, sequence: int)
  {
    match r
    case Err(e) => err == Fail(e) && audits == oldAudits && sequence == oldSeq
    case Ok(a) => err == Pass && sequence == oldSeq + 1 && audits == oldAudits[sequence := a.(id := sequence)]
  }

  class AuditService {
    const repo: MockAuditRepository
    const codec: Codec

    ghost predicate Valid()
      reads this, repo
    {
      repo.Valid() && EntityJsonComparable(codec) && DecodesToMaps(codec)
    }

    constructor (repo: MockAuditRepository, codec: Codec)
      requires repo.Valid() && EntityJsonComparable(codec) && DecodesToMaps(codec)
      ensures Valid() && this.repo == repo && this.codec == codec
    {
      this.repo := repo;
      this.codec := codec;
    }

    /** `CreateAudit`: validate the comments, diff the texts, store one entry. */
    method CreateAudit(tableName: string, objectId: int, comments: string, createdBy: string,
                       beforeJson: string, afterJson: string) returns (err: Outcome)
      requires Valid()
      requires beforeJson != "" ==> Comparable(codec, beforeJson, afterJson)
      modifies repo
      ensures Valid()
      ensures AuditWritten(NewAudit(codec, tableName, objectId, comments, createdBy, beforeJson, afterJson), err,
                           old(repo.audits), old(repo.sequence), repo.audits, repo.sequence)
    {
      err := ValidateFieldContent(comments, "comments", MaxCommentsLen);
      if err.Fail? {
        return;
      }
      var diff := "";
      if |beforeJson| > 0 {
        diff := CompareJson(codec, beforeJson, afterJson);
      }
      var audit := Audit(0, objectId, tableName, diff, beforeJson, afterJson, comments, createdBy, ZeroInstant);
      var _ := repo.CreateAudit(audit);
    }

    /** `CreateVocabAudit`: `after` is required and must keep `before`'s id. */
    method CreateVocabAudit(comments: string, createdBy: string, before: Option<Vocab>, after: Option<Vocab>)
      returns (err: Outcome)
      requires Valid()
      modifies repo
      ensures Valid()
      ensures AuditWritten(VocabAudit(codec, comments, createdBy, before, after), err,
                           old(repo.audits), old(repo.sequence), repo.audits, repo.sequence)
    {
      if after.None? {
        return Fail("after value for vocab is required");
      }
      if before.Some? && before.value.id != after.value.id {
        return Fail(MismatchMessage("audit", before.value.id, after.value.id));
      }
      var afterJson := codec.vocabJson(after.value);
      var beforeJson := "";
      if before.Some? {
        beforeJson := codec.vocabJson(before.value);
        assert VocabsComparable(codec, before.value, after.value);
      }
      err := CreateAudit("vocab", after.value.id, comments, createdBy, beforeJson, afterJson);
    }

    /** `CreateFixitAudit`: `after` is required and must keep `before`'s id. */
    method CreateFixitAudit(comments: string, createdBy: string, before: Option<Fixit>, after: Option<Fixit>)
      returns (err: Outcome)
      requires Valid()
      modifies repo
      ensures Valid()
      ensures AuditWritten(FixitAudit(codec, comments, createdBy, before, after), err,
                           old(repo.audits), old(repo.sequence), repo.audits, repo.sequence)
    {
      if after.None? {
        return Fail("after value for fixit is required");
      }
      if before.Some? && before.value.id != after.value.id {
        return Fail(MismatchMessage("fixit", before.value.id, after.value.id));
      }
      var afterJson := codec.fixitJson(after.value);
      var beforeJson := "";
      if before.Some? {
        beforeJson := codec.fixitJson(before.value);
        assert FixitsComparable(codec, before.value, after.value);
      }
      err := CreateAudit("fixit", after.value.id, comments, createdBy, beforeJson, afterJson);
    }
  }
}
