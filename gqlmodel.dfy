/**
 * The GraphQL schema types (graph/model/models_gen.go): records whose ids and
 * times are strings, and the `Status` enum with its validity check and its
 * unmarshalling from a decoded GraphQL value.
 */
module GqlModel {
  import opened Wrappers
  import opened Json

  datatype Audit = Audit(
    id: string,
    objectId: string,
    tableName: string,
    diff: string,
    before: string,
    after: string,
    comments: string,
    createdBy: string,
    created: string)

  datatype Fixit = Fixit(
    id: string,
    vocabId: string,
    status: Status,
    fieldName: string,
    comments: string,
    createdBy: string,
    created: string)

  datatype NewFixit = NewFixit(vocabId: string, status: Status, fieldName: string, comments: string)

  datatype NewVocab = NewVocab(
    learningLang: string,
    firstLang: string,
    alternatives: string,
    skill: string,
    infinitive: string,
    pos: string,
    hint: string,
    numLearningWords: int,
    knownLangCode: string,
    learningLangCode: string)

  datatype UpdateFixit = UpdateFixit(id: string, status: Status, fieldName: string, comments: string)

  datatype UpdateVocab = UpdateVocab(
    id: string,
    firstLang: string,
    alternatives: string,
    skill: string,
    infinitive: string,
    pos: string,
    hint: string,
    numLearningWords: int)

  datatype Vocab = Vocab(
    id: string,
    learningLang: string,
    firstLang: string,
    alternatives: string,
    skill: string,
    infinitive: string,
    pos: string,
    hint: string,
    numLearningWords: int,
    knownLangCode: string,
    learningLangCode: string)

  /** The enum is a string type: any text is a `Status`, only three are valid. */
  type Status = string

  const StatusPending: Status := "PENDING"
  const StatusInProgress: Status := "IN_PROGRESS"
  const StatusCompleted: Status := "COMPLETED"

  const AllStatus: seq<Status> := [StatusPending, StatusInProgress, StatusCompleted]

  /** `IsValid`: one of the three enum constants, that is, a member of `AllStatus`. */
  predicate IsValid(e: Status): (b: bool)
    ensures b <==> e in AllStatus
  {
    e == StatusPending || e == StatusInProgress || e == StatusCompleted
  }

  /** `AllStatus` lists three valid values, each once. */
  lemma AllStatusExactlyValid()
    ensures |AllStatus| == 3 && forall i, j :: 0 <= i < j < |AllStatus| ==> AllStatus[i] != AllStatus[j]
    ensures forall i :: 0 <= i < |AllStatus| ==> IsValid(AllStatus[i])
  {
  }

  /** `String`: the underlying text, unchanged. */
  function String(e: Status): (s: string)
    ensures |s| == |e| && forall i :: 0 <= i < |s| ==> s[i] == e[i]
  {
    e
  }

  function InvalidStatusMessage(s: string): string
  {
    s + " is not a valid Status"
  }

  /** A `*Status` receiver, which `UnmarshalGQL` writes through. */
  class StatusRef {
    var value: Status

    constructor (value: Status)
      ensures this.value == value
    {
      this.value := value;
    }

    /**
     * `UnmarshalGQL`: a non-string is refused and leaves the receiver alone; a
     * string is stored first and only then checked, so an invalid one is both
     * reported and kept.
     */
    method UnmarshalGql(v: JsonValue) returns (err: Outcome)
      modifies this
      ensures !v.JString? ==> err == Fail("enums must be strings") && value == old(value)
      ensures v.JString? ==> value == v.s
      ensures v.JString? ==> (err == Pass <==> IsValid(v.s))
      ensures v.JString? && !IsValid(v.s) ==> err == Fail(InvalidStatusMessage(v.s))
    {
      if !v.JString? {
        return Fail("enums must be strings");
      }
      value := v.s;
      if !IsValid(value) {
        return Fail(InvalidStatusMessage(v.s));
      }
      return Pass;
    }
  }
}
