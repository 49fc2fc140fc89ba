/**
 * Mapping vocabulary items between the domain records and the GraphQL
 * schema (internal/convert/vmpr.go).
 */
module ConvertVocab {
  import opened Wrappers
  import opened Decimal
  import opened Mdl
  import Gql = GqlModel

  const NoVocabGqlMessage := "expected an vocab from gql, but found nothing"

  /** `VocabToGql`: a missing record is an error; the id is rendered in decimal. */
  function VocabToGql(from: Option<Vocab>): (r: Result<Gql.Vocab>)
    ensures from.None? <==> r == Err("expected a vocab record but found nothing")
    ensures r.Ok? ==> from.Some? && r.value.id == IntToString(from.value.id)
    ensures r.Ok? ==>
      var v := from.value;
      r.value.learningLang == v.learningLang && r.value.firstLang == v.firstLang &&
      r.value.alternatives == v.alternatives && r.value.skill == v.skill && r.value.infinitive == v.infinitive &&
      r.value.pos == v.pos && r.value.hint == v.hint && r.value.numLearningWords == v.numLearningWords &&
      r.value.knownLangCode == v.knownLangCode && r.value.learningLangCode == v.learningLangCode
  {
    if from.None? then Err("expected a vocab record but found nothing") else
    var v := from.value;
    Ok(Gql.Vocab(IntToString(v.id), v.learningLang, v.firstLang, v.alternatives, v.skill, v.infinitive,
                 v.pos, v.hint, v.numLearningWords, v.knownLangCode, v.learningLangCode))
  }

  /** `VocabFromGql`: an update request; only the id and the seven mutable fields are set. */
  function VocabFromGql(from: Option<Gql.UpdateVocab>): (r: Result<Vocab>)
    ensures from.None? ==> r == Err(NoVocabGqlMessage)
    ensures from.Some? && ParseInt(from.value.id).Err? ==> r == Err("invalid id " + from.value.id)
    ensures from.Some? && ParseInt(from.value.id).Ok? ==> r.Ok? && ParseInt(from.value.id) == Ok(r.value.id)
    ensures r.Ok? ==> r.value.learningLang == "" && r.value.knownLangCode == "" && r.value.learningLangCode == "" &&
                      r.value.created == ZeroInstant
  {
    if from.None? then Err(NoVocabGqlMessage) else
    var u := from.value;
    var id := ParseInt(u.id);
    if id.Err? then Err("invalid id " + u.id)
    else Ok(Vocab(id.value, "", u.firstLang, ZeroInstant, u.alternatives, u.skill, u.infinitive, u.pos, u.hint,
                  u.numLearningWords, "", ""))
  }

  /** `VocabFromNewGql`: a creation request; every content field is copied and the id is 0. */
  function VocabFromNewGql(from: Option<Gql.NewVocab>): (r: Result<Vocab>)
    ensures from.None? <==> r == Err(NoVocabGqlMessage)
    ensures r.Ok? ==> r.value.id == 0 && r.value.created == ZeroInstant
    ensures r.Ok? ==>
      var n := from.value;
      r.value.learningLang == n.learningLang && r.value.firstLang == n.firstLang &&
      r.value.alternatives == n.alternatives && r.value.skill == n.skill && r.value.infinitive == n.infinitive &&
      r.value.pos == n.pos && r.value.hint == n.hint && r.value.numLearningWords == n.numLearningWords &&
      r.value.knownLangCode == n.knownLangCode && r.value.learningLangCode == n.learningLangCode
  {
    if from.None? then Err(NoVocabGqlMessage) else
    var n := from.value;
    Ok(Vocab(0, n.learningLang, n.firstLang, ZeroInstant, n.alternatives, n.skill, n.infinitive, n.pos, n.hint,
             n.numLearningWords, n.knownLangCode, n.learningLangCode))
  }

  /**
   * A vocab with a 64-bit id survives the trip out to the schema and back:
   * as a creation request it returns with id and creation time cleared, and
   * as an update request it returns with exactly the fields an update
   * carries, so the update service would see no change.
   */
  lemma VocabGqlRoundTrip(v: Vocab)
    requires IsInt64(v.id)
    ensures VocabToGql(Some(v)).Ok?
    ensures var g := VocabToGql(Some(v)).value;
      VocabFromNewGql(Some(Gql.NewVocab(g.learningLang, g.firstLang, g.alternatives, g.skill, g.infinitive,
                                        g.pos, g.hint, g.numLearningWords, g.knownLangCode, g.learningLangCode)))
        == Ok(v.(id := 0, created := ZeroInstant)) &&
      VocabFromGql(Some(Gql.UpdateVocab(g.id, g.firstLang, g.alternatives, g.skill, g.infinitive,
                                        g.pos, g.hint, g.numLearningWords)))
        == Ok(v.(learningLang := "", knownLangCode := "", learningLangCode := "", created := ZeroInstant))
  {
    ParseIntToString(v.id);
  }

  /** An update request carries the seven mutable fields unchanged. */
  lemma VocabFromGqlCarriesUpdate(u: Gql.UpdateVocab)
    requires VocabFromGql(Some(u)).Ok?
    ensures var v := VocabFromGql(Some(u)).value;
      v.firstLang == u.firstLang && v.alternatives == u.alternatives && v.skill == u.skill &&
      v.infinitive == u.infinitive && v.pos == u.pos && v.hint == u.hint && v.numLearningWords == u.numLearningWords
  {
  }

  /**
   * `VocabsToGql`: a missing list is an error; otherwise every element is
   * mapped in order into a result of the same length.
   */
  method VocabsToGql(from: Option<seq<Vocab>>) returns (r: Result<seq<Gql.Vocab>>)
    ensures from.None? <==> r.Err?
    ensures from.None? ==> r == Err("expected a list of vocab records but found nothing")
    ensures r.Ok? ==>
      |r.value| == |from.value| &&
      forall i :: 0 <= i < |from.value| ==> VocabToGql(Some(from.value[i])) == Ok(r.value[i])
  {
    if from.None? {
      return Err("expected a list of vocab records but found nothing");
    }
    var vs := from.value;
    var result := new Gql.Vocab[|vs|];
    for i := 0 to |vs|
      invariant forall j :: 0 <= j < i ==> VocabToGql(Some(vs[j])) == Ok(result[j])
    {
      var g := VocabToGql(Some(vs[i]));
      if g.Err? {
        assert false;
      }
      result[i] := g.value;
    }
    return Ok(result[..]);
  }
}
