/**
 * The domain records: vocabulary items, fix-it suggestions, audit entries
 * and time windows.  Go passes them around by pointer and the services only
 * ever mutate a fresh clone, so they are values here.
 */
module Mdl {

  /** A point in time, in nanoseconds since Go's zero `time.Time`. */
  type Instant = int

  /** The zero `time.Time`, which a record carries until the store sets `Created`. */
  const ZeroInstant: Instant := 0

  /** `t.Before(u)` */
  predicate Before(t: Instant, u: Instant) { t < u }

  /** `t.After(u)` */
  predicate After(t: Instant, u: Instant) { u < t }

  /** A vocabulary item (internal/mdl/vocab.go). */
  datatype Vocab = Vocab(
    id: int,
    learningLang: string,
    firstLang: string,
    created: Instant,
    alternatives: string,
    skill: string,
    infinitive: string,
    pos: string,
    hint: string,
    numLearningWords: int,
    knownLangCode: string,
    learningLangCode: string)

  /** `Vocab.Clone`: a field-by-field copy. */
  function CloneVocab(v: Vocab): (c: Vocab)
    ensures c == v
  {
    Vocab(v.id, v.learningLang, v.firstLang, v.created, v.alternatives, v.skill,
          v.infinitive, v.pos, v.hint, v.numLearningWords, v.knownLangCode, v.learningLangCode)
  }

  /** `Vocab.Compare`: all twelve fields agree, `Created` as instants. */
  function CompareVocab(v: Vocab, other: Vocab): (same: bool)
    ensures same <==> v == other
  {
    v.id == other.id &&
    v.learningLang == other.learningLang &&
    v.firstLang == other.firstLang &&
    !Before(v.created, other.created) && !After(v.created, other.created) &&
    v.alternatives == other.alternatives &&
    v.skill == other.skill &&
    v.infinitive == other.infinitive &&
    v.pos == other.pos &&
    v.hint == other.hint &&
    v.numLearningWords == other.numLearningWords &&
    v.knownLangCode == other.knownLangCode &&
    v.learningLangCode == other.learningLangCode
  }

  /** A clone compares equal to its original, and `Compare` is an equivalence. */
  lemma CompareVocabLaws(u: Vocab, v: Vocab, w: Vocab)
    ensures CompareVocab(CloneVocab(v), v)
    ensures CompareVocab(v, v)
    ensures CompareVocab(u, v) == CompareVocab(v, u)
    ensures CompareVocab(u, v) && CompareVocab(v, w) ==> CompareVocab(u, w)
  {
  }

  /** The status of a fix-it, stored as text. */
  type StatusType = string

  const Pending: StatusType := "pending"
  const InProgress: StatusType := "in_progress"
  const Completed: StatusType := "completed"

  lemma StatusConstantsDistinct()
    ensures Pending != InProgress && InProgress != Completed && Pending != Completed
  {
  }

  /** A fix-it suggestion against a vocabulary item (internal/mdl/fixit.go). */
  datatype Fixit = Fixit(
    id: int,
    vocabId: int,
    status: StatusType,
    fieldName: string,
    comments: string,
    createdBy: string,
    created: Instant)

  /** `Fixit.Clone`: a field-by-field copy. */
  function CloneFixit(f: Fixit): (c: Fixit)
    ensures c == f
  {
    Fixit(f.id, f.vocabId, f.status, f.fieldName, f.comments, f.createdBy, f.created)
  }

  /** An audit entry (internal/mdl/audit.go). */
  datatype Audit = Audit(
    id: int,
    objectId: int,
    tableName: string,
    diff: string,
    before: string,
    after: string,
    comments: string,
    createdBy: string,
    created: Instant)

  /** A time window whose two ends belong to it. */
  datatype Duration = Duration(start: Instant, end: Instant)

  function NewDuration(start: Instant, end: Instant): (d: Duration)
    ensures d.start == start && d.end == end
  {
    Duration(start, end)
  }

  /** `Duration.Contains`: neither before the start nor after the end. */
  function Contains(d: Duration, t: Instant): (inside: bool)
    ensures inside <==> d.start <= t <= d.end
  {
    !Before(t, d.start) && !After(t, d.end)
  }

  /** Both ends of a non-empty window lie inside it; nothing outside does. */
  lemma ContainsBounds(d: Duration, t: Instant)
    ensures d.start <= d.end ==> Contains(d, d.start) && Contains(d, d.end)
    ensures t < d.start || t > d.end ==> !Contains(d, t)
    ensures d.start > d.end ==> !Contains(d, t)
  {
  }
}
