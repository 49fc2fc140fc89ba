/**
 * The vocab service (internal/srv/vocab.go): the guards around creating and
 * updating a vocabulary item, each followed by one audit write.
 */
module VocabSrv {
  import opened Wrappers
  import opened Decimal
  import opened Mdl
  import opened Validation
  import opened Repos
  import opened AuditSrv

  /** A clone of the stored vocab with the seven mutable fields taken from the update. */
  function ApplyVocabUpdate(stored: Vocab, updating: Vocab): (v: Vocab)
    ensures v.id == stored.id && v.learningLang == stored.learningLang && v.created == stored.created &&
            v.knownLangCode == stored.knownLangCode && v.learningLangCode == stored.learningLangCode
    ensures v.hint == updating.hint && v.pos == updating.pos && v.skill == updating.skill &&
            v.firstLang == updating.firstLang && v.infinitive == updating.infinitive &&
            v.alternatives == updating.alternatives && v.numLearningWords == updating.numLearningWords
  {
    CloneVocab(stored).(
      hint := updating.hint,
      pos := updating.pos,
      skill := updating.skill,
      firstLang := updating.firstLang,
      infinitive := updating.infinitive,
      alternatives := updating.alternatives,
      numLearningWords := updating.numLearningWords)
  }

  /**
   * Whether an update touches any of the seven fields an update may change:
   * exactly when applying it changes the record.
   */
  predicate HasVocabChanges(stored: Vocab, updating: Vocab): (b: bool)
    ensures b <==> ApplyVocabUpdate(stored, updating) != stored
  {
    stored.hint != updating.hint ||
    stored.pos != updating.pos ||
    stored.skill != updating.skill ||
    stored.firstLang != updating.firstLang ||
    stored.infinitive != updating.infinitive ||
    stored.alternatives != updating.alternatives ||
    stored.numLearningWords != updating.numLearningWords
  }

  /** Applying the same update twice finds no further change. */
  lemma VocabUpdateLaws(stored: Vocab, updating: Vocab)
    ensures !HasVocabChanges(ApplyVocabUpdate(stored, updating), updating)
    ensures ApplyVocabUpdate(ApplyVocabUpdate(stored, updating), updating) == ApplyVocabUpdate(stored, updating)
  {
  }

  /**
   * An update of a valid stored record by a request that passes the update
   * checks leaves a record that passes full validation: the fields the update
   * checks skip are the ones it keeps from the stored record.
   */
  lemma UpdatedVocabStaysValid(stored: Vocab, updating: Vocab)
    requires ValidateVocab(stored).Pass? && ValidateVocabUpdate(updating).Pass?
    ensures ValidateVocab(ApplyVocabUpdate(stored, updating)).Pass?
  {
    var v := ApplyVocabUpdate(stored, updating);
    ValidateVocabStronger(stored);
    assert ValidateVocabUpdate(v) == ValidateVocabUpdate(updating);
  }

  lemma FixedCommentsPass(comments: string)
    requires comments == "created vocab" || comments == "updated vocab"
    ensures ValidateFieldContent(comments, "comments", MaxCommentsLen) == Pass
  {
    assert !ContainsAny(comments, "<>") by {
      forall i | 0 <= i < |comments| ensures comments[i] !in "<>" {
      }
    }
  }

  /** The creation audit and the audit of an updated clone can never fail. */
  lemma VocabServiceAuditsPass(c: Codec, stored: Vocab, updating: Vocab, created: Vocab)
    requires EntityJsonComparable(c)
    ensures VocabAudit(c, "created vocab", "sys", None, Some(created)).Ok?
    ensures VocabAudit(c, "updated vocab", "sys", Some(stored), Some(ApplyVocabUpdate(stored, updating))).Ok?
  {
    FixedCommentsPass("created vocab");
    FixedCommentsPass("updated vocab");
  }

  function DuplicateMessage(learningLang: string, id: int): string
  {
    "vocab with learning lang " + learningLang + " and id " + IntToString(id) + " already exists"
  }

  function NoChangesMessage(id: int): string
  {
    "update for vocab " + IntToString(id) + " has no changes"
  }

  class VocabService {
    const repo: MockVocabRepository
    const audit: AuditService

    ghost predicate Valid()
      reads this, repo, audit, audit.repo
    {
      repo.Valid() && audit.Valid()
    }

    /** No two stored vocabs share a learning language. */
    ghost predicate LearningLangsUnique()
      reads this, repo
    {
      forall i, j :: i in repo.vocabs && j in repo.vocabs && i != j ==>
        repo.vocabs[i].learningLang != repo.vocabs[j].learningLang
    }

    /** Every stored vocab passes full validation. */
    ghost predicate StoredValid()
      reads this, repo
    {
      forall id :: id in repo.vocabs ==> ValidateVocab(repo.vocabs[id]).Pass?
    }

    constructor (repo: MockVocabRepository, audit: AuditService)
      requires repo.Valid() && audit.Valid()
      ensures Valid() && this.repo == repo && this.audit == audit
    {
      this.repo := repo;
      this.audit := audit;
    }

    /**
     * `CreateVocab`: validate; refuse a learning language that is already
     * stored; otherwise attempt the store write, then the creation audit,
     * whose outcome alone is returned.  The store's learning languages stay
     * unique.
     */
    method CreateVocab(vocab: Vocab) returns (err: Outcome)
      requires Valid()
      modifies repo, audit.repo
      ensures Valid()
      ensures ValidateVocab(vocab).Fail? ==> err == ValidateVocab(vocab) && unchanged(repo, audit.repo)
      ensures ValidateVocab(vocab).Pass? && (exists id :: id in old(repo.vocabs) && old(repo.vocabs)[id].learningLang == vocab.learningLang) ==>
        unchanged(repo, audit.repo) &&
        exists id :: id in old(repo.vocabs) && old(repo.vocabs)[id].learningLang == vocab.learningLang &&
                     err == Fail(DuplicateMessage(vocab.learningLang, id))
      ensures ValidateVocab(vocab).Pass? && (forall id :: id in old(repo.vocabs) ==> old(repo.vocabs)[id].learningLang != vocab.learningLang) ==>
        repo.vocabs == (if vocab.id in old(repo.vocabs) then old(repo.vocabs) else old(repo.vocabs)[vocab.id := vocab]) &&
        AuditWritten(VocabAudit(audit.codec, "created vocab", "sys", None, Some(vocab)), err,
                     old(audit.repo.audits), old(audit.repo.sequence), audit.repo.audits, audit.repo.sequence) &&
        err == Pass
      ensures old(LearningLangsUnique()) ==> LearningLangsUnique()
      ensures old(StoredValid()) ==> StoredValid()
    {
      err := ValidateVocab(vocab);
      if err.Fail? {
        return;
      }
      var existing := repo.FindVocabByLearningLang(vocab.learningLang);
      if existing.Ok? {
        return Fail(DuplicateMessage(vocab.learningLang, existing.value.id));
      }
      err := repo.CreateVocab(vocab);
      VocabServiceAuditsPass(audit.codec, vocab, vocab, vocab);
      err := audit.CreateVocabAudit("created vocab", "sys", None, Some(vocab));
    }

    /**
     * `UpdateVocab`: run the update checks, load the stored record, refuse an
     * update that changes none of the seven mutable fields, then store the
     * updated clone and audit the (stored, updated) pair.
     */
    method UpdateVocab(updating: Vocab) returns (vocab: Option<Vocab>, err: Outcome)
      requires Valid()
      modifies repo, audit.repo
      ensures Valid()
      ensures ValidateVocabUpdate(updating).Fail? ==>
        vocab.None? && err == ValidateVocabUpdate(updating) && unchanged(repo, audit.repo)
      ensures ValidateVocabUpdate(updating).Pass? && updating.id !in old(repo.vocabs) ==>
        vocab.None? && err == Fail(VocabIdMessage(updating.id)) && unchanged(repo, audit.repo)
      ensures ValidateVocabUpdate(updating).Pass? && updating.id in old(repo.vocabs) &&
              !HasVocabChanges(old(repo.vocabs)[updating.id], updating) ==>
        vocab.None? && err == Fail(NoChangesMessage(updating.id)) && unchanged(repo, audit.repo)
      ensures ValidateVocabUpdate(updating).Pass? && updating.id in old(repo.vocabs) &&
              HasVocabChanges(old(repo.vocabs)[updating.id], updating) ==>
        var stored := old(repo.vocabs)[updating.id];
        vocab == Some(ApplyVocabUpdate(stored, updating)) &&
        repo.vocabs == old(repo.vocabs)[updating.id := vocab.value] &&
        AuditWritten(VocabAudit(audit.codec, "updated vocab", "sys", Some(stored), vocab), err,
                     old(audit.repo.audits), old(audit.repo.sequence), audit.repo.audits, audit.repo.sequence) &&
        err == Pass
      ensures old(LearningLangsUnique()) ==> LearningLangsUnique()
      ensures old(StoredValid()) ==> StoredValid()
    {
      err := ValidateVocabUpdate(updating);
      if err.Fail? {
        return None, err;
      }
      var found := repo.FindVocabByID(updating.id);
      if found.Err? {
        return None, Fail(found.error);
      }
      var before := found.value;
      var updated := CloneVocab(before);
      if HasVocabChanges(updated, updating) {
        updated := updated.(
          hint := updating.hint,
          pos := updating.pos,
          skill := updating.skill,
          firstLang := updating.firstLang,
          infinitive := updating.infinitive,
          alternatives := updating.alternatives,
          numLearningWords := updating.numLearningWords);
      } else {
        return None, Fail(NoChangesMessage(updated.id));
      }
      vocab := Some(updated);
      err := repo.UpdateVocab(updated);
      if err.Fail? {
        return;
      }
      if old(StoredValid()) {
        UpdatedVocabStaysValid(before, updating);
      }
      VocabServiceAuditsPass(audit.codec, before, updating, updated);
      err := audit.CreateVocabAudit("updated vocab", "sys", Some(before), Some(updated));
    }
  }
}
