/**
 * The fix-it service (internal/srv/fixit.go): validation, id assignment on
 * create, change detection on update, and one audit write after each store
 * write.
 */
module FixitSrv {
  import opened Wrappers
  import opened Decimal
  import opened Mdl
  import opened Validation
  import opened Repos
  import opened AuditSrv

  /** A clone of the stored fix-it with the three mutable fields taken from the update. */
  function ApplyFixitUpdate(stored: Fixit, updating: Fixit): (f: Fixit)
    ensures f.id == stored.id && f.vocabId == stored.vocabId && f.createdBy == stored.createdBy &&
            f.created == stored.created
    ensures f.status == updating.status && f.fieldName == updating.fieldName && f.comments == updating.comments
  {
    CloneFixit(stored).(status := updating.status, fieldName := updating.fieldName, comments := updating.comments)
  }

  /** Whether an update touches status, field name or comments: exactly when applying it changes the record. */
  predicate HasFixitChanges(stored: Fixit, updating: Fixit): (b: bool)
    ensures b <==> ApplyFixitUpdate(stored, updating) != stored
  {
    stored.status != updating.status ||
    stored.fieldName != updating.fieldName ||
    stored.comments != updating.comments
  }

  /**
   * The same update applied twice finds no further change and gives the same
   * record, and the updated
   * record passes validation exactly when the request does, since validation
   * reads only the two text fields it copies.
   */
  lemma FixitUpdateLaws(stored: Fixit, updating: Fixit)
    ensures !HasFixitChanges(ApplyFixitUpdate(stored, updating), updating)
    ensures ApplyFixitUpdate(ApplyFixitUpdate(stored, updating), updating) == ApplyFixitUpdate(stored, updating)
    ensures ValidateFixit(ApplyFixitUpdate(stored, updating)) == ValidateFixit(updating)
  {
  }

  lemma FixedCommentsPass(comments: string)
    requires comments == "created fixit" || comments == "updated fixit"
    ensures ValidateFieldContent(comments, "comments", MaxCommentsLen) == Pass
  {
    assert !ContainsAny(comments, "<>") by {
      forall i | 0 <= i < |comments| ensures comments[i] !in "<>" {
      }
    }
  }

  /** The creation audit and the audit of an updated clone can never fail. */
  lemma FixitServiceAuditsPass(c: Codec, stored: Fixit, updating: Fixit, created: Fixit)
    requires EntityJsonComparable(c)
    ensures FixitAudit(c, "created fixit", "sys", None, Some(created)).Ok?
    ensures FixitAudit(c, "updated fixit", "sys", Some(stored), Some(ApplyFixitUpdate(stored, updating))).Ok?
  {
    FixedCommentsPass("created fixit");
    FixedCommentsPass("updated fixit");
  }

  function NoChangesMessage(id: int): string
  {
    "update for fixit " + IntToString(id) + " has no changes"
  }

  class FixitService {
    const repo: MockFixitRepository
    const audit: AuditService

    ghost predicate Valid()
      reads this, repo, audit, audit.repo
    {
      repo.Valid() && audit.Valid()
    }

    /** Every stored fix-it passes validation. */
    ghost predicate StoredValid()
      reads this, repo
    {
      forall id :: id in repo.fixits ==> ValidateFixit(repo.fixits[id]).Pass?
    }

    constructor (repo: MockFixitRepository, audit: AuditService)
      requires repo.Valid() && audit.Valid()
      ensures Valid() && this.repo == repo && this.audit == audit
    {
      this.repo := repo;
      this.audit := audit;
    }

    /**
     * `CreateFixit`: validate, store under the next id (written back into the
     * record, which is returned), then audit the stored record.
     */
    method CreateFixit(fixit: Fixit) returns (created: Fixit, err: Outcome)
      requires Valid()
      modifies repo, audit.repo
      ensures Valid()
      ensures ValidateFixit(fixit).Fail? ==>
        created == fixit && err == ValidateFixit(fixit) && unchanged(repo, audit.repo)
      ensures ValidateFixit(fixit).Pass? ==>
        repo.sequence == old(repo.sequence) + 1 && created == fixit.(id := repo.sequence) &&
        created.id !in old(repo.fixits) && repo.fixits == old(repo.fixits)[created.id := created] &&
        AuditWritten(FixitAudit(audit.codec, "created fixit", "sys", None, Some(created)), err,
                     old(audit.repo.audits), old(audit.repo.sequence), audit.repo.audits, audit.repo.sequence) &&
        err == Pass
      ensures old(StoredValid()) ==> StoredValid()
    {
      created := fixit;
      err := ValidateFixit(fixit);
      if err.Fail? {
        return;
      }
      created := repo.CreateFixit(fixit);
      assert ValidateFixit(created) == ValidateFixit(fixit);
      FixitServiceAuditsPass(audit.codec, created, created, created);
      err := audit.CreateFixitAudit("created fixit", "sys", None, Some(created));
    }

    /**
     * `UpdateFixit`: validate the request, load the stored record, refuse an
     * update that changes none of the three mutable fields, then store the
     * updated clone and audit the (stored, updated) pair.
     */
    method UpdateFixit(updating: Fixit) returns (fixit: Option<Fixit>, err: Outcome)
      requires Valid()
      modifies repo, audit.repo
      ensures Valid()
      ensures ValidateFixit(updating).Fail? ==>
        fixit.None? && err == ValidateFixit(updating) && unchanged(repo, audit.repo)
      ensures ValidateFixit(updating).Pass? && updating.id !in old(repo.fixits) ==>
        fixit.None? && err == Fail("fixit not found") && unchanged(repo, audit.repo)
      ensures ValidateFixit(updating).Pass? && updating.id in old(repo.fixits) &&
              !HasFixitChanges(old(repo.fixits)[updating.id], updating) ==>
        fixit.None? && err == Fail(NoChangesMessage(updating.id)) && unchanged(repo, audit.repo)
      ensures ValidateFixit(updating).Pass? && updating.id in old(repo.fixits) &&
              HasFixitChanges(old(repo.fixits)[updating.id], updating) ==>
        var stored := old(repo.fixits)[updating.id];
        fixit == Some(ApplyFixitUpdate(stored, updating)) &&
        repo.fixits == old(repo.fixits)[updating.id := fixit.value] && repo.sequence == old(repo.sequence) &&
        AuditWritten(FixitAudit(audit.codec, "updated fixit", "sys", Some(stored), fixit), err,
                     old(audit.repo.audits), old(audit.repo.sequence), audit.repo.audits, audit.repo.sequence) &&
        err == Pass
      ensures old(StoredValid()) ==> StoredValid()
    {
      err := ValidateFixit(updating);
      if err.Fail? {
        return None, err;
      }
      var found := repo.FindFixitByID(updating.id);
      if found.Err? {
        return None, Fail(found.error);
      }
      var before := found.value;
      var updated := CloneFixit(before);
      if HasFixitChanges(updated, updating) {
        updated := updated.(status := updating.status, fieldName := updating.fieldName, comments := updating.comments);
      } else {
        return None, Fail(NoChangesMessage(updated.id));
      }
      fixit := Some(updated);
      err := repo.UpdateFixit(updated);
      if err.Fail? {
        return;
      }
      assert ValidateFixit(updated) == ValidateFixit(updating);
      FixitServiceAuditsPass(audit.codec, before, updating, updated);
      err := audit.CreateFixitAudit("updated fixit", "sys", Some(before), Some(updated));
    }
  }
}
