/**
 * The in-memory repositories (internal/db/mock): a map from id to record,
 * plus a counter (`sequence`, Go's `seq`) for the two stores that assign ids.  The `Find*`
 * queries walk the map in an unspecified order, so their contracts speak of
 * membership and counts, never of order.
 */
module Repos {
  import opened Wrappers
  import opened Decimal
  import opened Mdl

  /** The time filter of the in-memory finds: strictly after the start and strictly before the end. */
  predicate InWindow(created: Instant, duration: Option<Duration>)
  {
    duration.None? || (After(created, duration.value.start) && Before(created, duration.value.end))
  }

  /** The in-memory window is the inclusive `Duration.Contains` without its two ends. */
  lemma InWindowStrict(created: Instant, d: Duration)
    ensures InWindow(created, Some(d)) <==> Contains(d, created) && created != d.start && created != d.end
  {
  }

  lemma NonEmptyHasMember(s: set<int>)
    requires s != {}
    ensures exists x :: x in s
  {
    if forall x :: x !in s {
      assert false;
    }
  }

  // ---------------------------------------------------------------------
  // Audits

  predicate AuditMatches(a: Audit, tableName: string, objectId: int, duration: Option<Duration>)
  {
    (tableName == "" || a.tableName == tableName) &&
    (objectId == 0 || a.objectId == objectId) &&
    InWindow(a.created, duration)
  }

  class MockAuditRepository {
    var audits: map<int, Audit>
    var sequence: int

    /** Every stored audit sits under its own id, and ids run from 1 to `sequence`. */
    ghost predicate Valid()
      reads this
    {
      sequence >= 0 && forall id :: id in audits ==> audits[id].id == id && 1 <= id <= sequence
    }

    constructor ()
      ensures Valid() && audits == map[] && sequence == 0
    {
      audits := map[];
      sequence := 0;
    }

    method FindAuditByID(id: int) returns (r: Result<Audit>)
      ensures id in audits ==> r == Ok(audits[id])
      ensures id !in audits ==> r == Err("audit not found")
    {
      if id in audits {
        r := Ok(audits[id]);
      } else {
        r := Err("audit not found");
      }
    }

    /**
     * Every result is a stored audit that passes all three filters, each at
     * most once; at most `limit` of them when `limit` is positive, and all
     * matches when fewer than `limit` were found or there is no limit.
     */
    method FindAudits(tableName: string, objectId: int, duration: Option<Duration>, limit: int)
      returns (result: seq<Audit>)
      requires Valid()
      ensures forall i :: 0 <= i < |result| ==>
        result[i].id in audits && audits[result[i].id] == result[i] &&
        AuditMatches(result[i], tableName, objectId, duration)
      ensures forall i, j :: 0 <= i < j < |result| ==> result[i].id != result[j].id
      ensures limit > 0 ==> |result| <= limit
      ensures limit <= 0 || |result| < limit ==>
        forall id :: id in audits && AuditMatches(audits[id], tableName, objectId, duration) ==> audits[id] in result
    {
      result := [];
      var count := 0;
      var unvisited := audits.Keys;
      ghost var visited: set<int> := {};
      while unvisited != {}
        invariant unvisited + visited == audits.Keys && unvisited !! visited
        invariant count == |result|
        invariant limit > 0 ==> count < limit
        invariant forall i :: 0 <= i < |result| ==>
          result[i].id in visited && audits[result[i].id] == result[i] &&
          AuditMatches(result[i], tableName, objectId, duration)
        invariant forall i, j :: 0 <= i < j < |result| ==> result[i].id != result[j].id
        invariant forall id :: id in visited && AuditMatches(audits[id], tableName, objectId, duration) ==> audits[id] in result
        decreases |unvisited|
      {
        NonEmptyHasMember(unvisited);
        var id :| id in unvisited;
        unvisited := unvisited - {id};
        visited := visited + {id};
        var a := audits[id];
        if AuditMatches(a, tableName, objectId, duration) {
          result := result + [a];
          count := count + 1;
          if limit > 0 && count >= limit {
            break;
          }
        }
      }
    }

    /** The next id is `sequence + 1`; the caller's id is overwritten and the record stored under it. */
    method CreateAudit(audit: Audit) returns (created: Audit)
      requires Valid()
      modifies this
      ensures Valid()
      ensures sequence == old(sequence) + 1 && created == audit.(id := sequence)
      ensures sequence !in old(audits) && audits == old(audits)[sequence := created]
      ensures forall id :: id in old(audits) ==> id < created.id
    {
      sequence := sequence + 1;
      created := audit.(id := sequence);
      audits := audits[sequence := created];
    }
  }

  // ---------------------------------------------------------------------
  // Vocab

  predicate VocabMatches(v: Vocab, learningCode: string, hasFirst: bool)
  {
    v.learningLangCode == learningCode && ((!hasFirst && v.firstLang == "") || (hasFirst && v.firstLang != ""))
  }

  function VocabIdMessage(id: int): string
  {
    "error finding vocab with id " + IntToString(id)
  }

  class MockVocabRepository {
    var vocabs: map<int, Vocab>

    /** Every stored vocab sits under its own id. */
    ghost predicate Valid()
      reads this
    {
      forall id :: id in vocabs ==> vocabs[id].id == id
    }

    constructor ()
      ensures Valid() && vocabs == map[]
    {
      vocabs := map[];
    }

    method FindVocabByID(id: int) returns (r: Result<Vocab>)
      ensures id in vocabs ==> r == Ok(vocabs[id])
      ensures id !in vocabs ==> r == Err(VocabIdMessage(id))
    {
      if id in vocabs {
        r := Ok(vocabs[id]);
      } else {
        r := Err(VocabIdMessage(id));
      }
    }

    /** Some stored vocab with that learning language, or an error when there is none. */
    method FindVocabByLearningLang(learningLang: string) returns (r: Result<Vocab>)
      requires Valid()
      ensures r.Ok? ==> r.value.id in vocabs && vocabs[r.value.id] == r.value && r.value.learningLang == learningLang
      ensures r.Err? <==> forall id :: id in vocabs ==> vocabs[id].learningLang != learningLang
      ensures r.Err? ==> r.error == "error finding vocab with learning lang " + learningLang
    {
      var unvisited := vocabs.Keys;
      while unvisited != {}
        invariant unvisited <= vocabs.Keys
        invariant forall id :: id in vocabs && id !in unvisited ==> vocabs[id].learningLang != learningLang
        decreases |unvisited|
      {
        NonEmptyHasMember(unvisited);
        var id :| id in unvisited;
        unvisited := unvisited - {id};
        if vocabs[id].learningLang == learningLang {
          return Ok(vocabs[id]);
        }
      }
      r := Err("error finding vocab with learning lang " + learningLang);
    }

    /**
     * Every result is a stored vocab with the requested learning-language code
     * and a first-language translation exactly when `hasFirst`; at most `limit`
     * of them when `limit` is positive, all of them otherwise.
     */
    method FindVocabs(learningCode: string, hasFirst: bool, limit: int) returns (result: seq<Vocab>)
      requires Valid()
      ensures forall i :: 0 <= i < |result| ==>
        result[i].id in vocabs && vocabs[result[i].id] == result[i] && VocabMatches(result[i], learningCode, hasFirst)
      ensures forall i, j :: 0 <= i < j < |result| ==> result[i].id != result[j].id
      ensures limit > 0 ==> |result| <= limit
      ensures limit <= 0 || |result| < limit ==>
        forall id :: id in vocabs && VocabMatches(vocabs[id], learningCode, hasFirst) ==> vocabs[id] in result
    {
      result := [];
      var count := 0;
      var unvisited := vocabs.Keys;
      ghost var visited: set<int> := {};
      while unvisited != {}
        invariant unvisited + visited == vocabs.Keys && unvisited !! visited
        invariant count == |result|
        invariant limit > 0 ==> count < limit
        invariant forall i :: 0 <= i < |result| ==>
          result[i].id in visited && vocabs[result[i].id] == result[i] && VocabMatches(result[i], learningCode, hasFirst)
        invariant forall i, j :: 0 <= i < j < |result| ==> result[i].id != result[j].id
        invariant forall id :: id in visited && VocabMatches(vocabs[id], learningCode, hasFirst) ==> vocabs[id] in result
        decreases |unvisited|
      {
        NonEmptyHasMember(unvisited);
        var id :| id in unvisited;
        unvisited := unvisited - {id};
        visited := visited + {id};
        var v := vocabs[id];
        if VocabMatches(v, learningCode, hasFirst) {
          result := result + [v];
          count := count + 1;
          if limit > 0 && count >= limit {
            break;
          }
        }
      }
    }

    /** Stored under the caller's id; an id already present is refused and nothing changes. */
    method CreateVocab(vocab: Vocab) returns (err: Outcome)
      requires Valid()
      modifies this
      ensures Valid()
      ensures vocab.id in old(vocabs) ==> err == Fail("vocab already exists") && vocabs == old(vocabs)
      ensures vocab.id !in old(vocabs) ==> err == Pass && vocabs == old(vocabs)[vocab.id := vocab]
    {
      if vocab.id in vocabs {
        return Fail("vocab already exists");
      }
      vocabs := vocabs[vocab.id := vocab];
      err := Pass;
    }

    /** Replaces the entry under the vocab's id, which must already exist. */
    method UpdateVocab(vocab: Vocab) returns (err: Outcome)
      requires Valid()
      modifies this
      ensures Valid()
      ensures vocab.id !in old(vocabs) ==> err == Fail(VocabIdMessage(vocab.id)) && vocabs == old(vocabs)
      ensures vocab.id in old(vocabs) ==> err == Pass && vocabs == old(vocabs)[vocab.id := vocab]
    {
      if vocab.id !in vocabs {
        return Fail(VocabIdMessage(vocab.id));
      }
      vocabs := vocabs[vocab.id := vocab];
      err := Pass;
    }
  }

  // ---------------------------------------------------------------------
  // Fixit

  predicate FixitMatches(f: Fixit, status: StatusType, vocabId: int, duration: Option<Duration>)
  {
    (status == "" || f.status == status) &&
    (vocabId == 0 || f.vocabId == vocabId) &&
    InWindow(f.created, duration)
  }

  class MockFixitRepository {
    var fixits: map<int, Fixit>
    var sequence: int

    /** Every stored fix-it sits under its own id, and ids run from 1 to `sequence`. */
    ghost predicate Valid()
      reads this
    {
      sequence >= 0 && forall id :: id in fixits ==> fixits[id].id == id && 1 <= id <= sequence
    }

    constructor ()
      ensures Valid() && fixits == map[] && sequence == 0
    {
      fixits := map[];
      sequence := 0;
    }

    method FindFixitByID(id: int) returns (r: Result<Fixit>)
      ensures id in fixits ==> r == Ok(fixits[id])
      ensures id !in fixits ==> r == Err("fixit not found")
    {
      if id in fixits {
        r := Ok(fixits[id]);
      } else {
        r := Err("fixit not found");
      }
    }

    /**
     * Every result is a stored fix-it that passes all three filters, each at
     * most once; at most `limit` of them when `limit` is positive, all matches
     * otherwise.
     */
    method FindFixits(status: StatusType, vocabId: int, duration: Option<Duration>, limit: int)
      returns (result: seq<Fixit>)
      requires Valid()
      ensures forall i :: 0 <= i < |result| ==>
        result[i].id in fixits && fixits[result[i].id] == result[i] &&
        FixitMatches(result[i], status, vocabId, duration)
      ensures forall i, j :: 0 <= i < j < |result| ==> result[i].id != result[j].id
      ensures limit > 0 ==> |result| <= limit
      ensures limit <= 0 || |result| < limit ==>
        forall id :: id in fixits && FixitMatches(fixits[id], status, vocabId, duration) ==> fixits[id] in result
    {
      result := [];
      var count := 0;
      var unvisited := fixits.Keys;
      ghost var visited: set<int> := {};
      while unvisited != {}
        invariant unvisited + visited == fixits.Keys && unvisited !! visited
        invariant count == |result|
        invariant limit > 0 ==> count < limit
        invariant forall i :: 0 <= i < |result| ==>
          result[i].id in visited && fixits[result[i].id] == result[i] &&
          FixitMatches(result[i], status, vocabId, duration)
        invariant forall i, j :: 0 <= i < j < |result| ==> result[i].id != result[j].id
        invariant forall id :: id in visited && FixitMatches(fixits[id], status, vocabId, duration) ==> fixits[id] in result
        decreases |unvisited|
      {
        NonEmptyHasMember(unvisited);
        var id :| id in unvisited;
        unvisited := unvisited - {id};
        visited := visited + {id};
        var f := fixits[id];
        if FixitMatches(f, status, vocabId, duration) {
          result := result + [f];
          count := count + 1;
          if limit > 0 && count >= limit {
            break;
          }
        }
      }
    }

    /** The next id is `sequence + 1`; it is written into the record, which is stored under it. */
    method CreateFixit(fixit: Fixit) returns (created: Fixit)
      requires Valid()
      modifies this
      ensures Valid()
      ensures sequence == old(sequence) + 1 && created == fixit.(id := sequence)
      ensures sequence !in old(fixits) && fixits == old(fixits)[sequence := created]
      ensures forall id :: id in old(fixits) ==> id < created.id
    {
      sequence := sequence + 1;
      created := fixit.(id := sequence);
      fixits := fixits[sequence := created];
    }

    /** Replaces the entry under the fix-it's id, which must already exist. */
    method UpdateFixit(fixit: Fixit) returns (err: Outcome)
      requires Valid()
      modifies this
      ensures Valid()
      ensures fixit.id !in old(fixits) ==> err == Fail("fixit does not exist") && unchanged(this)
      ensures fixit.id in old(fixits) ==> err == Pass && fixits == old(fixits)[fixit.id := fixit] && sequence == old(sequence)
    {
      if fixit.id !in fixits {
        return Fail("fixit does not exist");
      }
      fixits := fixits[fixit.id := fixit];
      err := Pass;
    }
  }
}
