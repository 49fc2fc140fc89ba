/** What the structural diff reports, and what it never reports. */
module DiffLaws {
  import opened Wrappers
  import opened Json
  import opened StrOrder
  import opened Diff

  /** A finding is collected exactly when some member of `a` contributes it. */
  lemma {:induction false} CollectMembers(a: seq<Member>, b: seq<Member>, path: string, d: DiffResult)
    ensures d in Collect(a, b, path) <==> exists i :: 0 <= i < |a| && d in MemberDiffs(a[i], b, path)
    decreases |a|
  {
    if a != [] {
      var n := |a|;
      var p := a[..n - 1];
      CollectMembers(p, b, path, d);
      if d in Collect(a, b, path) {
        if d in Collect(p, b, path) {
          var i :| 0 <= i < |p| && d in MemberDiffs(p[i], b, path);
          assert a[i] == p[i];
        }
      } else {
        forall i | 0 <= i < n ensures d !in MemberDiffs(a[i], b, path) {
          if i < n - 1 { assert a[i] == p[i]; }
        }
      }
    }
  }

  /** A finding is reported exactly when some member of `a` contributes it. */
  lemma DiffsMembers(a: seq<Member>, b: seq<Member>, path: string, d: DiffResult)
    ensures d in Diffs(a, b, path) <==> exists i :: 0 <= i < |a| && d in MemberDiffs(a[i], b, path)
  {
    assert d in Diffs(a, b, path) <==> d in multiset(Collect(a, b, path));
    CollectMembers(a, b, path, d);
  }

  /**
   * Every reported finding has one of three origins: a key of `a` that `b`
   * lacks, a finding inside a pair of nested objects, or a leaf whose value
   * differs.  An object facing a non-object, and equal leaves, report nothing.
   */
  lemma DiffsSound(a: seq<Member>, b: seq<Member>, path: string, d: DiffResult)
    requires d in Diffs(a, b, path)
    ensures exists i :: 0 <= i < |a| && Origin(a[i], b, path, d)
  {
    DiffsMembers(a, b, path, d);
    var i :| 0 <= i < |a| && d in MemberDiffs(a[i], b, path);
    assert Origin(a[i], b, path, d);
  }

  /** `d` is explained by member `m` of the left-hand object. */
  predicate Origin(m: Member, b: seq<Member>, path: string, d: DiffResult)
  {
    var fullKey := path + m.key;
    match Lookup(b, m.key)
    case None => d == (if path == "" then Removed(fullKey) else Added(fullKey))
    case Some(bv) =>
      (m.value.JObject? && bv.JObject? && d in Diffs(m.value.members, bv.members, fullKey + "."))
      || (!m.value.JObject? && m.value != bv && d == Changed(fullKey, m.value, bv))
  }

  /** A leaf of `a` whose value in `b` differs is reported with both values. */
  lemma ChangedLeafReported(a: seq<Member>, b: seq<Member>, path: string, i: nat, bv: JsonValue)
    requires i < |a| && !a[i].value.JObject?
    requires Lookup(b, a[i].key) == Some(bv) && a[i].value != bv
    ensures Changed(path + a[i].key, a[i].value, bv) in Diffs(a, b, path)
  {
    DiffsMembers(a, b, path, Changed(path + a[i].key, a[i].value, bv));
  }

  /**
   * Two objects that differ at one non-object member only: the diff is that
   * one change and nothing else.
   */
  lemma SingleLeafChange(a: seq<Member>, path: string, i: nat, v: JsonValue)
    requires WellFormedMembers(a) && i < |a| && !a[i].value.JObject? && v != a[i].value
    ensures Diffs(a, a[i := Member(a[i].key, v)], path) == [Changed(path + a[i].key, a[i].value, v)]
  {
    var b := a[i := Member(a[i].key, v)];
    SingleLeafCollect(a, b, path, i, v, |a|);
    assert a[..|a|] == a;
    var x := Changed(path + a[i].key, a[i].value, v);
    assert [x][..0] == [];
    assert SortByKey([x]) == Insert([], x);
  }

  lemma {:induction false} SingleLeafCollect(a: seq<Member>, b: seq<Member>, path: string, i: nat, v: JsonValue, n: nat)
    requires WellFormedMembers(a) && i < |a| && !a[i].value.JObject? && v != a[i].value
    requires b == a[i := Member(a[i].key, v)] && n <= |a|
    ensures Collect(a[..n], b, path) == if i < n then [Changed(path + a[i].key, a[i].value, v)] else []
    decreases n
  {
    if n > 0 {
      assert a[..n][..n - 1] == a[..n - 1];
      SingleLeafCollect(a, b, path, i, v, n - 1);
      var m := a[n - 1];
      assert UniqueKeys(b) by {
        forall p, q | 0 <= p < q < |b| ensures b[p].key != b[q].key {
          assert b[p].key == a[p].key && b[q].key == a[q].key;
        }
      }
      LookupUnique(b, n - 1);
      if n - 1 != i {
        assert b[n - 1] == m;
        if m.value.JObject? {
          assert WellFormed(a[n - 1].value);
          SelfDiffEmpty(m.value.members, path + m.key + ".");
        }
      }
    }
  }

  /** A one-member collection is its member's findings; a one-finding list is sorted as it is. */
  lemma CollectOne(m: Member, b: seq<Member>, path: string)
    ensures Collect([m], b, path) == MemberDiffs(m, b, path)
  {
    assert [m][..0] == [];
  }

  lemma SortTwinFindings(d: DiffResult)
    ensures SortByKey([d]) == [d] && SortByKey([d, d]) == [d, d]
  {
    assert [d][..0] == [];
    assert [d, d][..1] == [d];
    LessIrreflexive(d.key);
  }

  lemma DottedInner(d: DiffResult)
    requires d == Changed("x.y", JString("1"), JString("2"))
    ensures Diffs([Member("y", JString("1"))], [Member("y", JString("2"))], "x.") == [d]
  {
    assert "x." + "y" == "x.y";
    CollectOne(Member("y", JString("1")), [Member("y", JString("2"))], "x.");
    SortTwinFindings(d);
  }

  /** The two-member collection is the first member's findings, then the second's. */
  lemma CollectTwo(m0: Member, m1: Member, b: seq<Member>, path: string)
    ensures Collect([m0, m1], b, path) == MemberDiffs(m0, b, path) + MemberDiffs(m1, b, path)
  {
    assert [m0, m1][..1] == [m0];
    CollectOne(m0, b, path);
  }

  lemma DottedLeaf(b: seq<Member>, d: DiffResult)
    requires b == [Member("x.y", JString("2")), Member("x", JObject([Member("y", JString("2"))]))]
    requires d == Changed("x.y", JString("1"), JString("2"))
    ensures MemberDiffs(Member("x.y", JString("1")), b, "") == [d]
  {
    assert "" + "x.y" == "x.y";
    assert Lookup(b, "x.y") == Some(JString("2"));
  }

  lemma DottedNested(b: seq<Member>, d: DiffResult)
    requires b == [Member("x.y", JString("2")), Member("x", JObject([Member("y", JString("2"))]))]
    requires d == Changed("x.y", JString("1"), JString("2"))
    ensures MemberDiffs(Member("x", JObject([Member("y", JString("1"))])), b, "") == [d]
  {
    assert "" + "x" + "." == "x.";
    assert b[0].key != "x";
    assert Lookup(b, "x") == Some(b[1].value);
    DottedInner(d);
  }

  lemma DottedWellFormed(t: string)
    ensures WellFormedMembers([Member("x.y", JString(t)), Member("x", JObject([Member("y", JString(t))]))])
  {
    var inner := [Member("y", JString(t))];
    assert WellFormedMembers(inner);
    var ms := [Member("x.y", JString(t)), Member("x", JObject(inner))];
    assert ms[0].key != ms[1].key by { assert |ms[0].key| != |ms[1].key|; }
    assert UniqueKeys(ms);
    assert WellFormed(ms[0].value) && WellFormed(ms[1].value);
  }

  /**
   * A dotted key can collide with a nested path: when both `"x.y"` and
   * `"x": {"y": …}` change, the same finding is reported twice, although
   * both objects are well formed.
   */
  lemma DottedKeyReportedTwice(a: seq<Member>, b: seq<Member>, d: DiffResult)
    requires a == [Member("x.y", JString("1")), Member("x", JObject([Member("y", JString("1"))]))]
    requires b == [Member("x.y", JString("2")), Member("x", JObject([Member("y", JString("2"))]))]
    requires d == Changed("x.y", JString("1"), JString("2"))
    ensures WellFormedMembers(a) && WellFormedMembers(b) && Diffs(a, b, "") == [d, d]
  {
    DottedWellFormed("1");
    DottedWellFormed("2");
    DottedLeaf(b, d);
    DottedNested(b, d);
    CollectTwo(a[0], a[1], b, "");
    SortTwinFindings(d);
  }

  /** Below the top level, a key of `a` missing from `b` is reported as "added". */
  lemma NestedMissingReportedAsAdded(a: seq<Member>, b: seq<Member>, path: string, i: nat, j: nat)
    requires i < |a| && a[i].value.JObject? && j < |a[i].value.members|
    requires Lookup(b, a[i].key).Some? && Lookup(b, a[i].key).value.JObject?
    requires !HasKey(Lookup(b, a[i].key).value.members, a[i].value.members[j].key)
    ensures Added(path + a[i].key + "." + a[i].value.members[j].key) in Diffs(a, b, path)
  {
    var sub := a[i].value.members;
    var subB := Lookup(b, a[i].key).value.members;
    var prefix := path + a[i].key + ".";
    DiffsMembers(sub, subB, prefix, Added(prefix + sub[j].key));
    DiffsMembers(a, b, path, Added(prefix + sub[j].key));
  }

  // ---------------------------------------------------------------------
  // A top-level removal is reported exactly once

  /** Keys of findings below the top level end in `'` or in `' added`. */
  predicate NestedShape(key: string)
  {
    (|key| >= 1 && key[|key| - 1] == '\'') || (|key| >= 7 && key[|key| - 7..] == "' added")
  }

  lemma RemovedKeyShape(k: string)
    ensures !NestedShape(Removed(k).key)
  {
    var key := Removed(k).key;
    assert key == "'" + k + "' removed";
    assert key[|key| - 1] == 'd';
    assert key[|key| - 7..] == "removed";
  }

  lemma RemovedKeyInjective(k1: string, k2: string)
    requires Removed(k1).key == Removed(k2).key
    ensures k1 == k2
  {
    var s1 := Removed(k1).key;
    assert s1 == "'" + k1 + "' removed";
    assert k1 == s1[1..|s1| - 9];
    var s2 := Removed(k2).key;
    assert s2 == "'" + k2 + "' removed";
    assert k2 == s2[1..|s2| - 9];
  }

  lemma AddedKeyShape(k: string)
    ensures NestedShape(Added(k).key)
  {
    var key := Added(k).key;
    assert key == "'" + k + "' added";
    assert key[|key| - 7..] == "' added";
  }

  lemma ChangedKeyShape(k: string, x: JsonValue, y: JsonValue)
    ensures NestedShape(Changed(k, x, y).key)
  {
    var key := Changed(k, x, y).key;
    assert key == "'" + k + "'";
    assert key[|key| - 1] == '\'';
  }

  /** Every finding below the top level has the nested key shape. */
  lemma {:induction false} NestedDiffsShape(a: seq<Member>, b: seq<Member>, path: string, d: DiffResult)
    requires path != "" && d in Diffs(a, b, path)
    ensures NestedShape(d.key)
    decreases a, 1
  {
    DiffsMembers(a, b, path, d);
    var i :| 0 <= i < |a| && d in MemberDiffs(a[i], b, path);
    MemberShape(a[i], b, path, d);
  }

  lemma {:induction false} MemberShape(m: Member, b: seq<Member>, path: string, d: DiffResult)
    requires path != "" && d in MemberDiffs(m, b, path)
    ensures NestedShape(d.key)
    decreases m
  {
    var fullKey := path + m.key;
    match Lookup(b, m.key)
    case None => AddedKeyShape(fullKey);
    case Some(bv) =>
      if m.value.JObject? {
        NestedDiffsShape(m.value.members, bv.members, fullKey + ".", d);
      } else {
        ChangedKeyShape(fullKey, m.value, bv);
      }
  }

  /** At the top level, a member keyed differently from `k` never yields a finding keyed as the removal of `k`. */
  lemma OtherMemberNotRemoval(m: Member, b: seq<Member>, k: string, d: DiffResult)
    requires m.key != k && d in MemberDiffs(m, b, "")
    ensures d.key != Removed(k).key
  {
    RemovedKeyShape(k);
    assert "" + m.key == m.key;
    match Lookup(b, m.key)
    case None =>
      if d.key == Removed(k).key {
        RemovedKeyInjective(m.key, k);
      }
    case Some(bv) =>
      if m.value.JObject? {
        NestedDiffsShape(m.value.members, bv.members, m.key + ".", d);
      } else {
        ChangedKeyShape(m.key, m.value, bv);
      }
  }

  /** At the top level, the member keyed `k` that `b` lacks yields exactly its removal. */
  lemma MissingMemberRemoval(m: Member, b: seq<Member>)
    requires !HasKey(b, m.key)
    ensures MemberDiffs(m, b, "") == [Removed(m.key)]
  {
    assert "" + m.key == m.key;
  }

  lemma {:induction false} RemovedCount(a: seq<Member>, b: seq<Member>, i: nat, n: nat)
    requires UniqueKeys(a) && i < |a| && n <= |a| && !HasKey(b, a[i].key)
    ensures multiset(Collect(a[..n], b, ""))[Removed(a[i].key)] == if i < n then 1 else 0
  {
    if n > 0 {
      var p := a[..n];
      assert p[..n - 1] == a[..n - 1];
      RemovedCount(a, b, i, n - 1);
      var m := a[n - 1];
      if n - 1 == i {
        MissingMemberRemoval(m, b);
      } else {
        assert m.key != a[i].key;
        if Removed(a[i].key) in MemberDiffs(m, b, "") {
          OtherMemberNotRemoval(m, b, a[i].key, Removed(a[i].key));
        }
      }
    }
  }

  /** No top-level finding other than the removal itself carries the removal's key. */
  lemma RemovalKeyUnique(a: seq<Member>, b: seq<Member>, i: nat, d: DiffResult)
    requires UniqueKeys(a) && i < |a| && !HasKey(b, a[i].key)
    requires d in Diffs(a, b, "") && d.key == Removed(a[i].key).key
    ensures d == Removed(a[i].key)
  {
    DiffsMembers(a, b, "", d);
    var j :| 0 <= j < |a| && d in MemberDiffs(a[j], b, "");
    if j == i {
      MissingMemberRemoval(a[i], b);
    } else {
      assert a[j].key != a[i].key;
      OtherMemberNotRemoval(a[j], b, a[i].key, d);
    }
  }

  /**
   * A top-level key of `a` that `b` lacks is reported once, as `'k' removed`
   * with null before and after, and no other finding carries that key.
   */
  lemma TopLevelRemovedOnce(a: seq<Member>, b: seq<Member>, i: nat)
    requires UniqueKeys(a) && i < |a| && !HasKey(b, a[i].key)
    ensures multiset(Diffs(a, b, ""))[Removed(a[i].key)] == 1
    ensures forall d :: d in Diffs(a, b, "") && d.key == Removed(a[i].key).key ==> d == Removed(a[i].key)
  {
    RemovedCount(a, b, i, |a|);
    assert a[..|a|] == a;
    forall d | d in Diffs(a, b, "") && d.key == Removed(a[i].key).key
      ensures d == Removed(a[i].key)
    {
      RemovalKeyUnique(a, b, i, d);
    }
  }

  // ---------------------------------------------------------------------
  // Identical objects, and keys that only the right-hand side has

  /** An object with unique keys at every depth has no differences from itself. */
  lemma {:induction false} SelfDiffEmpty(a: seq<Member>, path: string)
    requires WellFormedMembers(a)
    ensures Diffs(a, a, path) == []
    decreases a, 1
  {
    SelfCollectEmpty(a, a, path);
  }

  lemma {:induction false} SelfCollectEmpty(whole: seq<Member>, a: seq<Member>, path: string)
    requires WellFormedMembers(whole) && a <= whole
    ensures Collect(a, whole, path) == []
    decreases a, 0
  {
    if a != [] {
      var n := |a|;
      assert a[..n - 1] <= whole;
      SelfCollectEmpty(whole, a[..n - 1], path);
      var m := a[n - 1];
      assert m == whole[n - 1];
      LookupUnique(whole, n - 1);
      if m.value.JObject? {
        assert WellFormed(whole[n - 1].value);
        SelfDiffEmpty(m.value.members, path + m.key + ".");
      }
    }
  }

  lemma {:induction false} CollectDependsOnlyOnSharedKeys(a: seq<Member>, b1: seq<Member>, b2: seq<Member>, path: string, n: nat)
    requires n <= |a|
    requires forall i :: 0 <= i < |a| ==> Lookup(b1, a[i].key) == Lookup(b2, a[i].key)
    ensures Collect(a[..n], b1, path) == Collect(a[..n], b2, path)
    decreases n
  {
    if n > 0 {
      assert a[..n][..n - 1] == a[..n - 1];
      CollectDependsOnlyOnSharedKeys(a, b1, b2, path, n - 1);
    }
  }

  lemma {:induction false} LookupAppendOther(b: seq<Member>, m: Member, k: string)
    requires m.key != k
    ensures Lookup(b + [m], k) == Lookup(b, k)
    decreases |b|
  {
    if b != [] {
      assert (b + [m])[1..] == b[1..] + [m];
      LookupAppendOther(b[1..], m, k);
    }
  }

  /** `b` matters only through the values it holds under the keys of `a`. */
  lemma DiffsDependOnlyOnSharedKeys(a: seq<Member>, b1: seq<Member>, b2: seq<Member>, path: string)
    requires forall i :: 0 <= i < |a| ==> Lookup(b1, a[i].key) == Lookup(b2, a[i].key)
    ensures Diffs(a, b1, path) == Diffs(a, b2, path)
  {
    CollectDependsOnlyOnSharedKeys(a, b1, b2, path, |a|);
    assert a[..|a|] == a;
  }

  /** A member that only the right-hand object has is never reported. */
  lemma KeyOnlyInRightIgnored(a: seq<Member>, b: seq<Member>, m: Member, path: string)
    requires !HasKey(a, m.key)
    ensures Diffs(a, b + [m], path) == Diffs(a, b, path)
  {
    forall i | 0 <= i < |a| ensures Lookup(b + [m], a[i].key) == Lookup(b, a[i].key) {
      LookupAppendOther(b, m, a[i].key);
    }
    DiffsDependOnlyOnSharedKeys(a, b + [m], b, path);
  }

  /** Objects without arrays never make the diff panic. */
  lemma {:induction false} ArrayFreeNoClash(a: seq<Member>, b: seq<Member>)
    requires forall i :: 0 <= i < |a| ==> ArrayFree(a[i].value)
    ensures NoArrayClash(a, b)
    decreases a
  {
    forall i | 0 <= i < |a| ensures MemberSafe(a[i], b) {
      var m := a[i];
      if m.value.JObject? {
        ArrayFreeNoClash(m.value.members, (if Lookup(b, m.key).Some? && Lookup(b, m.key).value.JObject? then Lookup(b, m.key).value.members else []));
      }
    }
  }
}
