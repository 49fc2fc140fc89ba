/**
 * The structural diff behind audit entries (`findDiffs` in internal/srv/audit.go):
 * walk the members of one decoded object, look each key up in the other one,
 * recurse into nested objects under a `parent.` prefix, and sort the findings
 * by key.
 */
module Diff {
  import opened Json
  import opened StrOrder

  /** One finding; Go's nil `Before`/`After` is `JNull`. */
  datatype DiffResult = DiffResult(key: string, before: JsonValue, after: JsonValue)

  // ---------------------------------------------------------------------
  // Ordering by key

  predicate Sorted(s: seq<DiffResult>)
  {
    forall i, j :: 0 <= i < j < |s| ==> LessEq(s[i].key, s[j].key)
  }

  /** Put `d` after the last entry whose key is not greater than its own. */
  function Insert(s: seq<DiffResult>, d: DiffResult): seq<DiffResult>
    decreases |s|
  {
    if s == [] || !Less(d.key, s[|s| - 1].key) then s + [d]
    else Insert(s[..|s| - 1], d) + [s[|s| - 1]]
  }

  /** Insertion sort by key: the order `sort.Slice` with `Key <` produces, ties kept in input order. */
  function SortByKey(s: seq<DiffResult>): seq<DiffResult>
    decreases |s|
  {
    if s == [] then [] else Insert(SortByKey(s[..|s| - 1]), s[|s| - 1])
  }

  lemma {:induction false} InsertPermutes(s: seq<DiffResult>, d: DiffResult)
    ensures multiset(Insert(s, d)) == multiset(s) + multiset{d}
    decreases |s|
  {
    if s != [] && Less(d.key, s[|s| - 1].key) {
      InsertPermutes(s[..|s| - 1], d);
      assert s == s[..|s| - 1] + [s[|s| - 1]];
    }
  }

  lemma {:induction false} InsertSorted(s: seq<DiffResult>, d: DiffResult)
    requires Sorted(s)
    ensures Sorted(Insert(s, d))
    decreases |s|
  {
    var n := |s|;
    if s == [] {
    } else if !Less(d.key, s[n - 1].key) {
      forall i | 0 <= i < n ensures LessEq(s[i].key, d.key) {
        if i < n - 1 { LessEqTransitive(s[i].key, s[n - 1].key, d.key); }
      }
    } else {
      var p := s[..n - 1];
      var last := s[n - 1];
      assert Sorted(p);
      InsertSorted(p, d);
      InsertPermutes(p, d);
      var q := Insert(p, d);
      forall i | 0 <= i < |q| ensures LessEq(q[i].key, last.key) {
        assert q[i] in multiset(q);
        if q[i] == d {
          LessAsymmetric(d.key, last.key);
        } else {
          assert q[i] in multiset(p);
          var k :| 0 <= k < |p| && p[k] == q[i];
        }
      }
    }
  }

  lemma {:induction false} SortByKeySorted(s: seq<DiffResult>)
    ensures Sorted(SortByKey(s)) && multiset(SortByKey(s)) == multiset(s)
    decreases |s|
  {
    if s != [] {
      var p, x := s[..|s| - 1], s[|s| - 1];
      SortByKeySorted(p);
      assert SortByKey(s) == Insert(SortByKey(p), x);
      InsertSorted(SortByKey(p), x);
      InsertPermutes(SortByKey(p), x);
      assert s == p + [x];
      assert multiset(s) == multiset(p) + multiset{x};
    }
  }

  /** Sorting an already sorted list changes nothing. */
  lemma {:induction false} SortByKeyOfSorted(s: seq<DiffResult>)
    requires Sorted(s)
    ensures SortByKey(s) == s
    decreases |s|
  {
    if s != [] {
      var n := |s|;
      assert Sorted(s[..n - 1]);
      SortByKeyOfSorted(s[..n - 1]);
      if n >= 2 {
        assert LessEq(s[n - 2].key, s[n - 1].key);
      }
      assert s == s[..n - 1] + [s[n - 1]];
    }
  }

  /** One swap step: `x` sorts in front of `sorted[j - 1]`, so it is inserted before it. */
  lemma InsertStep(sorted: seq<DiffResult>, j: nat, x: DiffResult)
    requires 0 < j <= |sorted|
    requires Less(x.key, sorted[j - 1].key)
    ensures Insert(sorted[..j], x) + sorted[j..] == Insert(sorted[..j - 1], x) + sorted[j - 1..]
  {
    assert sorted[..j][..j - 1] == sorted[..j - 1];
    assert sorted[j - 1..] == [sorted[j - 1]] + sorted[j..];
  }

  /** Sink `arr[i]` into the sorted prefix `arr[..i]`. */
  method InsertAt(arr: array<DiffResult>, i: nat)
    requires i < arr.Length
    modifies arr
    ensures arr[..i + 1] == Insert(old(arr[..i]), old(arr[i]))
    ensures arr[i + 1..] == old(arr[i + 1..])
  {
    ghost var sorted := arr[..i];
    ghost var x := arr[i];
    ghost var rest := arr[i + 1..];
    var j := i;
    while j > 0 && Less(arr[j].key, arr[j - 1].key)
      invariant 0 <= j <= i
      invariant arr[..j] == sorted[..j]
      invariant arr[j] == x
      invariant arr[j + 1..i + 1] == sorted[j..]
      invariant arr[i + 1..] == rest
      invariant Insert(sorted, x) == Insert(sorted[..j], x) + sorted[j..]
    {
      InsertStep(sorted, j, x);
      arr[j - 1], arr[j] := arr[j], arr[j - 1];
      j := j - 1;
    }
    assert Insert(sorted[..j], x) == sorted[..j] + [x];
    assert arr[..i + 1] == arr[..j] + [arr[j]] + arr[j + 1..i + 1];
  }

  /** In-place insertion sort by adjacent swaps; it computes exactly `SortByKey`. */
  method SortDiffsByKey(arr: array<DiffResult>)
    modifies arr
    ensures arr[..] == SortByKey(old(arr[..]))
  {
    ghost var input := arr[..];
    for i := 0 to arr.Length
      invariant arr[..i] == SortByKey(input[..i])
      invariant arr[i..] == input[i..]
    {
      InsertAt(arr, i);
      assert input[..i + 1][..i] == input[..i];
      assert arr[..i + 1] == SortByKey(input[..i + 1]);
    }
    assert input[..arr.Length] == input;
  }

  // ---------------------------------------------------------------------
  // The diff

  /** The finding for a top-level key of `a` that `b` lacks. */
  function Removed(fullKey: string): DiffResult
  {
    DiffResult("'" + fullKey + "' removed", JNull, JNull)
  }

  /** The finding for a nested key of `a` that `b` lacks; the source calls it "added". */
  function Added(fullKey: string): DiffResult
  {
    DiffResult("'" + fullKey + "' added", JNull, JNull)
  }

  /** The finding for a leaf whose value differs. */
  function Changed(fullKey: string, before: JsonValue, after: JsonValue): DiffResult
  {
    DiffResult("'" + fullKey + "'", before, after)
  }

  /** What one member of `a` contributes, before sorting. */
  function MemberDiffs(m: Member, b: seq<Member>, path: string): seq<DiffResult>
    decreases m
  {
    var fullKey := path + m.key;
    match Lookup(b, m.key)
    case None => if path == "" then [Removed(fullKey)] else [Added(fullKey)]
    case Some(bv) =>
      if m.value.JObject? then
        if bv.JObject? then Diffs(m.value.members, bv.members, fullKey + ".") else []
      else if m.value != bv then [Changed(fullKey, m.value, bv)]
      else []
  }

  /** The findings of all members of `a`, in iteration order. */
  function Collect(a: seq<Member>, b: seq<Member>, path: string): seq<DiffResult>
    decreases a, 0
  {
    if a == [] then []
    else Collect(a[..|a| - 1], b, path) + MemberDiffs(a[|a| - 1], b, path)
  }

  /** `findDiffs(a, b, path)`: exactly the collected findings, sorted by key. */
  function Diffs(a: seq<Member>, b: seq<Member>, path: string): (r: seq<DiffResult>)
    ensures Sorted(r)
    ensures multiset(r) == multiset(Collect(a, b, path))
    decreases a, 1
  {
    SortByKeySorted(Collect(a, b, path));
    SortByKey(Collect(a, b, path))
  }

  /** The loop body of `findDiffs` for one member of `a`. */
  method MemberFindings(m: Member, b: seq<Member>, path: string) returns (ds: seq<DiffResult>)
    requires MemberSafe(m, b)
    ensures ds == MemberDiffs(m, b, path)
    decreases m
  {
    var fullKey := path + m.key;
    var found := Lookup(b, m.key);
    if found.None? {
      if path == "" {
        ds := [Removed(fullKey)];
      } else {
        ds := [Added(fullKey)];
      }
    } else if m.value.JObject? {
      if found.value.JObject? {
        ds := FindDiffs(m.value.members, found.value.members, fullKey + ".");
      } else {
        ds := [];
      }
    } else if m.value != found.value {
      ds := [Changed(fullKey, m.value, found.value)];
    } else {
      ds := [];
    }
  }

  /**
   * `findDiffs`: one pass over the members of `a` that appends each member's
   * findings (recursing into nested objects), then an in-place sort by key.
   * Go panics when a shared key holds arrays on both sides; that is excluded.
   */
  method FindDiffs(a: seq<Member>, b: seq<Member>, path: string) returns (diffs: seq<DiffResult>)
    requires NoArrayClash(a, b)
    ensures diffs == Diffs(a, b, path)
    decreases a, 1
  {
    diffs := [];
    for i := 0 to |a|
      invariant diffs == Collect(a[..i], b, path)
    {
      var more := MemberFindings(a[i], b, path);
      diffs := diffs + more;
      assert a[..i + 1][..i] == a[..i];
    }
    assert a[..|a|] == a;
    var arr := new DiffResult[|diffs|](k requires 0 <= k < |diffs| => diffs[k]);
    assert arr[..] == diffs;
    SortDiffsByKey(arr);
    diffs := arr[..];
  }
}
