/**
 * Decoded JSON documents.  An object is kept as an association list in
 * document order; a decoder that produces Go maps yields objects whose keys
 * are unique (see `WellFormed`), and the list order stands for one map
 * iteration order.
 */
module Json {
  import opened Wrappers

  datatype JsonValue =
    | JNull
    | JBool(b: bool)
    | JNumber(n: real)
    | JString(s: string)
    | JArray(items: seq<JsonValue>)
    | JObject(members: seq<Member>)

  datatype Member = Member(key: string, value: JsonValue)

  /** `k` is the key of some member of `ms`. */
  predicate HasKey(ms: seq<Member>, k: string)
  {
    exists i :: 0 <= i < |ms| && ms[i].key == k
  }

  /** Map indexing `m[k]` with its `ok` flag: the value of the first member keyed `k`. */
  function Lookup(ms: seq<Member>, k: string): (r: Option<JsonValue>)
    ensures r.Some? <==> HasKey(ms, k)
    ensures r.Some? ==> exists i :: 0 <= i < |ms| && ms[i] == Member(k, r.value)
  {
    if ms == [] then None
    else if ms[0].key == k then Some(ms[0].value)
    else
      var r := Lookup(ms[1..], k);
      assert forall i :: 0 <= i < |ms| - 1 ==> ms[1..][i] == ms[i + 1];
      r
  }

  /** No two members share a key, as in a Go map. */
  predicate UniqueKeys(ms: seq<Member>)
  {
    forall i, j :: 0 <= i < j < |ms| ==> ms[i].key != ms[j].key
  }

  /** In an object with unique keys, looking up a member's key finds that member. */
  lemma {:induction false} LookupUnique(ms: seq<Member>, i: nat)
    requires UniqueKeys(ms) && i < |ms|
    ensures Lookup(ms, ms[i].key) == Some(ms[i].value)
  {
    if i > 0 {
      assert UniqueKeys(ms[1..]) by {
        forall p, q | 0 <= p < q < |ms[1..]|
          ensures ms[1..][p].key != ms[1..][q].key
        {
          assert ms[1..][p] == ms[p + 1] && ms[1..][q] == ms[q + 1];
        }
      }
      assert ms[0].key != ms[i].key;
      LookupUnique(ms[1..], i - 1);
      assert ms[1..][i - 1] == ms[i];
    }
  }

  /** Every object at every depth has unique keys. */
  predicate WellFormed(v: JsonValue)
  {
    match v
    case JArray(items) => forall i :: 0 <= i < |items| ==> WellFormed(items[i])
    case JObject(ms) => WellFormedMembers(ms)
    case _ => true
  }

  predicate WellFormedMembers(ms: seq<Member>)
  {
    UniqueKeys(ms) && forall i :: 0 <= i < |ms| ==> WellFormed(ms[i].value)
  }

  /**
   * Go's `!=` on two `interface{}` values that both hold a `[]interface{}`
   * panics.  The structural diff is free of that panic exactly when no
   * shared key, at any depth it recurses into, holds an array on both sides.
   */
  predicate NoArrayClash(a: seq<Member>, b: seq<Member>)
    decreases a, 1
  {
    forall i :: 0 <= i < |a| ==> MemberSafe(a[i], b)
  }

  predicate MemberSafe(m: Member, b: seq<Member>)
    decreases m
  {
    match Lookup(b, m.key)
    case None => true
    case Some(bv) =>
      if m.value.JArray? && bv.JArray? then false
      else if m.value.JObject? && bv.JObject? then NoArrayClash(m.value.members, bv.members)
      else true
  }

  /** No array occurs anywhere inside `v`. */
  predicate ArrayFree(v: JsonValue)
  {
    match v
    case JArray(_) => false
    case JObject(ms) => forall i :: 0 <= i < |ms| ==> ArrayFree(ms[i].value)
    case _ => true
  }
}
