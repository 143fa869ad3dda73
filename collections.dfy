/** The sequence operations the repositories are built from: the filtering
    comprehension (`[x for x in xs if p(x)]`), the first-match linear scan by
    `id`, and the replace-in-place-or-append upsert. */
module Collections {
  import opened Wrappers

  /** Record identifiers are opaque strings (uuid4 text in the original). */
  type Id = string

  /** `[x for x in s if p(x)]` */
  function Filter<T(==)>(s: seq<T>, p: T -> bool): (r: seq<T>)
    ensures |r| <= |s|
    ensures forall i :: 0 <= i < |r| ==> r[i] in s && p(r[i])
    ensures forall i :: 0 <= i < |s| && p(s[i]) ==> s[i] in r
  {
    if s == [] then [] else (if p(s[0]) then [s[0]] else []) + Filter(s[1..], p)
  }

  /** r is obtained from s by deleting elements, keeping the order of the rest. */
  ghost predicate IsSubsequence<T>(r: seq<T>, s: seq<T>)
    decreases |s|
  {
    r == [] || (s != [] && ((r[0] == s[0] && IsSubsequence(r[1..], s[1..])) || IsSubsequence(r, s[1..])))
  }

  /** Filtering keeps the survivors in their original relative order. */
  lemma {:induction false} FilterIsSubsequence<T>(s: seq<T>, p: T -> bool)
    ensures IsSubsequence(Filter(s, p), s)
  {
    if s != [] {
      FilterIsSubsequence(s[1..], p);
      if p(s[0]) {
        assert Filter(s, p) == [s[0]] + Filter(s[1..], p);
        assert Filter(s, p)[1..] == Filter(s[1..], p);
      } else {
        assert Filter(s, p) == Filter(s[1..], p);
      }
    }
  }

  /** Filtering distributes over concatenation: order is kept block by block. */
  lemma {:induction false} FilterAppend<T>(s: seq<T>, t: seq<T>, p: T -> bool)
    ensures Filter(s + t, p) == Filter(s, p) + Filter(t, p)
  {
    if s != [] {
      assert (s + t)[1..] == s[1..] + t;
      FilterAppend(s[1..], t, p);
    } else {
      assert s + t == t;
    }
  }

  /** Every element satisfying p survives with its full multiplicity, and no other. */
  lemma {:induction false} FilterCount<T>(s: seq<T>, p: T -> bool, x: T)
    ensures multiset(Filter(s, p))[x] == if p(x) then multiset(s)[x] else 0
  {
    if s != [] {
      FilterCount(s[1..], p, x);
      assert s == [s[0]] + s[1..];
      assert multiset(s) == multiset{s[0]} + multiset(s[1..]);
    }
  }

  /** Filtering by p and then by q is filtering by their conjunction. */
  lemma {:induction false} FilterBoth<T>(s: seq<T>, p: T -> bool, q: T -> bool, pq: T -> bool)
    requires forall i :: 0 <= i < |s| ==> pq(s[i]) == (p(s[i]) && q(s[i]))
    ensures Filter(Filter(s, p), q) == Filter(s, pq)
  {
    if s != [] {
      FilterBoth(s[1..], p, q, pq);
      if p(s[0]) {
        var fp := Filter(s, p);
        assert fp == [s[0]] + Filter(s[1..], p);
        assert fp[0] == s[0] && fp[1..] == Filter(s[1..], p);
        assert Filter(fp, q) == (if q(s[0]) then [s[0]] else []) + Filter(Filter(s[1..], p), q);
        assert Filter(s, pq) == (if pq(s[0]) then [s[0]] else []) + Filter(s[1..], pq);
      } else {
        assert !pq(s[0]);
        assert Filter(s, p) == Filter(s[1..], p);
        assert Filter(s, pq) == Filter(s[1..], pq);
      }
    }
  }

  /** Filtering one more element: the survivors of the first k elements,
      then element k if it passes. */
  lemma FilterPrefix<T>(s: seq<T>, p: T -> bool, k: nat)
    requires k < |s|
    ensures Filter(s[..k + 1], p) == Filter(s[..k], p) + (if p(s[k]) then [s[k]] else [])
  {
    assert s[..k + 1] == s[..k] + [s[k]];
    FilterAppend(s[..k], [s[k]], p);
    assert [s[k]][1..] == [];
  }

  /** A filter that no element passes leaves nothing. */
  lemma {:induction false} FilterNone<T>(s: seq<T>, p: T -> bool)
    requires forall i :: 0 <= i < |s| ==> !p(s[i])
    ensures Filter(s, p) == []
  {
    if s != [] {
      FilterNone(s[1..], p);
    }
  }

  /** A filter that every element passes changes nothing. */
  lemma {:induction false} FilterKeepsAll<T>(s: seq<T>, p: T -> bool)
    requires forall i :: 0 <= i < |s| ==> p(s[i])
    ensures Filter(s, p) == s
  {
    if s != [] {
      FilterKeepsAll(s[1..], p);
    }
  }

  /** The index of the first element whose key is `id`: the loop
      `for i, x in enumerate(s): if x['id'] == id: ... break`. */
  function FindIndex<T>(s: seq<T>, key: T -> Id, id: Id): (r: Option<nat>)
    ensures r.Some? ==> r.value < |s| && key(s[r.value]) == id
    ensures r.Some? ==> forall j :: 0 <= j < r.value ==> key(s[j]) != id
    ensures r.None? <==> forall j :: 0 <= j < |s| ==> key(s[j]) != id
  {
    if s == [] then None
    else if key(s[0]) == id then Some(0)
    else match FindIndex(s[1..], key, id)
      case Some(i) => Some(i + 1)
      case None => None
  }

  /** The first element whose key is `id`, if any (`get_by_id`). */
  function Lookup<T>(s: seq<T>, key: T -> Id, id: Id): (r: Option<T>)
  {
    match FindIndex(s, key, id)
    case Some(i) => Some(s[i])
    case None => None
  }

  /** What a lookup finds is the first record carrying the key; it finds
      nothing exactly when no record carries the key. */
  lemma LookupSpec<T>(s: seq<T>, key: T -> Id, id: Id)
    ensures Lookup(s, key, id).None? <==> forall j :: 0 <= j < |s| ==> key(s[j]) != id
    ensures Lookup(s, key, id).Some? ==>
      exists i :: 0 <= i < |s| && Lookup(s, key, id).value == s[i]
        && key(s[i]) == id && forall j :: 0 <= j < i ==> key(s[j]) != id
  {
    match FindIndex(s, key, id)
    case Some(i) =>
    case None =>
  }

  /** `save()`: replace the first record with the same key in place,
      otherwise append. */
  function Upsert<T>(s: seq<T>, key: T -> Id, x: T): (r: seq<T>)
  {
    match FindIndex(s, key, key(x))
    case Some(i) => s[i := x]
    case None => s + [x]
  }

  /** Upserting a record whose key is present replaces the first holder of
      the key, at the same index, and leaves every other position alone. */
  lemma UpsertReplaces<T>(s: seq<T>, key: T -> Id, x: T, i: nat)
    requires i < |s| && key(s[i]) == key(x)
    requires forall j :: 0 <= j < i ==> key(s[j]) != key(x)
    ensures |Upsert(s, key, x)| == |s|
    ensures Upsert(s, key, x)[i] == x
    ensures forall j :: 0 <= j < |s| && j != i ==> Upsert(s, key, x)[j] == s[j]
  {
    var f := FindIndex(s, key, key(x));
    assert f.Some?;
    assert !(f.value < i);
  }

  /** Upserting a record whose key is absent appends it: one more record,
      the old ones untouched and first. */
  lemma UpsertAppends<T>(s: seq<T>, key: T -> Id, x: T)
    requires forall j :: 0 <= j < |s| ==> key(s[j]) != key(x)
    ensures Upsert(s, key, x) == s + [x]
    ensures |Upsert(s, key, x)| == |s| + 1
  {
  }

  /** After an upsert, looking the key up yields exactly the saved record. */
  lemma UpsertThenLookup<T>(s: seq<T>, key: T -> Id, x: T)
    ensures Lookup(Upsert(s, key, x), key, key(x)) == Some(x)
  {
    var u := Upsert(s, key, x);
    var g := FindIndex(u, key, key(x));
    match FindIndex(s, key, key(x))
    case Some(i) =>
      assert u[i] == x;
      assert forall j :: 0 <= j < i ==> key(u[j]) != key(x);
      assert g.Some?;
      assert !(g.value > i);
    case None =>
      assert u[|s|] == x;
      assert forall j :: 0 <= j < |s| ==> key(u[j]) != key(x);
      assert g.Some?;
  }

  /** An upsert does not change what any other key looks up to. */
  lemma UpsertOtherKeys<T>(s: seq<T>, key: T -> Id, x: T, id: Id)
    requires id != key(x)
    ensures Lookup(Upsert(s, key, x), key, id) == Lookup(s, key, id)
  {
    var u := Upsert(s, key, x);
    assert forall j :: 0 <= j < |u| && key(u[j]) == id ==> j < |s| && u[j] == s[j];
    assert forall j :: 0 <= j < |s| && key(s[j]) == id ==> u[j] == s[j];
    var f, g := FindIndex(s, key, id), FindIndex(u, key, id);
    if f.Some? {
      assert g.Some?;
      assert !(g.value < f.value);
      assert !(g.value > f.value);
    } else {
      assert g.None?;
    }
  }

  /** The scan of `save()`: walk the collection, overwrite the first record
      with the same key and stop, or append when the walk finds none. */
  method UpsertByScan<T>(data: seq<T>, key: T -> Id, x: T) returns (r: seq<T>)
    ensures r == Upsert(data, key, x)
  {
    r := data;
    var found := false;
    for i := 0 to |r|
      invariant r == data && !found
      invariant forall j :: 0 <= j < i ==> key(data[j]) != key(x)
    {
      if key(r[i]) == key(x) {
        r := r[i := x];
        found := true;
        break;
      }
    }
    if !found {
      r := r + [x];
    }
  }

  /** The scan of `get_by_id`/`get_by_email`: return the first record whose
      key matches, or None after the whole collection. */
  method FindByScan<T>(data: seq<T>, key: T -> Id, id: Id) returns (r: Option<T>)
    ensures r == Lookup(data, key, id)
  {
    for i := 0 to |data|
      invariant forall j :: 0 <= j < i ==> key(data[j]) != id
    {
      if key(data[i]) == id {
        return Some(data[i]);
      }
    }
    return None;
  }

  /** The deletion comprehension `[x for x in s if x['id'] != id]`. */
  function KeyIsNot<T>(key: T -> Id, id: Id): T -> bool {
    x => key(x) != id
  }

  /** After filtering out a key, nothing with that key can be found. */
  lemma {:induction false} RemovedNotFound<T>(s: seq<T>, key: T -> Id, id: Id)
    ensures Lookup(Filter(s, KeyIsNot(key, id)), key, id).None?
  {
    var r := Filter(s, KeyIsNot(key, id));
    assert forall j :: 0 <= j < |r| ==> KeyIsNot(key, id)(r[j]);
  }

  /** A set drawn from a sequence is no larger than the sequence. */
  lemma SubsetOfSequence<T>(a: set<T>, s: seq<T>)
    requires forall x :: x in a ==> x in s
    ensures |a| <= |s|
  {
    var all := set x | x in s;
    SubsetSize(a, all);
    DistinctAtMostLength(s);
  }

  lemma {:induction false} SubsetSize<T>(a: set<T>, b: set<T>)
    requires a <= b
    ensures |a| <= |b|
    decreases a
  {
    if a != {} {
      var x :| x in a;
      SubsetSize(a - {x}, b - {x});
    }
  }

  /** A sequence has at most as many distinct elements as it has elements,
      and some exactly when it is non-empty. */
  lemma {:induction false} DistinctAtMostLength<T>(s: seq<T>)
    ensures |set x | x in s| <= |s|
    ensures |set x | x in s| == 0 <==> s == []
  {
    if s != [] {
      DistinctAtMostLength(s[1..]);
      var tail := set x | x in s[1..];
      assert (set x | x in s) == tail + {s[0]};
      assert s[0] in (set x | x in s);
    }
  }
}
