/**
 * The Quick-Find disjoint set: every element carries the identifier of its
 * set, so finding is a lookup and a union relabels a whole set.
 */
module DisjointSet {
  import opened QuickFindSpec

  class QuickFind<T(==)> {
    /** The keys of the identifier map, in insertion order. */
    var keys: seq<T>
    /** The identifier of every key (the map called `verticies`). */
    var ids: map<T, nat>
    /** The number of sets. */
    var count: int

    /** Object invariant: `keys` lists the map's keys once each, and `count` is the number of identifiers in use. */
    ghost predicate Valid()
      reads this
    {
      && NoDuplicates(keys)
      && (forall k :: k in keys ==> k in ids)
      && (forall k :: k in ids ==> k in keys)
      && count == |ids.Values|
    }

    /**
     * Sets every value, in order, to its index; a value that occurs again
     * keeps its place among the keys and takes the later index. The count is
     * the size of the resulting map.
     */
    constructor (values: seq<T>)
      ensures Valid()
      ensures keys == InsertionOrder(values)
      ensures ids == LastIds(values)
      ensures count == |keys|
    {
      var order, m := SetAll(values);
      InsertionOrderSpec(values);
      ConstructedCount(values);
      keys := order;
      ids := m;
      count := |m|;
    }

    /** The identifier of `v`, or NotFound when `v` is not in the universe. */
    function Find(v: T): (r: Result<nat>)
      reads this
      requires Valid()
      ensures r.Ok? <==> v in keys
      ensures r.Ok? ==> r.value in ids.Values && r.value == ids[v]
    {
      if v in ids then Ok(ids[v]) else NotFound
    }

    /** Whether `a` and `b` are in the same set; NotFound when either is missing. */
    function Connected(a: T, b: T): (r: Result<bool>)
      reads this
      requires Valid()
      ensures r.Ok? <==> a in keys && b in keys
      ensures r.Ok? ==> (r.value <==> Find(a) == Find(b))
    {
      match Find(a)
      case NotFound => NotFound
      case Ok(idA) =>
        match Find(b)
        case NotFound => NotFound
        case Ok(idB) => Ok(idA == idB)
    }

    /**
     * Merges the set of `a` into the set of `b`. Fails without touching
     * anything when either is missing, and changes nothing when they are
     * already connected. Otherwise every key that had `a`'s identifier gets
     * `b`'s, and the count drops by one.
     */
    method Union(a: T, b: T) returns (r: Result<()>)
      requires Valid()
      modifies this
      ensures Valid()
      ensures keys == old(keys)
      ensures r.Ok? <==> old(Connected(a, b)).Ok?
      ensures old(Connected(a, b)) != Ok(false) ==> ids == old(ids) && count == old(count)
      ensures old(Connected(a, b)) == Ok(false) ==>
                ids == Relabel(old(ids), old(ids[a]), old(ids[b])) && count == old(count) - 1
      ensures r.Ok? ==> Connected(a, b) == Ok(true)
    {
      var c := Connected(a, b);
      if c.NotFound? {
        return NotFound;
      }
      if c.value {
        return Ok(());
      }
      var idA := Find(a).value;
      var idB := Find(b).value;
      var i := 0;
      while i < |keys|
        invariant 0 <= i <= |keys|
        invariant keys == old(keys) && count == old(count)
        invariant ids.Keys == old(ids).Keys
        invariant forall j :: 0 <= j < i ==>
                    ids[keys[j]] == if old(ids)[keys[j]] == idA then idB else old(ids)[keys[j]]
        invariant forall j :: i <= j < |keys| ==> ids[keys[j]] == old(ids)[keys[j]]
      {
        var k := keys[i];
        if ids[k] == idA {
          ids := ids[k := idB];
        }
        i := i + 1;
      }
      assert ids == Relabel(old(ids), idA, idB) by {
        forall k | k in ids ensures ids[k] == Relabel(old(ids), idA, idB)[k] {
          var j :| 0 <= j < |keys| && keys[j] == k;
        }
      }
      RelabelMergesTwoGroups(old(ids), idA, idB);
      count := count - 1;
      return Ok(());
    }

    /**
     * The sets as arrays of keys: a reduce over the entries builds an object
     * from identifier to members, whose values are then listed.
     */
    method Sets() returns (groups: seq<seq<T>>)
      requires Valid()
      ensures groups == Groups(keys, ids)
      ensures |groups| == count
      ensures forall j :: 0 <= j < |groups| ==> groups[j] != []
      ensures forall k :: k in keys ==> exists j :: 0 <= j < |groups| && k in groups[j]
      ensures forall j, k :: 0 <= j < |groups| && k in groups[j] ==>
                k in ids && ids[k] == AscendingKeys(ids.Values)[j]
    {
      var acc := GroupEntries(keys, ids);
      groups := ObjectValues(acc);
      IdsInUse(keys, ids);
      GroupsCoverKeys(keys, ids);
      forall j, k | 0 <= j < |groups| && k in groups[j]
        ensures k in ids && ids[k] == AscendingKeys(ids.Values)[j]
      {
        GroupAt(keys, ids, j);
      }
    }
  }

  /**
   * The `forEach` of the constructor: sets every value, in order, to its
   * index. A value that occurs again keeps its place among the keys and takes
   * the later index.
   */
  method SetAll<T>(values: seq<T>) returns (order: seq<T>, m: map<T, nat>)
    ensures order == InsertionOrder(values)
    ensures m == LastIds(values)
  {
    order := [];
    m := map[];
    ghost var seen: seq<T> := [];
    var i := 0;
    while i < |values|
      invariant 0 <= i <= |values| && seen == values[..i]
      invariant order == InsertionOrder(seen)
      invariant m == LastIds(seen)
    {
      var v := values[i];
      SetOneMore(seen, v);
      KeysAgree(seen, v);
      if v !in m {
        order := order + [v];
      }
      m := m[v := i];
      assert values[..i + 1] == seen + [v];
      seen := seen + [v];
      i := i + 1;
    }
    assert seen == values;
  }

  /**
   * The reduce of `sets()`: for each entry in order, create the array of its
   * identifier when there is none yet, then push the entry's key.
   */
  method GroupEntries<T>(keys: seq<T>, ids: map<T, nat>) returns (acc: map<nat, seq<T>>)
    requires AllKeyed(keys, ids)
    ensures acc == GroupMap(keys, ids)
  {
    acc := map[];
    ghost var done: seq<T> := [];
    var i := 0;
    while i < |keys|
      invariant 0 <= i <= |keys| && done == keys[..i]
      invariant AllKeyed(done, ids)
      invariant acc == GroupMap(done, ids)
    {
      var k := keys[i];
      GroupMapAppend(done, ids, k);
      if ids[k] !in acc {
        acc := acc[ids[k] := []];
      }
      acc := acc[ids[k] := acc[ids[k]] + [k]];
      assert keys[..i + 1] == done + [k];
      done := done + [k];
      i := i + 1;
    }
    assert done == keys;
  }

  /** `count` never exceeds the number of keys, and is at least one exactly when there are keys. */
  lemma CountBounds<T>(q: QuickFind<T>)
    requires q.Valid()
    ensures 0 <= q.count <= |q.keys|
    ensures q.count == 0 <==> q.keys == []
  {
    ValuesAtMostKeys(q.ids);
    NoDuplicatesCard(q.keys);
    assert q.ids.Keys == set k | k in q.keys;
    if q.keys != [] {
      assert q.keys[0] in q.ids;
    }
  }

  /** Connectedness is an equivalence relation on the universe. */
  lemma ConnectedIsEquivalence<T>(q: QuickFind<T>, a: T, b: T, c: T)
    requires q.Valid() && a in q.keys && b in q.keys && c in q.keys
    ensures q.Connected(a, a) == Ok(true)
    ensures q.Connected(a, b) == q.Connected(b, a)
    ensures q.Connected(a, b) == Ok(true) && q.Connected(b, c) == Ok(true) ==> q.Connected(a, c) == Ok(true)
  {
  }
}
