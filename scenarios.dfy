/**
 * Client code that uses only the contracts of `QuickFind`: the documented
 * scenarios, worked out for any distinct elements a, b, c, ... .
 */
module QuickFindScenarios {
  import opened QuickFindSpec
  import opened DisjointSet

  /** Two unions of the same two elements have the effect of one. */
  method UnionTwice<T>(q: QuickFind<T>, a: T, b: T) returns (r1: Result<()>, r2: Result<()>)
    requires q.Valid()
    modifies q
    ensures q.Valid() && r2 == r1
    ensures q.keys == old(q.keys)
    ensures old(q.Connected(a, b)) != Ok(false) ==> q.ids == old(q.ids) && q.count == old(q.count)
    ensures old(q.Connected(a, b)) == Ok(false) ==>
              q.ids == Relabel(old(q.ids), old(q.ids[a]), old(q.ids[b])) && q.count == old(q.count) - 1
  {
    r1 := q.Union(a, b);
    r2 := q.Union(a, b);
    assert r2.Ok? <==> r1.Ok?;
    if r1.Ok? {
      assert r1.value == () == r2.value;
    }
  }

  /** Distinct values get the identifiers 0, 1, 2 and three sets. */
  method Determinism<T(==)>(a: T, b: T, c: T)
    requires a != b && a != c && b != c
  {
    var values := [a, b, c];
    ThreeDistinct(a, b, c);
    var q := new QuickFind(values);
    assert q.Find(a) == Ok(0);
    assert q.Find(b) == Ok(1);
    assert q.Find(c) == Ok(2);
    assert q.count == 3;
  }

  /** A repeated value keeps its first place among the keys and takes the later index. */
  method DuplicateValues<T(==)>(a: T, b: T)
    requires a != b
  {
    var values := [a, b, a];
    assert values[..2] == [a, b] && [a, b][..1] == [a] && [a][..0] == [];
    assert InsertionOrder([a]) == [a];
    assert InsertionOrder([a, b]) == [a, b];
    var q := new QuickFind(values);
    assert q.keys == [a, b];
    assert q.Find(a) == Ok(2);
    assert q.Find(b) == Ok(1);
    assert q.count == 2;
  }

  /** Lookups of an element outside the universe fail, and so do connected and union. */
  method UnknownElement<T(==)>(a: T, b: T, c: T, z: T)
    requires z != a && z != b && z != c
  {
    var values := [a, b, c];
    InsertionOrderSpec(values);
    assert z !in values;
    var q := new QuickFind(values);
    assert q.Find(z) == NotFound;
    assert q.Connected(z, a) == NotFound;
    var r := q.Union(z, a);
    assert r == NotFound;
  }

  /** Union of two elements of a three-element universe. */
  method UnionOfTwo<T(==)>(a: T, b: T, c: T)
    requires a != b && a != c && b != c
  {
    var values := [a, b, c];
    ThreeDistinct(a, b, c);
    var q := new QuickFind(values);
    assert q.Connected(a, b) == Ok(false);
    var r := q.Union(a, b);
    assert q.Connected(a, b) == Ok(true);
    assert q.ids[a] == 1 && q.ids[c] == 2;
    assert q.Connected(a, c) == Ok(false);
    assert q.count == 2;
  }

  /** x-y, then y-z: x and z end up together, w alone, in two sets. */
  method EndToEnd<T(==)>(x: T, y: T, z: T, w: T)
    requires x != y && x != z && x != w && y != z && y != w && z != w
  {
    var values := [x, y, z, w];
    FourDistinct(x, y, z, w);
    var q := new QuickFind(values);
    assert q.ids[x] == 0 && q.ids[y] == 1 && q.ids[z] == 2 && q.ids[w] == 3;
    var r1 := q.Union(x, y);
    assert q.ids[x] == 1 && q.ids[y] == 1 && q.ids[z] == 2 && q.ids[w] == 3;
    var r2 := q.Union(y, z);
    assert q.ids[x] == 2 && q.ids[y] == 2 && q.ids[z] == 2 && q.ids[w] == 3;
    assert q.Connected(x, z) == Ok(true);
    assert q.Connected(x, w) == Ok(false);
    assert q.count == 2;
    var groups := q.Sets();
    assert q.keys == values;
    TwoGroups(x, y, z, w, q.ids);
    assert groups == [[x, y, z], [w]];
  }

  lemma ThreeDistinct<T>(a: T, b: T, c: T)
    requires a != b && a != c && b != c
    ensures InsertionOrder([a, b, c]) == [a, b, c]
    ensures var ids := LastIds([a, b, c]);
            a in ids && b in ids && c in ids && ids[a] == 0 && ids[b] == 1 && ids[c] == 2
  {
    var values := [a, b, c];
    assert values[0] == a && values[1] == b && values[2] == c;
    DistinctValuesKeepTheirIndex(values);
  }

  lemma FourDistinct<T>(x: T, y: T, z: T, w: T)
    requires x != y && x != z && x != w && y != z && y != w && z != w
    ensures InsertionOrder([x, y, z, w]) == [x, y, z, w]
    ensures var ids := LastIds([x, y, z, w]);
            x in ids && y in ids && z in ids && w in ids &&
            ids[x] == 0 && ids[y] == 1 && ids[z] == 2 && ids[w] == 3
  {
    var values := [x, y, z, w];
    assert NoDuplicates(values) by {
      forall i, j | 0 <= i < j < 4 ensures values[i] != values[j] { }
    }
    assert values[0] == x && values[1] == y && values[2] == z && values[3] == w;
    DistinctValuesKeepTheirIndex(values);
  }

  /** The grouping in the last step of EndToEnd: identifier 2, then identifier 3. */
  lemma TwoGroups<T>(x: T, y: T, z: T, w: T, ids: map<T, nat>)
    requires x in ids && y in ids && z in ids && w in ids
    requires ids[x] == 2 && ids[y] == 2 && ids[z] == 2 && ids[w] == 3
    ensures AllKeyed([x, y, z, w], ids)
    ensures Groups([x, y, z, w], ids) == [[x, y, z], [w]]
  {
    var keys := [x, y, z, w];
    assert IdsOf(keys, ids) == {2, 3} by {
      assert ids[keys[0]] == 2 && ids[keys[3]] == 3;
    }
    GroupsOfTwoIds(keys, ids);
    MembersOfFour(x, y, z, w, ids);
  }

  lemma GroupsOfTwoIds<T>(keys: seq<T>, ids: map<T, nat>)
    requires AllKeyed(keys, ids) && IdsOf(keys, ids) == {2, 3}
    ensures Groups(keys, ids) == [Members(keys, ids, 2), Members(keys, ids, 3)]
  {
    AscendingKeysUnique({2, 3}, [2, 3]);
    GroupAt(keys, ids, 0);
    GroupAt(keys, ids, 1);
  }

  lemma MembersOfFour<T>(x: T, y: T, z: T, w: T, ids: map<T, nat>)
    requires x in ids && y in ids && z in ids && w in ids
    requires ids[x] == 2 && ids[y] == 2 && ids[z] == 2 && ids[w] == 3
    ensures AllKeyed([x, y, z, w], ids)
    ensures Members([x, y, z, w], ids, 2) == [x, y, z]
    ensures Members([x, y, z, w], ids, 3) == [w]
  {
    assert [] + [x] == [x] && [x] + [y] == [x, y] && [x, y] + [z] == [x, y, z] && [x, y, z] + [w] == [x, y, z, w];
    MembersAppend([], ids, x, 2);
    MembersAppend([x], ids, y, 2);
    MembersAppend([x, y], ids, z, 2);
    MembersAppend([x, y, z], ids, w, 2);
    MembersAppend([], ids, x, 3);
    MembersAppend([x], ids, y, 3);
    MembersAppend([x, y], ids, z, 3);
    MembersAppend([x, y, z], ids, w, 3);
  }
}
