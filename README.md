# Quick-Find disjoint set, modelled in Dafny

This project models `QuickFind`, the Quick-Find union-find structure of
`src/dishjoint-set/QuickFind.js`, and proves its contracts.

The structure maps each element of a fixed universe to the identifier of its
set (the map `verticies`). It also keeps `count`, the number of sets.
`find` is a lookup and `connected` compares two identifiers. `union` relabels
every element of one set with the other set's identifier. `sets` groups the
elements by identifier.

The files:

- `quickfind_spec.dfy`, module `QuickFindSpec`. Pure definitions of what the
  class computes: the keys and identifiers built by the constructor
  (`InsertionOrder`, `LastIds`), the relabelling done by a union
  (`Relabel`), the accumulator built by the reduce in `sets` (`Members`,
  `GroupMap`), the order in which `Object.values` lists integer keys
  (`AscendingKeys`), and the resulting groups (`Groups`). It also holds the
  lemmas about them.
- `quickfind.dfy`, module `DisjointSet`. The class `QuickFind<T>` with the
  fields `keys` (the map's keys in insertion order), `ids` (the map itself)
  and `count`. The object invariant `Valid()` says three things: `keys`
  lists every key of `ids` once, `ids` has no other keys, and `count` is the
  number of distinct identifiers in `ids`. `Union` updates the map in place
  in a loop over the keys, as the source does. The constructor runs the
  `forEach` loop (`SetAll`) and then assigns the fields. `Find` and
  `Connected` are functions. `Sets` runs the reduce loop (`GroupEntries`)
  and then lists the accumulator in key order.
- `scenarios.dfy`, module `QuickFindScenarios`. Client code that uses only
  the contracts above to work out the documented behaviours. Two `union`
  calls on the same pair act like one. Distinct values get identifiers 0, 1,
  2. A repeated value keeps its first position and takes its later index.
  Unknown elements fail. The x/y/z/w example ends with the groups
  `[[x, y, z], [w]]`.

A thrown `Error` is modelled as the `NotFound` case of
`Result<R> = Ok(value: R) | NotFound`. `Connected` and `Union` return it
before any state changes, just as the exception from `find` escapes them.

Two points where the code decides things that a prose reading could leave
open. The model follows the code in both:

- `sets()` returns its groups in ascending identifier order, because
  `Object.values` lists integer-like keys in ascending numeric order. This is
  not the order in which the reduce first meets each identifier. Within a
  group, the members follow map insertion order.
- A value repeated in the constructor's input is silently overwritten. It
  keeps the position of its first occurrence and takes the index of its last
  occurrence as its identifier. `count` is the map size, so duplicates are
  not counted twice.

## Model

| member | source | states |
|---|---|---|
| `DisjointSet.QuickFind.Valid` | src/dishjoint-set/QuickFind.js:12-31 | The object invariant on the fields `verticies` and `count`: the key list holds each key of the map once, and `count` is the number of distinct identifiers in use. The constructor sets it up and `union` (lines 64-76) keeps it |
| `DisjointSet.QuickFind.constructor` | src/dishjoint-set/QuickFind.js:25-32 | The keys are the input values in first-occurrence order, each key's identifier is the index of its last occurrence, `count` is the number of keys, and the object invariant holds |
| `DisjointSet.SetAll` | src/dishjoint-set/QuickFind.js:27-29 | The `forEach` loop leaves exactly the keys `InsertionOrder(values)` and the identifiers `LastIds(values)` |
| `QuickFindSpec.InsertionOrderSpec` | src/dishjoint-set/QuickFind.js:27-29 | The map's keys after the `set` calls have no duplicates and are exactly the values of the input |
| `QuickFindSpec.LastIdsSpec` | src/dishjoint-set/QuickFind.js:27-29 | Every input value, and nothing else, is a key. Its identifier is an index where it occurs, and it occurs at no later index |
| `QuickFindSpec.InsertionOrderFollowsFirstOccurrence` | src/dishjoint-set/QuickFind.js:27-29 | A key listed before another key occurs in the input before every occurrence of that other key, so the keys come in first-occurrence order |
| `QuickFindSpec.DistinctValuesKeepTheirIndex` | src/dishjoint-set/QuickFind.js:27-29 | For input without duplicates, the keys are the input itself and the i-th value has identifier i |
| `QuickFindSpec.LastIdsInjective` | src/dishjoint-set/QuickFind.js:27-29 | Right after construction, two different keys have different identifiers, so every set is a singleton |
| `QuickFindSpec.ConstructedCount` | src/dishjoint-set/QuickFind.js:31 | The key list and the map hold the same elements. The map size equals the number of distinct identifiers and the number of distinct values. It is 0 for empty input and at least 1 otherwise |
| `DisjointSet.QuickFind.Find` | src/dishjoint-set/QuickFind.js:40-45 | Succeeds exactly when the value is in the universe, and then returns its stored identifier, which is one of the identifiers in use. It changes nothing |
| `DisjointSet.QuickFind.Connected` | src/dishjoint-set/QuickFind.js:54-56 | Fails exactly when either element is missing. Otherwise it is true exactly when the two `find` results are equal |
| `DisjointSet.ConnectedIsEquivalence` | src/dishjoint-set/QuickFind.js:54-56 | On the universe, `connected` is reflexive, symmetric and transitive |
| `DisjointSet.QuickFind.Union` | src/dishjoint-set/QuickFind.js:64-76 | Fails with no change when an element is missing. It is a no-op when the two elements are already connected. Otherwise it relabels every key that has `a`'s identifier to `b`'s identifier, keeps every other identifier, keeps the keys and their order, and lowers `count` by exactly 1. Afterwards `a` and `b` are connected and the invariant still holds |
| `QuickFindSpec.Relabel` | src/dishjoint-set/QuickFind.js:70-74 | Relabelling keeps the set of keys |
| `QuickFindSpec.RelabelValues` | src/dishjoint-set/QuickFind.js:70-74 | The identifiers in use afterwards are the old ones with the source identifier replaced by the target. So when the two differ, the source identifier is no longer in use, the target is, and every other identifier in use is untouched |
| `QuickFindSpec.RelabelMergesTwoGroups` | src/dishjoint-set/QuickFind.js:70-75 | Merging two different identifiers in use leaves exactly one identifier fewer, which is why `count--` keeps `count` equal to the number of sets |
| `DisjointSet.CountBounds` | src/dishjoint-set/QuickFind.js:14-19 | Under the invariant, `0 <= count <= number of keys`, and `count` is 0 exactly when there are no keys |
| `QuickFindScenarios.UnionTwice` | src/dishjoint-set/QuickFind.js:64-76 | Calling `union(a, b)` twice returns the same outcome and leaves the same state as calling it once |
| `DisjointSet.QuickFind.Sets` | src/dishjoint-set/QuickFind.js:83-93 | Returns the groups built by the reduce and listed by `Object.values`. There are `count` groups, none empty, and every key is in one. Every member of the j-th group carries the j-th smallest identifier in use. It changes nothing |
| `DisjointSet.GroupEntries` | src/dishjoint-set/QuickFind.js:84-90 | The reduce loop over the entries builds exactly the object `GroupMap(keys, ids)` |
| `QuickFindSpec.Members` | src/dishjoint-set/QuickFind.js:85-90 | The array pushed for an identifier holds exactly the keys with that identifier |
| `QuickFindSpec.MembersKeepOrder` | src/dishjoint-set/QuickFind.js:85-90 | The members of an identifier's array appear in the same relative order as in the map |
| `QuickFindSpec.GroupMap` | src/dishjoint-set/QuickFind.js:85-90 | The reduce's object has one property for each identifier carried by a key |
| `QuickFindSpec.IdsInUse` | src/dishjoint-set/QuickFind.js:84-92 | When the entries list every key of the map, the identifiers they carry are all the identifiers in use, so `sets()` returns `count` groups |
| `QuickFindSpec.GroupMapAppend` | src/dishjoint-set/QuickFind.js:86-89 | One reduce step creates the identifier's array if it is undefined and then pushes the key. The result is the object for the longer prefix of entries |
| `QuickFindSpec.ObjectValues` | src/dishjoint-set/QuickFind.js:92 | Lists the object's values, one per key, in strictly ascending integer-key order |
| `QuickFindSpec.AscendingKeys` | src/dishjoint-set/QuickFind.js:92 | Lists exactly the object's integer keys, once each, in strictly ascending order |
| `QuickFindSpec.AscendingKeysUnique` | src/dishjoint-set/QuickFind.js:92 | No other strictly ascending listing of the same keys exists |
| `QuickFindSpec.Groups` | src/dishjoint-set/QuickFind.js:83-93 | There is one group per identifier in use, and every member of a group is a key |
| `QuickFindSpec.GroupsCoverKeys` | src/dishjoint-set/QuickFind.js:83-93 | Every group is non-empty and every key is in some group |
| `QuickFindSpec.GroupsSeparateIds` | src/dishjoint-set/QuickFind.js:87-92 | Two keys are in the same group exactly when they share an identifier, so each key is in exactly one group. Groups come in ascending identifier order |
| `QuickFindSpec.GroupsKeepInsertionOrder` | src/dishjoint-set/QuickFind.js:84-90 | Within a group, every member appears once, in map insertion order |

## Left out

- The text of the thrown error and the `Error` object itself are not modelled. A failed lookup is the `NotFound` result.
- JS `Map` hashing and SameValueZero key equality are not modelled. Elements are of any type with equality, `T(==)`.
- The default argument `values = []` and the class-field initialisers are not modelled. The constructor takes a sequence, and the empty sequence is a valid input.
- `Object.values` lists only keys up to 2^32 - 2 in ascending order. Identifiers are input indices, so larger ones would need more than four billion input values. The model treats every identifier as such an integer key.
- JS numbers are not modelled as 64-bit floats. `count` is an unbounded `int` and identifiers are `nat`s.
- The insertion-ordered `Map` is modelled as two fields: the sequence `keys` and the map `ids`. Iteration in `forEach` and `entries()` follows `keys`.
- Complexity (constant-time `find`, linear-time `union` and `sets`) is not modelled, because it is not functional behaviour.
- A JS array passed to the constructor may be sparse, and `forEach` skips its holes, so for `[a, , b]` the value `b` gets identifier 2 and `count` is 2. The model takes a dense sequence, so identifiers are always positions in it.
