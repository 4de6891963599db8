/**
 * The three list operations every handler performs on a loaded list of
 * records, keyed by their numeric `id`: `findIndex`, `filter` on the id, and
 * assignment at the index found. `idOf` reads a record's id.
 */
module Lists {
  import opened Wrappers

  /** No two records of `s` share an id. */
  ghost predicate UniqueIds<T>(s: seq<T>, idOf: T -> int) {
    forall i, j :: 0 <= i < j < |s| ==> idOf(s[i]) != idOf(s[j])
  }

  /** Some record of `s` has the id. */
  predicate HasId<T>(s: seq<T>, idOf: T -> int, id: int) {
    exists k :: 0 <= k < |s| && idOf(s[k]) == id
  }

  /** `s.findIndex(x => x.id === id)`: the first index holding the id, `None` for the source's -1. */
  function FirstIndexOf<T>(s: seq<T>, idOf: T -> int, id: int): (r: Option<nat>)
    ensures r.None? <==> !HasId(s, idOf, id)
    ensures r.Some? ==> r.value < |s| && idOf(s[r.value]) == id
    ensures r.Some? ==> forall k :: 0 <= k < r.value ==> idOf(s[k]) != id
    decreases |s|
  {
    if s == [] then None
    else if idOf(s[0]) == id then Some(0)
    else
      match FirstIndexOf(s[1..], idOf, id)
      case None =>
        assert forall k :: 1 <= k < |s| ==> s[k] == s[1..][k - 1];
        None
      case Some(k) => Some(k + 1)
  }

  /** Two lists whose records carry the same ids, position by position. */
  predicate SameIds<T>(s: seq<T>, t: seq<T>, idOf: T -> int) {
    |s| == |t| && forall k :: 0 <= k < |s| ==> idOf(s[k]) == idOf(t[k])
  }

  /** `findIndex` looks only at ids, so lists with the same ids give the same index. */
  lemma SameIdsSameIndex<T>(s: seq<T>, t: seq<T>, idOf: T -> int, id: int)
    requires SameIds(s, t, idOf)
    ensures FirstIndexOf(s, idOf, id) == FirstIndexOf(t, idOf, id)
  {
    assert forall k :: 0 <= k < |s| ==> (idOf(s[k]) == id <==> idOf(t[k]) == id);
  }

  /** `s.filter(x => x.id !== id)`. */
  function Without<T>(s: seq<T>, idOf: T -> int, id: int): (r: seq<T>)
    ensures |r| <= |s|
    ensures !HasId(r, idOf, id)
    decreases |s|
  {
    if s == [] then []
    else if idOf(s[0]) == id then Without(s[1..], idOf, id)
    else [s[0]] + Without(s[1..], idOf, id)
  }

  /** The filter keeps the relative order of the records it keeps: it distributes over concatenation. */
  lemma {:induction false} WithoutConcat<T>(s: seq<T>, t: seq<T>, idOf: T -> int, id: int)
    ensures Without(s + t, idOf, id) == Without(s, idOf, id) + Without(t, idOf, id)
    decreases |s|
  {
    if s == [] {
      assert s + t == t;
    } else {
      assert (s + t)[0] == s[0];
      assert (s + t)[1..] == s[1..] + t;
      WithoutConcat(s[1..], t, idOf, id);
    }
  }

  /** The filter drops every record with the id and keeps every other record as often as it occurs. */
  lemma {:induction false} WithoutCounts<T>(s: seq<T>, idOf: T -> int, id: int, x: T)
    ensures multiset(Without(s, idOf, id))[x] == if idOf(x) == id then 0 else multiset(s)[x]
    decreases |s|
  {
    if s != [] {
      WithoutCounts(s[1..], idOf, id, x);
      assert s == [s[0]] + s[1..];
    }
  }

  /** Filtering out an id no record has gives back the same list. */
  lemma {:induction false} WithoutAbsent<T>(s: seq<T>, idOf: T -> int, id: int)
    requires !HasId(s, idOf, id)
    ensures Without(s, idOf, id) == s
    decreases |s|
  {
    if s != [] {
      assert idOf(s[0]) != id;
      assert !HasId(s[1..], idOf, id) by {
        forall k | 0 <= k < |s| - 1 ensures idOf(s[1..][k]) != id {
          assert s[1..][k] == s[k + 1];
        }
      }
      WithoutAbsent(s[1..], idOf, id);
    }
  }

  /** Deleting twice is deleting once. */
  lemma WithoutIdempotent<T>(s: seq<T>, idOf: T -> int, id: int)
    ensures Without(Without(s, idOf, id), idOf, id) == Without(s, idOf, id)
  {
    WithoutAbsent(Without(s, idOf, id), idOf, id);
  }

  /** Filtering keeps ids unique: it only drops records. */
  lemma {:induction false} WithoutKeepsUniqueIds<T>(s: seq<T>, idOf: T -> int, id: int)
    requires UniqueIds(s, idOf)
    ensures UniqueIds(Without(s, idOf, id), idOf)
    decreases |s|
  {
    if s != [] {
      WithoutKeepsUniqueIds(s[1..], idOf, id);
      if idOf(s[0]) != id {
        var r := Without(s[1..], idOf, id);
        forall k | 0 <= k < |r| ensures idOf(r[k]) != idOf(s[0]) {
          WithoutCounts(s[1..], idOf, id, r[k]);
          assert r[k] in multiset(r);
          var j :| 0 <= j < |s[1..]| && s[1..][j] == r[k];
          assert s[j + 1] == r[k];
        }
      }
    }
  }

  /**
   * `s[s.findIndex(x => x.id === x'.id)] = x'`: the first record with the id of
   * `x` is replaced by `x`. When no record has that id the source assigns the
   * array's "-1" property, which the JSON text of the array does not hold, so
   * the saved list is `s` unchanged.
   */
  function ReplaceFirst<T>(s: seq<T>, idOf: T -> int, x: T): seq<T> {
    match FirstIndexOf(s, idOf, idOf(x))
    case Some(i) => s[i := x]
    case None => s
  }

  /** Replacement changes only the record at the index `findIndex` reports; length and all other records stay. */
  lemma ReplaceFirstChangesOneRecord<T>(s: seq<T>, idOf: T -> int, x: T)
    ensures |ReplaceFirst(s, idOf, x)| == |s|
    ensures FirstIndexOf(s, idOf, idOf(x)).None? ==> ReplaceFirst(s, idOf, x) == s
    ensures FirstIndexOf(s, idOf, idOf(x)).Some? ==>
              var i := FirstIndexOf(s, idOf, idOf(x)).value;
              ReplaceFirst(s, idOf, x)[i] == x &&
              forall k :: 0 <= k < |s| && k != i ==> ReplaceFirst(s, idOf, x)[k] == s[k]
  {
  }

  /** Replacement keeps the ids position by position, so it keeps them unique. */
  lemma ReplaceFirstKeepsIds<T>(s: seq<T>, idOf: T -> int, x: T)
    ensures SameIds(ReplaceFirst(s, idOf, x), s, idOf)
    ensures UniqueIds(s, idOf) ==> UniqueIds(ReplaceFirst(s, idOf, x), idOf)
  {
  }

  /**
   * Writing back a list read earlier: a record `y` that was in the earlier list
   * and has another id than `x` is in the written list, whether or not it is
   * still in the store.
   */
  lemma ReplaceFirstKeepsOthers<T>(s: seq<T>, idOf: T -> int, x: T, y: T)
    requires y in s && idOf(y) != idOf(x)
    ensures y in ReplaceFirst(s, idOf, x)
  {
    var k :| 0 <= k < |s| && s[k] == y;
    assert ReplaceFirst(s, idOf, x)[k] == y;
  }

  /** Every record of a replacement is `x` or was already in the list. */
  lemma ReplaceFirstAddsOnly<T>(s: seq<T>, idOf: T -> int, x: T, y: T)
    requires y in ReplaceFirst(s, idOf, x)
    ensures y == x || y in s
  {
  }

  /** Appending a record whose id is new keeps ids unique. */
  lemma AppendKeepsUniqueIds<T>(s: seq<T>, idOf: T -> int, x: T)
    requires UniqueIds(s, idOf) && !HasId(s, idOf, idOf(x))
    ensures UniqueIds(s + [x], idOf)
  {
  }

  /** `s.find(x => x.id === id)`: the first record with the id, if any. */
  function FindById<T>(s: seq<T>, idOf: T -> int, id: int): (r: Option<T>)
    ensures r.None? <==> !HasId(s, idOf, id)
    ensures r.Some? ==> r.value == s[FirstIndexOf(s, idOf, id).value] && idOf(r.value) == id
  {
    match FirstIndexOf(s, idOf, id)
    case Some(i) => Some(s[i])
    case None => None
  }

  /**
   * What an edit form keeps between the click on "edit" and the submission:
   * the list as it was loaded at the click, and the record found in it.
   */
  datatype EditSession<T> = EditSession(loaded: seq<T>, record: T)
}
