/**
 * The stored collection as a sequence of records, and the queries the
 * handlers run over it: `find`, `findIndex` and the next-id rule of POST
 * (index.js). `Ordered` is the invariant that makes that rule hand out
 * fresh ids.
 */
module Collection {
  import opened Wrappers
  import opened Schema

  /** Ids strictly increase from each record to the next. */
  predicate Ordered(s: seq<Mascota>) {
    forall i :: 0 < i < |s| ==> s[i - 1].id < s[i].id
  }

  /** No two records share an id. */
  predicate UniqueIds(s: seq<Mascota>) {
    forall i, j :: 0 <= i < j < |s| ==> s[i].id != s[j].id
  }

  /** `data.findIndex(m => m.id === id)`, with `None` for JavaScript's -1. */
  function FindIndex(s: seq<Mascota>, id: int): (r: Option<nat>)
    ensures r.Some? ==> r.value < |s| && s[r.value].id == id
    ensures r.Some? ==> forall j :: 0 <= j < r.value ==> s[j].id != id
    ensures r.None? <==> forall j :: 0 <= j < |s| ==> s[j].id != id
  {
    if s == [] then None
    else if s[0].id == id then Some(0)
    else match FindIndex(s[1..], id)
      case None => None
      case Some(k) => Some(k + 1)
  }

  /** `data.find(m => m.id === id)`: the first record with that id. */
  function Find(s: seq<Mascota>, id: int): (r: Option<Mascota>)
    ensures r.None? <==> forall j :: 0 <= j < |s| ==> s[j].id != id
    ensures r.Some? ==> r.value.id == id
    ensures r.Some? ==> exists k :: 0 <= k < |s| && s[k] == r.value && forall j :: 0 <= j < k ==> s[j].id != id
  {
    match FindIndex(s, id)
    case None => None
    case Some(k) => Some(s[k])
  }

  /**
   * The id POST assigns: one more than the last record's, or 1 for an
   * empty collection, whatever id the body carried.
   */
  function NextId(s: seq<Mascota>): int {
    if s == [] then 1 else s[|s| - 1].id + 1
  }

  /** On an ordered collection the id POST assigns is held by no record. */
  lemma NextIdIsFresh(s: seq<Mascota>)
    requires Ordered(s)
    ensures forall j :: 0 <= j < |s| ==> s[j].id < NextId(s)
  {
    OrderedIsSorted(s);
  }

  /** `data.splice(k, 1)`: the collection without its `k`-th record. */
  function RemoveAt(s: seq<Mascota>, k: nat): (r: seq<Mascota>)
    requires k < |s|
    ensures |r| == |s| - 1
    ensures forall j :: 0 <= j < k ==> r[j] == s[j]
    ensures forall j :: k <= j < |r| ==> r[j] == s[j + 1]
    ensures multiset(r) + multiset{s[k]} == multiset(s)
  {
    assert s == s[..k] + [s[k]] + s[k + 1..];
    s[..k] + s[k + 1..]
  }

  /** Increasing from neighbour to neighbour means increasing throughout. */
  lemma {:induction false} OrderedIsSorted(s: seq<Mascota>)
    requires Ordered(s)
    ensures forall i, j :: 0 <= i < j < |s| ==> s[i].id < s[j].id
  {
    if |s| > 1 {
      var t := s[..|s| - 1];
      assert Ordered(t);
      OrderedIsSorted(t);
      forall i, j | 0 <= i < j < |s|
        ensures s[i].id < s[j].id
      {
        if j < |s| - 1 {
          assert t[i] == s[i] && t[j] == s[j];
        } else if i < j - 1 {
          assert t[i] == s[i] && t[j - 1] == s[j - 1];
        }
      }
    }
  }

  lemma OrderedIsUnique(s: seq<Mascota>)
    requires Ordered(s)
    ensures UniqueIds(s)
  {
    OrderedIsSorted(s);
  }

  /** Appending the record POST builds keeps the collection ordered. */
  lemma CreateKeepsOrder(s: seq<Mascota>, b: Body)
    requires Ordered(s) && Valid(b)
    ensures Ordered(s + [Stamp(b, NextId(s))])
    ensures UniqueIds(s + [Stamp(b, NextId(s))])
  {
    var t := s + [Stamp(b, NextId(s))];
    assert Ordered(t);
    OrderedIsUnique(t);
  }

  /** Removing any record, as DELETE does, keeps the collection ordered. */
  lemma DeleteKeepsOrder(s: seq<Mascota>, k: nat)
    requires Ordered(s) && k < |s|
    ensures Ordered(RemoveAt(s, k))
  {
    var r := RemoveAt(s, k);
    OrderedIsSorted(s);
    forall i | 0 < i < |r|
      ensures r[i - 1].id < r[i].id
    {
      if i == k {
        assert r[i - 1] == s[i - 1] && r[i] == s[i + 1];
      }
    }
  }

  /**
   * Replacing the `k`-th record, as PUT does, keeps an ordered collection
   * ordered exactly when the new id still lies strictly between the ids
   * of its neighbours.
   */
  lemma ReplaceKeepsOrderIff(s: seq<Mascota>, k: nat, m: Mascota)
    requires Ordered(s) && k < |s|
    ensures Ordered(s[k := m]) <==>
              (k == 0 || s[k - 1].id < m.id) && (k == |s| - 1 || m.id < s[k + 1].id)
  {
    var t := s[k := m];
    if (k == 0 || s[k - 1].id < m.id) && (k == |s| - 1 || m.id < s[k + 1].id) {
      forall i | 0 < i < |t|
        ensures t[i - 1].id < t[i].id
      {
      }
    } else if k > 0 && s[k - 1].id >= m.id {
      assert t[k - 1].id >= t[k].id;
    } else {
      assert t[k].id >= t[k + 1].id;
    }
  }

  /** A PUT whose body carries no id, or the same id, keeps the order. */
  lemma UpdateKeepsOrder(s: seq<Mascota>, k: nat, b: Body)
    requires Ordered(s) && k < |s|
    requires b.id.None? || b.id.value == s[k].id as real
    ensures Ordered(s[k := Merge(s[k], b)])
  {
    ReplaceKeepsOrderIff(s, k, Merge(s[k], b));
  }

  /**
   * After a POST on an ordered collection, looking up the assigned id
   * finds the created record: it is the only one holding that id.
   */
  lemma CreateThenFind(s: seq<Mascota>, b: Body)
    requires Ordered(s) && Valid(b)
    ensures Find(s + [Stamp(b, NextId(s))], NextId(s)) == Some(Stamp(b, NextId(s)))
  {
    var t := s + [Stamp(b, NextId(s))];
    NextIdIsFresh(s);
    assert t[|s|].id == NextId(s);

  }

  /**
   * After a DELETE that found `id` on an ordered collection, the id is
   * gone: a later lookup finds nothing.
   */
  lemma DeleteThenFind(s: seq<Mascota>, id: int)
    requires Ordered(s) && FindIndex(s, id).Some?
    ensures Find(RemoveAt(s, FindIndex(s, id).value), id).None?
  {
    var k := FindIndex(s, id).value;
    var r := RemoveAt(s, k);
    OrderedIsSorted(s);
    forall j | 0 <= j < |r| ensures r[j].id != id {
      if j >= k {
        assert r[j] == s[j + 1];
      }
    }
  }

  /**
   * After a PUT that found `id`, with a body that keeps the id, a lookup of
   * `id` returns the merged record. No ordering is needed: the records
   * before the replaced one did not match and still do not.
   */
  lemma UpdateThenFind(s: seq<Mascota>, id: int, b: Body)
    requires FindIndex(s, id).Some?
    requires b.id.None? || b.id.value == id as real
    ensures Find(s[FindIndex(s, id).value := Merge(s[FindIndex(s, id).value], b)], id)
            == Some(Merge(s[FindIndex(s, id).value], b))
  {
    var k := FindIndex(s, id).value;
    var t := s[k := Merge(s[k], b)];
    assert t[k].id == id;
    assert FindIndex(t, id) == Some(k) by {
      forall j | 0 <= j < k ensures t[j].id != id {
        assert t[j] == s[j];
      }
    }
  }

  /**
   * POST on a collection holding exactly the ids 1, 2, ..., n assigns n + 1,
   * so sequential POSTs on an empty collection assign 1, 2, 3, ...
   */
  lemma CreateOnDenseIds(s: seq<Mascota>, b: Body)
    requires Valid(b)
    requires forall j :: 0 <= j < |s| ==> s[j].id == j + 1
    ensures NextId(s) == |s| + 1
    ensures forall j :: 0 <= j < |s| + 1 ==> (s + [Stamp(b, NextId(s))])[j].id == j + 1
  {
  }

  /**
   * After deleting the last record of an ordered collection of positive
   * ids, the next POST hands out an id no greater than the deleted one: ids
   * stop increasing, and the deleted id itself comes back when the last two
   * ids were consecutive.
   */
  lemma DeleteLastAllowsReuse(s: seq<Mascota>)
    requires Ordered(s) && s != [] && s[0].id > 0
    ensures NextId(RemoveAt(s, |s| - 1)) <= s[|s| - 1].id
  {
    if |s| > 1 {
      assert RemoveAt(s, |s| - 1)[|s| - 2] == s[|s| - 2];
    } else {
      assert RemoveAt(s, 0) == [];
    }
  }
}
