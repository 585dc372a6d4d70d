/**
  Position management shared by lists (ordered within a board) and tasks
  (ordered within a list): the next-position rule used when an item is
  created or moved without an explicit position, and the validation and
  index assignment behind the two reorder handlers.
 */
module Positions {
  import opened Kanban
  import opened Sets

  /** `p` is one past the greatest of the sibling positions, or 0 when
      there are none. */
  predicate AfterAll(p: int, siblings: set<int>)
  {
    && (siblings == {} ==> p == 0)
    && (siblings != {} ==> p - 1 in siblings)
    && (forall q :: q in siblings ==> q < p)
  }

  /** At most one position is one past all the siblings. */
  lemma AfterAllUnique(p: int, p': int, siblings: set<int>)
    requires AfterAll(p, siblings) && AfterAll(p', siblings)
    ensures p == p'
  {
    if siblings != {} {
      assert p' - 1 < p && p - 1 < p';
    }
  }

  /** The position a new or moved item receives when none is given. */
  function NextPosition(siblings: set<int>): (r: int)
    ensures AfterAll(r, siblings)
  {
    if siblings == {} then 0 else Max(siblings) + 1
  }

  /** The number of rows `WHERE id IN ids AND parent = P` returns, where
      `children` are the ids of P's children: every child named at least once
      is one row, however often it is named. */
  function MatchCount(ids: seq<Id>, children: set<Id>): nat
  {
    |Elems(ids) * children|
  }

  /** What the reorder count check is meant to accept: every id is a child
      of the parent and none is named twice. */
  predicate ValidOrder(ids: seq<Id>, children: set<Id>)
  {
    Distinct(ids) && forall i :: 0 <= i < |ids| ==> ids[i] in children
  }

  /** The same check where nothing is ordered: the ids name distinct
      existing rows (the tag and user checks of the task handlers). */
  predicate ValidIds(ids: seq<Id>, existing: set<Id>)
  {
    ValidOrder(ids, existing)
  }

  /** The count check is exact: the query returns as many rows as there are
      ids precisely when the ids are distinct children of the parent. */
  lemma MatchCountExact(ids: seq<Id>, children: set<Id>)
    ensures MatchCount(ids, children) == |ids| <==> ValidOrder(ids, children)
  {
    var e := Elems(ids);
    ElemsCard(ids);
    SubsetCard(e * children, e);
    if MatchCount(ids, children) == |ids| {
      SubsetCardEq(e * children, e);
      forall i | 0 <= i < |ids|
        ensures ids[i] in children
      {
        assert ids[i] in e;
      }
    }
    if ValidOrder(ids, children) {
      assert e * children == e;
    }
  }

  /** The first index at which `x` occurs in `ids`. */
  function IndexOf(ids: seq<Id>, x: Id): (k: nat)
    requires x in ids
    ensures k < |ids| && ids[k] == x
    ensures forall j :: 0 <= j < k ==> ids[j] != x
  {
    if ids[0] == x then 0 else 1 + IndexOf(ids[1..], x)
  }

  /** In a sequence without repetitions, the index found for the element at
      position `i` is `i`. */
  lemma IndexOfDistinct(ids: seq<Id>, i: int)
    requires Distinct(ids)
    requires 0 <= i < |ids|
    ensures IndexOf(ids, ids[i]) == i
  {
  }
}
