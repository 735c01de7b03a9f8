/** The shopping bag as a list of (item id, quantity) entries, and the two
    list updates that `addToBag` and `removeFromBag` build before handing
    the new list to the state (src/main.ts:20-48). */
module Bag {
  import opened Types
  import opened Filters

  /** Some entry of the bag carries `id` (the truthy `find` of src/main.ts:21). */
  predicate HasId(bag: seq<BagItem>, id: int)
  {
    exists e :: e in bag && e.id == id
  }

  /** The invariant the bag operations keep: ids are pairwise distinct and
      every quantity is at least 1. */
  ghost predicate WellFormed(bag: seq<BagItem>)
  {
    && (forall i, j :: 0 <= i < j < |bag| ==> bag[i].id != bag[j].id)
    && (forall i :: 0 <= i < |bag| ==> bag[i].quantity >= 1)
  }

  /** The quantity of `id` in the bag, 0 when no entry carries it. */
  function Quantity(bag: seq<BagItem>, id: int): int
  {
    if bag == [] then 0
    else if bag[0].id == id then bag[0].quantity
    else Quantity(bag[1..], id)
  }

  /** The set of ids in the bag. */
  function Ids(bag: seq<BagItem>): set<int>
  {
    set e | e in bag :: e.id
  }

  /** The `map` of src/main.ts:24-28: every entry carrying `id` gets one
      more, every other entry is kept as it is. */
  function Incremented(bag: seq<BagItem>, id: int): (r: seq<BagItem>)
    ensures |r| == |bag|
    ensures forall i :: 0 <= i < |bag| ==>
      r[i].id == bag[i].id &&
      r[i].quantity == (if bag[i].id == id then bag[i].quantity + 1 else bag[i].quantity)
  {
    if bag == [] then []
    else
      var e := bag[0];
      [if e.id == id then e.(quantity := e.quantity + 1) else e] + Incremented(bag[1..], id)
  }

  /** The new bag that `addToBag(id)` writes. */
  function AddedBag(bag: seq<BagItem>, id: int): seq<BagItem>
  {
    if HasId(bag, id) then Incremented(bag, id)
    else bag + [BagItem(id, 1)]
  }

  /** The new bag that `removeFromBag(id)` writes: the `filter` of src/main.ts:44. */
  function RemovedBag(bag: seq<BagItem>, id: int): seq<BagItem>
  {
    Filter(bag, (e: BagItem) => e.id != id)
  }

  /** Adding keeps the length when an entry already carries the id and adds
      one entry otherwise; either way the ids become the old ids plus `id`. */
  lemma AddedBagIds(bag: seq<BagItem>, id: int)
    ensures |AddedBag(bag, id)| == if HasId(bag, id) then |bag| else |bag| + 1
    ensures Ids(AddedBag(bag, id)) == Ids(bag) + {id}
  {
    var r := AddedBag(bag, id);
    if HasId(bag, id) {
      forall x | x in Ids(r) ensures x in Ids(bag) {
        var e :| e in r && e.id == x;
        var m :| 0 <= m < |r| && r[m] == e;
        assert bag[m] in bag;
      }
      forall x | x in Ids(bag) ensures x in Ids(r) {
        var e :| e in bag && e.id == x;
        var m :| 0 <= m < |bag| && bag[m] == e;
        assert r[m] in r;
      }
    } else {
      assert forall e :: e in r <==> e in bag || e == BagItem(id, 1);
    }
  }

  /** Removing keeps exactly the entries whose id differs; the ids become
      the old ids minus `id`. */
  lemma RemovedBagIds(bag: seq<BagItem>, id: int)
    ensures forall e :: e in RemovedBag(bag, id) <==> e in bag && e.id != id
    ensures Ids(RemovedBag(bag, id)) == Ids(bag) - {id}
  {
    var r := RemovedBag(bag, id);
    forall x | x in Ids(bag) - {id} ensures x in Ids(r) {
      var e :| e in bag && e.id == x;
      assert e in r;
    }
  }

  /** `HasId` on a non-empty bag looks at the head, then the tail. */
  lemma HasIdUnfold(bag: seq<BagItem>, id: int)
    requires bag != []
    ensures HasId(bag, id) <==> bag[0].id == id || HasId(bag[1..], id)
  {
    assert bag[0] in bag;
    assert forall e :: e in bag <==> e == bag[0] || e in bag[1..];
  }

  /** The tail of a well-formed bag is well formed and does not repeat the
      head's id. */
  lemma WellFormedTail(bag: seq<BagItem>)
    requires WellFormed(bag) && bag != []
    ensures WellFormed(bag[1..]) && !HasId(bag[1..], bag[0].id)
  {
    var tail := bag[1..];
    forall m | 0 <= m < |tail| ensures tail[m].id != bag[0].id {
      assert tail[m] == bag[m + 1];
    }
  }

  /** When an entry with `id` exists, adding bumps that one entry by exactly
      one and leaves the length, the order and every other entry alone. */
  lemma AddExisting(bag: seq<BagItem>, id: int, k: int)
    requires WellFormed(bag)
    requires 0 <= k < |bag| && bag[k].id == id
    ensures AddedBag(bag, id) == bag[k := BagItem(id, bag[k].quantity + 1)]
  {
    assert bag[k] in bag;
    var r := AddedBag(bag, id);
    assert |r| == |bag|;
    forall i | 0 <= i < |bag|
      ensures r[i] == bag[k := BagItem(id, bag[k].quantity + 1)][i]
    {
      if i != k {
        assert bag[i].id != id;
      }
    }
  }

  /** When no entry has `id`, adding appends `{id, quantity: 1}` at the end
      and keeps every earlier entry. */
  lemma AddNew(bag: seq<BagItem>, id: int)
    requires !HasId(bag, id)
    ensures |AddedBag(bag, id)| == |bag| + 1
    ensures AddedBag(bag, id)[..|bag|] == bag
    ensures AddedBag(bag, id)[|bag|] == BagItem(id, 1)
  {
  }

  /** Adding keeps ids distinct and quantities positive. */
  lemma AddPreservesWellFormed(bag: seq<BagItem>, id: int)
    requires WellFormed(bag)
    ensures WellFormed(AddedBag(bag, id))
  {
    if !HasId(bag, id) {
      var r := AddedBag(bag, id);
      forall i, j | 0 <= i < j < |r| ensures r[i].id != r[j].id {
        if j == |bag| {
          assert r[i] == bag[i] && bag[i] in bag;
        }
      }
    }
  }

  /** Removing keeps ids distinct and quantities positive. */
  lemma {:induction false} RemovePreservesWellFormed(bag: seq<BagItem>, id: int)
    requires WellFormed(bag)
    ensures WellFormed(RemovedBag(bag, id))
  {
    if bag != [] {
      var tail := bag[1..];
      assert WellFormed(tail);
      RemovePreservesWellFormed(tail, id);
      var rt := RemovedBag(tail, id);
      if bag[0].id != id {
        var r := [bag[0]] + rt;
        assert RemovedBag(bag, id) == r;
        forall j | 0 < j < |r| ensures r[0].id != r[j].id {
          assert r[j] in rt;
          assert r[j] in tail;
          var m :| 0 <= m < |tail| && tail[m] == r[j];
          assert bag[m + 1] == r[j];
        }
      }
    }
  }

  /** After a removal no entry carries the id, and every other id keeps its
      quantity: the entry is deleted outright, not decremented. */
  lemma {:induction false} RemoveDeletes(bag: seq<BagItem>, id: int, other: int)
    requires other != id
    ensures !HasId(RemovedBag(bag, id), id)
    ensures Quantity(RemovedBag(bag, id), id) == 0
    ensures Quantity(RemovedBag(bag, id), other) == Quantity(bag, other)
  {
    if bag != [] {
      RemoveDeletes(bag[1..], id, other);
    } else {
      assert RemovedBag(bag, id) == [];
    }
    NoIdNoQuantity(RemovedBag(bag, id), id);
  }

  /** A bag without `id` holds 0 of it. */
  lemma {:induction false} NoIdNoQuantity(bag: seq<BagItem>, id: int)
    requires !HasId(bag, id)
    ensures Quantity(bag, id) == 0
  {
    if bag != [] {
      assert bag[0] in bag;
      assert forall e :: e in bag[1..] ==> e in bag;
      NoIdNoQuantity(bag[1..], id);
    }
  }

  /** Removal keeps the remaining entries in their original order. */
  lemma RemoveKeepsOrder(bag: seq<BagItem>, id: int)
    ensures IsSubsequence(RemovedBag(bag, id), bag)
  {
    FilterIsSubsequence(bag, (e: BagItem) => e.id != id);
  }

  /** Removing twice is removing once. */
  lemma RemoveIdempotent(bag: seq<BagItem>, id: int)
    ensures RemovedBag(RemovedBag(bag, id), id) == RemovedBag(bag, id)
  {
    FilterKeepsAll(RemovedBag(bag, id), (e: BagItem) => e.id != id);
  }

  /** Whatever the quantity was, removing then adding leaves exactly one. */
  lemma RemoveThenAdd(bag: seq<BagItem>, id: int)
    ensures Quantity(AddedBag(RemovedBag(bag, id), id), id) == 1
  {
    RemoveDeletes(bag, id, id + 1);
    var r := RemovedBag(bag, id);
    AppendQuantity(r, BagItem(id, 1), id);
  }

  /** The quantity of `id` after appending an entry to a bag without `id`. */
  lemma {:induction false} AppendQuantity(bag: seq<BagItem>, e: BagItem, id: int)
    requires !HasId(bag, id)
    ensures Quantity(bag + [e], id) == if e.id == id then e.quantity else 0
  {
    if bag == [] {
      assert [] + [e] == [e];
    } else {
      assert bag[0] in bag;
      assert (bag + [e])[1..] == bag[1..] + [e];
      assert forall x :: x in bag[1..] ==> x in bag;
      AppendQuantity(bag[1..], e, id);
    }
  }

  /** Adding `id` raises its quantity by exactly one and leaves every other
      id's quantity alone. */
  lemma AddQuantity(bag: seq<BagItem>, id: int, other: int)
    requires other != id
    ensures Quantity(AddedBag(bag, id), id) == Quantity(bag, id) + 1
    ensures Quantity(AddedBag(bag, id), other) == Quantity(bag, other)
  {
    if HasId(bag, id) {
      IncrementedQuantity(bag, id, id);
      IncrementedQuantity(bag, id, other);
    } else {
      NoIdNoQuantity(bag, id);
      AppendQuantity(bag, BagItem(id, 1), id);
      AppendOther(bag, BagItem(id, 1), other);
    }
  }

  /** Appending an entry for another id does not change `other`'s quantity. */
  lemma {:induction false} AppendOther(bag: seq<BagItem>, e: BagItem, other: int)
    requires e.id != other
    ensures Quantity(bag + [e], other) == Quantity(bag, other)
  {
    if bag == [] {
      assert [] + [e] == [e];
    } else {
      assert (bag + [e])[1..] == bag[1..] + [e];
      AppendOther(bag[1..], e, other);
    }
  }

  /** The quantity of each id after the increment of `id`. */
  lemma {:induction false} IncrementedQuantity(bag: seq<BagItem>, id: int, x: int)
    ensures Quantity(Incremented(bag, id), x) == Quantity(bag, x) + (if x == id && HasId(bag, id) then 1 else 0)
  {
    if bag != [] {
      var r := Incremented(bag, id);
      assert r[1..] == Incremented(bag[1..], id);
      IncrementedQuantity(bag[1..], id, x);
      if bag[0].id != id {
        assert HasId(bag, id) == HasId(bag[1..], id) by {
          assert forall e :: e in bag <==> e == bag[0] || e in bag[1..];
        }
      } else {
        assert bag[0] in bag;
      }
    }
  }

  /** `k` consecutive additions of the same id. */
  function AddedTimes(bag: seq<BagItem>, id: int, k: nat): seq<BagItem>
  {
    if k == 0 then bag else AddedBag(AddedTimes(bag, id, k - 1), id)
  }

  /** k adds of an id with no remove in between raise its quantity by k, so
      from an empty bag the quantity is k. */
  lemma {:induction false} AddedTimesQuantity(bag: seq<BagItem>, id: int, k: nat)
    requires WellFormed(bag)
    ensures WellFormed(AddedTimes(bag, id, k))
    ensures Quantity(AddedTimes(bag, id, k), id) == Quantity(bag, id) + k
  {
    if k > 0 {
      AddedTimesQuantity(bag, id, k - 1);
      AddPreservesWellFormed(AddedTimes(bag, id, k - 1), id);
      AddQuantity(AddedTimes(bag, id, k - 1), id, id + 1);
    }
  }

  /** The header's bag count (`state.bag.length`) is the number of distinct
      ids in a well-formed bag. */
  lemma {:induction false} CountIsDistinctIds(bag: seq<BagItem>)
    requires WellFormed(bag)
    ensures |bag| == |Ids(bag)|
  {
    if bag != [] {
      var tail := bag[1..];
      assert WellFormed(tail);
      CountIsDistinctIds(tail);
      assert Ids(bag) == {bag[0].id} + Ids(tail) by {
        assert forall e :: e in bag <==> e == bag[0] || e in tail;
      }
      assert bag[0].id !in Ids(tail) by {
        forall m | 0 <= m < |tail| ensures tail[m].id != bag[0].id {
          assert tail[m] == bag[m + 1];
        }
      }
    }
  }

  /** A bag operation as the UI issues it. */
  datatype BagOp = Add(id: int) | Remove(id: int)

  /** The bag after running the operations in order. */
  function Run(bag: seq<BagItem>, ops: seq<BagOp>): seq<BagItem>
    decreases |ops|
  {
    if ops == [] then bag
    else
      var next := match ops[0]
        case Add(id) => AddedBag(bag, id)
        case Remove(id) => RemovedBag(bag, id);
      Run(next, ops[1..])
  }

  /** Any run of adds and removes from a well-formed bag (the empty one in
      particular) keeps ids pairwise distinct and quantities at least 1. */
  lemma {:induction false} RunPreservesWellFormed(bag: seq<BagItem>, ops: seq<BagOp>)
    requires WellFormed(bag)
    ensures WellFormed(Run(bag, ops))
    decreases |ops|
  {
    if ops != [] {
      match ops[0]
      case Add(id) =>
        AddPreservesWellFormed(bag, id);
        RunPreservesWellFormed(AddedBag(bag, id), ops[1..]);
      case Remove(id) =>
        RemovePreservesWellFormed(bag, id);
        RunPreservesWellFormed(RemovedBag(bag, id), ops[1..]);
    }
  }

  /** The number of adds of `id` among the operations. */
  function AddCount(ops: seq<BagOp>, id: int): nat
  {
    if ops == [] then 0
    else (if ops[0] == Add(id) then 1 else 0) + AddCount(ops[1..], id)
  }

  /** In any run with no remove of `id`, however the adds of `id` are
      interleaved with operations on other ids, the quantity of `id` grows
      by exactly the number of its adds. */
  lemma {:induction false} RunQuantity(bag: seq<BagItem>, ops: seq<BagOp>, id: int)
    requires forall j :: 0 <= j < |ops| ==> ops[j] != Remove(id)
    ensures Quantity(Run(bag, ops), id) == Quantity(bag, id) + AddCount(ops, id)
    decreases |ops|
  {
    if ops != [] {
      match ops[0]
      case Add(x) =>
        if x == id {
          AddQuantity(bag, id, id + 1);
        } else {
          AddQuantity(bag, x, id);
        }
        RunQuantity(AddedBag(bag, x), ops[1..], id);
      case Remove(x) =>
        RemoveDeletes(bag, x, id);
        RunQuantity(RemovedBag(bag, x), ops[1..], id);
    }
  }

  /** add(5), add(5), remove(5) from an empty bag leaves it empty: the entry
      is removed, not decremented to zero. */
  lemma AddAddRemoveExample()
    ensures Run([], [Add(5), Add(5), Remove(5)]) == []
  {
    var b1 := AddedBag([], 5);
    assert !HasId([], 5);
    assert b1 == [BagItem(5, 1)];
    assert BagItem(5, 1) in b1;
    var b2 := AddedBag(b1, 5);
    assert b2 == [BagItem(5, 2)];
    assert RemovedBag(b2, 5) == [];
  }
}
