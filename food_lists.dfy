/** The new lists the dashboard computes: the spread-append after a create,
    the map that swaps in an updated record, and the filter after a delete. */
module FoodLists {
  import opened FoodModel

  /** The ids of a list, in list order. */
  function Ids(foods: seq<Food>): (ids: seq<int>)
    ensures |ids| == |foods|
    ensures forall i :: 0 <= i < |foods| ==> ids[i] == foods[i].id
  {
    if foods == [] then [] else [foods[0].id] + Ids(foods[1..])
  }

  /** Some entry carries the id. */
  predicate HasId(foods: seq<Food>, id: int) {
    exists i :: 0 <= i < |foods| && foods[i].id == id
  }

  /** No two entries share an id (the list is rendered keyed by id). */
  predicate UniqueIds(foods: seq<Food>) {
    forall i, j :: 0 <= i < j < |foods| ==> foods[i].id != foods[j].id
  }

  /** `[...foods, food]`: the old list is kept as a prefix and the new record comes last. */
  function Appended(foods: seq<Food>, food: Food): (r: seq<Food>)
    ensures |r| == |foods| + 1
    ensures r[..|foods|] == foods
    ensures r[|foods|] == food
  {
    foods + [food]
  }

  /** `foods.map(f => f.id !== updated.id ? f : updated)`. */
  function ReplaceById(foods: seq<Food>, updated: Food): (r: seq<Food>)
    ensures |r| == |foods|
    ensures forall i :: 0 <= i < |foods| && foods[i].id != updated.id ==> r[i] == foods[i]
    ensures forall i :: 0 <= i < |foods| && foods[i].id == updated.id ==> r[i] == updated
  {
    if foods == [] then []
    else [if foods[0].id != updated.id then foods[0] else updated] + ReplaceById(foods[1..], updated)
  }

  /** `foods.filter(food => food.id !== id)`. */
  function RemoveById(foods: seq<Food>, id: int): (r: seq<Food>)
    ensures |r| <= |foods|
    ensures forall f :: f in r <==> f in foods && f.id != id
  {
    if foods == [] then []
    else if foods[0].id != id then [foods[0]] + RemoveById(foods[1..], id)
    else RemoveById(foods[1..], id)
  }

  // ---------------------------------------------------------------------------
  // Replacing by id

  /** Replacing never changes which id sits at which position. */
  lemma ReplaceKeepsIds(foods: seq<Food>, updated: Food)
    ensures Ids(ReplaceById(foods, updated)) == Ids(foods)
  {
  }

  /** A record whose id is not in the list changes nothing. */
  lemma ReplaceAbsentIsIdentity(foods: seq<Food>, updated: Food)
    requires !HasId(foods, updated.id)
    ensures ReplaceById(foods, updated) == foods
  {
  }

  /** Swapping in the same record twice is swapping it in once. */
  lemma ReplaceIdempotent(foods: seq<Food>, updated: Food)
    ensures ReplaceById(ReplaceById(foods, updated), updated) == ReplaceById(foods, updated)
  {
  }

  /** After the swap the returned record is in the list exactly when its id was,
      and every entry is either an old entry or the returned record. */
  lemma ReplaceContents(foods: seq<Food>, updated: Food)
    ensures updated in ReplaceById(foods, updated) <==> HasId(foods, updated.id)
    ensures forall f :: f in ReplaceById(foods, updated) ==> f in foods || f == updated
  {
    var r := ReplaceById(foods, updated);
    if HasId(foods, updated.id) {
      var i :| 0 <= i < |foods| && foods[i].id == updated.id;
      assert r[i] == updated;
    }
    if updated in r {
      var i :| 0 <= i < |r| && r[i] == updated;
      assert foods[i].id == updated.id;
    }
    forall f | f in r ensures f in foods || f == updated {
      var i :| 0 <= i < |r| && r[i] == f;
      assert foods[i].id == updated.id || r[i] == foods[i];
    }
  }

  /** Replacing keeps the ids unique. */
  lemma ReplaceKeepsUnique(foods: seq<Food>, updated: Food)
    requires UniqueIds(foods)
    ensures UniqueIds(ReplaceById(foods, updated))
  {
    ReplaceKeepsIds(foods, updated);
    var r := ReplaceById(foods, updated);
    forall i, j | 0 <= i < j < |r| ensures r[i].id != r[j].id {
      assert Ids(r)[i] == Ids(foods)[i] && Ids(r)[j] == Ids(foods)[j];
    }
  }

  // ---------------------------------------------------------------------------
  // Removing by id

  /** Positions shifted one place to the right. */
  function Shifted(ps: seq<int>): seq<int>
  {
    seq(|ps|, k requires 0 <= k < |ps| => ps[k] + 1)
  }

  /** The positions of the entries whose id differs, in increasing order. */
  function Survivors(foods: seq<Food>, id: int): (ps: seq<int>)
    ensures forall k :: 0 <= k < |ps| ==> 0 <= ps[k] < |foods|
  {
    if foods == [] then []
    else (if foods[0].id != id then [0] else []) + Shifted(Survivors(foods[1..], id))
  }

  /** The positions strictly increase. */
  lemma {:induction false} SurvivorsIncrease(foods: seq<Food>, id: int)
    ensures forall k, l :: 0 <= k < l < |Survivors(foods, id)| ==>
              Survivors(foods, id)[k] < Survivors(foods, id)[l]
  {
    if foods != [] {
      SurvivorsIncrease(foods[1..], id);
      var pt := Survivors(foods[1..], id);
      var h := if foods[0].id != id then 1 else 0;
      var ps := Survivors(foods, id);
      forall k, l | 0 <= k < l < |ps| ensures ps[k] < ps[l] {
        assert ps[l] == pt[l - h] + 1;
        if k >= h {
          assert ps[k] == pt[k - h] + 1;
        }
      }
    }
  }

  /** A position is in the shifted positions exactly when its predecessor was. */
  lemma ShiftedHas(ps: seq<int>, x: int)
    ensures x in Shifted(ps) <==> x - 1 in ps
  {
    if x - 1 in ps {
      var k :| 0 <= k < |ps| && ps[k] == x - 1;
      assert Shifted(ps)[k] == x;
    }
  }

  /** A position is picked if and only if its entry's id differs. */
  lemma {:induction false} SurvivorAt(foods: seq<Food>, id: int, i: int)
    requires 0 <= i < |foods|
    ensures foods[i].id != id <==> i in Survivors(foods, id)
  {
    var tail := foods[1..];
    var pt := Survivors(tail, id);
    var head: seq<int> := if foods[0].id != id then [0] else [];
    assert Survivors(foods, id) == head + Shifted(pt);
    ShiftedHas(pt, i);
    if i > 0 {
      SurvivorAt(tail, id, i - 1);
      assert foods[i] == tail[i - 1];
    }
  }

  lemma SurvivorsExactly(foods: seq<Food>, id: int)
    ensures forall i :: 0 <= i < |foods| ==> (foods[i].id != id <==> i in Survivors(foods, id))
  {
    forall i | 0 <= i < |foods| ensures foods[i].id != id <==> i in Survivors(foods, id) {
      SurvivorAt(foods, id, i);
    }
  }

  /** As many positions are picked as entries survive the filter. */
  lemma {:induction false} SurvivorsCount(foods: seq<Food>, id: int)
    ensures |Survivors(foods, id)| == |RemoveById(foods, id)|
  {
    if foods != [] {
      SurvivorsCount(foods[1..], id);
    }
  }

  /** The k-th surviving entry is the entry at the k-th picked position. */
  lemma {:induction false} SurvivorPicksAt(foods: seq<Food>, id: int, k: int)
    requires 0 <= k < |Survivors(foods, id)|
    ensures k < |RemoveById(foods, id)| && RemoveById(foods, id)[k] == foods[Survivors(foods, id)[k]]
  {
    SurvivorsCount(foods, id);
    var tail := foods[1..];
    var pt, rt := Survivors(tail, id), RemoveById(tail, id);
    var h := if foods[0].id != id then 1 else 0;
    if k >= h {
      SurvivorsCount(tail, id);
      SurvivorPicksAt(tail, id, k - h);
      assert Survivors(foods, id)[k] == pt[k - h] + 1;
      assert RemoveById(foods, id)[k] == rt[k - h];
    }
  }

  /** The filtered list holds, one for one, the entries at the picked positions. */
  lemma SurvivorsPick(foods: seq<Food>, id: int)
    ensures |Survivors(foods, id)| == |RemoveById(foods, id)|
    ensures forall k :: 0 <= k < |Survivors(foods, id)| ==>
              RemoveById(foods, id)[k] == foods[Survivors(foods, id)[k]]
  {
    SurvivorsCount(foods, id);
    forall k | 0 <= k < |Survivors(foods, id)|
      ensures RemoveById(foods, id)[k] == foods[Survivors(foods, id)[k]]
    {
      SurvivorPicksAt(foods, id, k);
    }
  }

  /** The filtered list is the subsequence of exactly those entries whose id
      differs: it picks them at strictly increasing positions, and a position is
      picked if and only if its entry's id differs. */
  lemma RemoveIsSubsequence(foods: seq<Food>, id: int)
    ensures |Survivors(foods, id)| == |RemoveById(foods, id)|
    ensures forall k :: 0 <= k < |Survivors(foods, id)| ==>
              RemoveById(foods, id)[k] == foods[Survivors(foods, id)[k]]
    ensures forall k, l :: 0 <= k < l < |Survivors(foods, id)| ==>
              Survivors(foods, id)[k] < Survivors(foods, id)[l]
    ensures forall i :: 0 <= i < |foods| ==> (foods[i].id != id <==> i in Survivors(foods, id))
  {
    SurvivorsPick(foods, id);
    SurvivorsIncrease(foods, id);
    SurvivorsExactly(foods, id);
  }

  /** Filtering counts entries exactly: every entry with the id is gone, every
      other entry survives as often as it occurred. */
  lemma {:induction false} RemoveCounts(foods: seq<Food>, id: int)
    ensures forall f :: multiset(RemoveById(foods, id))[f] == if f.id == id then 0 else multiset(foods)[f]
  {
    if foods != [] {
      RemoveCounts(foods[1..], id);
      assert foods == [foods[0]] + foods[1..];
    }
  }

  /** Filtering distributes over concatenation: relative order is kept. */
  lemma {:induction false} RemoveConcat(a: seq<Food>, b: seq<Food>, id: int)
    ensures RemoveById(a + b, id) == RemoveById(a, id) + RemoveById(b, id)
  {
    if a == [] {
      assert a + b == b;
    } else {
      assert (a + b)[0] == a[0];
      assert (a + b)[1..] == a[1..] + b;
      RemoveConcat(a[1..], b, id);
      if a[0].id != id {
        assert RemoveById(a + b, id) == [a[0]] + (RemoveById(a[1..], id) + RemoveById(b, id));
      }
    }
  }

  /** A list that does not hold the id is left as it is. */
  lemma {:induction false} RemoveAbsentIsIdentity(foods: seq<Food>, id: int)
    requires !HasId(foods, id)
    ensures RemoveById(foods, id) == foods
  {
    if foods != [] {
      RemoveAbsentIsIdentity(foods[1..], id);
    }
  }

  /** Deleting twice is deleting once. */
  lemma RemoveIdempotent(foods: seq<Food>, id: int)
    ensures RemoveById(RemoveById(foods, id), id) == RemoveById(foods, id)
  {
    RemoveAbsentIsIdentity(RemoveById(foods, id), id);
  }

  /** With unique ids a delete removes one entry when the id is present, none otherwise. */
  lemma {:induction false} RemoveUniqueLength(foods: seq<Food>, id: int)
    requires UniqueIds(foods)
    ensures |RemoveById(foods, id)| == if HasId(foods, id) then |foods| - 1 else |foods|
  {
    if foods == [] {
    } else {
      var tail := foods[1..];
      assert UniqueIds(tail) by {
        forall i, j | 0 <= i < j < |tail| ensures tail[i].id != tail[j].id {
          assert tail[i] == foods[i + 1] && tail[j] == foods[j + 1];
        }
      }
      RemoveUniqueLength(tail, id);
      if foods[0].id == id {
        assert !HasId(tail, id);
      } else {
        assert HasId(foods, id) <==> HasId(tail, id) by {
          if HasId(foods, id) {
            var i :| 0 <= i < |foods| && foods[i].id == id;
            assert tail[i - 1].id == id;
          }
          if HasId(tail, id) {
            var i :| 0 <= i < |tail| && tail[i].id == id;
            assert foods[i + 1].id == id;
          }
        }
      }
    }
  }

  /** Filtering keeps the ids unique. */
  lemma RemoveKeepsUnique(foods: seq<Food>, id: int)
    requires UniqueIds(foods)
    ensures UniqueIds(RemoveById(foods, id))
  {
    RemoveIsSubsequence(foods, id);
    var r, ps := RemoveById(foods, id), Survivors(foods, id);
    forall i, j | 0 <= i < j < |r| ensures r[i].id != r[j].id {
      assert ps[i] < ps[j];
      assert r[i] == foods[ps[i]] && r[j] == foods[ps[j]];
    }
  }

  // ---------------------------------------------------------------------------
  // Appending, and how it meets the other two

  /** A created record whose id is new keeps the ids unique. */
  lemma AppendFreshKeepsUnique(foods: seq<Food>, food: Food)
    requires UniqueIds(foods) && !HasId(foods, food.id)
    ensures UniqueIds(Appended(foods, food))
  {
    var r := Appended(foods, food);
    forall i, j | 0 <= i < j < |r| ensures r[i].id != r[j].id {
      if j == |foods| {
        assert r[i] == foods[i];
      } else {
        assert r[i] == foods[i] && r[j] == foods[j];
      }
    }
  }

  /** Deleting the id of an appended record undoes the append on whatever the old
      list held under other ids; when the id was new, the old list comes back exactly. */
  lemma RemoveUndoesAppend(foods: seq<Food>, food: Food)
    ensures RemoveById(Appended(foods, food), food.id) == RemoveById(foods, food.id)
    ensures !HasId(foods, food.id) ==> RemoveById(Appended(foods, food), food.id) == foods
  {
    RemoveConcat(foods, [food], food.id);
    assert RemoveById([food], food.id) == [];
    if !HasId(foods, food.id) {
      RemoveAbsentIsIdentity(foods, food.id);
    }
  }

  /** Deleting an id after swapping in a record under that id is deleting it directly. */
  lemma {:induction false} RemoveAfterReplace(foods: seq<Food>, updated: Food)
    ensures RemoveById(ReplaceById(foods, updated), updated.id) == RemoveById(foods, updated.id)
  {
    if foods != [] {
      RemoveAfterReplace(foods[1..], updated);
      assert ReplaceById(foods, updated)[1..] == ReplaceById(foods[1..], updated);
    }
  }
}
