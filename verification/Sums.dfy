/** Sums of the amounts locked in unresolved swaps. */
module Sums {
  import opened Types

  predicate IsLive(swap: AtomicSwap) {
    swap.status == OPEN || swap.status == EXPIRED
  }

  /** What one swap contributes to a counter of denomination `d`. */
  function Part(swap: AtomicSwap, dir: SwapDirection, d: Denom): int {
    if IsLive(swap) && swap.direction == dir && |swap.amount| == 1 && swap.amount[0].denom == d
    then swap.amount[0].amount else 0
  }

  ghost function SumLive(swaps: map<SwapID, AtomicSwap>, dir: SwapDirection, d: Denom): int
    decreases |swaps|
  {
    if swaps == map[] then 0
    else
      var id :| id in swaps;
      Part(swaps[id], dir, d) + SumLive(swaps - {id}, dir, d)
  }

  /** The sum does not depend on the order in which swaps are taken. */
  lemma {:induction false} SumRemove(swaps: map<SwapID, AtomicSwap>, id: SwapID, dir: SwapDirection, d: Denom)
    requires id in swaps
    ensures SumLive(swaps, dir, d) == Part(swaps[id], dir, d) + SumLive(swaps - {id}, dir, d)
    decreases |swaps|
  {
    var first :| first in swaps && SumLive(swaps, dir, d) == Part(swaps[first], dir, d) + SumLive(swaps - {first}, dir, d);
    if first != id {
      SumRemove(swaps - {first}, id, dir, d);
      SumRemove(swaps - {id}, first, dir, d);
      assert swaps - {first} - {id} == swaps - {id} - {first};
    }
  }

  lemma SumInsert(swaps: map<SwapID, AtomicSwap>, id: SwapID, swap: AtomicSwap, dir: SwapDirection, d: Denom)
    ensures SumLive(swaps[id := swap], dir, d)
            == SumLive(swaps, dir, d) + Part(swap, dir, d) - if id in swaps then Part(swaps[id], dir, d) else 0
  {
    SumRemove(swaps[id := swap], id, dir, d);
    if id in swaps {
      SumRemove(swaps, id, dir, d);
      assert swaps[id := swap] - {id} == swaps - {id};
    } else {
      assert swaps[id := swap] - {id} == swaps;
    }
  }

  /** Changing or dropping swaps without changing any contribution leaves the sum alone. */
  lemma {:induction false} SumSame(before: map<SwapID, AtomicSwap>, after: map<SwapID, AtomicSwap>, dir: SwapDirection, d: Denom)
    requires after.Keys <= before.Keys
    requires forall id | id in before ::
               Part(before[id], dir, d) == if id in after then Part(after[id], dir, d) else 0
    ensures SumLive(before, dir, d) == SumLive(after, dir, d)
    decreases |before|
  {
    if before == map[] {
      assert after == map[];
    } else {
      var id :| id in before;
      SumRemove(before, id, dir, d);
      SumSame(before - {id}, after - {id}, dir, d);
      if id in after {
        SumRemove(after, id, dir, d);
      } else {
        assert after - {id} == after;
      }
    }
  }

  lemma {:induction false} SumNonNegative(swaps: map<SwapID, AtomicSwap>, dir: SwapDirection, d: Denom)
    requires forall id | id in swaps :: Part(swaps[id], dir, d) >= 0
    ensures SumLive(swaps, dir, d) >= 0
    decreases |swaps|
  {
    if swaps != map[] {
      var id :| id in swaps;
      SumRemove(swaps, id, dir, d);
      SumNonNegative(swaps - {id}, dir, d);
    }
  }

  /** The sum covers each of its parts. */
  lemma SumCovers(swaps: map<SwapID, AtomicSwap>, id: SwapID, dir: SwapDirection, d: Denom)
    requires id in swaps
    requires forall j | j in swaps :: Part(swaps[j], dir, d) >= 0
    ensures Part(swaps[id], dir, d) <= SumLive(swaps, dir, d)
  {
    SumRemove(swaps, id, dir, d);
    SumNonNegative(swaps - {id}, dir, d);
  }
}
