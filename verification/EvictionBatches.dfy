/** Where the eviction loop stops, as arithmetic on the bytes reclaimed after
    0, 1, 2, ... evictions (src/lint/history.rs:309-350). */
module EvictionBatches {
  import opened Common

  /** A twentieth of the limit, and at least one byte. */
  function BatchBytes(limit: nat): (batch: nat)
    ensures 1 <= batch <= limit + 1
  {
    if limit / 20 >= 1 then limit / 20 else 1
  }

  /** How many whole batches an amount fills. */
  ghost function Batches(amount: nat, batch: nat): nat
    requires batch >= 1
  {
    if amount < batch then 0 else 1 + Batches(amount - batch, batch)
  }

  /** The next multiple of the batch strictly above an amount. */
  ghost function Boundary(amount: nat, batch: nat): nat
    requires batch >= 1
  {
    if amount < batch then batch else batch + Boundary(amount - batch, batch)
  }

  /** A prune that has to free `excess` bytes may stop after `k` evictions: it has freed
      them, and it has crossed a batch boundary above every amount that was not enough. */
  ghost predicate MayStop(amounts: seq<nat>, excess: nat, batch: nat, k: nat)
    requires batch >= 1 && k < |amounts|
  {
    && excess <= amounts[k]
    && forall i :: 0 <= i <= k && amounts[i] < excess ==> Batches(amounts[i], batch) < Batches(amounts[k], batch)
  }

  /** How many runs a prune evicts: the fewest after which it may stop, or all. */
  ghost predicate EvictionCount(amounts: seq<nat>, excess: nat, batch: nat, count: nat)
    requires batch >= 1
  {
    && count < |amounts|
    && (count < |amounts| - 1 ==> MayStop(amounts, excess, batch, count))
    && forall k :: 0 <= k < count ==> !MayStop(amounts, excess, batch, k)
  }

  lemma {:induction false} BatchBoundary(amount: nat, above: nat, batch: nat)
    requires batch >= 1
    ensures Boundary(amount, batch) <= above <==> Batches(amount, batch) < Batches(above, batch)
    ensures amount < Boundary(amount, batch) <= amount + batch
    ensures amount <= above ==> Batches(amount, batch) <= Batches(above, batch)
    ensures Batches(amount, batch) == Batches(above, batch) ==> Boundary(amount, batch) == Boundary(above, batch)
    ensures Batches(amount, batch) <= amount
    decreases amount
  {
    if amount >= batch {
      BatchBoundary(amount - batch, if above >= batch then above - batch else 0, batch);
    }
  }

  lemma QuotientStep(amount: nat, batch: nat)
    requires batch >= 1 && amount >= batch
    ensures (amount - batch) / batch == amount / batch - 1
  {
    var q, r := (amount - batch) / batch, (amount - batch) % batch;
    assert amount == (q + 1) * batch + r;
    QuotientIs(amount, batch, q + 1, r);
  }

  lemma MultiplesApart(q: int, p: int, batch: nat)
    requires q < p
    ensures q * batch + batch <= p * batch
  {
    assert p * batch == (q + 1) * batch + (p - q - 1) * batch;
  }

  lemma QuotientIs(amount: nat, batch: nat, q: nat, r: nat)
    requires batch >= 1 && r < batch && amount == q * batch + r
    ensures amount / batch == q
  {
    var p := amount / batch;
    assert p * batch <= amount < p * batch + batch;
    if p < q {
      MultiplesApart(p, q, batch);
    } else if q < p {
      MultiplesApart(q, p, batch);
    }
  }

  /** The quotient the loop computes is the number of whole batches. */
  lemma {:induction false} BatchesAreQuotient(amount: nat, batch: nat)
    requires batch >= 1
    ensures Batches(amount, batch) == amount / batch
    ensures Boundary(amount, batch) == (amount / batch + 1) * batch
    decreases amount
  {
    if amount < batch {
      QuotientIs(amount, batch, 0, amount);
    } else {
      BatchesAreQuotient(amount - batch, batch);
      QuotientStep(amount, batch);
    }
  }

  /** The saturating arithmetic the loop moves its target with. */
  function AdvanceTarget(reclaimed: nat, batch: nat): nat
    requires batch >= 1
  {
    SaturatingMul(SaturatingAdd(reclaimed / batch, 1), batch)
  }

  lemma AdvanceTargetExact(reclaimed: nat, batch: nat)
    requires batch >= 1 && reclaimed + batch <= U64_MAX
    ensures AdvanceTarget(reclaimed, batch) == Boundary(reclaimed, batch)
  {
    BatchesAreQuotient(reclaimed, batch);
    BatchBoundary(reclaimed, reclaimed, batch);
  }

  /** Beyond 64 bits the target stops at the greatest number there is. */
  lemma AdvanceTargetSaturates(reclaimed: nat, batch: nat)
    requires batch >= 1 && reclaimed <= 0xFFFF_FFFF_FFFF_FFFF
    ensures var boundary := Boundary(reclaimed, batch);
            AdvanceTarget(reclaimed, batch)
            == if boundary <= 0xFFFF_FFFF_FFFF_FFFF then boundary else 0xFFFF_FFFF_FFFF_FFFF
  {
    BatchesAreQuotient(reclaimed, batch);
    BatchBoundary(reclaimed, reclaimed, batch);
    if batch >= 2 {
      BatchesAtMost(reclaimed, batch);
    } else {
      assert reclaimed / batch == reclaimed;
    }
  }

  lemma BatchesAtMost(reclaimed: nat, batch: nat)
    requires batch >= 2
    ensures 2 * (reclaimed / batch) <= reclaimed
  {
    var q := reclaimed / batch;
    assert q * batch <= reclaimed;
    assert 2 * q <= q * batch;
  }

  /** Before the last eviction less than one batch too much had been reclaimed, so
      batching over-evicts by less than one batch and one run. */
  lemma EvictionOvershoot(amounts: seq<nat>, excess: nat, batch: nat, count: nat)
    requires batch >= 1 && 0 < excess && 0 < count
    requires EvictionCount(amounts, excess, batch, count)
    ensures amounts[count - 1] < excess + batch
  {
    var k := count - 1;
    assert !MayStop(amounts, excess, batch, k);
    if excess <= amounts[k] {
      var i :| 0 <= i <= k && amounts[i] < excess && Batches(amounts[i], batch) >= Batches(amounts[k], batch);
      BatchBoundary(amounts[i], amounts[k], batch);
    }
  }

  /** A prune that stops before evicting everything has freed the excess and a whole batch. */
  lemma StoppedAboveBatch(amounts: seq<nat>, excess: nat, batch: nat, count: nat)
    requires batch >= 1 && 0 < excess && count < |amounts| - 1 && amounts[0] == 0
    ensures EvictionCount(amounts, excess, batch, count) ==> excess <= amounts[count] && batch <= amounts[count]
  {
    BatchBoundary(0, amounts[count], batch);
  }

  /** The count is determined by the amounts. */
  lemma EvictionCountUnique(amounts: seq<nat>, excess: nat, batch: nat, left: nat, right: nat)
    requires batch >= 1
    requires EvictionCount(amounts, excess, batch, left) && EvictionCount(amounts, excess, batch, right)
    ensures left == right
  {
  }

  // ---------------------------------------------------------------------------
  // The moving target of the loop is the boundary `MayStop` speaks of
  // ---------------------------------------------------------------------------

  ghost predicate Nondecreasing(amounts: seq<nat>) {
    forall i, j :: 0 <= i <= j < |amounts| ==> amounts[i] <= amounts[j]
  }

  /** `lastOver` is the latest eviction after which not enough had been reclaimed, and the
      target is the batch boundary above what had been reclaimed by then. */
  ghost predicate TargetTracks(amounts: seq<nat>, excess: nat, batch: nat, target: nat, lastOver: nat)
    requires batch >= 1
  {
    && Nondecreasing(amounts)
    && lastOver < |amounts|
    && amounts[lastOver] < excess
    && target == Boundary(amounts[lastOver], batch)
    && forall i :: lastOver < i < |amounts| ==> excess <= amounts[i]
  }

  lemma TargetMeansMayStop(amounts: seq<nat>, excess: nat, batch: nat, target: nat, lastOver: nat)
    requires batch >= 1
    requires TargetTracks(amounts, excess, batch, target, lastOver)
    ensures var last := |amounts| - 1;
            MayStop(amounts, excess, batch, last) <==> target <= amounts[last] && excess <= amounts[last]
  {
    var last := |amounts| - 1;
    BatchBoundary(amounts[lastOver], amounts[last], batch);
    forall i | 0 <= i <= last && amounts[i] < excess
      ensures Batches(amounts[i], batch) <= Batches(amounts[lastOver], batch)
    {
      BatchBoundary(amounts[i], amounts[lastOver], batch);
    }
  }

  /** One more eviction: whether or not it was enough, and whether or not the loop moves
      its target, the target tracks the boundary. */
  lemma TargetAfterEviction(amounts: seq<nat>, amount: nat, excess: nat, batch: nat, target: nat, lastOver: nat)
    requires batch >= 1
    requires TargetTracks(amounts, excess, batch, target, lastOver)
    requires amounts[|amounts| - 1] <= amount
    ensures var more := amounts + [amount];
            if excess <= amount then TargetTracks(more, excess, batch, target, lastOver)
            else TargetTracks(more, excess, batch,
                              if target <= amount then Boundary(amount, batch) else target, |amounts|)
  {
    BatchBoundary(amounts[lastOver], amount, batch);
  }

  // ---------------------------------------------------------------------------
  // Headroom
  // ---------------------------------------------------------------------------

  /** The least amount after which a prune may stop, when `over` is the last eviction that was
      not enough: the excess, or the batch boundary above what `over` left reclaimed. */
  ghost function Needed(amounts: seq<nat>, excess: nat, batch: nat, over: nat): nat
    requires batch >= 1 && over < |amounts|
  {
    var boundary := Boundary(amounts[over], batch);
    if boundary < excess then excess else boundary
  }

  ghost predicate IsLastOver(amounts: seq<nat>, excess: nat, over: nat) {
    over < |amounts| && amounts[over] < excess && forall i :: over < i < |amounts| ==> excess <= amounts[i]
  }

  lemma MayStopMeans(amounts: seq<nat>, excess: nat, batch: nat, over: nat, k: nat)
    requires batch >= 1 && Nondecreasing(amounts) && IsLastOver(amounts, excess, over) && k < |amounts|
    ensures MayStop(amounts, excess, batch, k) <==> Needed(amounts, excess, batch, over) <= amounts[k]
  {
    BatchBoundary(amounts[over], amounts[k], batch);
    forall i | 0 <= i <= k && amounts[i] < excess ensures Batches(amounts[i], batch) <= Batches(amounts[over], batch) {
      BatchBoundary(amounts[i], amounts[over], batch);
    }
  }

  /** A prune that stops short of evicting everything has reclaimed the least of the amounts
      that reach what is needed. So it leaves room beyond the excess exactly when each of
      those amounts does; what is needed alone never makes that a whole batch. */
  lemma Headroom(amounts: seq<nat>, excess: nat, batch: nat, over: nat, count: nat, room: nat)
    requires batch >= 1 && Nondecreasing(amounts) && IsLastOver(amounts, excess, over)
    requires EvictionCount(amounts, excess, batch, count) && count < |amounts| - 1
    ensures excess + room <= amounts[count] <==>
            forall k :: 0 <= k < |amounts| && Needed(amounts, excess, batch, over) <= amounts[k]
                  ==> excess + room <= amounts[k]
    ensures excess <= Needed(amounts, excess, batch, over) < excess + batch
  {
    forall k | 0 <= k < |amounts|
      ensures MayStop(amounts, excess, batch, k) <==> Needed(amounts, excess, batch, over) <= amounts[k]
    {
      MayStopMeans(amounts, excess, batch, over, k);
    }
    BatchBoundary(amounts[over], amounts[over], batch);
  }

  /** A prune can leave no room at all: archives of four, one and four bytes, five to free. */
  lemma NoHeadroom()
    ensures EvictionCount([0, 4, 5, 9], 5, 5, 2) && [0, 4, 5, 9][2] == 5
  {
  }

  lemma MayStopPrefix(shorter: seq<nat>, longer: seq<nat>, excess: nat, batch: nat)
    requires batch >= 1 && shorter <= longer
    ensures forall k :: 0 <= k < |shorter| ==>
              (MayStop(shorter, excess, batch, k) <==> MayStop(longer, excess, batch, k))
  {
  }

  /** The loop has passed no point at which it might have stopped. */
  ghost predicate NotStoppable(amounts: seq<nat>, excess: nat, batch: nat)
    requires batch >= 1
  {
    forall k :: 0 <= k < |amounts| - 1 ==> !MayStop(amounts, excess, batch, k)
  }

  lemma NotStoppableYet(amounts: seq<nat>, amount: nat, excess: nat, batch: nat, target: nat, lastOver: nat)
    requires batch >= 1
    requires TargetTracks(amounts, excess, batch, target, lastOver)
    requires NotStoppable(amounts, excess, batch)
    requires amounts[|amounts| - 1] < target || amounts[|amounts| - 1] < excess
    ensures NotStoppable(amounts + [amount], excess, batch)
  {
    TargetMeansMayStop(amounts, excess, batch, target, lastOver);
    MayStopPrefix(amounts, amounts + [amount], excess, batch);
  }

  /** The loop's target after the evictions so far: it moves to the next boundary after each
      one that reached it without freeing enough. */
  ghost function LoopTarget(amounts: seq<nat>, excess: nat, batch: nat): nat
    requires batch >= 1
  {
    if |amounts| <= 1 then batch
    else
      var before := LoopTarget(amounts[..|amounts| - 1], excess, batch);
      var amount := amounts[|amounts| - 1];
      if before <= amount < excess then Boundary(amount, batch) else before
  }

  /** Before each eviction the loop still had reason to go on. */
  ghost predicate LoopContinued(amounts: seq<nat>, excess: nat, batch: nat)
    requires batch >= 1
  {
    |amounts| <= 1
    || (var fewer := amounts[..|amounts| - 1];
        var amount := fewer[|fewer| - 1];
        LoopContinued(fewer, excess, batch) && (amount < LoopTarget(fewer, excess, batch) || amount < excess))
  }

  lemma {:induction false} LoopTracks(amounts: seq<nat>, excess: nat, batch: nat) returns (lastOver: nat)
    requires batch >= 1 && 0 < excess && amounts != [] && amounts[0] == 0
    requires Nondecreasing(amounts) && LoopContinued(amounts, excess, batch)
    ensures TargetTracks(amounts, excess, batch, LoopTarget(amounts, excess, batch), lastOver)
    ensures NotStoppable(amounts, excess, batch)
  {
    if |amounts| == 1 {
      lastOver := 0;
    } else {
      var fewer, amount := amounts[..|amounts| - 1], amounts[|amounts| - 1];
      var over := LoopTracks(fewer, excess, batch);
      assert amounts == fewer + [amount];
      lastOver := LoopTracksOneMore(fewer, amount, excess, batch, over);
    }
  }

  lemma LoopTracksOneMore(fewer: seq<nat>, amount: nat, excess: nat, batch: nat, over: nat) returns (lastOver: nat)
    requires batch >= 1 && fewer != [] && Nondecreasing(fewer + [amount])
    requires LoopContinued(fewer + [amount], excess, batch)
    requires TargetTracks(fewer, excess, batch, LoopTarget(fewer, excess, batch), over)
    requires NotStoppable(fewer, excess, batch)
    ensures TargetTracks(fewer + [amount], excess, batch, LoopTarget(fewer + [amount], excess, batch), lastOver)
    ensures NotStoppable(fewer + [amount], excess, batch)
  {
    var more := fewer + [amount];
    assert more[..|more| - 1] == fewer && more[|fewer| - 1] == fewer[|fewer| - 1] <= more[|fewer|];
    TargetAfterEviction(fewer, amount, excess, batch, LoopTarget(fewer, excess, batch), over);
    NotStoppableYet(fewer, amount, excess, batch, LoopTarget(fewer, excess, batch), over);
    lastOver := if excess <= amount then over else |fewer|;
  }

  /** The loop's amounts, a prefix of what evicting everything would free, count as the
      batch rule does. */
  lemma LoopCounts(shorter: seq<nat>, longer: seq<nat>, excess: nat, batch: nat)
    requires batch >= 1 && 0 < excess && shorter != [] && shorter[0] == 0 && shorter <= longer
    requires Nondecreasing(shorter) && LoopContinued(shorter, excess, batch)
    requires var amount := shorter[|shorter| - 1];
             |shorter| == |longer| || (LoopTarget(shorter, excess, batch) <= amount && excess <= amount)
    ensures EvictionCount(longer, excess, batch, |shorter| - 1)
  {
    var lastOver := LoopTracks(shorter, excess, batch);
    TargetMeansMayStop(shorter, excess, batch, LoopTarget(shorter, excess, batch), lastOver);
    MayStopPrefix(shorter, longer, excess, batch);
  }
}
