/**
 The nested loop of `_apply_credit`, which rescans the charges for every entry, places
 the credit exactly as pouring it in one pass does.
 */
module Placement {
  import opened Arithmetic
  import opened Wrappers
  import opened Waterfall
  import opened Tables
  import opened Queries
  import opened Crediting

  /** What is poured once the entries before `i` are exhausted. */
  function PlacedBefore(a: seq<nat>, n: seq<nat>, limit: Option<int>, i: nat): int
    requires i <= |a|
  {
    Capped(Min(Before(a, i), Whole(n)), limit)
  }

  /** Where the inner loop stands, in numbers: the current entry spans [a0, a1), the
      charges before the current one need `met` of `all`, [0, at) is poured and the entry
      has `rest` left. */
  predicate Stage(a0: int, a1: int, met: int, all: int, limit: Option<int>, at: int, rest: int) {
    && 0 <= at <= all && 0 <= rest && (limit.Some? ==> at <= limit.value)
    && ((at == all && met <= at && (limit.Some? ==> rest <= limit.value - at) && at <= a1)
        || (a0 <= at && at + rest == Capped(a1, limit) && (rest == 0 || met <= at)))
  }

  /** Entry `i` still has `rest`, and the charges before `j` are settled as long as
      something is left, or every charge is settled. */
  predicate Pouring(a: seq<nat>, n: seq<nat>, limit: Option<int>, i: nat, j: nat, at: int, rest: int)
    requires i < |a| && j <= |n|
  {
    Stage(Before(a, i), Before(a, i + 1), Before(n, j), Whole(n), limit, at, rest)
  }

  lemma CutArithmetic(a0: int, a1: int, a: int, met: int, need: int, all: int, limit: Option<int>, at: int, rest: int,
                      amount: int)
    requires 0 <= a0 <= a1 <= a && 0 <= met && met + need <= all && 0 <= need
    requires Stage(a0, a1, met, all, limit, at, rest) && 0 < rest
    requires 0 < need - Clip(at - met, need) && amount == Min(rest, need - Clip(at - met, need))
    ensures a0 <= at && at + amount <= a1 && met <= at && at + amount <= met + need && 0 < amount
    ensures at + amount == Capped(Min(a, all), limit) || at + amount == a1 || at + amount == met + need
    ensures Stage(a0, a1, met + need, all, limit, at + amount, rest - amount)
  {
  }

  /** The slice the loop cuts is the one the tiling has at that place. */
  lemma {:induction false} CutFits(a: seq<nat>, n: seq<nat>, limit: Option<int>, i: nat, j: nat, at: int, rest: int,
                                   amount: int)
    requires i < |a| && j < |n| && Pouring(a, n, limit, i, j, at, rest) && 0 < rest
    requires 0 < n[j] - Clip(at - Before(n, j), n[j])
    requires amount == Min(rest, n[j] - Clip(at - Before(n, j), n[j]))
    ensures Fits(Slice(i, j, amount), at, a, n, PlacedBefore(a, n, limit, |a|))
    ensures Pouring(a, n, limit, i, j + 1, at + amount, rest - amount)
  {
    hide Before, Capped, Stage, Clip;
    BeforeMonotone(n, j + 1, |n|);
    BeforeMonotone(a, i, i + 1);
    BeforeMonotone(a, i + 1, |a|);
    BeforeNonNegative(n, j);
    BeforeNonNegative(a, i);
    BeforeStep(n, j);
    CutArithmetic(Before(a, i), Before(a, i + 1), Whole(a), Before(n, j), n[j], Whole(n), limit, at, rest, amount);
  }

  /** A charge that needs nothing is passed over. */
  lemma SkipSettled(a: seq<nat>, n: seq<nat>, limit: Option<int>, i: nat, j: nat, at: int, rest: int)
    requires i < |a| && j < |n| && Pouring(a, n, limit, i, j, at, rest)
    requires rest <= 0 || n[j] - Clip(at - Before(n, j), n[j]) <= 0
    ensures Pouring(a, n, limit, i, j + 1, at, rest)
  {
    BeforeMonotone(n, j + 1, |n|);
    BeforeNonNegative(n, j);
  }

  lemma PouringStops(a: seq<nat>, n: seq<nat>, limit: Option<int>, i: nat, j: nat, at: int, rest: int)
    requires i < |a| && j <= |n| && Pouring(a, n, limit, i, j, at, rest)
    requires rest == 0 || j == |n|
    ensures at == PlacedBefore(a, n, limit, i + 1)
  {
    BeforeMonotone(n, j, |n|);
  }

  lemma PouringStarts(a: seq<nat>, n: seq<nat>, limit: Option<int>, i: nat)
    requires i < |a| && (limit.Some? ==> 0 <= limit.value)
    ensures var at := PlacedBefore(a, n, limit, i);
      Pouring(a, n, limit, i, 0, at, if limit.Some? then Min(a[i], limit.value - at) else a[i])
      || (limit.Some? && at == limit.value)
  {
    BeforeNonNegative(a, i);
    BeforeNonNegative(n, |n|);
  }

  // ---------------------------------------------------------------------------
  // The loop
  // ---------------------------------------------------------------------------

  /** `settled` is what each charge had before plus what [0, at) puts on it. */
  ghost predicate SettledAt(db: Db, charges: seq<nat>, n: seq<nat>, settled: map<nat, int>, at: int)
    requires |n| == |charges|
  {
    forall m :: 0 <= m < |charges| ==>
      charges[m] in settled && settled[charges[m]] == ActiveOn(db, charges[m]) + Clip(at - Before(n, m), n[m])
  }

  lemma {:induction false} SettledAdvances(db: Db, charges: seq<nat>, n: seq<nat>, settled: map<nat, int>, j: nat,
                                           at: int, amount: int)
    requires |n| == |charges| && Distinct(charges) && j < |charges|
    requires SettledAt(db, charges, n, settled, at)
    requires 0 < amount && Before(n, j) <= at && at + amount <= Before(n, j + 1)
    ensures charges[j] in settled
    ensures SettledAt(db, charges, n, settled[charges[j] := settled[charges[j]] + amount], at + amount)
  {
    hide Before, Clip, ActiveOn;
    var next := settled[charges[j] := settled[charges[j]] + amount];
    forall m | 0 <= m < |charges|
      ensures charges[m] in next
      ensures next[charges[m]] == ActiveOn(db, charges[m]) + Clip(at + amount - Before(n, m), n[m])
    {
      FillOneCell(n, j, m, at, amount);
    }
  }

  /** The poured slices, and the rows and the marks the loop has made of them. */
  ghost predicate Made(db: Db, entries: seq<nat>, charges: seq<nat>, limit: Option<int>, slices: seq<Slice>, at: int,
                       created: seq<Allocation>, settled: map<nat, int>)
  {
    && Fill(slices, UsableOf(db, entries), NeedsOf(db, charges), Placed(db, entries, charges, limit), 0, at)
    && created == RowsOf(|db.allocations|, entries, charges, slices)
    && SettledAt(db, charges, NeedsOf(db, charges), settled, at)
  }

  lemma {:induction false} MadeOneMore(db: Db, entries: seq<nat>, charges: seq<nat>, limit: Option<int>,
                                       slices: seq<Slice>, at: int,
                    created: seq<Allocation>, settled: map<nat, int>, i: nat, j: nat, rest: int, amount: int)
    requires Distinct(charges) && i < |entries| && j < |charges|
    requires Made(db, entries, charges, limit, slices, at, created, settled)
    requires Pouring(UsableOf(db, entries), NeedsOf(db, charges), limit, i, j, at, rest) && 0 < rest
    requires 0 < Need(db, charges[j]) - Clip(at - Before(NeedsOf(db, charges), j), Need(db, charges[j]))
    requires amount == Min(rest,
      Need(db, charges[j]) - Clip(at - Before(NeedsOf(db, charges), j), Need(db, charges[j])))
    ensures charges[j] in settled
    ensures Made(db, entries, charges, limit, slices + [Slice(i, j, amount)], at + amount,
      created + [Allocation(|db.allocations| + |created|, entries[i], charges[j], amount, None)],
      settled[charges[j] := settled[charges[j]] + amount])
    ensures Pouring(UsableOf(db, entries), NeedsOf(db, charges), limit, i, j + 1, at + amount, rest - amount)
  {
    hide Before, Clip, Stage, Need, Usable, Fill, SettledAt, Capped, Pouring;
    var a, n := UsableOf(db, entries), NeedsOf(db, charges);
    CutFits(a, n, limit, i, j, at, rest, amount);
    FillAppend(slices, Slice(i, j, amount), a, n, Placed(db, entries, charges, limit), 0, at);
    SettledAdvances(db, charges, n, settled, j, at, amount);
  }

  lemma MadeNothing(db: Db, entries: seq<nat>, charges: seq<nat>, limit: Option<int>, settled: map<nat, int>)
    requires settled.Keys == set c | c in charges
    requires forall c :: c in settled ==> settled[c] == ActiveOn(db, c)
    ensures Made(db, entries, charges, limit, [], 0, [], settled)
    ensures PlacedBefore(UsableOf(db, entries), NeedsOf(db, charges), limit, 0) == 0
  {
    hide Before, ActiveOn, Usable, Need, CreditRows;
    var n := NeedsOf(db, charges);
    forall m | 0 <= m < |charges| ensures charges[m] in settled && Clip(0 - Before(n, m), n[m]) == 0 {
      BeforeNonNegative(n, m);
    }
    BeforeNonNegative(n, |n|);
    BeforeEmpty(UsableOf(db, entries));
  }

  lemma EntryStarts(db: Db, entries: seq<nat>, charges: seq<nat>, limit: Option<int>, i: nat, at: int)
    requires Integrity(db) && i < |entries| && entries[i] < |db.entries|
    requires at == PlacedBefore(UsableOf(db, entries), NeedsOf(db, charges), limit, i)
    requires limit.Some? ==> at < limit.value
    ensures var rest := if limit.Some? then Min(Available(db, entries[i]), limit.value - at)
      else Available(db, entries[i]);
      0 <= rest && Pouring(UsableOf(db, entries), NeedsOf(db, charges), limit, i, 0, at, rest)
  {
    hide Before, Pouring, Available;
    assert 0 <= Available(db, entries[i]) by {
      assert EntryCovered(db, entries[i]);
      AvailableNonNegative(db, entries[i]);
    }
    assert limit.Some? ==> 0 <= limit.value by {
      BeforeNonNegative(UsableOf(db, entries), i);
      BeforeNonNegative(NeedsOf(db, charges), |charges|);
    }
    PouringStarts(UsableOf(db, entries), NeedsOf(db, charges), limit, i);
  }

  lemma AvailableNonNegative(db: Db, e: nat)
    requires Integrity(db) && e < |db.entries|
    ensures 0 <= Available(db, e)
  {
    assert EntryCovered(db, e);
  }

  lemma {:induction false} StillNeeded(db: Db, charges: seq<nat>, settled: map<nat, int>, at: int, j: nat)
    requires Integrity(db) && j < |charges| && charges[j] < |db.charges|
    requires SettledAt(db, charges, NeedsOf(db, charges), settled, at)
    ensures charges[j] in settled
    ensures db.charges[charges[j]].amount - settled[charges[j]]
         == Need(db, charges[j]) - Clip(at - Before(NeedsOf(db, charges), j), Need(db, charges[j]))
  {
    hide Before, Clip;
    assert ChargeBalanced(db, charges[j]);
  }

  lemma AllPlaced(db: Db, entries: seq<nat>, charges: seq<nat>, limit: Option<int>, i: nat, slices: seq<Slice>, at: int)
    requires i <= |entries| && (i < |entries| ==> limit.Some? && limit.value <= at)
    requires at == PlacedBefore(UsableOf(db, entries), NeedsOf(db, charges), limit, i)
    requires Fill(slices, UsableOf(db, entries), NeedsOf(db, charges), Placed(db, entries, charges, limit), 0, at)
    ensures slices == CreditSlices(db, entries, charges, limit)
  {
    hide Before, Fill, Pour;
    var a, n := UsableOf(db, entries), NeedsOf(db, charges);
    BeforeNonNegative(a, i);
    BeforeMonotone(a, i, |a|);
    BeforeNonNegative(n, |n|);
    PlacedFits(db, entries, charges, limit);
    assert at == Placed(db, entries, charges, limit);
    PourIsTheOnlyTiling(slices, a, n, at);
  }

  /** `_apply_credit` up to the flush: the rows to insert, and the charges they touch. */
  method PlaceCredit(db: Db, entries: seq<nat>, charges: seq<nat>, limit: Option<int>)
    returns (created: seq<Allocation>, touched: seq<nat>)
    requires Integrity(db) && Distinct(charges)
    requires forall i :: 0 <= i < |entries| ==> entries[i] < |db.entries|
    requires forall j :: 0 <= j < |charges| ==> charges[j] < |db.charges|
    ensures created == CreditRows(db, entries, charges, limit)
    ensures forall k :: 0 <= k < |created| ==> created[k].charge in touched
  {
    hide Before, Clip, Pouring, Capped, Integrity, Made, PlacedBefore, Available, UsableOf, NeedsOf, Need;
    ghost var a, n := UsableOf(db, entries), NeedsOf(db, charges);
    ghost var slices: seq<Slice> := [];
    ghost var at := 0;
    var settled := map c | c in charges :: ActiveOn(db, c);
    var left := limit;
    created, touched := [], [];
    MadeNothing(db, entries, charges, limit, settled);
    ListLengths(db, entries, charges);
    var i := 0;
    while i < |entries|
      invariant 0 <= i <= |entries|
      invariant Made(db, entries, charges, limit, slices, at, created, settled)
      invariant at == PlacedBefore(a, n, limit, i)
      invariant left == if limit.Some? then Some(limit.value - at) else None
      invariant forall k :: 0 <= k < |created| ==> created[k].charge in touched
    {
      if left.Some? && left.value <= 0 {
        break;
      }
      var available := Available(db, entries[i]);
      if left.Some? {
        available := Min(available, left.value);
      }
      EntryStarts(db, entries, charges, limit, i, at);
      var j := 0;
      while j < |charges|
        invariant 0 <= j <= |charges| && 0 <= available
        invariant Made(db, entries, charges, limit, slices, at, created, settled)
        invariant Pouring(a, n, limit, i, j, at, available)
        invariant left == if limit.Some? then Some(limit.value - at) else None
        invariant forall k :: 0 <= k < |created| ==> created[k].charge in touched
      {
        if available <= 0 {
          break;
        }
        var c := charges[j];
        MadeSettled(db, entries, charges, limit, slices, at, created, settled);
        StillNeeded(db, charges, settled, at, j);
        var needed := db.charges[c].amount - settled[c];
        if needed <= 0 {
          SkipCharge(db, entries, charges, limit, i, j, at, available);
        } else {
          var amount := Min(available, needed);
          MadeOneMore(db, entries, charges, limit, slices, at, created, settled, i, j, available, amount);
          created := created + [Allocation(|db.allocations| + |created|, entries[i], c, amount, None)];
          settled := settled[c := settled[c] + amount];
          if left.Some? {
            left := Some(left.value - amount);
          }
          available := available - amount;
          touched := touched + [c];
          slices, at := slices + [Slice(i, j, amount)], at + amount;
        }
        j := j + 1;
      }
      PouringStops(a, n, limit, i, j, at, available);
      i := i + 1;
    }
    MadeRows(db, entries, charges, limit, slices, at, created, settled);
    AllPlaced(db, entries, charges, limit, i, slices, at);
  }

  lemma ListLengths(db: Db, entries: seq<nat>, charges: seq<nat>)
    ensures |UsableOf(db, entries)| == |entries| && |NeedsOf(db, charges)| == |charges|
  {
  }

  lemma MadeSettled(db: Db, entries: seq<nat>, charges: seq<nat>, limit: Option<int>, slices: seq<Slice>, at: int,
                    created: seq<Allocation>, settled: map<nat, int>)
    requires Made(db, entries, charges, limit, slices, at, created, settled)
    ensures SettledAt(db, charges, NeedsOf(db, charges), settled, at)
  {
  }

  lemma MadeRows(db: Db, entries: seq<nat>, charges: seq<nat>, limit: Option<int>, slices: seq<Slice>, at: int,
                 created: seq<Allocation>, settled: map<nat, int>)
    requires Made(db, entries, charges, limit, slices, at, created, settled)
    ensures Fill(slices, UsableOf(db, entries), NeedsOf(db, charges), Placed(db, entries, charges, limit), 0, at)
    ensures created == RowsOf(|db.allocations|, entries, charges, slices)
  {
  }

  lemma SkipCharge(db: Db, entries: seq<nat>, charges: seq<nat>, limit: Option<int>, i: nat, j: nat, at: int, rest: int)
    requires i < |entries| && j < |charges|
    requires Pouring(UsableOf(db, entries), NeedsOf(db, charges), limit, i, j, at, rest)
    requires Need(db, charges[j]) - Clip(at - Before(NeedsOf(db, charges), j), Need(db, charges[j])) <= 0
    ensures Pouring(UsableOf(db, entries), NeedsOf(db, charges), limit, i, j + 1, at, rest)
  {
    SkipSettled(UsableOf(db, entries), NeedsOf(db, charges), limit, i, j, at, rest);
  }
}
