/**
 `_apply_credit` as a function on the tables: the entries in a list pour what they have
 available into what the charges in a list still need, oldest first, up to a limit.
 */
module Crediting {
  import opened Arithmetic
  import opened Wrappers
  import opened Sums
  import opened Waterfall
  import opened Tables
  import opened Balances
  import opened Posting
  import opened Queries

  function Usable(db: Db, e: nat): nat {
    if e < |db.entries| then Max(0, Available(db, e)) else 0
  }

  function Need(db: Db, c: nat): nat {
    if c < |db.charges| then Max(0, Remaining(db, c)) else 0
  }

  function UsableOf(db: Db, entries: seq<nat>): seq<nat> {
    seq(|entries|, i requires 0 <= i < |entries| => Usable(db, entries[i]))
  }

  function NeedsOf(db: Db, charges: seq<nat>): seq<nat> {
    seq(|charges|, i requires 0 <= i < |charges| => Need(db, charges[i]))
  }

  function Capped(x: int, limit: Option<int>): int {
    if limit.Some? then Min(x, Max(0, limit.value)) else x
  }

  /** Everything available, everything needed, or the limit, whichever is least. */
  function Placed(db: Db, entries: seq<nat>, charges: seq<nat>, limit: Option<int>): int {
    Capped(Min(Whole(UsableOf(db, entries)), Whole(NeedsOf(db, charges))), limit)
  }

  /** The allocation row a slice stands for. */
  function RowOf(id: nat, entries: seq<nat>, charges: seq<nat>, s: Slice): Allocation {
    Allocation(id, if s.source < |entries| then entries[s.source] else 0,
      if s.sink < |charges| then charges[s.sink] else 0, s.amount, None)
  }

  function RowsOf(first: nat, entries: seq<nat>, charges: seq<nat>, slices: seq<Slice>): seq<Allocation> {
    seq(|slices|, k requires 0 <= k < |slices| => RowOf(first + k, entries, charges, slices[k]))
  }

  function CreditSlices(db: Db, entries: seq<nat>, charges: seq<nat>, limit: Option<int>): seq<Slice> {
    Pour(UsableOf(db, entries), NeedsOf(db, charges), Placed(db, entries, charges, limit))
  }

  function CreditRows(db: Db, entries: seq<nat>, charges: seq<nat>, limit: Option<int>): seq<Allocation> {
    RowsOf(|db.allocations|, entries, charges, CreditSlices(db, entries, charges, limit))
  }

  function ApplyCredit(db: Db, entries: seq<nat>, charges: seq<nat>, limit: Option<int>): Db {
    Spend(db, CreditRows(db, entries, charges, limit))
  }

  function AmountOf(): Allocation -> int { (a: Allocation) => a.amount }

  predicate InRange(slices: seq<Slice>, n: nat, m: nat) {
    forall k :: 0 <= k < |slices| ==> slices[k].source < n && slices[k].sink < m && 0 < slices[k].amount
  }

  lemma {:induction false} FillInRange(slices: seq<Slice>, a: seq<nat>, n: seq<nat>, total: int, from: int, to: int)
    requires Fill(slices, a, n, total, from, to)
    ensures InRange(slices, |a|, |n|)
  {
    if slices != [] {
      FillInRange(slices[1..], a, n, total, from + slices[0].amount, to);
    }
  }

  lemma RowsOfSplit(first: nat, entries: seq<nat>, charges: seq<nat>, slices: seq<Slice>)
    requires slices != []
    ensures RowsOf(first, entries, charges, slices)
         == [RowOf(first, entries, charges, slices[0])] + RowsOf(first + 1, entries, charges, slices[1..])
  {
  }

  lemma {:induction false} RowsByEntry(first: nat, entries: seq<nat>, charges: seq<nat>, slices: seq<Slice>, i: nat)
    requires Distinct(entries) && i < |entries| && InRange(slices, |entries|, |charges|)
    ensures Sum(RowsOf(first, entries, charges, slices), OfEntry(entries[i])) == Given(slices, i)
    decreases slices
  {
    if slices != [] {
      RowsByEntry(first + 1, entries, charges, slices[1..], i);
      RowsOfSplit(first, entries, charges, slices);
      var row := RowOf(first, entries, charges, slices[0]);
      SumConcat([row], RowsOf(first + 1, entries, charges, slices[1..]), OfEntry(entries[i]));
    }
  }

  lemma {:induction false} RowsByCharge(first: nat, entries: seq<nat>, charges: seq<nat>, slices: seq<Slice>, j: nat)
    requires Distinct(charges) && j < |charges| && InRange(slices, |entries|, |charges|)
    ensures Sum(RowsOf(first, entries, charges, slices), OnCharge(charges[j])) == Received(slices, j)
    decreases slices
  {
    if slices != [] {
      RowsByCharge(first + 1, entries, charges, slices[1..], j);
      RowsOfSplit(first, entries, charges, slices);
      var row := RowOf(first, entries, charges, slices[0]);
      SumConcat([row], RowsOf(first + 1, entries, charges, slices[1..]), OnCharge(charges[j]));
    }
  }

  lemma {:induction false} RowsTotal(first: nat, entries: seq<nat>, charges: seq<nat>, slices: seq<Slice>,
                                     a: seq<nat>, n: seq<nat>, total: int, from: int, to: int)
    requires Fill(slices, a, n, total, from, to)
    ensures Sum(RowsOf(first, entries, charges, slices), AmountOf()) == to - from
    decreases slices
  {
    if slices != [] {
      RowsTotal(first + 1, entries, charges, slices[1..], a, n, total, from + slices[0].amount, to);
      RowsOfSplit(first, entries, charges, slices);
      var row := RowOf(first, entries, charges, slices[0]);
      SumConcat([row], RowsOf(first + 1, entries, charges, slices[1..]), AmountOf());
    }
  }

  /** Entries of one student that fund charges, and are not voided. */
  ghost predicate Payers(db: Db, entries: seq<nat>, student: int) {
    forall i :: 0 <= i < |entries| ==>
      entries[i] < |db.entries| && Funds(db.entries[entries[i]].kind)
      && db.entries[entries[i]].student == student && !Voided(db.entries, entries[i])
  }

  /** Charges of one student that are not cancelled. */
  ghost predicate Payees(db: Db, charges: seq<nat>, student: int) {
    forall j :: 0 <= j < |charges| ==>
      charges[j] < |db.charges| && db.charges[charges[j]].student == student
      && db.charges[charges[j]].status != Cancelled
  }

  lemma PlacedFits(db: Db, entries: seq<nat>, charges: seq<nat>, limit: Option<int>)
    ensures 0 <= Placed(db, entries, charges, limit)
    ensures Placed(db, entries, charges, limit) <= Whole(UsableOf(db, entries))
    ensures Placed(db, entries, charges, limit) <= Whole(NeedsOf(db, charges))
    ensures Tiles(CreditSlices(db, entries, charges, limit), UsableOf(db, entries), NeedsOf(db, charges),
      Placed(db, entries, charges, limit))
    ensures InRange(CreditSlices(db, entries, charges, limit), |entries|, |charges|)
  {
    var a, n, total := UsableOf(db, entries), NeedsOf(db, charges), Placed(db, entries, charges, limit);
    PourIsTheOnlyTiling(Pour(a, n, total), a, n, total);
    FillInRange(Pour(a, n, total), a, n, total, 0, total);
  }

  /** Exactly `Placed` is allocated, in at most |entries| + |charges| - 1 rows. */
  lemma CreditPlaced(db: Db, entries: seq<nat>, charges: seq<nat>, limit: Option<int>)
    ensures var rows := CreditRows(db, entries, charges, limit);
      && Sum(rows, AmountOf()) == Placed(db, entries, charges, limit)
      && (rows == [] <==> Placed(db, entries, charges, limit) == 0)
      && (rows != [] ==> |rows| <= |entries| + |charges| - 1)
  {
    var a, n, total := UsableOf(db, entries), NeedsOf(db, charges), Placed(db, entries, charges, limit);
    var slices := CreditSlices(db, entries, charges, limit);
    PlacedFits(db, entries, charges, limit);
    SliceCount(slices, a, n, total);
    RowsTotal(|db.allocations|, entries, charges, slices, a, n, total, 0, total);
  }

  /** What each entry of the list gives: nothing before every earlier one is spent. */
  lemma {:induction false} CreditGivenOldestFirst(db: Db, entries: seq<nat>, charges: seq<nat>, limit: Option<int>,
                                                  i: nat)
    requires Distinct(entries) && i < |entries|
    ensures Sum(CreditRows(db, entries, charges, limit), OfEntry(entries[i]))
         == Clip(Placed(db, entries, charges, limit) - Before(UsableOf(db, entries), i), Usable(db, entries[i]))
  {
    hide Placed, Pour, Usable, Need, NeedsOf, Before, Tiles, RowsOf;
    PlacedFits(db, entries, charges, limit);
    var slices := CreditSlices(db, entries, charges, limit);
    RowsByEntry(|db.allocations|, entries, charges, slices, i);
    GivenOldestFirst(slices, UsableOf(db, entries), NeedsOf(db, charges), Placed(db, entries, charges, limit), i);
  }

  /** What each charge of the list receives: nothing before every earlier one is settled. */
  lemma {:induction false} CreditReceivedOldestFirst(db: Db, entries: seq<nat>, charges: seq<nat>, limit: Option<int>,
                                                     j: nat)
    requires Distinct(charges) && j < |charges|
    ensures Sum(CreditRows(db, entries, charges, limit), OnCharge(charges[j]))
         == Clip(Placed(db, entries, charges, limit) - Before(NeedsOf(db, charges), j), Need(db, charges[j]))
  {
    hide Placed, Pour, Usable, Need, UsableOf, Before, Tiles, RowsOf;
    PlacedFits(db, entries, charges, limit);
    var slices := CreditSlices(db, entries, charges, limit);
    RowsByCharge(|db.allocations|, entries, charges, slices, j);
    ReceivedOldestFirst(slices, UsableOf(db, entries), NeedsOf(db, charges), Placed(db, entries, charges, limit), j);
  }

  lemma CreditRowFrom(db: Db, entries: seq<nat>, charges: seq<nat>, limit: Option<int>, k: nat)
    requires k < |CreditRows(db, entries, charges, limit)|
    ensures var row := CreditRows(db, entries, charges, limit)[k];
      && row.entry in entries && row.charge in charges && 0 < row.amount
      && row.id == |db.allocations| + k && row.reversedBy.None?
  {
    PlacedFits(db, entries, charges, limit);
    var slices := CreditSlices(db, entries, charges, limit);
    assert slices[k].source < |entries| && slices[k].sink < |charges|;
  }

  /** No entry is too small and no charge too full for the rows `_apply_credit` writes. */
  lemma CreditRowsSpendable(db: Db, entries: seq<nat>, charges: seq<nat>, limit: Option<int>, student: int)
    requires Integrity(db) && Distinct(entries) && Distinct(charges)
    requires Payers(db, entries, student) && Payees(db, charges, student)
    ensures Spendable(db, CreditRows(db, entries, charges, limit))
  {
    hide CreditRows, Placed;
    var rows := CreditRows(db, entries, charges, limit);
    forall k | 0 <= k < |rows| ensures NewRowOk(db, rows, k) {
      CreditRowFrom(db, entries, charges, limit, k);
    }
    forall c | 0 <= c < |db.charges| ensures ChargeTakes(db, rows, c) {
      assert ChargeBalanced(db, c);
      if c in charges {
        var j :| 0 <= j < |charges| && charges[j] == c;
        CreditReceivedOldestFirst(db, entries, charges, limit, j);
      } else {
        forall k | 0 <= k < |rows| ensures OnCharge(c)(rows[k]) == 0 { CreditRowFrom(db, entries, charges, limit, k); }
        SumZero(rows, OnCharge(c));
      }
    }
    forall e | 0 <= e < |db.entries| ensures EntryGives(db, rows, e) {
      assert EntryCovered(db, e);
      if e in entries {
        var i :| 0 <= i < |entries| && entries[i] == e;
        CreditGivenOldestFirst(db, entries, charges, limit, i);
      } else {
        forall k | 0 <= k < |rows| ensures OfEntry(e)(rows[k]) == 0 { CreditRowFrom(db, entries, charges, limit, k); }
        SumZero(rows, OfEntry(e));
      }
    }
  }

  // ---------------------------------------------------------------------------
  // Lists and tables
  // ---------------------------------------------------------------------------

  function Range(n: nat): seq<nat> { seq(n, i => i) }

  /** Summing a list of distinct ids is summing the whole table with the others at zero. */
  lemma {:induction false} SumListed(ids: seq<nat>, n: nat, v: nat -> int, w: nat -> int)
    requires Distinct(ids) && forall i :: 0 <= i < |ids| ==> ids[i] < n
    requires forall i: nat :: i < n ==> w(i) == if i in ids then v(i) else 0
    ensures Sum(ids, v) == Sum(Range(n), w)
    decreases ids
  {
    if ids == [] {
      SumZero(Range(n), w);
    } else {
      var front, x := ids[..|ids| - 1], ids[|ids| - 1];
      var only := (i: nat) => if i == x then v(x) else 0;
      var others := (i: nat) => if i == x then 0 else w(i);
      assert ids == front + [x];
      SumPlus(Range(n), others, only, w);
      SumSingle(Range(n), x, only);
      SumListed(front, n, v, others);
    }
  }

  /** `Before` over a list of values is a `Sum` over the list. */
  lemma {:induction false} BeforeIsSum(ids: seq<nat>, values: seq<nat>, v: nat -> int, k: nat)
    requires |values| == |ids| && k <= |ids|
    requires forall i :: 0 <= i < |ids| ==> values[i] == v(ids[i])
    ensures Before(values, k) == Sum(ids[..k], v)
  {
    if 0 < k {
      BeforeIsSum(ids, values, v, k - 1);
      assert ids[..k][..k - 1] == ids[..k - 1];
    }
  }

  function UsableIn(db: Db): nat -> int { (e: nat) => Usable(db, e) }

  function NeedIn(db: Db): nat -> int { (c: nat) => Need(db, c) }

  /** The total of a list of entries or charges, as one pass over the table. */
  lemma WholeIsTableSum(ids: seq<nat>, values: seq<nat>, n: nat, v: nat -> int, w: nat -> int)
    requires |values| == |ids| && Distinct(ids)
    requires forall i :: 0 <= i < |ids| ==> values[i] == v(ids[i]) && ids[i] < n
    requires forall i: nat :: i < n ==> w(i) == if i in ids then v(i) else 0
    ensures Whole(values) == Sum(Range(n), w)
  {
    BeforeIsSum(ids, values, v, |ids|);
    assert ids[..|ids|] == ids;
    SumListed(ids, n, v, w);
  }

  function AvailableAt(db: Db, student: int): nat -> int {
    (e: nat) => if e < |db.entries| then AvailableFor(db, student)(db.entries[e]) else 0
  }

  lemma LiveCreditUsable(db: Db, student: int, e: nat)
    requires Integrity(db) && e < |db.entries|
    ensures AvailableAt(db, student)(e) == if e in CreditEntries(db, student) then UsableIn(db)(e) else 0
  {
    CreditEntriesSelected(db, student);
    assert EntryRowOk(db, e) && EntryCovered(db, e);
    assert LiveCredit(db.entries, student, e) <==> e in CreditEntries(db, student);
    assert Usable(db, e) == Available(db, e);
    assert AvailableFor(db, student)(db.entries[e])
      == if LiveCredit(db.entries, student, e) then Available(db, e) else 0;
  }

  /** The student's credit entries have exactly the wallet available. */
  lemma WalletIsUsable(db: Db, student: int)
    requires Integrity(db)
    ensures Whole(UsableOf(db, CreditEntries(db, student))) == Wallet(db, student)
  {
    var ids, n, w := CreditEntries(db, student), |db.entries|, AvailableAt(db, student);
    CreditEntriesPay(db, student);
    forall e: nat | e < n ensures w(e) == if e in ids then UsableIn(db)(e) else 0 {
      LiveCreditUsable(db, student, e);
    }
    WholeIsTableSum(ids, UsableOf(db, ids), n, UsableIn(db), w);
    SumMapped(Range(n), db.entries, w, AvailableFor(db, student));
    WalletIsSumOfAvailable(db, student);
  }

  lemma CreditEntriesPay(db: Db, student: int)
    requires RowsOk(db)
    ensures Payers(db, CreditEntries(db, student), student) && Distinct(CreditEntries(db, student))
  {
    CreditEntriesSelected(db, student);
    var ids := CreditEntries(db, student);
    forall i | 0 <= i < |ids|
      ensures ids[i] < |db.entries| && Funds(db.entries[ids[i]].kind)
      ensures db.entries[ids[i]].student == student && !Voided(db.entries, ids[i])
    {
      assert ids[i] in ids;
    }
  }

  // ---------------------------------------------------------------------------
  // Nothing to pour
  // ---------------------------------------------------------------------------

  /** With nothing to pour, or nowhere to pour it, `_apply_credit` changes nothing. */
  lemma CreditOnEmpty(db: Db, payers: seq<nat>)
    requires Integrity(db)
    ensures ApplyCredit(db, payers, [], None) == db
    ensures forall payees: seq<nat> :: ApplyCredit(db, [], payees, None) == db
  {
    CreditPlaced(db, payers, [], None);
    NothingSpent(db);
    forall payees: seq<nat> ensures ApplyCredit(db, [], payees, None) == db {
      CreditPlaced(db, [], payees, None);
      assert Whole(UsableOf(db, [])) == 0;
      PlacedFits(db, [], payees, None);
      assert CreditRows(db, [], payees, None) == [];
    }
    assert Whole(NeedsOf(db, [])) == 0;
    PlacedFits(db, payers, [], None);
    assert CreditRows(db, payers, [], None) == [];
  }
}
