/**
 Pouring sources into sinks, oldest first: the arithmetic behind every place where
 the ledger spends credit on charges.

 Sources `a` and needs `n` are laid end to end on one line.  Pouring `total` fills
 [0, total) and cuts it at every boundary of a source or of a need.  `Tiles` states
 that as a property of a list of slices, `PourIsTheOnlyTiling` shows the property
 leaves no freedom, and the other lemmas read off what each source gave, what each
 need received and how many slices there are.
 */
module Waterfall {
  import opened Arithmetic

  datatype Slice = Slice(source: nat, sink: nat, amount: int)

  /** `x` cut to the range 0..cap. */
  function Clip(x: int, cap: int): int { Max(0, Min(x, cap)) }

  /** Everything before position `i`. */
  function Before(xs: seq<nat>, i: nat): (b: nat)
    requires i <= |xs|
  {
    if i == 0 then 0 else Before(xs, i - 1) + xs[i - 1]
  }

  function Whole(xs: seq<nat>): nat { Before(xs, |xs|) }

  lemma {:induction false} BeforeStep(xs: seq<nat>, i: nat)
    requires i < |xs|
    ensures Before(xs, i + 1) == Before(xs, i) + xs[i]
  {
  }

  lemma {:induction false} BeforeEmpty(xs: seq<nat>)
    ensures Before(xs, 0) == 0
  {
  }

  lemma {:induction false} BeforeMonotone(xs: seq<nat>, i: nat, j: nat)
    requires i <= j <= |xs|
    ensures Before(xs, i) <= Before(xs, j)
  {
    if i < j {
      BeforeMonotone(xs, i, j - 1);
    }
  }

  /** Slice `s`, starting at `at`, stays inside its source and inside its need, and
      stops only at the end of one of them or at `total`. */
  predicate Fits(s: Slice, at: int, a: seq<nat>, n: seq<nat>, total: int) {
    && s.source < |a| && s.sink < |n|
    && 0 < s.amount
    && Before(a, s.source) <= at && at + s.amount <= Before(a, s.source + 1)
    && Before(n, s.sink) <= at && at + s.amount <= Before(n, s.sink + 1)
    && (at + s.amount == total
        || at + s.amount == Before(a, s.source + 1)
        || at + s.amount == Before(n, s.sink + 1))
  }

  /** `rows` fill [from, to), one after the other, on the way to `total`. */
  predicate Fill(rows: seq<Slice>, a: seq<nat>, n: seq<nat>, total: int, from: int, to: int) {
    if rows == [] then from == to
    else Fits(rows[0], from, a, n, total) && Fill(rows[1..], a, n, total, from + rows[0].amount, to)
  }

  /** `rows` fill the whole line [0, total). */
  predicate Tiles(rows: seq<Slice>, a: seq<nat>, n: seq<nat>, total: int) {
    Fill(rows, a, n, total, 0, total)
  }

  lemma {:induction false} FillForward(rows: seq<Slice>, a: seq<nat>, n: seq<nat>, total: int, from: int, to: int)
    requires Fill(rows, a, n, total, from, to)
    ensures from <= to
    ensures from == to <==> rows == []
  {
    if rows != [] {
      FillForward(rows[1..], a, n, total, from + rows[0].amount, to);
    }
  }

  lemma {:induction false} FillAppend(rows: seq<Slice>, s: Slice, a: seq<nat>, n: seq<nat>, total: int, from: int,
                                      to: int)
    requires Fill(rows, a, n, total, from, to)
    requires Fits(s, to, a, n, total)
    ensures Fill(rows + [s], a, n, total, from, to + s.amount)
  {
    if rows == [] {
      assert ([] + [s])[1..] == [];
    } else {
      FillAppend(rows[1..], s, a, n, total, from + rows[0].amount, to);
      assert (rows + [s])[1..] == rows[1..] + [s];
    }
  }

  /** Two slices that fit at the same place are the same slice. */
  lemma {:induction false} FitsUnique(s: Slice, t: Slice, at: int, a: seq<nat>, n: seq<nat>, total: int)
    requires Fits(s, at, a, n, total) && Fits(t, at, a, n, total)
    requires at + s.amount <= total && at + t.amount <= total
    ensures s == t
  {
    if s.source < t.source { BeforeMonotone(a, s.source + 1, t.source); }
    if t.source < s.source { BeforeMonotone(a, t.source + 1, s.source); }
    if s.sink < t.sink { BeforeMonotone(n, s.sink + 1, t.sink); }
    if t.sink < s.sink { BeforeMonotone(n, t.sink + 1, s.sink); }
  }

  /** There is at most one way to fill what is left of a line. */
  lemma {:induction false} FillUnique(rows: seq<Slice>, others: seq<Slice>, a: seq<nat>, n: seq<nat>, total: int,
                                      from: int)
    requires Fill(rows, a, n, total, from, total) && Fill(others, a, n, total, from, total)
    ensures rows == others
  {
    FillForward(rows, a, n, total, from, total);
    FillForward(others, a, n, total, from, total);
    if rows != [] {
      var s, t := rows[0], others[0];
      FillForward(rows[1..], a, n, total, from + s.amount, total);
      FillForward(others[1..], a, n, total, from + t.amount, total);
      FitsUnique(s, t, from, a, n, total);
      FillUnique(rows[1..], others[1..], a, n, total, from + s.amount);
      assert rows == [s] + rows[1..] && others == [t] + others[1..];
    }
  }

  // ---------------------------------------------------------------------------
  // The merge that builds the tiling
  // ---------------------------------------------------------------------------

  /** The slice to cut at `at`, where neither source `i` nor need `j` is exhausted. */
  function Cut(a: seq<nat>, n: seq<nat>, total: int, i: nat, j: nat, at: int): Slice
    requires i < |a| && j < |n|
  {
    Slice(i, j, Min(total, Min(Before(a, i + 1), Before(n, j + 1))) - at)
  }

  /** Walks both lists once, advancing past whatever is exhausted. */
  function Merge(a: seq<nat>, n: seq<nat>, total: int, i: nat, j: nat, at: int): seq<Slice>
    requires i <= |a| && j <= |n|
    decreases Max(0, total - at), |a| - i + |n| - j
  {
    if total <= at || i == |a| || j == |n| then []
    else if Before(a, i + 1) <= at then Merge(a, n, total, i + 1, j, at)
    else if Before(n, j + 1) <= at then Merge(a, n, total, i, j + 1, at)
    else
      var s := Cut(a, n, total, i, j, at);
      [s] + Merge(a, n, total, i, j, at + s.amount)
  }

  /** The slices that pouring `total` from `a` into `n` creates, oldest first. */
  function Pour(a: seq<nat>, n: seq<nat>, total: int): seq<Slice> {
    Merge(a, n, total, 0, 0, 0)
  }

  lemma {:induction false} MergeFills(a: seq<nat>, n: seq<nat>, total: int, i: nat, j: nat, at: int)
    requires i <= |a| && j <= |n|
    requires at <= total <= Whole(a) && total <= Whole(n)
    requires Before(a, i) <= at && Before(n, j) <= at
    ensures Fill(Merge(a, n, total, i, j, at), a, n, total, at, total)
    decreases total - at, |a| - i + |n| - j
  {
    hide Before;
    if total <= at || i == |a| || j == |n| {
    } else if Before(a, i + 1) <= at {
      MergeFills(a, n, total, i + 1, j, at);
    } else if Before(n, j + 1) <= at {
      MergeFills(a, n, total, i, j + 1, at);
    } else {
      var s := Cut(a, n, total, i, j, at);
      MergeFills(a, n, total, i, j, at + s.amount);
      assert ([s] + Merge(a, n, total, i, j, at + s.amount))[1..] == Merge(a, n, total, i, j, at + s.amount);
    }
  }

  /** The merge fills the line, and any list that fills the line is the merge. */
  lemma {:induction false} PourIsTheOnlyTiling(rows: seq<Slice>, a: seq<nat>, n: seq<nat>, total: nat)
    requires total <= Whole(a) && total <= Whole(n)
    ensures Tiles(rows, a, n, total) <==> rows == Pour(a, n, total)
  {
    MergeFills(a, n, total, 0, 0, 0);
    if Tiles(rows, a, n, total) {
      FillUnique(rows, Pour(a, n, total), a, n, total, 0);
    }
  }

  // ---------------------------------------------------------------------------
  // What each source gave and each need received
  // ---------------------------------------------------------------------------

  function Given(rows: seq<Slice>, i: nat): int {
    if rows == [] then 0
    else (if rows[0].source == i then rows[0].amount else 0) + Given(rows[1..], i)
  }

  function Received(rows: seq<Slice>, j: nat): int {
    if rows == [] then 0
    else (if rows[0].sink == j then rows[0].amount else 0) + Received(rows[1..], j)
  }

  /** Filling [at, at + amount) inside cell `c` changes what cell `i` holds only if
      `c` is `i`. */
  lemma {:induction false} FillOneCell(xs: seq<nat>, c: nat, i: nat, at: int, amount: int)
    requires c < |xs| && i < |xs| && 0 < amount
    requires Before(xs, c) <= at && at + amount <= Before(xs, c + 1)
    ensures Clip(at + amount - Before(xs, i), xs[i])
         == Clip(at - Before(xs, i), xs[i]) + (if c == i then amount else 0)
  {
    if c < i { BeforeMonotone(xs, c + 1, i); }
    if i < c { BeforeMonotone(xs, i + 1, c); }
  }

  lemma {:induction false} FillGives(rows: seq<Slice>, a: seq<nat>, n: seq<nat>, total: int, from: int, to: int, i: nat)
    requires Fill(rows, a, n, total, from, to) && i < |a|
    ensures Given(rows, i) == Clip(to - Before(a, i), a[i]) - Clip(from - Before(a, i), a[i])
  {
    if rows != [] {
      FillGives(rows[1..], a, n, total, from + rows[0].amount, to, i);
      FillOneCell(a, rows[0].source, i, from, rows[0].amount);
    }
  }

  lemma {:induction false} FillMeets(rows: seq<Slice>, a: seq<nat>, n: seq<nat>, total: int, from: int, to: int, j: nat)
    requires Fill(rows, a, n, total, from, to) && j < |n|
    ensures Received(rows, j) == Clip(to - Before(n, j), n[j]) - Clip(from - Before(n, j), n[j])
  {
    if rows != [] {
      FillMeets(rows[1..], a, n, total, from + rows[0].amount, to, j);
      FillOneCell(n, rows[0].sink, j, from, rows[0].amount);
    }
  }

  lemma {:induction false} BeforeNonNegative(xs: seq<nat>, i: nat)
    requires i <= |xs|
    ensures 0 <= Before(xs, i)
  {
    BeforeMonotone(xs, 0, i);
  }

  /** Source `i` gives only after every earlier source is spent, and gives all it has
      before a later one gives anything. */
  lemma {:induction false} GivenOldestFirst(rows: seq<Slice>, a: seq<nat>, n: seq<nat>, total: int, i: nat)
    requires Tiles(rows, a, n, total) && i < |a|
    ensures Given(rows, i) == Clip(total - Before(a, i), a[i])
  {
    FillGives(rows, a, n, total, 0, total, i);
    BeforeNonNegative(a, i);
  }

  /** Need `j` receives only after every earlier need is met, and is met in full before
      a later one receives anything. */
  lemma {:induction false} ReceivedOldestFirst(rows: seq<Slice>, a: seq<nat>, n: seq<nat>, total: int, j: nat)
    requires Tiles(rows, a, n, total) && j < |n|
    ensures Received(rows, j) == Clip(total - Before(n, j), n[j])
  {
    FillMeets(rows, a, n, total, 0, total, j);
    BeforeNonNegative(n, j);
  }

  /** Every slice but the first starts past one more boundary than the slice before. */
  lemma {:induction false} FillCount(rows: seq<Slice>, a: seq<nat>, n: seq<nat>, total: int, from: int)
    requires Fill(rows, a, n, total, from, total) && rows != []
    ensures |rows| + rows[0].source + rows[0].sink <= |a| + |n| - 1
  {
    var rest := rows[1..];
    var s := rows[0];
    if rest != [] {
      var t := rest[0];
      FillForward(rest, a, n, total, from + s.amount, total);
      FillCount(rest, a, n, total, from + s.amount);
      if t.source < s.source { BeforeMonotone(a, t.source + 1, s.source); }
      if t.sink < s.sink { BeforeMonotone(n, t.sink + 1, s.sink); }
    }
  }

  /** At most one slice per source and per need, less the one they start with. */
  lemma {:induction false} SliceCount(rows: seq<Slice>, a: seq<nat>, n: seq<nat>, total: int)
    requires Tiles(rows, a, n, total)
    ensures total == 0 <==> rows == []
    ensures rows != [] ==> |rows| <= |a| + |n| - 1
  {
    FillForward(rows, a, n, total, 0, total);
    if rows != [] {
      FillCount(rows, a, n, total, 0);
    }
  }
}
