/**
 The lockout limiter: a counter key and a hash of reservations in flight, both with the
 same expiry, changed only by atomic scripts.

 `Window` and `After` say what the scripts mean; `LockoutKeys` holds the two Redis keys
 and runs the scripts command by command.  Times are milliseconds, and a key is gone
 once the clock has passed its expiry.
 */
module Lockout {
  import opened Wrappers

  // ---------------------------------------------------------------------------
  // What the scripts mean
  // ---------------------------------------------------------------------------

  /** One lockout window: failures committed in it since the last success, and the
      reservations still in flight. */
  datatype Window = NoWindow | Window(failures: int, pending: set<nat>, deadline: int)

  datatype Event =
    | Reserve(id: nat) | Fail(id: nat) | Succeed(id: nat) | Release(id: nat)
    | FailUnreserved | Clear

  function Count(w: Window): int
    requires w.Window?
  {
    w.failures + |w.pending|
  }

  /** What a window holds; no window holds nothing. */
  function FailuresIn(w: Window): int { if w.Window? then w.failures else 0 }

  function PendingIn(w: Window): set<nat> { if w.Window? then w.pending else {} }

  function CountIn(w: Window): int { FailuresIn(w) + |PendingIn(w)| }

  /** A window is over once its deadline has passed. */
  function Seen(w: Window, now: int): Window {
    if w.Window? && now > w.deadline then NoWindow else w
  }

  predicate InFlight(w: Window, id: nat) { w.Window? && id in w.pending }

  /** In the last millisecond of a window no time is left, and the scripts that renew an
      expired key start its span again. */
  function Renewed(deadline: int, span: int, now: int): int {
    if deadline - now <= 0 then now + span else deadline
  }

  function After(w: Window, e: Event, limit: int, span: int, now: int): Window {
    var v := Seen(w, now);
    match e
    case Reserve(id) =>
      if v.NoWindow? then Window(0, if 1 <= limit then {id} else {}, now + span)
      else if Count(v) >= limit || id in v.pending then v
      else Window(v.failures, v.pending + {id}, Renewed(v.deadline, span, now))
    case Fail(id) =>
      if InFlight(v, id) then Window(v.failures + 1, v.pending - {id}, Renewed(v.deadline, span, now)) else v
    case Succeed(id) =>
      if !InFlight(v, id) then v else if v.pending == {id} then NoWindow else Window(0, v.pending - {id}, v.deadline)
    case Release(id) =>
      if !InFlight(v, id) then v
      else if v.failures == 0 && v.pending == {id} then NoWindow
      else Window(v.failures, v.pending - {id}, v.deadline)
    case FailUnreserved =>
      if v.NoWindow? then Window(1, {}, now + span) else Window(v.failures + 1, v.pending, v.deadline)
    case Clear => NoWindow
  }

  // ---------------------------------------------------------------------------
  // The scripts
  // ---------------------------------------------------------------------------

  /** A Redis value and when it expires, if ever. */
  datatype Timed<T> = Timed(value: T, expires: Option<int>)

  predicate Expired<T>(key: Option<Timed<T>>, now: int) {
    key.Some? && key.value.expires.Some? && now > key.value.expires.value
  }

  /** `PTTL`: -2 without the key, -1 without an expiry. */
  function Pttl<T>(key: Option<Timed<T>>, now: int): int {
    if key.None? then -2
    else if key.value.expires.None? then -1
    else if key.value.expires.value < now then 0 else key.value.expires.value - now
  }

  function PExpire<T>(key: Option<Timed<T>>, milliseconds: int, now: int): Option<Timed<T>> {
    if key.None? then None else Some(Timed(key.value.value, Some(now + milliseconds)))
  }

  function SetKeepTtl(key: Option<Timed<int>>, value: int): Option<Timed<int>> {
    Some(Timed(value, if key.Some? then key.value.expires else None))
  }

  function Ids(hash: Option<Timed<set<nat>>>): set<nat> { if hash.None? then {} else hash.value.value }

  predicate HExists(hash: Option<Timed<set<nat>>>, id: nat) { hash.Some? && id in hash.value.value }

  function HSet(hash: Option<Timed<set<nat>>>, id: nat): Option<Timed<set<nat>>> {
    Some(Timed(Ids(hash) + {id}, if hash.None? then None else hash.value.expires))
  }

  /** A hash without fields is no key. */
  function HDel(hash: Option<Timed<set<nat>>>, id: nat): Option<Timed<set<nat>>> {
    if hash.None? || hash.value.value == {id} then None else Some(Timed(hash.value.value - {id}, hash.value.expires))
  }

  function HLen(hash: Option<Timed<set<nat>>>): nat { if hash.None? then 0 else |hash.value.value| }

  function CeilSeconds(milliseconds: int): int { (milliseconds + 999) / 1000 }

  class LockoutKeys {
    var counter: Option<Timed<int>>
    var inflight: Option<Timed<set<nat>>>

    /** The counter always has an expiry, the in-flight hash lives only beside it and
        expires with it, and every reservation in flight is counted. */
    ghost predicate Valid()
      reads this
    {
      && (counter.Some? ==> counter.value.expires.Some? && HLen(inflight) <= counter.value.value)
      && (inflight.Some? ==>
        counter.Some? && inflight.value.expires == counter.value.expires && inflight.value.value != {})
    }

    /** The window the keys stand for. */
    ghost function View(): Window
      requires Valid()
      reads this
    {
      if counter.None? then NoWindow
      else Window(counter.value.value - HLen(inflight), Ids(inflight), counter.value.expires.value)
    }

    constructor ()
      ensures Valid() && View() == NoWindow
    {
      counter, inflight := None, None;
    }

    /** Redis drops expired keys before a script sees them. */
    method Expire(now: int)
      requires Valid()
      modifies this
      ensures Valid() && View() == Seen(old(View()), now)
    {
      var over := Expired(counter, now);
      if Expired(inflight, now) {
        inflight := None;
      }
      if over {
        counter := None;
      }
    }

    /** How long a refused caller is told to wait: the full seconds until the window is over,
        and one at least.  The branch that repairs a counter without an expiry is never
        taken. */
    method RetryAfter(window: nat, now: int) returns (retryAfter: int)
      requires Valid() && counter.Some?
      ensures 1 <= retryAfter && counter.value.expires.value <= now + 1000 * retryAfter
      ensures 1 < retryAfter ==> now + 1000 * (retryAfter - 1) < counter.value.expires.value
    {
      var pttl := Pttl(counter, now);
      retryAfter := 1;
      if pttl > 0 {
        retryAfter := CeilSeconds(pttl);
        if retryAfter < 1 {
          retryAfter := 1;
        }
      } else if pttl == -1 {
        assert false;
      }
    }

    /** Counts a reservation and puts it in flight; both keys expire together. */
    method Enter(newTotal: int, window: nat, id: nat, now: int)
      requires Valid() && 0 < window
      modifies this
      ensures var deadline := if old(counter).None? then now + window * 1000
        else Renewed(old(counter).value.expires.value, window * 1000, now);
        && counter == Some(Timed(newTotal, Some(deadline)))
        && inflight == Some(Timed(Ids(old(inflight)) + {id}, Some(deadline)))
    {
      if counter.Some? {
        counter := SetKeepTtl(counter, newTotal);
      } else {
        counter := Some(Timed(newTotal, Some(now + window * 1000)));
      }
      inflight := HSet(inflight, id);
      var pttl := Pttl(counter, now);
      if pttl <= 0 {
        counter := PExpire(counter, window * 1000, now);
        inflight := PExpire(inflight, window * 1000, now);
      } else {
        inflight := PExpire(inflight, pttl, now);
      }
    }

    /** `RESERVE_LOCKOUT_LUA`. */
    method ReserveLockout(limit: int, window: nat, id: nat, now: int)
      returns (allowed: bool, retryAfter: int, count: int)
      requires Valid() && 0 < window
      modifies this
      ensures Valid() && View() == After(old(View()), Reserve(id), limit, 1000 * window, now)
      ensures var found := Seen(old(View()), now); allowed <==> 1 <= limit && CountIn(found) < limit
      ensures allowed ==> var found := Seen(old(View()), now);
        && View().Window? && View().failures == FailuresIn(found) && View().pending == PendingIn(found) + {id}
        && count == Count(View()) == CountIn(found) + (if InFlight(found, id) then 0 else 1)
      ensures !allowed && 1 <= limit ==>
        && View() == Seen(old(View()), now) && View().Window?
        && count == Count(View()) && View().deadline <= now + 1000 * retryAfter
      ensures !allowed && 1 <= limit && 1 < retryAfter ==>
        View().Window? && now + 1000 * (retryAfter - 1) < View().deadline
    {
      hide CeilSeconds;
      Expire(now);
      var current := counter;
      var currentValue := 0;
      if current.Some? {
        currentValue := current.value.value;
        if currentValue >= limit {
          retryAfter := RetryAfter(window, now);
          return false, retryAfter, currentValue;
        }
      } else {
        inflight := None;
      }
      if HExists(inflight, id) {
        return true, 0, currentValue;
      }
      var newTotal := currentValue + 1;
      Enter(newTotal, window, id, now);
      var left := Pttl(counter, now);
      retryAfter := if left > 0 then (if CeilSeconds(left) < 1 then 1 else CeilSeconds(left)) else window;
      if newTotal > limit {
        assert limit < 1 && current.None?;
        inflight := HDel(inflight, id);
        counter := SetKeepTtl(counter, currentValue);
        return false, retryAfter, currentValue;
      }
      return true, retryAfter, newTotal;
    }

    /** `COMMIT_LOCKOUT_FAILURE_LUA` with a reservation. */
    method CommitFailure(window: nat, id: nat, now: int) returns (effective: bool)
      requires Valid() && 0 < window
      modifies this
      ensures Valid() && forall limit :: View() == After(old(View()), Fail(id), limit, 1000 * window, now)
      ensures effective == InFlight(Seen(old(View()), now), id)
      ensures !effective ==> View() == Seen(old(View()), now)
      ensures effective ==> var found := Seen(old(View()), now);
        && View().Window? && View().failures == found.failures + 1 && View().pending == found.pending - {id}
    {
      Expire(now);
      if counter.None? {
        inflight := None;
        return false;
      }
      if !HExists(inflight, id) {
        return false;
      }
      inflight := HDel(inflight, id);
      var pttl := Pttl(counter, now);
      if pttl <= 0 {
        counter := PExpire(counter, window * 1000, now);
      }
      if HLen(inflight) == 0 {
        inflight := None;
      } else {
        var left := Pttl(counter, now);
        if left > 0 {
          inflight := PExpire(inflight, left, now);
        }
      }
      return true;
    }

    /** `COMMIT_LOCKOUT_FAILURE_LUA` without one. */
    method RecordFailure(window: nat, now: int)
      requires Valid() && 0 < window
      modifies this
      ensures Valid() && forall limit :: View() == After(old(View()), FailUnreserved, limit, 1000 * window, now)
      ensures var found := Seen(old(View()), now);
        View().Window? && View().failures == FailuresIn(found) + 1 && View().pending == PendingIn(found)
    {
      Expire(now);
      if counter.Some? {
        counter := SetKeepTtl(counter, counter.value.value + 1);
      } else {
        counter := Some(Timed(1, Some(now + window * 1000)));
      }
    }

    /** `COMMIT_LOCKOUT_SUCCESS_LUA` with a reservation. */
    method CommitSuccess(id: nat, now: int) returns (left: int)
      requires Valid()
      modifies this
      ensures Valid() && forall limit, span :: View() == After(old(View()), Succeed(id), limit, span, now)
      ensures left == if InFlight(Seen(old(View()), now), id) && View().Window? then Count(View()) else 0
      ensures !InFlight(Seen(old(View()), now), id) ==> View() == Seen(old(View()), now)
      ensures InFlight(Seen(old(View()), now), id) ==>
        && FailuresIn(View()) == 0 && PendingIn(View()) == PendingIn(Seen(old(View()), now)) - {id}
        && (View().Window? <==> PendingIn(View()) != {})
        && (View().Window? ==> View().deadline == old(View()).deadline)
    {
      Expire(now);
      if counter.None? {
        inflight := None;
        return 0;
      }
      if !HExists(inflight, id) {
        return 0;
      }
      inflight := HDel(inflight, id);
      left := HLen(inflight);
      if left == 0 {
        counter, inflight := None, None;
      } else {
        counter := SetKeepTtl(counter, left);
        var pttl := Pttl(counter, now);
        if pttl > 0 {
          inflight := PExpire(inflight, pttl, now);
        }
      }
    }

    /** `clear`, which is also `COMMIT_LOCKOUT_SUCCESS_LUA` without a reservation. */
    method ClearKeys()
      modifies this
      ensures Valid() && View() == NoWindow
    {
      counter, inflight := None, None;
    }

    /** `RELEASE_LOCKOUT_RESERVATION_LUA`. */
    method ReleaseReservation(id: nat, now: int) returns (effective: bool)
      requires Valid()
      modifies this
      ensures Valid() && forall limit, span :: View() == After(old(View()), Release(id), limit, span, now)
      ensures effective == InFlight(Seen(old(View()), now), id)
      ensures !effective ==> View() == Seen(old(View()), now)
      ensures effective ==> var found := Seen(old(View()), now);
        && FailuresIn(View()) == found.failures && PendingIn(View()) == found.pending - {id}
        && (View().Window? <==> 1 < Count(found))
        && (View().Window? ==> View().deadline == found.deadline)
    {
      Expire(now);
      if counter.None? {
        inflight := None;
        return false;
      }
      if !HExists(inflight, id) {
        return false;
      }
      inflight := HDel(inflight, id);
      var value := counter.value.value - 1;
      var remaining := HLen(inflight);
      if value <= 0 && remaining == 0 {
        counter, inflight := None, None;
      } else {
        counter := SetKeepTtl(counter, if value < 0 then 0 else value);
        if remaining > 0 {
          var pttl := Pttl(counter, now);
          if pttl > 0 {
            inflight := PExpire(inflight, pttl, now);
          }
        } else {
          inflight := None;
        }
      }
      return true;
    }
  }

  /** `LockoutReservation`: a reservation finishes once.  A call whose script did not
      reach Redis is `delivered == false`. */
  class LockoutReservation {
    const keys: LockoutKeys
    const id: nat
    const window: nat
    var committed: bool

    constructor (keys: LockoutKeys, id: nat, window: nat)
      ensures this.keys == keys && this.id == id && this.window == window && !committed
    {
      this.keys, this.id, this.window, committed := keys, id, window, false;
    }

    method CommitFailure(now: int, delivered: bool)
      requires keys.Valid() && 0 < window
      modifies this, keys
      ensures keys.Valid() && committed
      ensures old(committed) || !delivered ==> keys.View() == old(keys.View())
      ensures !old(committed) && delivered ==> forall limit ::
        keys.View() == After(old(keys.View()), Fail(id), limit, 1000 * window, now)
    {
      if !committed {
        committed := true;
        if delivered {
          var effective := keys.CommitFailure(window, id, now);
        }
      }
    }

    method CommitSuccess(now: int, delivered: bool)
      requires keys.Valid()
      modifies this, keys
      ensures keys.Valid() && committed
      ensures old(committed) || !delivered ==> keys.View() == old(keys.View())
      ensures !old(committed) && delivered ==> forall limit, span ::
        keys.View() == After(old(keys.View()), Succeed(id), limit, span, now)
    {
      if !committed {
        committed := true;
        if delivered {
          ghost var before := keys.View();
          var left := keys.CommitSuccess(id, now);
          assert forall limit, span :: keys.View() == After(before, Succeed(id), limit, span, now);
        }
      }
    }

    method Release(now: int, delivered: bool)
      requires keys.Valid()
      modifies this, keys
      ensures keys.Valid() && committed
      ensures old(committed) || !delivered ==> keys.View() == old(keys.View())
      ensures !old(committed) && delivered ==>
        forall limit, span :: keys.View() == After(old(keys.View()), Event.Release(id), limit, span, now)
    {
      if !committed {
        committed := true;
        if delivered {
          var effective := keys.ReleaseReservation(id, now);
        }
      }
    }
  }

  // ---------------------------------------------------------------------------
  // Runs
  // ---------------------------------------------------------------------------

  /** A script call at a time. */
  datatype Call = Call(event: Event, now: int)

  /** The window after any interleaving of calls. */
  function Run(calls: seq<Call>, limit: int, span: int): Window {
    if calls == [] then NoWindow
    else
      var n := |calls| - 1;
      After(Run(calls[..n], limit, span), calls[n].event, limit, span, calls[n].now)
  }

  /** The window call `k` finds. */
  function Found(calls: seq<Call>, k: nat, limit: int, span: int): Window
    requires k < |calls|
  {
    Seen(Run(calls[..k], limit, span), calls[k].now)
  }

  predicate Finishes(e: Event, id: nat) { e == Fail(id) || e == Succeed(id) || e == Release(id) }

  lemma {:induction false} PendingCounted(calls: seq<Call>, limit: int, span: int)
    ensures var w := Run(calls, limit, span); w.Window? ==> 0 <= w.failures
  {
    if calls != [] { PendingCounted(calls[..|calls| - 1], limit, span); }
  }

  /** A step takes a window over the limit exactly when it is an unreserved failure in a
      window that is already full. */
  lemma OnlyUnreservedFailuresExceed(w: Window, e: Event, limit: int, span: int, now: int)
    requires 1 <= limit && (w.Window? ==> 0 <= w.failures && Count(w) <= limit)
    ensures var next := After(w, e, limit, span, now);
      next.Window? && Count(next) > limit <==> e == FailUnreserved && Seen(w, now).Window? && Count(w) == limit
  {
    var v := Seen(w, now);
    if v.Window? && e.Succeed? && e.id in v.pending { assert |v.pending - {e.id}| == |v.pending| - 1; }
  }

  /** Reservations never exceed the limit: a window holds at most `limit` failures and
      reservations in flight together. */
  lemma {:induction false} ReservationsStayWithinLimit(calls: seq<Call>, limit: int, span: int)
    requires 1 <= limit && forall k :: 0 <= k < |calls| ==> calls[k].event != FailUnreserved
    ensures var w := Run(calls, limit, span); w.Window? ==> 0 <= w.failures && Count(w) <= limit
  {
    if calls != [] {
      var n := |calls| - 1;
      ReservationsStayWithinLimit(calls[..n], limit, span);
      PendingCounted(calls, limit, span);
      OnlyUnreservedFailuresExceed(Run(calls[..n], limit, span), calls[n].event, limit, span, calls[n].now);
    }
  }

  /** Unreserved failures do exceed it. */
  lemma UnreservedFailuresPassTheLimit(span: int)
    requires 0 < span
    ensures var w := Run([Call(Reserve(7), 0), Call(FailUnreserved, 0)], 1, span); w.Window? && Count(w) == 2
  {
    var first := [Call(Reserve(7), 0)];
    assert first[..0] == [];
    assert (first + [Call(FailUnreserved, 0)])[..1] == first;
    assert first + [Call(FailUnreserved, 0)] == [Call(Reserve(7), 0), Call(FailUnreserved, 0)];
    assert Run(first, 1, span) == Window(0, {7}, span);
  }

  // ---------------------------------------------------------------------------
  // What the counter counts
  // ---------------------------------------------------------------------------

  /** Call `k` began the window it left: it opened one, or a success wiped its failures. */
  predicate Resets(calls: seq<Call>, k: nat, limit: int, span: int)
    requires k < |calls|
  {
    var found, e := Found(calls, k, limit, span), calls[k].event;
    found.NoWindow? || (e.Succeed? && InFlight(found, e.id)) || e == Clear
  }

  /** Call `k` committed a failure. */
  predicate Fails(calls: seq<Call>, k: nat, limit: int, span: int)
    requires k < |calls|
  {
    var e := calls[k].event;
    e == FailUnreserved || (e.Fail? && InFlight(Found(calls, k, limit, span), e.id))
  }

  /** The failures committed since the last reset, counted from the calls. */
  function FailuresSince(calls: seq<Call>, limit: int, span: int): int {
    if calls == [] then 0
    else
      var n := |calls| - 1;
      (if Resets(calls, n, limit, span) then 0 else FailuresSince(calls[..n], limit, span))
      + (if Fails(calls, n, limit, span) then 1 else 0)
  }

  /** Under any interleaving the counter is the failures committed since the last success
      of its window plus the reservations in flight. */
  lemma {:induction false} CounterIsFailuresPlusInFlight(calls: seq<Call>, limit: int, span: int)
    ensures var w := Run(calls, limit, span); w.Window? ==> Count(w) == FailuresSince(calls, limit, span) + |w.pending|
  {
    if calls != [] {
      var n := |calls| - 1;
      CounterIsFailuresPlusInFlight(calls[..n], limit, span);
    }
  }

  // ---------------------------------------------------------------------------
  // Reservations
  // ---------------------------------------------------------------------------

  lemma StepStaysOut(w: Window, e: Event, id: nat, limit: int, span: int, now: int)
    requires !InFlight(w, id) && e != Reserve(id)
    ensures !InFlight(After(w, e, limit, span, now), id)
  {
  }

  /** A reservation that is not in flight stays out until it is made again. */
  lemma {:induction false} StaysOut(calls: seq<Call>, i: nat, j: nat, id: nat, limit: int, span: int)
    requires i <= j <= |calls| && !InFlight(Run(calls[..i], limit, span), id)
    requires forall k :: i <= k < j ==> calls[k].event != Reserve(id)
    ensures !InFlight(Run(calls[..j], limit, span), id)
  {
    hide After, InFlight;
    if i < j {
      StaysOut(calls, i, j - 1, id, limit, span);
      assert calls[..j][..j - 1] == calls[..j - 1];
      StepStaysOut(Run(calls[..j - 1], limit, span), calls[j - 1].event, id, limit, span, calls[j - 1].now);
    }
  }

  lemma FinishedIsOut(calls: seq<Call>, i: nat, id: nat, limit: int, span: int)
    requires i < |calls| && Finishes(calls[i].event, id)
    ensures !InFlight(Run(calls[..i + 1], limit, span), id)
  {
    assert calls[..i + 1][..i] == calls[..i];
  }

  /** Call `k` was a reservation of `id` that was let through. */
  predicate Admits(calls: seq<Call>, k: nat, id: nat, limit: int, span: int)
    requires k < |calls|
  {
    calls[k].event == Reserve(id) && 1 <= limit && CountIn(Found(calls, k, limit, span)) < limit
  }

  /** Call `k` finished `id`, wiped the window, or found it over. */
  predicate Removes(calls: seq<Call>, k: nat, id: nat, limit: int, span: int)
    requires k < |calls|
  {
    Finishes(calls[k].event, id) || calls[k].event == Clear || Found(calls, k, limit, span).NoWindow?
  }

  /** `id` was let through and nothing removed it since. */
  ghost predicate StillReserved(calls: seq<Call>, id: nat, limit: int, span: int) {
    exists i :: 0 <= i < |calls| && Admits(calls, i, id, limit, span)
             && forall j :: i < j < |calls| ==> !Removes(calls, j, id, limit, span)
  }

  lemma StepInFlight(w: Window, e: Event, id: nat, limit: int, span: int, now: int)
    requires w.Window? ==> 0 <= w.failures
    ensures var found := Seen(w, now);
      InFlight(After(w, e, limit, span, now), id) <==>
        (e == Reserve(id) && 1 <= limit && CountIn(found) < limit)
        || (InFlight(found, id) && !Finishes(e, id) && e != Clear)
  {
    if e.Reserve? && e.id == id && InFlight(Seen(w, now), id) { assert id in w.pending; }
  }

  lemma StillReservedStep(calls: seq<Call>, id: nat, limit: int, span: int)
    requires calls != []
    ensures var n := |calls| - 1;
      StillReserved(calls, id, limit, span) <==>
        Admits(calls, n, id, limit, span)
        || (StillReserved(calls[..n], id, limit, span) && !Removes(calls, n, id, limit, span))
  {
    hide Run, Finishes, CountIn, Seen;
    var n := |calls| - 1;
    var front := calls[..n];
    forall k | 0 <= k < n
      ensures Admits(calls, k, id, limit, span) == Admits(front, k, id, limit, span)
      ensures Removes(calls, k, id, limit, span) == Removes(front, k, id, limit, span)
    {
      assert front[..k] == calls[..k];
    }
    if StillReserved(front, id, limit, span) && !Removes(calls, n, id, limit, span) {
      var i :| 0 <= i < n && Admits(front, i, id, limit, span)
        && forall j :: i < j < n ==> !Removes(front, j, id, limit, span);
      assert Admits(calls, i, id, limit, span);
    }
    if StillReserved(calls, id, limit, span) && !Admits(calls, n, id, limit, span) {
      var i :| 0 <= i < |calls| && Admits(calls, i, id, limit, span)
        && forall j :: i < j < |calls| ==> !Removes(calls, j, id, limit, span);
      assert Admits(front, i, id, limit, span);
    }
  }

  /** Under any interleaving the reservations in flight are exactly those that were let
      through and that nothing finished, cleared or outlived since. */
  lemma {:induction false} InFlightAreTheReserved(calls: seq<Call>, id: nat, limit: int, span: int)
    ensures InFlight(Run(calls, limit, span), id) <==> StillReserved(calls, id, limit, span)
  {
    hide After, Seen, Removes, Admits;
    if calls != [] {
      var n := |calls| - 1;
      InFlightAreTheReserved(calls[..n], id, limit, span);
      PendingCounted(calls[..n], limit, span);
      StepInFlight(Run(calls[..n], limit, span), calls[n].event, id, limit, span, calls[n].now);
      StillReservedStep(calls, id, limit, span);
      LastCall(calls, id, limit, span);
    }
  }

  lemma LastCall(calls: seq<Call>, id: nat, limit: int, span: int)
    requires calls != []
    ensures var n := |calls| - 1;
      var e, found := calls[n].event, Seen(Run(calls[..n], limit, span), calls[n].now);
      && (Admits(calls, n, id, limit, span) <==> e == Reserve(id) && 1 <= limit && CountIn(found) < limit)
      && (Removes(calls, n, id, limit, span) <==> Finishes(e, id) || e == Clear || found.NoWindow?)
      && (InFlight(found, id) <==> found.Window? && InFlight(Run(calls[..n], limit, span), id))
  {
  }

  /** A window that holds nothing is gone. */
  lemma {:induction false} NoEmptyWindow(calls: seq<Call>, limit: int, span: int)
    requires 1 <= limit
    ensures var w := Run(calls, limit, span); w.Window? ==> 1 <= Count(w)
  {
    if calls != [] {
      var n := |calls| - 1;
      var w, e := Run(calls[..n], limit, span), calls[n].event;
      NoEmptyWindow(calls[..n], limit, span);
      PendingCounted(calls[..n], limit, span);
      if w.Window? && (e.Succeed? || e.Release?) {
        var rest := w.pending - {e.id};
        assert w.pending != {e.id} && e.id in w.pending ==> rest != {} && 0 < |rest|;
      }
    }
  }

  /** A reservation takes effect at most once: two calls that both finish it have a new
      reservation of it between them. */
  lemma FinishedAtMostOnce(calls: seq<Call>, i: nat, j: nat, id: nat, limit: int, span: int)
    requires i < j < |calls| && Finishes(calls[i].event, id) && Finishes(calls[j].event, id)
    requires InFlight(Found(calls, i, limit, span), id) && InFlight(Found(calls, j, limit, span), id)
    ensures exists k :: i < k < j && calls[k].event == Reserve(id)
  {
    hide After, Run;
    if forall k :: i < k < j ==> calls[k].event != Reserve(id) {
      FinishedIsOut(calls, i, id, limit, span);
      StaysOut(calls, i + 1, j, id, limit, span);
      assert false;
    }
  }

  lemma FinishingOutside(w: Window, e: Event, id: nat, limit: int, span: int, now: int)
    requires !InFlight(w, id) && Finishes(e, id)
    ensures After(w, e, limit, span, now) == Seen(w, now)
  {
  }

  lemma FoundIsSeen(calls: seq<Call>, k: nat, limit: int, span: int)
    requires k < |calls|
    ensures Found(calls, k, limit, span) == Seen(Run(calls[..k], limit, span), calls[k].now)
  {
  }

  lemma OutOfExpired(calls: seq<Call>, i: nat, id: nat, limit: int, span: int)
    requires i < |calls| && Found(calls, i, limit, span).NoWindow? && calls[i].event != Reserve(id)
    ensures !InFlight(Run(calls[..i + 1], limit, span), id)
  {
    assert calls[..i + 1][..i] == calls[..i];
  }

  /** A reservation left over from an expired window changes nothing later: finishing it
      leaves the window as it is found. */
  lemma LeftoversChangeNothing(calls: seq<Call>, i: nat, j: nat, id: nat, limit: int, span: int)
    requires i < j < |calls| && Found(calls, i, limit, span).NoWindow?
    requires forall k :: i <= k < j ==> calls[k].event != Reserve(id)
    requires Finishes(calls[j].event, id)
    ensures Run(calls[..j + 1], limit, span) == Found(calls, j, limit, span)
  {
    hide After, Found;
    OutOfExpired(calls, i, id, limit, span);
    StaysOut(calls, i + 1, j, id, limit, span);
    FinishingOutside(Run(calls[..j], limit, span), calls[j].event, id, limit, span, calls[j].now);
    FoundIsSeen(calls, j, limit, span);
    assert calls[..j + 1][..j] == calls[..j];
  }

  // ---------------------------------------------------------------------------
  // The deadline
  // ---------------------------------------------------------------------------

  /** Call `k` hits the last millisecond of a window with a script that renews. */
  predicate Renews(calls: seq<Call>, k: nat, limit: int, span: int)
    requires k < |calls|
  {
    RenewsWindow(Found(calls, k, limit, span), calls[k].event, limit, calls[k].now)
  }

  predicate RenewsWindow(found: Window, e: Event, limit: int, now: int) {
    && found.Window? && found.deadline == now
    && ((e.Fail? && InFlight(found, e.id)) || (e.Reserve? && Count(found) < limit && !InFlight(found, e.id)))
  }

  lemma StepDeadline(w: Window, e: Event, limit: int, span: int, now: int)
    ensures var found, next := Seen(w, now), After(w, e, limit, span, now);
      next.Window? ==> next.deadline == if found.NoWindow? then now + span
                                        else w.deadline + (if RenewsWindow(found, e, limit, now) then span else 0)
  {
  }

  /** When the present window was opened. */
  function OpenedAt(calls: seq<Call>, limit: int, span: int): int {
    if calls == [] then 0
    else
      var n := |calls| - 1;
      if Found(calls, n, limit, span).NoWindow? then calls[n].now else OpenedAt(calls[..n], limit, span)
  }

  /** How often it was renewed since. */
  function RenewalsOf(calls: seq<Call>, limit: int, span: int): int {
    if calls == [] then 0
    else
      var n := |calls| - 1;
      if Found(calls, n, limit, span).NoWindow? then 0
      else RenewalsOf(calls[..n], limit, span) + (if Renews(calls, n, limit, span) then 1 else 0)
  }

  /** The deadline is one span after the first reservation, plus one span for every call
      that renewed the window in its last millisecond. */
  lemma {:induction false} DeadlineIsFixedAtOpening(calls: seq<Call>, limit: int, span: int)
    requires 0 < span
    ensures var w := Run(calls, limit, span);
      w.Window? ==> w.deadline == OpenedAt(calls, limit, span) + span + RenewalsOf(calls, limit, span) * span
    ensures 0 <= RenewalsOf(calls, limit, span)
  {
    hide After, RenewsWindow;
    if calls != [] {
      var n := |calls| - 1;
      DeadlineIsFixedAtOpening(calls[..n], limit, span);
      StepDeadline(Run(calls[..n], limit, span), calls[n].event, limit, span, calls[n].now);
      RenewOnce(RenewalsOf(calls[..n], limit, span), span);
    }
  }

  lemma RenewOnce(renewals: int, span: int)
    ensures (renewals + 1) * span == renewals * span + span
  {
  }

  /** So it is never pushed back, exactly when no call renews in the last millisecond. */
  lemma {:induction false} NotPushedBack(calls: seq<Call>, limit: int, span: int)
    requires 0 < span && Run(calls, limit, span).Window?
    ensures Run(calls, limit, span).deadline == OpenedAt(calls, limit, span) + span <==>
      RenewalsOf(calls, limit, span) == 0
  {
    hide Run, OpenedAt, RenewalsOf;
    DeadlineIsFixedAtOpening(calls, limit, span);
    var n := RenewalsOf(calls, limit, span);
    if 0 < n { RenewsMore(n, span); }
  }

  lemma RenewsMore(n: int, span: int)
    requires 0 < n && 0 < span
    ensures 0 < n * span
  {
  }

  /** A failure committed in the last millisecond does push it back. */
  lemma LastMillisecondPushesBack(span: int)
    requires 0 < span
    ensures Run([Call(Reserve(7), 0), Call(Fail(7), span)], 5, span) == Window(1, {}, 2 * span)
  {
    var first := [Call(Reserve(7), 0)];
    assert first[..0] == [];
    assert first + [Call(Fail(7), span)] == [Call(Reserve(7), 0), Call(Fail(7), span)];
    assert (first + [Call(Fail(7), span)])[..1] == first;
    assert Run(first, 5, span) == Window(0, {7}, span);
    assert {7} - {7} == {};
  }
}
