/**
 `AnalyticsCacheService`: workers that miss the cache compete for a lease, and its owner
 computes and publishes the value.  A command whose reply is lost may have run, may
 never run, or may run later.  Times are milliseconds; a key is gone once the clock has
 passed its expiry.
 */
module AnalyticsLease {
  import opened Wrappers

  /** Where a call of `get_or_compute` stands.  Once it has left the protocol only commands
      it sent earlier can still arrive. */
  datatype Phase =
    | Polling
    | Owner
    | Computing
    | Left(lateSet: bool, latePublish: bool)

  /** What becomes of a command: answered, run with its answer lost, lost, or delayed. */
  datatype Delivery = Answered | Unanswered | Dropped | Delayed

  datatype Key = Key(worker: nat, expires: int)

  datatype State = State(now: int, lease: Option<Key>, cache: Option<Key>, workers: seq<Phase>)

  datatype Move =
    | Arrive
    | Advance(milliseconds: nat)
    | Hit(i: nat)
    | GiveUp(i: nat)
    | TakeLease(i: nat, delivery: Delivery)
    | LateSet(i: nat)
    | Recheck(i: nat, answered: bool)
    | Publish(i: nat, allowed: bool, delivery: Delivery)
    | LatePublish(i: nat)
    | Release(i: nat)

  const START := State(0, None, None, [])

  const CACHE_MILLISECONDS := 600_000

  function Live(key: Option<Key>, now: int): Option<nat> {
    if key.Some? && now <= key.value.expires then Some(key.value.worker) else None
  }

  /** The worker whose token the lease holds. */
  function LeaseOwner(s: State): Option<nat> { Live(s.lease, s.now) }

  /** The worker whose value is served. */
  function Served(s: State): Option<nat> { Live(s.cache, s.now) }

  predicate Is(s: State, i: nat, p: Phase) { i < |s.workers| && s.workers[i] == p }

  function Become(s: State, i: nat, p: Phase): State
    requires i < |s.workers|
  {
    s.(workers := s.workers[i := p])
  }

  /** `SET lease owner NX PX`. */
  function SetLease(s: State, i: nat, span: nat): State {
    if LeaseOwner(s).None? then s.(lease := Some(Key(i, s.now + span))) else s
  }

  /** `PUBLISH_SCRIPT`. */
  function RunPublish(s: State, i: nat): State {
    if LeaseOwner(s) == Some(i) then s.(cache := Some(Key(i, s.now + CACHE_MILLISECONDS))) else s
  }

  /** `RELEASE_SCRIPT`. */
  function RunRelease(s: State, i: nat): State {
    if LeaseOwner(s) == Some(i) then s.(lease := None) else s
  }

  function Step(s: State, m: Move, span: nat): State {
    match m
    case Arrive => s.(workers := s.workers + [Polling])
    case Advance(milliseconds) => s.(now := s.now + milliseconds)
    case Hit(i) => if Is(s, i, Polling) && Served(s).Some? then Become(s, i, Left(false, false)) else s
    case GiveUp(i) => if Is(s, i, Polling) then Become(s, i, Left(false, false)) else s
    case TakeLease(i, delivery) =>
      if !Is(s, i, Polling) then s
      else (match delivery
        case Answered => if LeaseOwner(s).None? then Become(SetLease(s, i, span), i, Owner) else s
        case Unanswered => Become(SetLease(s, i, span), i, Left(false, false))
        case Dropped => Become(s, i, Left(false, false))
        case Delayed => Become(s, i, Left(true, false)))
    case LateSet(i) =>
      if Is(s, i, Left(true, false)) then Become(SetLease(s, i, span), i, Left(false, false)) else s
    case Recheck(i, answered) =>
      if !Is(s, i, Owner) then s
      else if !answered || Served(s).Some? then Become(s, i, Left(false, false))
      else Become(s, i, Computing)
    case Publish(i, allowed, delivery) =>
      if !Is(s, i, Computing) then s
      else if !allowed then Become(s, i, Left(false, false))
      else (match delivery
        case Answered => Become(RunPublish(s, i), i, Left(false, false))
        case Unanswered => Become(RunPublish(s, i), i, Left(false, false))
        case Dropped => Become(s, i, Left(false, false))
        case Delayed => Become(s, i, Left(false, true)))
    case LatePublish(i) =>
      if Is(s, i, Left(false, true)) then Become(RunPublish(s, i), i, Left(false, false)) else s
    case Release(i) =>
      if i < |s.workers| && s.workers[i].Left? then RunRelease(s, i) else s
  }

  function Run(moves: seq<Move>, span: nat): State {
    if moves == [] then START else Step(Run(moves[..|moves| - 1], span), moves[|moves| - 1], span)
  }

  // ---------------------------------------------------------------------------
  // Publishing
  // ---------------------------------------------------------------------------

  /** Worker `i` computed after seeing no cached value, and may still publish. */
  predicate MayPublish(s: State, i: nat) { Is(s, i, Computing) || Is(s, i, Left(false, true)) }

  /** Worker `i` became the owner and has not sent its last command. */
  predicate Entered(s: State, i: nat) { Is(s, i, Owner) || MayPublish(s, i) }

  /** The move writes the value of worker `i` into the cache. */
  predicate Publishes(s: State, m: Move, i: nat) {
    && LeaseOwner(s) == Some(i)
    && ((m.Publish? && m.i == i && m.allowed && (m.delivery.Answered? || m.delivery.Unanswered?) && Is(s, i, Computing))
        || (m.LatePublish? && m.i == i && Is(s, i, Left(false, true))))
  }

  /** While a worker that may publish holds the lease, nothing is cached. */
  ghost predicate Safe(s: State) {
    forall i: nat :: MayPublish(s, i) && LeaseOwner(s) == Some(i) ==> Served(s).None?
  }

  lemma StepIsSafe(s: State, m: Move, span: nat)
    requires Safe(s)
    ensures Safe(Step(s, m, span))
  {
    var next := Step(s, m, span);
    forall i: nat | MayPublish(next, i) && LeaseOwner(next) == Some(i) ensures Served(next).None? {
      SafeFor(s, m, span, i);
    }
  }

  lemma SafeFor(s: State, m: Move, span: nat, i: nat)
    requires MayPublish(s, i) && LeaseOwner(s) == Some(i) ==> Served(s).None?
    requires MayPublish(Step(s, m, span), i) && LeaseOwner(Step(s, m, span)) == Some(i)
    ensures Served(Step(s, m, span)).None?
  {
  }

  lemma {:induction false} RunIsSafe(moves: seq<Move>, span: nat)
    ensures Safe(Run(moves, span))
  {
    if moves != [] {
      RunIsSafe(moves[..|moves| - 1], span);
      StepIsSafe(Run(moves[..|moves| - 1], span), moves[|moves| - 1], span);
    }
  }

  /** The cache changes only by publishing. */
  lemma OnlyPublishingCaches(s: State, m: Move, span: nat)
    ensures Step(s, m, span).cache != s.cache ==> exists i: nat :: Publishes(s, m, i)
    ensures forall i: nat :: Publishes(s, m, i) ==> Served(Step(s, m, span)) == Some(i)
  {
    if Step(s, m, span).cache != s.cache { assert Publishes(s, m, m.i); }
  }

  /** A publish never overwrites a value that is being served. */
  lemma NeverOverwritesAServedValue(moves: seq<Move>, m: Move, span: nat)
    ensures var s := Run(moves, span); Step(s, m, span).cache != s.cache ==> Served(s).None?
  {
    hide Run;
    RunIsSafe(moves, span);
    OnlyPublishingCaches(Run(moves, span), m, span);
  }

  // ---------------------------------------------------------------------------
  // Holding the lease
  // ---------------------------------------------------------------------------

  /** Move `k` gave worker `i` the lease and told it so. */
  predicate Acquires(moves: seq<Move>, k: nat, i: nat, span: nat)
    requires k < |moves|
  {
    var s := Run(moves[..k], span);
    moves[k] == TakeLease(i, Answered) && Is(s, i, Polling) && LeaseOwner(s).None?
  }

  /** The lease held the token of worker `i` at every moment after the first `from` moves
      up to the first `n`. */
  ghost predicate HeldThroughout(moves: seq<Move>, from: nat, n: nat, i: nat, span: nat)
    requires n <= |moves|
  {
    forall k :: from <= k <= n ==> LeaseOwner(Run(moves[..k], span)) == Some(i)
  }

  /** Once a worker has entered, no command of its can take the lease again. */
  lemma NeverTakesTwice(s: State, m: Move, span: nat, i: nat)
    requires Entered(s, i) && LeaseOwner(s) != Some(i)
    ensures LeaseOwner(Step(s, m, span)) != Some(i)
  {
  }

  lemma EnteredBefore(s: State, m: Move, span: nat, i: nat)
    requires Entered(Step(s, m, span), i)
    ensures Entered(s, i) || (m == TakeLease(i, Answered) && Is(s, i, Polling) && LeaseOwner(s).None?)
  {
  }

  /** A worker that entered and still finds its token in the lease has held it ever since
      it acquired it. */
  lemma {:induction false} HeldSinceAcquired(moves: seq<Move>, n: nat, i: nat, span: nat) returns (k: nat)
    requires n <= |moves| && Entered(Run(moves[..n], span), i) && LeaseOwner(Run(moves[..n], span)) == Some(i)
    ensures k < n && Acquires(moves, k, i, span) && HeldThroughout(moves, k + 1, n, i, span)
  {
    hide Step, LeaseOwner, Entered, Is;
    NothingAtStart(i);
    assert n != 0;
    var before := Run(moves[..n - 1], span);
    assert moves[..n][..n - 1] == moves[..n - 1];
    EnteredBefore(before, moves[n - 1], span, i);
    if Entered(before, i) {
      if LeaseOwner(before) != Some(i) {
        NeverTakesTwice(before, moves[n - 1], span, i);
        assert false;
      }
      k := HeldSinceAcquired(moves, n - 1, i, span);
    } else {
      k := n - 1;
    }
  }

  lemma NothingAtStart(i: nat)
    ensures LeaseOwner(START).None? && !Entered(START, i)
  {
  }

  /** A publish succeeds only for a worker that has held the lease without interruption
      since it acquired it. */
  lemma PublishesOnlyWhileHolding(moves: seq<Move>, n: nat, i: nat, span: nat)
    requires n < |moves| && Publishes(Run(moves[..n], span), moves[n], i)
    ensures exists k :: 0 <= k < n && Acquires(moves, k, i, span) && HeldThroughout(moves, k + 1, n, i, span)
  {
    var k := HeldSinceAcquired(moves, n, i, span);
  }

  // ---------------------------------------------------------------------------
  // A run without faults
  // ---------------------------------------------------------------------------

  /** A worker alone takes the lease, computes and publishes; the value is served for ten
      minutes to the millisecond, and the lease is held for its span and no longer. */
  lemma LoneWorkerPublishes(span: nat, later: nat)
    ensures var owner := Step(Step(START, Arrive, span), TakeLease(0, Answered), span);
      var done := Step(Step(owner, Recheck(0, true), span), Publish(0, true, Answered), span);
      var after := Step(done, Advance(later), span);
      && owner.workers == [Owner] && LeaseOwner(owner) == Some(0)
      && Served(after) == (if later <= 600_000 then Some(0) else None)
      && LeaseOwner(after) == (if later <= span then Some(0) else None)
      && LeaseOwner(Step(after, Release(0), span)).None?
  {
    var owner := Step(Step(START, Arrive, span), TakeLease(0, Answered), span);
    assert owner == State(0, Some(Key(0, span)), None, [Owner]);
    var computing := Step(owner, Recheck(0, true), span);
    assert computing == State(0, Some(Key(0, span)), None, [Computing]);
  }

  /** Only time and its owner's release end a lease: asking for it, other workers' releases
      and every other command leave it where it is. */
  lemma OnlyOwnerOrTimeEndsALease(s: State, m: Move, span: nat, i: nat)
    requires LeaseOwner(s) == Some(i)
    ensures LeaseOwner(Step(s, m, span)) != Some(i) ==> m.Advance? || m == Release(i)
    ensures m.TakeLease? && m.delivery.Answered? ==> Step(s, m, span) == s
  {
  }

  /** A command that arrives late was sent: taking the lease by a worker that asked for it,
      publishing by a worker that had computed as the owner and may publish. */
  lemma OnlySentCommandsArriveLate(s: State, m: Move, span: nat, i: nat)
    requires !Is(s, i, Left(true, false)) && !Is(s, i, Left(false, true)) && !Is(s, i, Left(true, true))
    ensures !Is(Step(s, m, span), i, Left(true, true))
    ensures Is(Step(s, m, span), i, Left(true, false)) ==> m == TakeLease(i, Delayed) && Is(s, i, Polling)
    ensures Is(Step(s, m, span), i, Left(false, true)) ==> m == Publish(i, true, Delayed) && Is(s, i, Computing)
  {
  }
}
