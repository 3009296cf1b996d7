/**
 `_handle`: one message from its first attempt to success, to an acknowledged dead letter, or to
 being left for redelivery. The loop is unbounded, so a call is described by the passes it makes
 before the partition is stopped: any sequence of any length.
 */
module RetryMachine {
  import opened Wrappers
  import opened PartitionProtocol

  datatype Attempt = Succeeds | Fails(failure: FailureClass)

  /** What a pass of the loop would meet: a handler result, or a broker's answer to a publish. */
  datatype Pass = Pass(attempt: Attempt, acknowledged: bool)

  datatype DeadLetter = DeadLetter(why: FailureClass, attempts: nat)

  // ---------------------------------------------------------------------------
  // The policy the documentation promises, said about the whole sequence
  // ---------------------------------------------------------------------------

  /** Unexpected failures among the first n passes. */
  function UnexpectedCount(passes: seq<Pass>, n: nat): nat
    requires n <= |passes|
  {
    if n == 0 then 0
    else UnexpectedCount(passes, n - 1) + (if passes[n - 1].attempt == Fails(Unexpected) then 1 else 0)
  }

  /** After n passes: every attempt failed, none permanently, and fewer than the allowed number unexpectedly. */
  ghost predicate Retrying(passes: seq<Pass>, maxUnexpected: nat, n: nat)
    requires n <= |passes|
  {
    && (forall i :: 0 <= i < n ==> passes[i].attempt.Fails? && !passes[i].attempt.failure.Permanent?)
    && (forall i :: 0 < i <= n ==> UnexpectedCount(passes, i) < maxUnexpected || passes[i - 1].attempt != Fails(Unexpected))
  }

  ghost predicate SucceedsAt(passes: seq<Pass>, maxUnexpected: nat, k: nat) {
    k < |passes| && Retrying(passes, maxUnexpected, k) && passes[k].attempt.Succeeds?
  }

  /** Pass k is the first permanent failure, or the unexpected one that uses up the allowance. */
  ghost predicate JudgedAt(passes: seq<Pass>, maxUnexpected: nat, k: nat) {
    && k < |passes|
    && Retrying(passes, maxUnexpected, k)
    && (passes[k].attempt == Fails(Permanent)
        || (passes[k].attempt == Fails(Unexpected) && UnexpectedCount(passes, k + 1) >= maxUnexpected))
  }

  /** Pass j is the first acknowledged publish after the judgement at pass k. */
  ghost predicate AcknowledgedAt(passes: seq<Pass>, k: nat, j: nat) {
    k < j < |passes| && passes[j].acknowledged && forall i :: k < i < j ==> !passes[i].acknowledged
  }

  ghost predicate Acknowledged(passes: seq<Pass>, k: nat) {
    exists j: nat :: AcknowledgedAt(passes, k, j)
  }

  ghost predicate Unacknowledged(passes: seq<Pass>, k: nat) {
    forall i :: k < i < |passes| ==> !passes[i].acknowledged
  }

  // ---------------------------------------------------------------------------
  // The loop
  // ---------------------------------------------------------------------------

  /** One pass, as a move of the drain task's phase. */
  function PassOn<D>(p: Phase<D>, pass: Pass, maxUnexpected: nat): Phase<D> {
    if p.Ready? then
      (match pass.attempt
       case Succeeds => Handled(p.offset)
       case Fails(f) => FailedPhase(p, f, maxUnexpected))
    else if p.Undeliverable? && pass.acknowledged then Handled(p.offset)
    else p
  }

  function AfterPasses<D>(p: Phase<D>, passes: seq<Pass>, maxUnexpected: nat): Phase<D> {
    if passes == [] then p
    else PassOn(AfterPasses(p, passes[..|passes| - 1], maxUnexpected), passes[|passes| - 1], maxUnexpected)
  }

  /**
   `calls` counts the calls of the message handler. The handler is called until the message succeeds or is
   judged, and never again; the letter records exactly those calls; True means a success or an acknowledged
   publish; False means the passes ran out, which is the partition being stopped.
   */
  method Handle(offset: nat, passes: seq<Pass>, maxUnexpected: nat)
    returns (handled: bool, pending: Option<DeadLetter>, calls: nat)
    requires maxUnexpected >= 1
    ensures calls <= |passes|
    ensures handled && pending.None? ==> calls > 0 && SucceedsAt(passes, maxUnexpected, calls - 1)
    ensures pending.Some? ==>
              calls > 0 && JudgedAt(passes, maxUnexpected, calls - 1)
              && pending.value == DeadLetter(passes[calls - 1].attempt.failure, calls)
    ensures handled && pending.Some? ==> Acknowledged(passes, calls - 1)
    ensures !handled && pending.None? ==> calls == |passes| && Retrying(passes, maxUnexpected, |passes|)
    ensures !handled && pending.Some? ==> forall i :: calls <= i < |passes| ==> !passes[i].acknowledged
    ensures AfterPasses(Ready(offset, 0, 0), passes, maxUnexpected)
            == LoopPhase(offset, handled, pending, calls, UnexpectedCount(passes, calls))
  {
    pending, handled, calls := None, false, 0;
    var unexpectedFailures, attempt := 0, 0;
    while attempt < |passes|       // while not state.stopping.is_set()
      invariant !handled && LoopState(offset, passes, maxUnexpected, attempt, pending, calls, unexpectedFailures)
    {
      var pass := passes[attempt];
      PhaseOneMore(offset, passes, attempt, maxUnexpected);
      if pending.None? && pass.attempt.Fails? {
        FailureIsJudged(passes, maxUnexpected, attempt);
      }
      attempt := attempt + 1;
      if pending.None? {
        calls := calls + 1;
        if pass.attempt.Succeeds? {
          handled := true;
          FinishedStaysFinished(offset, passes, attempt, maxUnexpected);
          return;
        }
        var failure := pass.attempt.failure;
        if failure.Unexpected? {
          unexpectedFailures := unexpectedFailures + 1;
        }
        if failure.Permanent? || (failure.Unexpected? && unexpectedFailures >= maxUnexpected) {
          pending := Some(DeadLetter(failure, attempt));
        }
      } else if pass.acknowledged {
        assert AcknowledgedAt(passes, calls - 1, attempt - 1);
        handled := true;
        FinishedStaysFinished(offset, passes, attempt, maxUnexpected);
        return;
      }
    }
    assert passes[..attempt] == passes;
  }

  /** What the loop's variables say after n passes that have not ended it. */
  ghost predicate LoopState(offset: nat, passes: seq<Pass>, maxUnexpected: nat, n: nat, pending: Option<DeadLetter>, calls: nat, unexpected: nat) {
    && calls <= n <= |passes|
    && PhaseSoFar(offset, passes, n, maxUnexpected) == LoopPhase(offset, false, pending, calls, unexpected)
    && match pending
       case None => calls == n && unexpected == UnexpectedCount(passes, n) && Retrying(passes, maxUnexpected, n)
       case Some(letter) =>
         && calls > 0 && JudgedAt(passes, maxUnexpected, calls - 1)
         && letter == DeadLetter(passes[calls - 1].attempt.failure, calls)
         && (forall i :: calls <= i < n ==> !passes[i].acknowledged)
  }

  /** A failure either uses up the policy's patience or leaves the message retrying. */
  lemma FailureIsJudged(passes: seq<Pass>, maxUnexpected: nat, n: nat)
    requires n < |passes| && Retrying(passes, maxUnexpected, n) && passes[n].attempt.Fails?
    ensures var failure := passes[n].attempt.failure;
            if failure.Permanent? || (failure.Unexpected? && UnexpectedCount(passes, n + 1) >= maxUnexpected)
            then JudgedAt(passes, maxUnexpected, n) else Retrying(passes, maxUnexpected, n + 1)
  {
  }

  /** The phase after the first n passes. */
  function PhaseSoFar(offset: nat, passes: seq<Pass>, n: nat, maxUnexpected: nat): Phase<()>
    requires n <= |passes|
  {
    AfterPasses(Ready(offset, 0, 0), passes[..n], maxUnexpected)
  }

  lemma PhaseOneMore(offset: nat, passes: seq<Pass>, n: nat, maxUnexpected: nat)
    requires n < |passes|
    ensures PhaseSoFar(offset, passes, n + 1, maxUnexpected) == PassOn(PhaseSoFar(offset, passes, n, maxUnexpected), passes[n], maxUnexpected)
  {
    assert passes[..n + 1][..n] == passes[..n];
  }

  /** The phase that the loop's variables stand for. */
  function LoopPhase(offset: nat, handled: bool, pending: Option<DeadLetter>, calls: nat, unexpected: nat): Phase<()> {
    if handled then Handled(offset)
    else if pending.Some? then Undeliverable(offset, pending.value.why, pending.value.attempts)
    else Ready(offset, calls, unexpected)
  }

  lemma {:induction false} FinishedStaysFinished(offset: nat, passes: seq<Pass>, n: nat, maxUnexpected: nat)
    requires n <= |passes|
    requires AfterPasses<()>(Ready(offset, 0, 0), passes[..n], maxUnexpected) == Handled(offset)
    ensures AfterPasses<()>(Ready(offset, 0, 0), passes, maxUnexpected) == Handled(offset)
    decreases |passes|
  {
    if n == |passes| {
      assert passes[..n] == passes;
    } else {
      assert passes[..|passes| - 1][..n] == passes[..n];
      FinishedStaysFinished(offset, passes[..|passes| - 1], n, maxUnexpected);
    }
  }

  // ---------------------------------------------------------------------------
  // The policy is exact
  // ---------------------------------------------------------------------------

  /** Success, judgement and still-retrying exclude each other, and there is at most one deciding pass. */
  lemma OneDecidingPass(passes: seq<Pass>, maxUnexpected: nat, k: nat, n: nat)
    requires JudgedAt(passes, maxUnexpected, k) || SucceedsAt(passes, maxUnexpected, k)
    requires n <= |passes|
    ensures Retrying(passes, maxUnexpected, n) ==> n <= k
    ensures JudgedAt(passes, maxUnexpected, n) || SucceedsAt(passes, maxUnexpected, n) ==> n == k
  {
    assert n > k && Retrying(passes, maxUnexpected, n) ==> passes[k].attempt.Fails?;
  }

  /** What each phase the loop can be in says about the passes made. */
  ghost predicate Explains(p: Phase<()>, offset: nat, passes: seq<Pass>, maxUnexpected: nat) {
    match p
    case Ready(o, attempts, unexpected) =>
      o == offset && attempts == |passes| && unexpected == UnexpectedCount(passes, |passes|)
      && Retrying(passes, maxUnexpected, |passes|)
    case Undeliverable(o, why, attempts) =>
      o == offset && attempts > 0 && JudgedAt(passes, maxUnexpected, attempts - 1)
      && why == passes[attempts - 1].attempt.failure && Unacknowledged(passes, attempts - 1)
    case Handled(o) =>
      o == offset
      && ((exists k: nat :: SucceedsAt(passes, maxUnexpected, k))
          || (exists k: nat :: JudgedAt(passes, maxUnexpected, k) && Acknowledged(passes, k)))
    case _ => false
  }

  lemma ReadyOneMore(p: Phase<()>, offset: nat, passes: seq<Pass>, n: nat, maxUnexpected: nat)
    requires |passes| == n + 1 && Explains(p, offset, passes[..n], maxUnexpected) && p.Ready?
    ensures Explains(PassOn(p, passes[n], maxUnexpected), offset, passes, maxUnexpected)
  {
    RetryingOnPrefix(passes, n, maxUnexpected, n);
    CountOnPrefix(passes, n, n);
    if passes[n].attempt.Fails? { FailureIsJudged(passes, maxUnexpected, n); }
    if passes[n].attempt.Succeeds? { assert SucceedsAt(passes, maxUnexpected, n); }
  }

  lemma UndeliverableOneMore(p: Phase<()>, offset: nat, passes: seq<Pass>, n: nat, maxUnexpected: nat)
    requires |passes| == n + 1 && Explains(p, offset, passes[..n], maxUnexpected) && p.Undeliverable?
    ensures Explains(PassOn(p, passes[n], maxUnexpected), offset, passes, maxUnexpected)
  {
    var k := p.attempts - 1;
    DecidedOnPrefix(passes, n, maxUnexpected, k);
    forall i | k < i < n ensures !passes[i].acknowledged {
      assert passes[i] == passes[..n][i];
    }
    if passes[n].acknowledged {
      assert AcknowledgedAt(passes, k, n);
      assert Acknowledged(passes, k);
    }
  }

  lemma HandledOneMore(p: Phase<()>, offset: nat, passes: seq<Pass>, n: nat, maxUnexpected: nat)
    requires |passes| == n + 1 && Explains(p, offset, passes[..n], maxUnexpected) && p.Handled?
    ensures Explains(p, offset, passes, maxUnexpected)
  {
    if k: nat :| JudgedAt(passes[..n], maxUnexpected, k) && Acknowledged(passes[..n], k) {
      var j: nat :| AcknowledgedAt(passes[..n], k, j);
      DecidedOnPrefix(passes, n, maxUnexpected, k);
      AcknowledgedOnPrefix(passes, n, k, j);
      assert JudgedAt(passes, maxUnexpected, k) && Acknowledged(passes, k);
    } else {
      var k: nat :| SucceedsAt(passes[..n], maxUnexpected, k);
      DecidedOnPrefix(passes, n, maxUnexpected, k);
    }
  }

  lemma {:induction false} LoopExplained(offset: nat, passes: seq<Pass>, maxUnexpected: nat)
    requires maxUnexpected >= 1
    ensures Explains(AfterPasses<()>(Ready(offset, 0, 0), passes, maxUnexpected), offset, passes, maxUnexpected)
  {
    if passes != [] {
      var n := |passes| - 1;
      LoopExplained(offset, passes[..n], maxUnexpected);
      var p := AfterPasses<()>(Ready(offset, 0, 0), passes[..n], maxUnexpected);
      match p
      case Ready(_, _, _) => ReadyOneMore(p, offset, passes, n, maxUnexpected);
      case Undeliverable(_, _, _) => UndeliverableOneMore(p, offset, passes, n, maxUnexpected);
      case Handled(_) => HandledOneMore(p, offset, passes, n, maxUnexpected);
    }
  }

  /**
   The policy is exact: the message waits for its dead letter to be acknowledged iff some pass judged it and no
   later publish was acknowledged, it is settled iff some pass succeeded or a judged letter was acknowledged,
   and it is still being processed iff every attempt so far failed within the allowance.
   */
  lemma OutcomeIsDecided(offset: nat, passes: seq<Pass>, maxUnexpected: nat)
    requires maxUnexpected >= 1
    ensures var p := AfterPasses<()>(Ready(offset, 0, 0), passes, maxUnexpected);
            && (p.Ready? <==> Retrying(passes, maxUnexpected, |passes|))
            && (p.Undeliverable? <==>
                  exists k: nat :: JudgedAt(passes, maxUnexpected, k) && Unacknowledged(passes, k))
            && (p.Handled? <==>
                  (exists k: nat :: SucceedsAt(passes, maxUnexpected, k))
                  || (exists k: nat :: JudgedAt(passes, maxUnexpected, k) && Acknowledged(passes, k)))
  {
    LoopExplained(offset, passes, maxUnexpected);
    var p := AfterPasses<()>(Ready(offset, 0, 0), passes, maxUnexpected);
    forall k: nat | JudgedAt(passes, maxUnexpected, k) || SucceedsAt(passes, maxUnexpected, k)
      ensures !p.Ready?
      ensures p.Undeliverable? ==> k == p.attempts - 1
    {
      OneDecidingPass(passes, maxUnexpected, k, |passes|);
      if p.Undeliverable? { OneDecidingPass(passes, maxUnexpected, k, p.attempts - 1); }
    }
    if p.Handled? {
      var k: nat :| SucceedsAt(passes, maxUnexpected, k)
                    || (JudgedAt(passes, maxUnexpected, k) && Acknowledged(passes, k));
      forall i: nat | JudgedAt(passes, maxUnexpected, i) ensures i == k {
        OneDecidingPass(passes, maxUnexpected, k, i);
      }
    }
  }

  lemma {:induction false} CountOnPrefix(passes: seq<Pass>, m: nat, n: nat)
    requires n <= m <= |passes|
    ensures UnexpectedCount(passes[..m], n) == UnexpectedCount(passes, n)
  {
    if n > 0 { CountOnPrefix(passes, m, n - 1); }
  }

  lemma RetryingOnPrefix(passes: seq<Pass>, m: nat, maxUnexpected: nat, n: nat)
    requires n <= m <= |passes|
    ensures Retrying(passes[..m], maxUnexpected, n) <==> Retrying(passes, maxUnexpected, n)
  {
    forall i: nat | i <= n ensures UnexpectedCount(passes[..m], i) == UnexpectedCount(passes, i) {
      CountOnPrefix(passes, m, i);
    }
    assert forall i :: 0 <= i < n ==> passes[..m][i] == passes[i];
  }

  /** Pass k is judged, or succeeds, on the strength of the passes before it alone. */
  lemma DecidedOnPrefix(passes: seq<Pass>, m: nat, maxUnexpected: nat, k: nat)
    requires k < m <= |passes|
    ensures JudgedAt(passes[..m], maxUnexpected, k) <==> JudgedAt(passes, maxUnexpected, k)
    ensures SucceedsAt(passes[..m], maxUnexpected, k) <==> SucceedsAt(passes, maxUnexpected, k)
  {
    RetryingOnPrefix(passes, m, maxUnexpected, k);
    CountOnPrefix(passes, m, k + 1);
  }

  lemma AcknowledgedOnPrefix(passes: seq<Pass>, m: nat, k: nat, j: nat)
    requires j < m <= |passes|
    ensures AcknowledgedAt(passes[..m], k, j) <==> AcknowledgedAt(passes, k, j)
  {
    assert forall i :: 0 <= i < m ==> passes[..m][i] == passes[i];
  }
}
