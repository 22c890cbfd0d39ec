/** The retry engine of the current bot: tenacity's `retry` configured with
    `should_retry_request` as the retry test, an exponential wait, and
    `on_network_exception` as the hook that runs before each sleep. */
module Retry {
  import opened Common
  import opened Faults
  import opened Taxonomy
  import opened Status

  const SleepBeforeRetryMultiplier := 5
  const MaxSleepBeforeRetry := 300
  const ResumeStatus := "Waiting for {} before attempting to resume"

  function Pow2(n: nat): (r: nat)
    ensures r >= 1
  {
    if n == 0 then 1 else 2 * Pow2(n - 1)
  }

  /** The exponential wait (multiplier 5, maximum 300) that tenacity computes after
      the failed attempt number `attempt`. */
  function Backoff(attempt: nat): (s: int)
    requires attempt >= 1
    ensures 0 < s <= MaxSleepBeforeRetry
  {
    Min(SleepBeforeRetryMultiplier * Pow2(attempt - 1), MaxSleepBeforeRetry)
  }

  /** `should_retry_request`: tenacity goes on exactly when the attempt raised one of RETRY_EXCEPTIONS. */
  predicate ShouldRetry<T>(o: Outcome<T>)
  {
    o.Raise? && InRetryExceptions(o.fault)
  }

  /** `should_retry_request` reports a recovery when an attempt after the first succeeds. */
  predicate LogsResumed<T>(o: Outcome<T>, attempt: nat)
  {
    o.Ok? && attempt > 1
  }

  /** `on_network_exception` re-raises a RequestException whose inner exception is
      not a requests network error, before it sleeps. */
  predicate Reraised(f: Fault)
  {
    f.RequestException? && !IsRequestsException(f.original)
  }

  /** The faults after which the call really is attempted again. */
  predicate IsRetried(f: Fault)
  {
    InRetryExceptions(f) && !Reraised(f)
  }

  /** The class whose description is shown: a RequestException is unwrapped one level. */
  function DescribedClass(f: Fault): Fault
  {
    if f.RequestException? then f.original else f
  }

  /** The description `on_network_exception` prints, looked up by exact class. */
  function Description(f: Fault): string
  {
    match DescriptionOf(DescribedClass(f))
    case Some(d) => d.Raw()
    case None => "Reddit server error"
  }

  /** A console notice the retry engine prints: the fault that ended attempt number
      `attempt` (the line announces that attempt's backoff), or a recovery. */
  datatype Notice = RetryNotice(fault: Fault, attempt: nat) | Resumed

  /** The console line of a notice; `humanize` renders a number of seconds. */
  function NoticeLine(n: Notice, humanize: int -> string): ConsoleLine
    requires n.RetryNotice? ==> n.attempt >= 1
  {
    match n
    case RetryNotice(f, attempt) =>
      ConsoleLine(Description(f) + ", retrying after " + humanize(Backoff(attempt)), true)
    case Resumed => ConsoleLine("[green]Successfully resumed", false)
  }

  /** The sleeps after the failed attempt number `attempt`: the countdown of one-second
      ticks, then tenacity's own sleep, which the hook has set to zero. */
  function FailureSleeps(attempt: nat): seq<int>
    requires attempt >= 1
  {
    Repeat(1, Backoff(attempt)) + [0]
  }

  /** What a retried call does with its prescribed outcomes: its result, the sleeps it
      performs and the notices it prints. */
  datatype RetryRun<T> = RetryRun(result: CallResult<T>, sleeps: seq<int>, notices: seq<Notice>)

  /** The retried call from attempt number `attempt` on. */
  function Run<T>(outcomes: seq<Outcome<T>>, attempt: nat): RetryRun<T>
    requires attempt >= 1
    decreases |outcomes|
  {
    if outcomes == [] then RetryRun(Exhausted, [], [])
    else
      match outcomes[0]
      case Ok(v) => RetryRun(Returned(v), [], if LogsResumed(outcomes[0], attempt) then [Resumed] else [])
      case Raise(f) =>
        if !ShouldRetry(outcomes[0]) then RetryRun(Raised(f), [], [])
        else if Reraised(f) then RetryRun(Raised(f), [], [])
        else
          var rest := Run(outcomes[1..], attempt + 1);
          RetryRun(rest.result, FailureSleeps(attempt) + rest.sleeps,
                   [RetryNotice(f, attempt)] + rest.notices)
  }

  /** The wrapped call: attempts the operation once per prescribed outcome until it
      succeeds or raises a fault that is not retried. */
  method NetworkRetry<T>(rep: StatusReporter, outcomes: seq<Outcome<T>>, humanize: int -> string)
    returns (result: CallResult<T>, sleeps: seq<int>, notices: seq<Notice>)
    modifies rep
    ensures RetryRun(result, sleeps, notices) == Run(outcomes, 1)
    ensures rep.prevStatus == old(rep.prevStatus) && rep.prevSubStatus == old(rep.prevSubStatus)
    ensures rep.shown == if |sleeps| == 0 then old(rep.shown) else Render(rep.prevStatus, rep.prevSubStatus)
  {
    var i;
    i, sleeps, notices := RetryAttempts(rep, outcomes, humanize);
    RunStops(outcomes, i);
    if i == |outcomes| {
      result := Exhausted;
    } else {
      result := Settle(outcomes[i]);
      if LogsResumed(outcomes[i], i + 1) {
        notices := notices + [Resumed];
      }
    }
  }

  /** The attempts that fail with a retried fault: how many there are, and their sleeps
      and notices. */
  method RetryAttempts<T>(rep: StatusReporter, outcomes: seq<Outcome<T>>, humanize: int -> string)
    returns (i: nat, sleeps: seq<int>, notices: seq<Notice>)
    modifies rep
    ensures RetriedPrefix(outcomes, i) && (i < |outcomes| ==> !Retries(outcomes[i]))
    ensures sleeps == BackoffSleeps(1, i) && notices == RetryNotices(outcomes[..i], 1)
    ensures rep.prevStatus == old(rep.prevStatus) && rep.prevSubStatus == old(rep.prevSubStatus)
    ensures rep.shown == if |sleeps| == 0 then old(rep.shown) else Render(rep.prevStatus, rep.prevSubStatus)
  {
    i := 0;
    var stop := false;
    sleeps, notices := [], [];
    while i < |outcomes| && !stop
      invariant 0 <= i <= |outcomes|
      invariant RetriedPrefix(outcomes, i)
      invariant stop ==> i < |outcomes| && !Retries(outcomes[i])
      invariant sleeps == BackoffSleeps(1, i)
      invariant notices == RetryNotices(outcomes[..i], 1)
      invariant rep.prevStatus == old(rep.prevStatus) && rep.prevSubStatus == old(rep.prevSubStatus)
      invariant rep.shown == if |sleeps| == 0 then old(rep.shown) else Render(rep.prevStatus, rep.prevSubStatus)
      decreases |outcomes| - i, !stop
    {
      var retry, notice, ticks := Attempt(rep, outcomes[i], i + 1, humanize);
      if retry {
        AttemptSleeps(i, ticks);
        AttemptNotices(outcomes, i);
        notices := notices + notice;
        sleeps := sleeps + (ticks + [0]);
        i := i + 1;
      } else {
        stop := true;
      }
    }
  }

  /** The first `n` outcomes are all faults the engine retries. */
  predicate RetriedPrefix<T>(outcomes: seq<Outcome<T>>, n: nat)
    decreases n
  {
    n <= |outcomes| && (n == 0 || (Retries(outcomes[n - 1]) && RetriedPrefix(outcomes, n - 1)))
  }

  lemma {:induction false} RetriedPrefixMeans<T>(outcomes: seq<Outcome<T>>, n: nat)
    requires RetriedPrefix(outcomes, n)
    ensures n <= |outcomes|
    ensures forall j :: 0 <= j < n ==> outcomes[j].Raise? && IsRetried(outcomes[j].fault)
    decreases n
  {
    if n > 0 {
      RetriedPrefixMeans(outcomes, n - 1);
    }
  }

  /** One more failed attempt extends the sleeps of the failures before it by its own. */
  lemma {:induction false} AttemptSleeps(i: nat, ticks: seq<int>)
    requires ticks == Repeat(1, Backoff(i + 1))
    ensures BackoffSleeps(1, i + 1) == BackoffSleeps(1, i) + (ticks + [0])
  {
    BackoffSleepsSnoc(1, i);
  }

  /** One more failed attempt extends the notices of the failures before it by its own. */
  lemma {:induction false} AttemptNotices<T>(outcomes: seq<Outcome<T>>, i: nat)
    requires i < |outcomes| && outcomes[i].Raise?
    ensures RetryNotices(outcomes[..i + 1], 1)
            == RetryNotices(outcomes[..i], 1) + [RetryNotice(outcomes[i].fault, i + 1)]
  {
    assert outcomes[..i + 1] == outcomes[..i] + [outcomes[i]];
    RetryNoticesSnoc(outcomes[..i], outcomes[i], 1);
  }

  /** When the first `n` outcomes are retried faults and the next is not, the whole run
      is determined: the outcome it ends on, the sleeps and the notices of those faults. */
  lemma {:induction false} RunStops<T>(outcomes: seq<Outcome<T>>, n: nat)
    requires RetriedPrefix(outcomes, n)
    requires n < |outcomes| ==> !Retries(outcomes[n])
    ensures Run(outcomes, 1)
            == RetryRun(if n == |outcomes| then Exhausted else Settle(outcomes[n]),
                        BackoffSleeps(1, n),
                        RetryNotices(outcomes[..n], 1)
                        + (if n < |outcomes| && LogsResumed(outcomes[n], n + 1) then [Resumed] else []))
  {
    RetriedPrefixMeans(outcomes, n);
    RunSettles(outcomes, 1, n);
    RunSleeps(outcomes, 1, n);
    RunNotices(outcomes, 1, n);
  }

  /** tenacity's decision after one attempt: an outcome `should_retry_request` accepts
      goes to `on_network_exception`, and the call is attempted again unless the hook
      re-raised. */
  method Attempt<T>(rep: StatusReporter, outcome: Outcome<T>, attempt: nat, humanize: int -> string)
    returns (retry: bool, notices: seq<Notice>, ticks: seq<int>)
    requires attempt >= 1
    modifies rep
    ensures retry == Retries(outcome)
    ensures retry ==> notices == [RetryNotice(outcome.fault, attempt)]
    ensures retry ==> ticks == Repeat(1, Backoff(attempt))
    ensures rep.prevStatus == old(rep.prevStatus) && rep.prevSubStatus == old(rep.prevSubStatus)
    ensures rep.shown == if retry then Render(rep.prevStatus, rep.prevSubStatus) else old(rep.shown)
  {
    if !ShouldRetry(outcome) {
      return false, [], [];
    }
    var reraise;
    reraise, notices, ticks := OnNetworkException(rep, outcome.fault, attempt, humanize);
    retry := !reraise;
    TicksBySecond(Backoff(attempt));
  }

  /** `on_network_exception`, run before each sleep: re-raises a RequestException that
      wraps anything but a requests network error; otherwise prints the description
      of the fault with the coming sleep, counts that sleep down in one-second ticks,
      and puts the cached status back on the display. */
  method OnNetworkException(rep: StatusReporter, f: Fault, attempt: nat, humanize: int -> string)
    returns (reraise: bool, notices: seq<Notice>, ticks: seq<int>)
    requires attempt >= 1
    modifies rep
    ensures reraise == Reraised(f)
    ensures notices == if reraise then [] else [RetryNotice(f, attempt)]
    ensures ticks == if reraise then [] else Ticks(Backoff(attempt), 1)
    ensures rep.prevStatus == old(rep.prevStatus) && rep.prevSubStatus == old(rep.prevSubStatus)
    ensures rep.shown == if reraise then old(rep.shown) else Render(rep.prevStatus, rep.prevSubStatus)
  {
    if f.RequestException? && !IsRequestsException(f.original) {
      return true, [], [];
    }
    var seconds := Backoff(attempt);
    notices := [RetryNotice(f, attempt)];
    ticks := Wait(rep, seconds, ResumeStatus, 1, humanize);
    rep.UpdateStatus(rep.prevStatus, rep.prevSubStatus, true);
    reraise := false;
  }

  // ---------------------------------------------------------------------------
  // Reference definitions and the lemmas that relate Run to them.

  /** The sleeps after `n` consecutive failed attempts, numbered from `first`. */
  function BackoffSleeps(first: nat, n: nat): seq<int>
    requires first >= 1
    decreases n
  {
    if n == 0 then [] else FailureSleeps(first) + BackoffSleeps(first + 1, n - 1)
  }

  /** The total of the exponential waits for attempts `first` .. `first + n - 1`. */
  function TotalBackoff(first: nat, n: nat): int
    requires first >= 1
    decreases n
  {
    if n == 0 then 0 else Backoff(first) + TotalBackoff(first + 1, n - 1)
  }

  /** The result a retried call settles on when an outcome ends the retrying. */
  function Settle<T>(o: Outcome<T>): CallResult<T>
  {
    match o
    case Ok(v) => Returned(v)
    case Raise(f) => Raised(f)
  }

  /** Whether an outcome makes the engine try again. */
  predicate Retries<T>(o: Outcome<T>)
  {
    o.Raise? && IsRetried(o.fault)
  }

  /** When the first `n` outcomes are retried faults and the next is not, the call
      ends on that next outcome, or is still retrying when there is none. */
  lemma {:induction false} RunSettles<T>(outcomes: seq<Outcome<T>>, attempt: nat, n: nat)
    requires attempt >= 1 && n <= |outcomes|
    requires forall j :: 0 <= j < n ==> outcomes[j].Raise? && IsRetried(outcomes[j].fault)
    requires n < |outcomes| ==> !Retries(outcomes[n])
    ensures Run(outcomes, attempt).result == if n == |outcomes| then Exhausted else Settle(outcomes[n])
    decreases n
  {
    if n > 0 {
      assert Retries(outcomes[0]);
      var tail := outcomes[1..];
      assert forall j :: 0 <= j < n - 1 ==> tail[j] == outcomes[j + 1];
      RunSettles(tail, attempt + 1, n - 1);
    }
  }

  /** ... and meanwhile sleeps the backoff of each of the `n` failures, in order. */
  lemma {:induction false} RunSleeps<T>(outcomes: seq<Outcome<T>>, attempt: nat, n: nat)
    requires attempt >= 1 && n <= |outcomes|
    requires forall j :: 0 <= j < n ==> outcomes[j].Raise? && IsRetried(outcomes[j].fault)
    requires n < |outcomes| ==> !Retries(outcomes[n])
    ensures Run(outcomes, attempt).sleeps == BackoffSleeps(attempt, n)
    decreases n
  {
    if n > 0 {
      assert Retries(outcomes[0]);
      var tail := outcomes[1..];
      assert forall j :: 0 <= j < n - 1 ==> tail[j] == outcomes[j + 1];
      RunSleeps(tail, attempt + 1, n - 1);
    }
  }

  /** ... and prints one notice per failure, with the sleep it causes, and then a
      recovery notice when a success comes after the first attempt. */
  lemma {:induction false} RunNotices<T>(outcomes: seq<Outcome<T>>, attempt: nat, n: nat)
    requires attempt >= 1 && n <= |outcomes|
    requires forall j :: 0 <= j < n ==> outcomes[j].Raise? && IsRetried(outcomes[j].fault)
    requires n < |outcomes| ==> !Retries(outcomes[n])
    ensures Run(outcomes, attempt).notices
            == RetryNotices(outcomes[..n], attempt)
               + (if n < |outcomes| && LogsResumed(outcomes[n], attempt + n) then [Resumed] else [])
    decreases n
  {
    if n > 0 {
      assert Retries(outcomes[0]);
      var tail := outcomes[1..];
      assert forall j :: 0 <= j < n - 1 ==> tail[j] == outcomes[j + 1];
      assert outcomes[..n][1..] == tail[..n - 1];
      RunNotices(tail, attempt + 1, n - 1);
    } else {
      assert outcomes[..0] == [];
    }
  }

  /** The notices of a run of retried faults, numbered from attempt `first`. */
  function RetryNotices<T>(outcomes: seq<Outcome<T>>, first: nat): seq<Notice>
    requires first >= 1
    decreases |outcomes|
  {
    if outcomes == [] then []
    else
      (if outcomes[0].Raise? then [RetryNotice(outcomes[0].fault, first)] else [])
      + RetryNotices(outcomes[1..], first + 1)
  }

  /** For attempts that all failed, one notice per attempt, with the fault and its backoff. */
  lemma {:induction false} RetryNoticesOfFaults<T>(faults: seq<Outcome<T>>, first: nat)
    requires first >= 1
    requires forall j :: 0 <= j < |faults| ==> faults[j].Raise?
    ensures |RetryNotices(faults, first)| == |faults|
    ensures forall j :: 0 <= j < |faults| ==>
              RetryNotices(faults, first)[j] == RetryNotice(faults[j].fault, first + j)
    decreases |faults|
  {
    if faults != [] {
      var tail := faults[1..];
      assert forall j :: 0 <= j < |tail| ==> tail[j] == faults[j + 1];
      RetryNoticesOfFaults(tail, first + 1);
    }
  }

  lemma {:induction false} BackoffSleepsSnoc(first: nat, n: nat)
    requires first >= 1
    ensures BackoffSleeps(first, n + 1) == BackoffSleeps(first, n) + FailureSleeps(first + n)
    decreases n
  {
    if n > 0 {
      BackoffSleepsSnoc(first + 1, n - 1);
    }
  }

  lemma {:induction false} RetryNoticesSnoc<T>(outcomes: seq<Outcome<T>>, last: Outcome<T>, first: nat)
    requires first >= 1
    ensures RetryNotices(outcomes + [last], first)
            == RetryNotices(outcomes, first)
               + (if last.Raise? then [RetryNotice(last.fault, first + |outcomes|)] else [])
    decreases |outcomes|
  {
    var final := if last.Raise? then [RetryNotice(last.fault, first + |outcomes|)] else [];
    if outcomes == [] {
      assert outcomes + [last] == [last];
      assert RetryNotices([last], first) == final + RetryNotices([last][1..], first + 1);
      assert [last][1..] == [];
    } else {
      var whole := outcomes + [last];
      assert whole[0] == outcomes[0];
      assert whole[1..] == outcomes[1..] + [last];
      RetryNoticesSnoc(outcomes[1..], last, first + 1);
      var head := if outcomes[0].Raise? then [RetryNotice(outcomes[0].fault, first)] else [];
      var tail := RetryNotices(outcomes[1..], first + 1);
      assert RetryNotices(whole, first) == head + (tail + final);
      assert head + (tail + final) == (head + tail) + final;
    }
  }

  /** The sleeps of `n` failures add up to the sum of their exponential waits. */
  lemma {:induction false} BackoffSleepsAddUp(first: nat, n: nat)
    requires first >= 1
    ensures Sum(BackoffSleeps(first, n)) == TotalBackoff(first, n)
    decreases n
  {
    if n > 0 {
      FailureSleepsAddUp(first);
      BackoffSleepsAddUp(first + 1, n - 1);
      SumAppend(FailureSleeps(first), BackoffSleeps(first + 1, n - 1));
    }
  }

  /** The k-th consecutive failure sleeps exactly min(300, 5 * 2^(k-1)) seconds in all,
      in one-second ticks: tenacity's own sleep after the countdown is zero. */
  lemma {:induction false} FailureSleepsAddUp(k: nat)
    requires k >= 1
    ensures Sum(FailureSleeps(k)) == Min(MaxSleepBeforeRetry, SleepBeforeRetryMultiplier * Pow2(k - 1))
    ensures |FailureSleeps(k)| == Backoff(k) + 1 && FailureSleeps(k)[Backoff(k)] == 0
    ensures forall i :: 0 <= i < Backoff(k) ==> FailureSleeps(k)[i] == 1
  {
    SumRepeat(1, Backoff(k));
    SumAppend(Repeat(1, Backoff(k)), [0]);
  }

  /** A call that fails `n` times with retried faults and then succeeds returns the
      success value, sleeps the sum of the first `n` backoffs, prints one notice per
      failure, and reports the recovery exactly when there was a failure. */
  lemma {:induction false} RecoversAfterFaults<T>(faults: seq<Fault>, v: T, rest: seq<Outcome<T>>)
    requires forall j :: 0 <= j < |faults| ==> IsRetried(faults[j])
    ensures var outcomes := Faulting<T>(faults) + [Ok(v)] + rest;
            var run := Run(outcomes, 1);
            && run.result == Returned(v)
            && Sum(run.sleeps) == TotalBackoff(1, |faults|)
            && |run.notices| == |faults| + (if |faults| > 0 then 1 else 0)
            && (|faults| > 0 <==> Resumed in run.notices)
  {
    var outcomes := Faulting<T>(faults) + [Ok(v)] + rest;
    var n := |faults|;
    assert forall j :: 0 <= j < n ==> outcomes[j] == Raise(faults[j]);
    assert outcomes[n] == Ok(v);
    RunSettles(outcomes, 1, n);
    RunSleeps(outcomes, 1, n);
    RunNotices(outcomes, 1, n);
    BackoffSleepsAddUp(1, n);
    var run := Run(outcomes, 1);
    var prefix := RetryNotices(outcomes[..n], 1);
    RetryNoticesOfFaults(outcomes[..n], 1);
    assert Resumed !in prefix;
    if n > 0 {
      assert run.notices[n] == Resumed;
    } else {
      assert run.notices == [];
    }
  }

  /** The console lines of a run: the k-th line names the k-th fault's description and
      announces the k-th backoff, as an error; a recovery ends the lines with the
      green "Successfully resumed", not as an error. */
  lemma {:induction false} RunNoticeLines<T>(outcomes: seq<Outcome<T>>, n: nat, humanize: int -> string)
    requires RetriedPrefix(outcomes, n)
    requires n < |outcomes| ==> !Retries(outcomes[n])
    ensures var notices := Run(outcomes, 1).notices;
            && n <= |notices|
            && (forall j :: 0 <= j < n ==>
                  outcomes[j].Raise? && notices[j] == RetryNotice(outcomes[j].fault, j + 1)
                  && NoticeLine(notices[j], humanize)
                     == ConsoleLine(Description(outcomes[j].fault) + ", retrying after "
                                    + humanize(Min(SleepBeforeRetryMultiplier * Pow2(j), MaxSleepBeforeRetry)), true))
            && (|notices| > n <==> n < |outcomes| && outcomes[n].Ok? && n > 0)
            && (|notices| > n ==> notices[n] == Resumed && NoticeLine(notices[n], humanize) == ConsoleLine("[green]Successfully resumed", false))
  {
    RetriedPrefixMeans(outcomes, n);
    RunStops(outcomes, n);
    assert forall j :: 0 <= j < n ==> outcomes[..n][j] == outcomes[j];
    RetryNoticesOfFaults(outcomes[..n], 1);
  }

  /** The outcomes of attempts that raise `faults`, in order. */
  function Faulting<T>(faults: seq<Fault>): (r: seq<Outcome<T>>)
    ensures |r| == |faults|
    ensures forall j :: 0 <= j < |faults| ==> r[j] == Raise(faults[j])
  {
    if faults == [] then [] else [Raise(faults[0])] + Faulting(faults[1..])
  }

  /** Outcomes that open with faults: the first fault, then the others. */
  lemma {:induction false} FaultingSplit<T>(faults: seq<Fault>, after: seq<Outcome<T>>)
    requires faults != []
    ensures (Faulting<T>(faults) + after)[0] == Raise(faults[0])
    ensures (Faulting<T>(faults) + after)[1..] == Faulting<T>(faults[1..]) + after
  {
    var head := Faulting<T>(faults);
    assert head[0] == Raise(faults[0]);
    assert head[1..] == Faulting<T>(faults[1..]);
  }

  /** A first attempt that raises a fault that is not retried propagates that fault at
      once, with no sleep and no notice. */
  lemma {:induction false} NotRetriedPropagates<T>(f: Fault, rest: seq<Outcome<T>>)
    requires !IsRetried(f)
    ensures Run([Raise(f)] + rest, 1) == RetryRun(Raised(f), [], [])
  {
  }

  /** A fault the engine retries never escapes it: whatever the outcomes, a call that
      raises, raises a fault that is not retried. */
  lemma {:induction false} RetriedNeverEscapes<T>(outcomes: seq<Outcome<T>>, attempt: nat)
    requires attempt >= 1
    ensures Run(outcomes, attempt).result.Raised? ==> !IsRetried(Run(outcomes, attempt).result.fault)
    decreases |outcomes|
  {
    if outcomes != [] && Retries(outcomes[0]) {
      RetriedNeverEscapes(outcomes[1..], attempt + 1);
    }
  }

  /** The schedule of the first ten failures: 5, 10, 20, 40, 80, 160, then 300. */
  lemma BackoffSchedule()
    ensures [Backoff(1), Backoff(2), Backoff(3), Backoff(4), Backoff(5),
             Backoff(6), Backoff(7), Backoff(8), Backoff(9), Backoff(10)]
            == [5, 10, 20, 40, 80, 160, 300, 300, 300, 300]
  {
    assert Pow2(6) == 64;
    assert Pow2(9) == 512;
  }

  /** From the seventh failure on the wait stays at its maximum. */
  lemma {:induction false} BackoffCapped(k: nat)
    requires k >= 7
    ensures Backoff(k) == MaxSleepBeforeRetry
  {
    Pow2AtLeast(k - 1, 6);
    assert Pow2(6) == 64;
  }

  lemma {:induction false} Pow2AtLeast(n: nat, m: nat)
    requires m <= n
    ensures Pow2(m) <= Pow2(n)
    decreases n
  {
    if m < n {
      Pow2AtLeast(n - 1, m);
    }
  }

  /** The wait never shrinks from one failure to the next. */
  lemma {:induction false} BackoffGrows(k: nat)
    requires k >= 1
    ensures Backoff(k) <= Backoff(k + 1)
  {
    Pow2AtLeast(k, k - 1);
  }

  /** Descriptions go by exact class: a RequestException shows its inner error's
      description, a class without an entry shows the server-error default, and SSLError,
      retried as a ConnectionError, has no entry of its own. */
  lemma DescriptionByExactClass()
    ensures forall g: Fault :: !g.RequestException? ==> Description(RequestException(g)) == Description(g)
    ensures forall f: Fault :: !f.RequestException? && DescriptionOf(f).None? ==> Description(f) == "Reddit server error"
    ensures Description(RequestException(ConnectionError)) == "Network connection is unavailable"
    ensures Description(RequestException(ReadTimeout)) == "Network timeout occurred"
    ensures IsRetried(SSLError) && Description(SSLError) == "Reddit server error"
    ensures IsRetried(TooManyRequests) && Description(TooManyRequests) == "Reddit server error"
    ensures !IsRetried(RequestException(NetworkError)) && !IsRetried(RequestException(Timeout))
  {
  }
}
