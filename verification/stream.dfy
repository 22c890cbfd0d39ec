/** The main loop of the current bot: it goes through the submission stream, waits
    when the stream has nothing new, skips what `verify_submission` rejects, and posts
    and then saves everything else.  A fault that escapes a call ends the loop. */
module Stream {
  import opened Common
  import opened Faults
  import opened Status
  import opened Policy
  import opened Pipeline

  const WaitStatus := "Waiting for {} before checking for new posts"
  const CheckingStatus := "Checking for new posts"
  const SavingSubStatus := "saving post to Reddit"
  const WaitTick := 60

  /** What the loop does, in order. `Abort` is a fault escaping the loop; `Stall` a
      call whose prescribed outcomes ran out while it was still retrying. */
  datatype Action =
    | Wait(seconds: int)
    | Skip(id: string, reason: Option<string>)
    | Post(id: string, url: string)
    | Save(id: string)
    | Abort(fault: Fault)
    | Stall

  predicate Ends(a: Action)
  {
    a.Abort? || a.Stall?
  }

  /** The action that ends the loop when a call does not return. */
  function Halt<T>(r: CallResult<T>): (a: Action)
    requires !r.Returned?
    ensures Ends(a)
  {
    if r.Raised? then Abort(r.fault) else Stall
  }

  /** What the loop is configured with; `recent` is the list fetched at startup. */
  datatype Settings = Settings(recent: seq<Submission>, catchupLimit: int, checkEvery: int,
                               titleOk: string -> bool, handle: string, config: Config, hooks: Hooks)

  /** One element of the stream (`None` when there is nothing new), with what the calls
      made for it end with: those of `process_submission` and that of `save`. */
  datatype Element = Element(item: Option<Submission>, replies: Replies, save: CallResult<()>)

  /** What the loop has done: its actions, the sleeps, the console lines, and the screen. */
  datatype Effects = Effects(actions: seq<Action>, sleeps: seq<int>, console: seq<ConsoleLine>, screen: Screen)

  function Then(before: Effects, after: Effects): Effects
  {
    Effects(before.actions + after.actions, before.sleeps + after.sleeps,
            before.console + after.console, after.screen)
  }

  /** The screen after a status followed by some sub-statuses. */
  function AfterSubStatuses(status: string, subs: seq<string>): Screen
  {
    if subs == [] then Shown(status, "") else Shown(status, subs[|subs| - 1])
  }

  function ProcessingStatus(s: Submission): string
  {
    "Processing post " + ShortUrl(s)
  }

  /** The verdict on a submission. */
  function VerdictOf(settings: Settings, s: Submission): Verdict
  {
    VerifySubmission(s, settings.recent, settings.catchupLimit, settings.titleOk)
  }

  /** How a submission is processed: `process_submission` with the configured values. */
  type Processor = (Submission, Replies) -> Step<string>

  function Process(settings: Settings): Processor
  {
    (s: Submission, replies: Replies) => ProcessSubmission(s, settings.config, settings.hooks, settings.handle, replies)
  }

  /** One pass of the loop body on an element, from a screen, with `process` standing
      for the processing of a submission (the lemmas below hold whatever it is). */
  function Handling(settings: Settings, process: Processor, e: Element, screen: Screen): Effects
  {
    match e.item
    case None =>
      var total := settings.checkEvery * 60;
      Effects([Wait(total)], Ticks(total, WaitTick), [], Shown(CheckingStatus, ""))
    case Some(s) =>
      var v := VerdictOf(settings, s);
      if v.toSkip then
        Effects([Skip(s.id, v.reason)], [],
                if v.reason.Some? then [ConsoleLine(ShortUrl(s) + " -> Skipped (" + v.reason.value + ")", false)] else [],
                screen)
      else
        var step := process(s, e.replies);
        var during := AfterSubStatuses(ProcessingStatus(s), step.subStatuses);
        if !step.result.Returned? then Effects([Halt(step.result)], [], [], during)
        else
          var line := [ConsoleLine(ShortUrl(s) + " -> " + step.result.value, false)];
          if e.save.Returned? then
            Effects([Post(s.id, step.result.value), Save(s.id)], [], line, Shown(CheckingStatus, ""))
          else
            Effects([Post(s.id, step.result.value), Halt(e.save)], [], line, Shown(ProcessingStatus(s), SavingSubStatus))
  }

  /** The loop has stopped: its last action ended it. */
  predicate Halted(t: Effects)
  {
    |t.actions| > 0 && Ends(t.actions[|t.actions| - 1])
  }

  /** A loop body: what one pass does with an element, from a screen. */
  type Body = (Element, Screen) -> Effects

  /** The body of `main`'s loop. */
  function LoopBody(settings: Settings): Body
  {
    (e: Element, screen: Screen) => Handling(settings, Process(settings), e, screen)
  }

  /** What a loop with body `body` has done after the first `n` elements of the
      stream: it goes on until an action ends it. */
  function Trace(body: Body, stream: seq<Element>, n: nat, start: Screen): Effects
    requires n <= |stream|
  {
    if n == 0 then Effects([], [], [], start)
    else
      var before := Trace(body, stream, n - 1, start);
      if Halted(before) then before else Then(before, body(stream[n - 1], before.screen))
  }

  /** `main` over a finite stream. `humanize` renders a number of seconds. */
  method StreamLoop(rep: StatusReporter, settings: Settings, stream: seq<Element>, humanize: int -> string)
    returns (actions: seq<Action>, sleeps: seq<int>, console: seq<ConsoleLine>)
    modifies rep
    ensures Effects(actions, sleeps, console, rep.Current())
            == Trace(LoopBody(settings), stream, |stream|, old(rep.Current()))
  {
    ghost var start := rep.Current();
    ghost var body := LoopBody(settings);
    actions, sleeps, console := [], [], [];
    var i := 0;
    var halted := false;
    while i < |stream| && !halted
      invariant 0 <= i <= |stream|
      invariant Effects(actions, sleeps, console, rep.Current()) == Trace(body, stream, i, start)
      invariant halted == Halted(Trace(body, stream, i, start))
      decreases |stream| - i
    {
      ghost var before := Trace(body, stream, i, start);
      var h := HandleElement(rep, settings, stream[i], humanize);
      actions, sleeps, console := actions + h.actions, sleeps + h.sleeps, console + h.console;
      halted := |actions| > 0 && Ends(actions[|actions| - 1]);
      i := i + 1;
      assert Trace(body, stream, i, start) == Then(before, h);
    }
    StaysHalted(body, stream, i, |stream|, start);
  }

  /** The loop body on one element. */
  method HandleElement(rep: StatusReporter, settings: Settings, e: Element, humanize: int -> string)
    returns (h: Effects)
    modifies rep
    ensures h == Handling(settings, Process(settings), e, old(rep.Current())) && rep.Current() == h.screen
  {
    match e.item {
      case None =>
        var total := settings.checkEvery * 60;
        var ticks := Status.Wait(rep, total, WaitStatus, WaitTick, humanize);
        rep.UpdateStatus(CheckingStatus, "", true);
        h := Effects([Wait(total)], ticks, [], rep.Current());
      case Some(s) =>
        var v := VerdictOf(settings, s);
        if v.toSkip {
          var lines := if v.reason.Some? then [ConsoleLine(ShortUrl(s) + " -> Skipped (" + v.reason.value + ")", false)] else [];
          h := Effects([Skip(s.id, v.reason)], [], lines, rep.Current());
          return;
        }
        rep.UpdateStatus(ProcessingStatus(s), "", true);
        var step := ProcessSubmission(s, settings.config, settings.hooks, settings.handle, e.replies);
        ShowSubStatuses(rep, step.subStatuses);
        if !step.result.Returned? {
          h := Effects([Halt(step.result)], [], [], rep.Current());
          return;
        }
        var url := step.result.value;
        var line := [ConsoleLine(ShortUrl(s) + " -> " + url, false)];
        rep.UpdateStatus("", SavingSubStatus, true);
        if !e.save.Returned? {
          h := Effects([Post(s.id, url), Halt(e.save)], [], line, rep.Current());
          return;
        }
        rep.UpdateStatus(CheckingStatus, "", true);
        h := Effects([Post(s.id, url), Save(s.id)], [], line, rep.Current());
    }
  }

  /** The `update_status(sub_status=...)` calls made while a submission is processed;
      each retried call in between leaves the display as it found it. */
  method ShowSubStatuses(rep: StatusReporter, subs: seq<string>)
    requires rep.prevStatus != ""
    modifies rep
    ensures rep.Current() == if subs == [] then old(rep.Current()) else Shown(old(rep.prevStatus), subs[|subs| - 1])
  {
    for k := 0 to |subs|
      invariant rep.prevStatus == old(rep.prevStatus)
      invariant k == 0 ==> rep.Current() == old(rep.Current())
      invariant k > 0 ==> rep.Current() == Shown(old(rep.prevStatus), subs[k - 1])
    {
      rep.UpdateStatus("", subs[k], true);
    }
  }

  // ---------------------------------------------------------------------------
  // What the loop promises.

  /** Once stopped, the loop does nothing more. */
  lemma {:induction false} StaysHalted(body: Body, stream: seq<Element>, i: nat, n: nat, start: Screen)
    requires i <= n <= |stream|
    requires i == n || Halted(Trace(body, stream, i, start))
    ensures Trace(body, stream, n, start) == Trace(body, stream, i, start)
    decreases n - i
  {
    if i < n {
      StaysHalted(body, stream, i, n - 1, start);
    }
  }

  /** The ids of the posted submissions, in order. */
  function Posted(actions: seq<Action>): seq<string>
  {
    if actions == [] then [] else (if actions[0].Post? then [actions[0].id] else []) + Posted(actions[1..])
  }

  /** The ids of the saved submissions, in order. */
  function Saved(actions: seq<Action>): seq<string>
  {
    if actions == [] then [] else (if actions[0].Save? then [actions[0].id] else []) + Saved(actions[1..])
  }

  /** The number of waits. */
  function Waits(actions: seq<Action>): nat
  {
    if actions == [] then 0 else (if actions[0].Wait? then 1 else 0) + Waits(actions[1..])
  }

  /** A submission `verify_submission` lets through. */
  predicate Admits(settings: Settings, e: Element)
  {
    e.item.Some? && !VerdictOf(settings, e.item.value).toSkip
  }

  /** The skip policy as a filter on the elements of the stream. */
  function Admission(settings: Settings): Element -> bool
  {
    e => Admits(settings, e)
  }

  /** The id of the submission in `e` when `admits` lets it through. */
  function Chosen(admits: Element -> bool, e: Element): seq<string>
  {
    if admits(e) && e.item.Some? then [e.item.value.id] else []
  }

  /** The ids of the submissions `admits` lets through, in stream order. */
  function Admitted(admits: Element -> bool, elements: seq<Element>): seq<string>
  {
    if elements == [] then []
    else Admitted(admits, elements[..|elements| - 1]) + Chosen(admits, elements[|elements| - 1])
  }

  /** The number of times the stream had nothing new. */
  function Pauses(elements: seq<Element>): nat
  {
    if elements == [] then 0
    else Pauses(elements[..|elements| - 1]) + (if elements[|elements| - 1].item.None? then 1 else 0)
  }

  lemma {:induction false} CountsAppend(a: seq<Action>, b: seq<Action>)
    ensures Posted(a + b) == Posted(a) + Posted(b)
    ensures Saved(a + b) == Saved(a) + Saved(b)
    ensures Waits(a + b) == Waits(a) + Waits(b)
    decreases |a|
  {
    if a == [] {
      assert a + b == b;
    } else {
      assert (a + b)[1..] == a[1..] + b;
      CountsAppend(a[1..], b);
    }
  }

  lemma {:induction false} CountsOne(a: Action)
    ensures Posted([a]) == (if a.Post? then [a.id] else [])
    ensures Saved([a]) == (if a.Save? then [a.id] else [])
    ensures Waits([a]) == (if a.Wait? then 1 else 0)
  {
    assert [a][1..] == [];
  }

  lemma {:induction false} PrefixSnoc(admits: Element -> bool, stream: seq<Element>, n: nat)
    requires 0 < n <= |stream|
    ensures Admitted(admits, stream[..n]) == Admitted(admits, stream[..n - 1]) + Chosen(admits, stream[n - 1])
    ensures Pauses(stream[..n]) == Pauses(stream[..n - 1]) + (if stream[n - 1].item.None? then 1 else 0)
  {
    assert stream[..n][..n - 1] == stream[..n - 1];
    assert stream[..n][n - 1] == stream[n - 1];
  }

  /** What a pass over `e` that does not end the loop contributes: a post and a save
      of the submission when the skip policy admits it, a wait when there was nothing new. */
  predicate Contributes(admits: Element -> bool, e: Element, h: Effects)
  {
    (|h.actions| == 0 || !Ends(h.actions[|h.actions| - 1])) ==>
      && Posted(h.actions) == Chosen(admits, e)
      && Saved(h.actions) == Chosen(admits, e)
      && Waits(h.actions) == (if e.item.None? then 1 else 0)
  }

  /** Each pass of `main`'s loop contributes what the skip policy decides. */
  lemma {:induction false} HandlingCounts(settings: Settings, process: Processor, e: Element, screen: Screen)
    ensures Contributes(Admission(settings), e, Handling(settings, process, e, screen))
  {
    var h := Handling(settings, process, e, screen);
    match e.item {
      case None =>
        CountsOne(h.actions[0]);
      case Some(s) =>
        if VerdictOf(settings, s).toSkip {
          assert !Admits(settings, e);
          CountsOne(h.actions[0]);
        } else {
          var step := process(s, e.replies);
          assert Admits(settings, e);
          if step.result.Returned? && e.save.Returned? {
            var post, save := Post(s.id, step.result.value), Save(s.id);
            assert h.actions == [post] + [save];
            CountsAppend([post], [save]);
            CountsOne(post);
            CountsOne(save);
          }
        }
    }
  }

  /** A step of a loop that has not stopped: the loop had not stopped before it either,
      and the element's own actions do not end it. */
  lemma {:induction false} GoesOn(body: Body, stream: seq<Element>, n: nat, start: Screen)
    requires 0 < n <= |stream|
    requires !Halted(Trace(body, stream, n, start))
    ensures var before := Trace(body, stream, n - 1, start);
            var h := body(stream[n - 1], before.screen);
            && !Halted(before)
            && Trace(body, stream, n, start) == Then(before, h)
            && (|h.actions| == 0 || !Ends(h.actions[|h.actions| - 1]))
  {
    var before := Trace(body, stream, n - 1, start);
    var h := body(stream[n - 1], before.screen);
    if |h.actions| > 0 && !Halted(before) {
      var all := before.actions + h.actions;
      assert all[|all| - 1] == h.actions[|h.actions| - 1];
    }
  }

  /** For a body whose every pass contributes what the skip policy decides: until the
      loop stops, the posts are exactly the admitted submissions, each saved, in stream
      order, and there is one wait per time the stream had nothing new. */
  lemma {:induction false} CountsFollowPolicy(admits: Element -> bool, body: Body, stream: seq<Element>, n: nat, start: Screen)
    requires forall e, screen {:trigger Contributes(admits, e, body(e, screen))} :: Contributes(admits, e, body(e, screen))
    requires n <= |stream|
    requires !Halted(Trace(body, stream, n, start))
    ensures var t := Trace(body, stream, n, start);
            && Posted(t.actions) == Admitted(admits, stream[..n])
            && Saved(t.actions) == Admitted(admits, stream[..n])
            && Waits(t.actions) == Pauses(stream[..n])
    decreases n
  {
    if n > 0 {
      var before := Trace(body, stream, n - 1, start);
      var h := body(stream[n - 1], before.screen);
      GoesOn(body, stream, n, start);
      CountsFollowPolicy(admits, body, stream, n - 1, start);
      assert Contributes(admits, stream[n - 1], h);
      PrefixSnoc(admits, stream, n);
      CountsStep(admits, before.actions, h, stream[..n - 1], stream[n - 1]);
      var all := Trace(body, stream, n, start).actions;
      assert all == before.actions + h.actions;
      assert Posted(all) == Admitted(admits, stream[..n]);
      assert Saved(all) == Admitted(admits, stream[..n]);
      assert Waits(all) == Pauses(stream[..n]);
    } else {
      assert stream[..0] == [];
    }
  }

  /** One more pass that goes on keeps the counts in step with the policy. */
  lemma {:induction false} CountsStep(admits: Element -> bool, before: seq<Action>, h: Effects, prefix: seq<Element>, e: Element)
    requires Posted(before) == Admitted(admits, prefix) && Saved(before) == Admitted(admits, prefix)
    requires Waits(before) == Pauses(prefix)
    requires Contributes(admits, e, h) && (|h.actions| == 0 || !Ends(h.actions[|h.actions| - 1]))
    ensures Posted(before + h.actions) == Admitted(admits, prefix) + Chosen(admits, e)
    ensures Saved(before + h.actions) == Admitted(admits, prefix) + Chosen(admits, e)
    ensures Waits(before + h.actions) == Pauses(prefix) + (if e.item.None? then 1 else 0)
  {
    CountsAppend(before, h.actions);
  }

  /** Until `main`'s loop stops, the posted submissions are exactly those the skip
      policy lets through, each posted once and saved, in stream order; and it waited
      once per time the stream had nothing new. */
  lemma {:induction false} PostsExactlyAdmitted(settings: Settings, stream: seq<Element>, n: nat, start: Screen)
    requires n <= |stream|
    requires !Halted(Trace(LoopBody(settings), stream, n, start))
    ensures var t := Trace(LoopBody(settings), stream, n, start);
            && Posted(t.actions) == Admitted(Admission(settings), stream[..n])
            && Saved(t.actions) == Admitted(Admission(settings), stream[..n])
            && Waits(t.actions) == Pauses(stream[..n])
  {
    var body := LoopBody(settings);
    forall e, screen
      ensures Contributes(Admission(settings), e, body(e, screen))
    {
      HandlingCounts(settings, Process(settings), e, screen);
    }
    CountsFollowPolicy(Admission(settings), body, stream, n, start);
  }

  /** The order of the actions: every post is followed at once by the save of the same
      submission or by the end of the loop, and only the last action may end the loop. */
  predicate WellOrdered(actions: seq<Action>)
  {
    && (forall k :: 0 <= k < |actions| && actions[k].Post? ==>
          k + 1 < |actions| && (actions[k + 1] == Save(actions[k].id) || Ends(actions[k + 1])))
    && (forall k :: 0 <= k < |actions| - 1 ==> !Ends(actions[k]))
  }

  /** A pass whose actions are well ordered and do not end on a post. */
  predicate Closed(h: Effects)
  {
    WellOrdered(h.actions) && (|h.actions| == 0 || !h.actions[|h.actions| - 1].Post?)
  }

  lemma {:induction false} HandlingWellOrdered(settings: Settings, process: Processor, e: Element, screen: Screen)
    ensures Closed(Handling(settings, process, e, screen))
  {
  }

  lemma {:induction false} WellOrderedThen(a: seq<Action>, b: seq<Action>)
    requires WellOrdered(a) && WellOrdered(b)
    requires |a| == 0 || !Ends(a[|a| - 1])
    requires |a| == 0 || !a[|a| - 1].Post?
    ensures WellOrdered(a + b)
  {
    var ab := a + b;
    forall k | 0 <= k < |ab| && ab[k].Post?
      ensures k + 1 < |ab| && (ab[k + 1] == Save(ab[k].id) || Ends(ab[k + 1]))
    {
      if k < |a| {
        assert k < |a| - 1;
        assert ab[k] == a[k] && ab[k + 1] == a[k + 1];
      } else {
        assert ab[k] == b[k - |a|];
        assert ab[k + 1] == b[k + 1 - |a|];
      }
    }
    forall k | 0 <= k < |ab| - 1
      ensures !Ends(ab[k])
    {
      if k < |a| {
        assert ab[k] == a[k];
      } else {
        assert ab[k] == b[k - |a|];
      }
    }
  }

  /** For a body whose every pass is closed, the whole trace is well ordered and does
      not end on a post. */
  lemma {:induction false} TraceClosed(body: Body, stream: seq<Element>, n: nat, start: Screen)
    requires forall e, screen {:trigger Closed(body(e, screen))} :: Closed(body(e, screen))
    requires n <= |stream|
    ensures Closed(Trace(body, stream, n, start))
    decreases n
  {
    if n > 0 {
      var before := Trace(body, stream, n - 1, start);
      TraceClosed(body, stream, n - 1, start);
      if !Halted(before) {
        var h := body(stream[n - 1], before.screen);
        assert Closed(h);
        WellOrderedThen(before.actions, h.actions);
        if |h.actions| == 0 {
          assert before.actions + h.actions == before.actions;
        } else {
          var all := before.actions + h.actions;
          assert all[|all| - 1] == h.actions[|h.actions| - 1];
        }
      }
    }
  }

  /** Whatever the stream and the calls do, every post of `main`'s loop is followed by
      its save or by the end of the loop, and nothing happens after a fault has ended it. */
  lemma {:induction false} TraceWellOrdered(settings: Settings, stream: seq<Element>, n: nat, start: Screen)
    requires n <= |stream|
    ensures WellOrdered(Trace(LoopBody(settings), stream, n, start).actions)
  {
    var body := LoopBody(settings);
    forall e, screen
      ensures Closed(body(e, screen))
    {
      HandlingWellOrdered(settings, Process(settings), e, screen);
    }
    TraceClosed(body, stream, n, start);
  }

  /** A pause waits CHECK_EVERY minutes in ticks of at most 60 seconds that add up to
      exactly that time, and prints nothing. */
  lemma {:induction false} PauseWaits(settings: Settings, process: Processor, e: Element, screen: Screen)
    requires e.item.None?
    ensures var h := Handling(settings, process, e, screen);
            && h.actions == [Wait(settings.checkEvery * 60)]
            && Sum(h.sleeps) == Max(0, settings.checkEvery * 60)
            && (forall k :: 0 <= k < |h.sleeps| ==> 0 < h.sleeps[k] <= WaitTick)
            && h.console == []
            && h.screen == Shown(CheckingStatus, "")
  {
    var total := settings.checkEvery * 60;
    TicksAddUp(total, WaitTick);
    forall k | 0 <= k < |Ticks(total, WaitTick)|
      ensures 0 < Ticks(total, WaitTick)[k] <= WaitTick
    {
      TicksShape(total, WaitTick, k);
    }
  }

  /** A skipped submission is neither posted nor saved, leaves the display as it is,
      and is reported on the console only when the skip has a reason. */
  lemma {:induction false} SkipIsQuiet(settings: Settings, process: Processor, e: Element, screen: Screen)
    requires e.item.Some? && VerdictOf(settings, e.item.value).toSkip
    ensures var h := Handling(settings, process, e, screen);
            && Posted(h.actions) == [] && Saved(h.actions) == []
            && h.sleeps == []
            && h.screen == screen
            && (|h.console| == 1 <==> VerdictOf(settings, e.item.value).reason.Some?)
            && (h.console == [] <==> PastCatchup(e.item.value, settings.recent, settings.catchupLimit))
  {
  }
}
