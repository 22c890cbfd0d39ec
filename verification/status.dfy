/** The two-line live status display, and the countdown that keeps it alive while
    the bot sleeps. */
module Status {
  import opened Common
  import opened Strings

  const StopHint := "\n[italic grey50]To stop the bot properly, press Control+C[none]"

  /** The text `update_status` puts on the live display for a status and a sub-status. */
  function Render(status: string, subStatus: string): string
  {
    ">> " + status + (if subStatus != "" then " : " + subStatus else "") + " ..." + StopHint
  }

  /** `status or prev_status`: an empty status keeps the previous one. */
  function EffectiveStatus(status: string, prevStatus: string): string
  {
    if status != "" then status else prevStatus
  }

  /** One line that `console_log` prints above the live display. */
  datatype ConsoleLine = ConsoleLine(text: string, isError: bool)

  /** The state of the display: the cached status and sub-status, and the text shown. */
  datatype Screen = Screen(status: string, subStatus: string, shown: string)

  /** The screen right after `update_status(status, subStatus)` with a non-empty status. */
  function Shown(status: string, subStatus: string): Screen
  {
    Screen(status, subStatus, Render(status, subStatus))
  }

  /** The module-level state behind `update_status`: the cached status and
      sub-status, and what the live display shows. */
  class StatusReporter {
    var prevStatus: string
    var prevSubStatus: string
    var shown: string

    constructor ()
      ensures prevStatus == "" && prevSubStatus == "" && shown == ""
    {
      prevStatus, prevSubStatus, shown := "", "", "";
    }

    function Current(): Screen
      reads this
    {
      Screen(prevStatus, prevSubStatus, shown)
    }

    /** Shows `status` (or the cached status when it is empty) with `subStatus`;
        only when `cache` is set does it remember them for later calls. */
    method UpdateStatus(status: string, subStatus: string, cache: bool)
      modifies this
      ensures shown == Render(EffectiveStatus(status, old(prevStatus)), subStatus)
      ensures cache ==> prevStatus == EffectiveStatus(status, old(prevStatus)) && prevSubStatus == subStatus
      ensures !cache ==> prevStatus == old(prevStatus) && prevSubStatus == old(prevSubStatus)
    {
      var s := EffectiveStatus(status, prevStatus);
      if cache {
        prevStatus := s;
        prevSubStatus := subStatus;
      }
      shown := Render(s, subStatus);
    }
  }

  /** The sleeps `wait` performs: one per tick of `freq` seconds while time is
      left, the last one cut down to what is left. */
  function Ticks(total: int, freq: int): seq<int>
    requires freq > 0
    decreases if total > 0 then total else 0
  {
    if total <= 0 then [] else [Min(freq, total)] + Ticks(total - freq, freq)
  }

  /** A countdown in one-second ticks is one tick of a second per second. */
  lemma {:induction false} TicksBySecond(total: nat)
    ensures Ticks(total, 1) == Repeat(1, total)
    decreases total
  {
    if total > 0 {
      TicksBySecond(total - 1);
      assert Repeat(1, total) == [1] + Repeat(1, total - 1);
    }
  }

  /** The time left at the last tick of a countdown of `total` seconds. */
  function LastRemaining(total: int, freq: int): (r: int)
    requires freq > 0 && total > 0
    ensures 0 < r <= freq
    decreases total
  {
    if total <= freq then total else LastRemaining(total - freq, freq)
  }

  /** What the display shows at a tick of the countdown with `left` seconds left. */
  function CountdownFrame(status: string, left: string, prevStatus: string): string
  {
    Render(EffectiveStatus(FormatOne(status, left), prevStatus), "")
  }

  /** `wait`: counts `totalTime` down in ticks of `freq` seconds, showing the time
      left at each tick without touching the cached status. `humanize` stands for
      the human-readable rendering of a number of seconds. */
  method Wait(rep: StatusReporter, totalTime: int, status: string, freq: int, humanize: int -> string)
    returns (ticks: seq<int>)
    requires freq > 0
    modifies rep
    ensures ticks == Ticks(totalTime, freq)
    ensures rep.prevStatus == old(rep.prevStatus) && rep.prevSubStatus == old(rep.prevSubStatus)
    ensures rep.shown == if totalTime > 0
                         then CountdownFrame(status, humanize(LastRemaining(totalTime, freq)), rep.prevStatus)
                         else old(rep.shown)
  {
    var remaining := totalTime;
    ticks := [];
    while remaining > 0
      invariant remaining <= totalTime
      invariant remaining < totalTime ==> totalTime > 0
      invariant ticks + Ticks(remaining, freq) == Ticks(totalTime, freq)
      invariant rep.prevStatus == old(rep.prevStatus) && rep.prevSubStatus == old(rep.prevSubStatus)
      invariant remaining == totalTime ==> rep.shown == old(rep.shown)
      invariant remaining > 0 ==> LastRemaining(remaining, freq) == LastRemaining(totalTime, freq)
      invariant remaining < totalTime ==>
        rep.shown == CountdownFrame(status, humanize(remaining + freq), rep.prevStatus)
        && (remaining <= 0 ==> remaining + freq == LastRemaining(totalTime, freq))
      decreases remaining
    {
      assert Ticks(remaining, freq) == [Min(freq, remaining)] + Ticks(remaining - freq, freq);
      rep.UpdateStatus(FormatOne(status, humanize(remaining)), "", false);
      ticks := ticks + [Min(freq, remaining)];
      remaining := remaining - freq;
    }
  }

  /** The ticks of a countdown add up to exactly the time asked for, and there are none
      when no time is asked for. */
  lemma {:induction false} TicksAddUp(total: int, freq: int)
    requires freq > 0
    ensures Sum(Ticks(total, freq)) == Max(0, total)
    decreases if total > 0 then total else 0
  {
    if total > 0 {
      TicksAddUp(total - freq, freq);
    }
  }

  /** A countdown of `total > 0` seconds takes ceil(total / freq) ticks. */
  lemma {:induction false} TicksCount(total: int, freq: int)
    requires freq > 0 && total > 0
    ensures (|Ticks(total, freq)| - 1) * freq < total <= |Ticks(total, freq)| * freq
    ensures |Ticks(total, freq)| == (total + freq - 1) / freq
  {
    TicksBounds(total, freq);
    DivideCeiling(total, freq, |Ticks(total, freq)|);
  }

  lemma {:induction false} TicksBounds(total: int, freq: int)
    requires freq > 0 && total > 0
    ensures (|Ticks(total, freq)| - 1) * freq < total <= |Ticks(total, freq)| * freq
    decreases total
  {
    var n := |Ticks(total, freq)|;
    assert n == 1 + |Ticks(total - freq, freq)|;
    if total > freq {
      TicksBounds(total - freq, freq);
      assert (n - 1) * freq == (n - 2) * freq + freq;
      assert n * freq == (n - 1) * freq + freq;
    } else {
      assert n == 1;
    }
  }

  lemma {:induction false} DivideCeiling(total: int, freq: int, n: int)
    requires freq > 0 && (n - 1) * freq < total <= n * freq
    ensures n == (total + freq - 1) / freq
  {
    var q, r := (total + freq - 1) / freq, (total + freq - 1) % freq;
    assert total + freq - 1 == q * freq + r && 0 <= r < freq;
    assert n * freq == (n - 1) * freq + freq;
    assert (q - n) * freq == q * freq - n * freq;
    ZeroMultiple(q - n, freq);
  }

  lemma {:induction false} ZeroMultiple(d: int, f: int)
    requires f > 0 && -f < d * f < f
    ensures d == 0
  {
    if d != 0 {
      var a := if d > 0 then d else -d;
      AtLeastOnce(a, f);
    }
  }

  lemma {:induction false} AtLeastOnce(a: int, f: int)
    requires a >= 1 && f > 0
    ensures a * f >= f
    decreases a
  {
    if a > 1 {
      AtLeastOnce(a - 1, f);
      assert a * f == (a - 1) * f + f;
    }
  }

  /** Every tick lasts `freq` seconds, except the last, which lasts what is left. */
  lemma {:induction false} TicksShape(total: int, freq: int, i: int)
    requires freq > 0 && 0 <= i < |Ticks(total, freq)|
    ensures 0 < Ticks(total, freq)[i] <= freq
    ensures i < |Ticks(total, freq)| - 1 ==> Ticks(total, freq)[i] == freq
    ensures i == |Ticks(total, freq)| - 1 ==> Ticks(total, freq)[i] == LastRemaining(total, freq)
    decreases if total > 0 then total else 0
  {
    if i > 0 {
      TicksShape(total - freq, freq, i - 1);
    }
  }
}
