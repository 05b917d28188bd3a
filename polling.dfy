/** The download-completion wait of the image bot, as a state machine over
    the ticks it observes.  Each pass of the loop looks at the file (does it
    exist, how large is it), sleeps a second, then compares the time waited
    with the stall threshold.  The clock and the file system are inputs: a
    tick records what one pass observed. */
module Polling {
  import opened Common
  import opened Progress

  /** Seconds of waiting after which the stall notice goes out. */
  const TriggerTime: int := 600

  const StoppedStatus: string := "Stopped"

  /** What one pass observed: whether the file existed, its size, the seconds
      since this wait began (read after the sleep) and the seconds since the
      batch began (what the status record reports). */
  datatype Tick = Tick(present: bool, size: int, waited: int, sinceStart: int)

  predicate Stalling(t: Tick) { t.waited > TriggerTime }

  /** The recorded previous size (`size_pr`) when tick `i` is read: the size
      seen on the last tick before `i` on which the file existed, else 0. */
  function PrevSize(ticks: seq<Tick>, i: nat): int
    requires i <= |ticks|
  {
    if i == 0 then 0
    else if ticks[i - 1].present then ticks[i - 1].size
    else PrevSize(ticks, i - 1)
  }

  /** Tick `i` finds the download complete: the file exists and its size
      equals the recorded previous size. */
  predicate Completes(ticks: seq<Tick>, i: nat)
    requires i < |ticks|
  {
    ticks[i].present && ticks[i].size == PrevSize(ticks, i)
  }

  /** Tick `i` ends the wait: by completing, or by a stall whose status
      update divides by a zero counter. */
  predicate Ends(ticks: seq<Tick>, i: nat, counter: nat)
    requires i < |ticks|
  {
    Completes(ticks, i) || (Stalling(ticks[i]) && counter == 0)
  }

  /** The first of the first `n` ticks that ends the wait. */
  function FirstEnd(ticks: seq<Tick>, counter: nat, n: nat): (r: Option<nat>)
    requires n <= |ticks|
    ensures r.Some? ==> r.value < n && Ends(ticks, r.value, counter)
                        && forall j :: 0 <= j < r.value ==> !Ends(ticks, j, counter)
    ensures r.None? ==> forall j :: 0 <= j < n ==> !Ends(ticks, j, counter)
  {
    if n == 0 then None
    else
      var e := FirstEnd(ticks, counter, n - 1);
      if e.Some? then e
      else if Ends(ticks, n - 1, counter) then Some(n - 1)
      else None
  }

  /** Once found, the first ending tick stays the first as more ticks are read. */
  lemma {:induction false} FirstEndStable(ticks: seq<Tick>, counter: nat, n: nat, m: nat)
    requires n <= m <= |ticks|
    requires FirstEnd(ticks, counter, n).Some?
    ensures FirstEnd(ticks, counter, m) == FirstEnd(ticks, counter, n)
  {
    if m > n {
      FirstEndStable(ticks, counter, n, m - 1);
    }
  }

  /** How many of the first `n` ticks the wait reads before it ends. */
  function Consumed(ticks: seq<Tick>, counter: nat, n: nat): (m: nat)
    requires n <= |ticks|
    ensures m <= n
  {
    var e := FirstEnd(ticks, counter, n);
    if e.Some? then e.value + 1 else n
  }

  /** The last of the first `n` ticks past the stall threshold. */
  function LastStall(ticks: seq<Tick>, n: nat): (r: Option<nat>)
    requires n <= |ticks|
    ensures r.Some? ==> r.value < n && Stalling(ticks[r.value])
                        && forall j :: r.value < j < n ==> !Stalling(ticks[j])
    ensures r.None? ==> forall j :: 0 <= j < n ==> !Stalling(ticks[j])
  {
    if n == 0 then None
    else if Stalling(ticks[n - 1]) then Some(n - 1)
    else LastStall(ticks, n - 1)
  }

  /** The loop's locals (`size_pr`, `d_complete`, `emailstatus`), the
      notices sent, the object's status and displayed record, and whether
      an exception ended the loop. */
  datatype Wait = Wait(sizePr: int, done: bool, emailed: bool, notices: nat,
                       status: string, display: Option<Report>, raised: bool)

  function Start(status: string, display: Option<Report>): Wait
  {
    Wait(0, false, false, 0, status, display, false)
  }

  predicate Halted(w: Wait) { w.done || w.raised }

  /** One pass of the loop; a halted wait reads no more ticks. */
  function Step(w: Wait, t: Tick, counter: nat, imgLen: int): Wait
  {
    if Halted(w) then w
    else
      var done := t.present && t.size == w.sizePr;
      var sizePr := if t.present then t.size else w.sizePr;
      if !Stalling(t) then w.(sizePr := sizePr, done := done)
      else
        var notices := if w.emailed then w.notices else w.notices + 1;
        match GetStatus(StoppedStatus, t.sinceStart, imgLen, counter)
        case Ok(r) =>
          Wait(sizePr, done, true, notices, StoppedStatus, Some(r), false)
        case Err(_) =>
          Wait(sizePr, done, true, notices, StoppedStatus, w.display, true)
  }

  /** The state after the first `n` ticks. */
  function Run(w0: Wait, ticks: seq<Tick>, n: nat, counter: nat, imgLen: int): Wait
    requires n <= |ticks|
  {
    if n == 0 then w0 else Step(Run(w0, ticks, n - 1, counter, imgLen), ticks[n - 1], counter, imgLen)
  }

  /** Once the wait has halted, later ticks change nothing. */
  lemma {:induction false} RunHaltedStable(w0: Wait, ticks: seq<Tick>, n: nat, m: nat, counter: nat, imgLen: int)
    requires n <= m <= |ticks|
    requires Halted(Run(w0, ticks, n, counter, imgLen))
    ensures Run(w0, ticks, m, counter, imgLen) == Run(w0, ticks, n, counter, imgLen)
  {
    if m > n {
      RunHaltedStable(w0, ticks, n, m - 1, counter, imgLen);
    }
  }

  /** What the wait does over the first `n` ticks, stated against the ticks:
      it halts exactly at the first tick that completes (or whose stall
      update raises); `size_pr` tracks the last size seen; the notice goes
      out once, when some tick read so far was past the threshold, and the
      status then reads "Stopped"; the display shows the record of the last
      such tick. */
  lemma RunCharacterised(ticks: seq<Tick>, n: nat, counter: nat, imgLen: int,
                         status: string, display: Option<Report>)
    requires n <= |ticks|
    ensures var w := Run(Start(status, display), ticks, n, counter, imgLen);
            var e := FirstEnd(ticks, counter, n);
            var stall := LastStall(ticks, Consumed(ticks, counter, n));
            && Halted(w) == e.Some?
            && w.done == (e.Some? && Completes(ticks, e.value))
            && w.raised == (e.Some? && Stalling(ticks[e.value]) && counter == 0)
            && w.emailed == stall.Some?
            && w.notices == (if stall.Some? then 1 else 0)
            && w.status == (if stall.Some? then StoppedStatus else status)
            && w.display == (if stall.Some? && counter > 0
                             then Some(StatusReport(StoppedStatus, ticks[stall.value].sinceStart, imgLen, counter))
                             else display)
            && (!Halted(w) ==> w.sizePr == PrevSize(ticks, n))
  {
    RunHalting(ticks, n, counter, imgLen, status, display);
    RunNotices(ticks, n, counter, imgLen, status, display);
  }

  /** The halting half: the wait halts at the first ending tick, completed
      or raised as that tick decides, and otherwise holds the last size seen. */
  lemma {:induction false} RunHalting(ticks: seq<Tick>, n: nat, counter: nat, imgLen: int,
                                       status: string, display: Option<Report>)
    requires n <= |ticks|
    ensures var w := Run(Start(status, display), ticks, n, counter, imgLen);
            var e := FirstEnd(ticks, counter, n);
            && Halted(w) == e.Some?
            && w.done == (e.Some? && Completes(ticks, e.value))
            && w.raised == (e.Some? && Stalling(ticks[e.value]) && counter == 0)
            && (!Halted(w) ==> w.sizePr == PrevSize(ticks, n))
  {
    if n > 0 {
      RunHalting(ticks, n - 1, counter, imgLen, status, display);
    }
  }

  /** The notice half: one notice, the "Stopped" status and the record of
      the last stalled tick, once some tick read was past the threshold. */
  lemma {:induction false} RunNotices(ticks: seq<Tick>, n: nat, counter: nat, imgLen: int,
                                       status: string, display: Option<Report>)
    requires n <= |ticks|
    ensures var w := Run(Start(status, display), ticks, n, counter, imgLen);
            var stall := LastStall(ticks, Consumed(ticks, counter, n));
            && w.emailed == stall.Some?
            && w.notices == (if stall.Some? then 1 else 0)
            && w.status == (if stall.Some? then StoppedStatus else status)
            && w.display == (if stall.Some? && counter > 0
                             then Some(StatusReport(StoppedStatus, ticks[stall.value].sinceStart, imgLen, counter))
                             else display)
  {
    if n > 0 {
      RunNotices(ticks, n - 1, counter, imgLen, status, display);
      RunHalting(ticks, n - 1, counter, imgLen, status, display);
      var w0 := Start(status, display);
      var e := FirstEnd(ticks, counter, n - 1);
      if e.None? {
        assert Consumed(ticks, counter, n) == n;
        assert Consumed(ticks, counter, n - 1) == n - 1;
        StepNotices(Run(w0, ticks, n - 1, counter, imgLen), ticks[n - 1], counter, imgLen);
        assert LastStall(ticks, n) == if Stalling(ticks[n - 1]) then Some(n - 1) else LastStall(ticks, n - 1);
      } else {
        FirstEndStable(ticks, counter, n - 1, n);
        RunHaltedStable(w0, ticks, n - 1, n, counter, imgLen);
        assert Consumed(ticks, counter, n) == Consumed(ticks, counter, n - 1);
      }
    }
  }

  /** One pass of a running wait: a stalled tick sends the notice unless
      it was sent, sets "Stopped" and shows the tick's record when the
      counter allows it. */
  lemma StepNotices(w: Wait, t: Tick, counter: nat, imgLen: int)
    requires !Halted(w)
    ensures var w' := Step(w, t, counter, imgLen);
            && w'.emailed == (w.emailed || Stalling(t))
            && w'.notices == (if Stalling(t) && !w.emailed then w.notices + 1 else w.notices)
            && w'.status == (if Stalling(t) then StoppedStatus else w.status)
            && w'.display == (if Stalling(t) && counter > 0
                              then Some(StatusReport(StoppedStatus, t.sinceStart, imgLen, counter))
                              else w.display)
  {
  }

  /** The outcome of the whole wait over all the ticks supplied. */
  datatype WaitOutcome = Completed | Pending | Raised

  function OutcomeOf(w: Wait): WaitOutcome
  {
    if w.raised then Raised else if w.done then Completed else Pending
  }

  /** With a positive counter the wait ends exactly at the first tick where
      the file exists with the recorded previous size, never raises, and
      sends at most one notice, only if a tick read was past the threshold. */
  lemma WaitEndsAtFirstStableSize(ticks: seq<Tick>, counter: nat, imgLen: int,
                                  status: string, display: Option<Report>)
    requires counter > 0
    ensures var w := Run(Start(status, display), ticks, |ticks|, counter, imgLen);
            && !w.raised
            && (w.done <==> exists k :: 0 <= k < |ticks| && Completes(ticks, k))
            && (forall k :: 0 <= k < |ticks| && Completes(ticks, k) ==>
                  Consumed(ticks, counter, |ticks|) <= k + 1)
            && w.notices <= 1
            && (w.notices == 1 <==> exists j :: 0 <= j < Consumed(ticks, counter, |ticks|) && Stalling(ticks[j]))
  {
    RunCharacterised(ticks, |ticks|, counter, imgLen, status, display);
    var w := Run(Start(status, display), ticks, |ticks|, counter, imgLen);
    var e := FirstEnd(ticks, counter, |ticks|);
    var m := Consumed(ticks, counter, |ticks|);
    forall k | 0 <= k < |ticks| && Completes(ticks, k)
      ensures m <= k + 1
    {
      assert Ends(ticks, k, counter);
    }
    if w.done {
      assert Completes(ticks, e.value);
    }
    if w.notices == 1 {
      var j := LastStall(ticks, m).value;
      assert 0 <= j < m && Stalling(ticks[j]);
    }
  }

  /** The loop's exit: it stops after `i` ticks, having halted there (and
      not before) or read every tick; the state is then the state after all
      the ticks, and `i` is the number of ticks the wait consumes. */
  lemma LoopExit(ticks: seq<Tick>, i: nat, counter: nat, imgLen: int, status: string, display: Option<Report>)
    requires i <= |ticks|
    requires i > 0 ==> !Halted(Run(Start(status, display), ticks, i - 1, counter, imgLen))
    requires Halted(Run(Start(status, display), ticks, i, counter, imgLen)) || i == |ticks|
    ensures Run(Start(status, display), ticks, |ticks|, counter, imgLen) == Run(Start(status, display), ticks, i, counter, imgLen)
    ensures Consumed(ticks, counter, |ticks|) == i
  {
    var w0 := Start(status, display);
    RunCharacterised(ticks, i, counter, imgLen, status, display);
    if Halted(Run(w0, ticks, i, counter, imgLen)) {
      RunHaltedStable(w0, ticks, i, |ticks|, counter, imgLen);
      RunCharacterised(ticks, i - 1, counter, imgLen, status, display);
      FirstEndStable(ticks, counter, i, |ticks|);
    }
  }

  /** How the whole wait ends, stated against the ticks: completed at the
      first tick with a repeated size; pending with no such tick; raised
      only with a zero counter, on a tick past the threshold; one notice and
      the "Stopped" status exactly when a tick read was past the threshold. */
  lemma WaitSummary(ticks: seq<Tick>, counter: nat, imgLen: int, status: string, display: Option<Report>)
    ensures var w := Run(Start(status, display), ticks, |ticks|, counter, imgLen);
            var m := Consumed(ticks, counter, |ticks|);
            var stalled := exists j :: 0 <= j < m && Stalling(ticks[j]);
            && (OutcomeOf(w) == Completed ==>
                  0 < m && Completes(ticks, m - 1) && forall j :: 0 <= j < m - 1 ==> !Completes(ticks, j))
            && (OutcomeOf(w) == Pending ==>
                  m == |ticks| && forall j :: 0 <= j < |ticks| ==> !Completes(ticks, j))
            && (OutcomeOf(w) == Raised ==> counter == 0 && 0 < m && Stalling(ticks[m - 1]))
            && w.notices == (if stalled then 1 else 0)
            && w.status == (if stalled then StoppedStatus else status)
  {
    RunCharacterised(ticks, |ticks|, counter, imgLen, status, display);
    var m := Consumed(ticks, counter, |ticks|);
    var stall := LastStall(ticks, m);
    if stall.Some? {
      assert Stalling(ticks[stall.value]);
    }
    var e := FirstEnd(ticks, counter, |ticks|);
    if e.Some? {
      forall j | 0 <= j < m - 1
        ensures !Completes(ticks, j)
      {
        assert !Ends(ticks, j, counter);
      }
    } else {
      forall j | 0 <= j < |ticks|
        ensures !Completes(ticks, j)
      {
        assert !Ends(ticks, j, counter);
      }
    }
  }

  /** A tick on which the file is missing keeps `size_pr` and cannot complete. */
  lemma AbsentTickKeepsSize(ticks: seq<Tick>, i: nat)
    requires i < |ticks| && !ticks[i].present
    ensures PrevSize(ticks, i + 1) == PrevSize(ticks, i)
    ensures !Completes(ticks, i)
  {
  }

  /** Sizes 10, 20, 30, 30 on four consecutive ticks: the wait ends on the fourth. */
  lemma GrowingThenStableExample()
    ensures var ticks := [Tick(true, 10, 1, 1), Tick(true, 20, 2, 2), Tick(true, 30, 3, 3), Tick(true, 30, 4, 4)];
            FirstEnd(ticks, 1, 4) == Some(3)
  {
    var ticks := [Tick(true, 10, 1, 1), Tick(true, 20, 2, 2), Tick(true, 30, 3, 3), Tick(true, 30, 4, 4)];
    assert PrevSize(ticks, 1) == 10 && PrevSize(ticks, 2) == 20 && PrevSize(ticks, 3) == 30;
    assert !Ends(ticks, 0, 1) && !Ends(ticks, 1, 1) && !Ends(ticks, 2, 1) && Ends(ticks, 3, 1);
  }

  /** The recorded size starts at 0, so an empty file present on the first
      tick completes the wait at once. */
  lemma EmptyFileCompletesAtOnce(t: Tick, counter: nat, imgLen: int, status: string, display: Option<Report>)
    requires t.present && t.size == 0 && !Stalling(t)
    ensures Run(Start(status, display), [t], 1, counter, imgLen).done
    ensures FirstEnd([t], counter, 1) == Some(0)
  {
  }

  /** A stall that lasts several threshold intervals still sends one notice. */
  lemma LongStallOneNotice(status: string, display: Option<Report>)
    ensures var ticks := [Tick(true, 1, 601, 601), Tick(true, 2, 1201, 1201), Tick(true, 3, 1801, 1801)];
            var w := Run(Start(status, display), ticks, 3, 1, 5);
            w.notices == 1 && w.status == StoppedStatus && !Halted(w)
  {
    var ticks := [Tick(true, 1, 601, 601), Tick(true, 2, 1201, 1201), Tick(true, 3, 1801, 1801)];
    RunCharacterised(ticks, 3, 1, 5, status, display);
    assert PrevSize(ticks, 1) == 1 && PrevSize(ticks, 2) == 2;
    assert !Ends(ticks, 0, 1) && !Ends(ticks, 1, 1) && !Ends(ticks, 2, 1);
    assert LastStall(ticks, 3) == Some(2);
  }

  /** During the first image (counter 0) the first tick past the threshold
      raises ZeroDivisionError in the status update, after the notice went out. */
  lemma FirstImageStallRaises(status: string, display: Option<Report>)
    ensures var ticks := [Tick(true, 5, 599, 599), Tick(true, 7, 601, 601)];
            var w := Run(Start(status, display), ticks, 2, 0, 3);
            w.raised && w.notices == 1 && w.status == StoppedStatus
  {
    var ticks := [Tick(true, 5, 599, 599), Tick(true, 7, 601, 601)];
    var w1 := Run(Start(status, display), ticks, 1, 0, 3);
    assert Run(Start(status, display), ticks, 0, 0, 3) == Start(status, display);
    assert w1 == Wait(5, false, false, 0, status, display, false);
    assert Run(Start(status, display), ticks, 2, 0, 3) == Step(w1, ticks[1], 0, 3);
  }
}
