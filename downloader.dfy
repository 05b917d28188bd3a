/** The bookkeeping of the image bot (`ImageDownloader`): the tile file
    name, the completion wait, the per-image counters and the extra pause
    every `sleepAfter` images.  Clicking and typing into the imagery
    application, the status window and the mail transport are not part of
    this model: a requested download is recorded by its file name, a stall
    notice is counted, and the status window is the last record shown. */
module Downloader {
  import opened Common
  import opened PyText
  import opened Progress
  import opened Polling

  const InitialStatus: string := "STOPPED"
  const DownloadingStatus: string := "Downloading"

  /** The file name a tile is saved under: the prefix, the id padded with
      zeros to four characters, the latitude and the longitude each behind
      its two-letter marker and a '_', and the PNG extension.  Latitude and
      longitude are given as the strings Python prints for them. */
  function TileName(id: int, lat: string, lon: string): string
  {
    TilePrefix + ZFill(IntToStr(id), 4) + "_" + LatMarker + lat + "_" + LonMarker + lon + TileExtension
  }

  const TilePrefix: string := "IMG"
  const LatMarker: string := "LT"
  const LonMarker: string := "LG"
  const TileExtension: string := ".png"

  /** Leading zeros do not change the number a digit string denotes. */
  lemma {:induction false} LeadingZerosValue(k: nat, s: string)
    requires AllDigits(s)
    ensures AllDigits(Zeros(k) + s)
    ensures DecimalValue(Zeros(k) + s) == DecimalValue(s)
  {
    var z := Zeros(k) + s;
    if s == [] {
      assert z == Zeros(k);
      if k > 0 {
        assert z[..|z| - 1] == Zeros(k - 1);
        LeadingZerosValue(k - 1, s);
        assert Zeros(k - 1) + s == Zeros(k - 1);
      }
    } else {
      var init := s[..|s| - 1];
      assert z[..|z| - 1] == Zeros(k) + init;
      assert z[|z| - 1] == s[|s| - 1];
      LeadingZerosValue(k, init);
      assert AllDigits(z) by {
        forall i | 0 <= i < |z|
          ensures IsDigit(z[i])
        {
          if i < |z| - 1 {
            assert z[i] == (Zeros(k) + init)[i];
          }
        }
      }
      assert DecimalValue(z) == DecimalValue(Zeros(k) + init) * 10 + (s[|s| - 1] as int - '0' as int);
    }
  }

  /** For a non-negative id the padded id has at least four digits, ends
      with `str(id)`, still reads as `id`, and is `str(id)` itself once the
      id has four digits or more (nothing is cut off). */
  lemma PaddedId(id: int)
    requires id >= 0
    ensures var p := ZFill(IntToStr(id), 4);
            && |p| >= 4 && AllDigits(p) && EndsWith(p, IntToStr(id))
            && DecimalValue(p) == id
            && (|IntToStr(id)| >= 4 ==> p == IntToStr(id))
  {
    var s := IntToStr(id);
    DigitsRoundTrip(id);
    if |s| < 4 {
      LeadingZerosValue(4 - |s|, s);
      assert ZFill(s, 4) == Zeros(4 - |s|) + s;
    }
  }

  /** What one image supplies from outside: the ticks its completion wait
      observes, and the seconds since the batch began when the status is
      updated after it. */
  datatype Feed = Feed(ticks: seq<Tick>, after: int)

  /** One image of a batch: the file name requested and what it observes. */
  datatype Job = Job(name: string, feed: Feed)

  /** Python's `zip` stops at the shortest list. */
  function ZipLen(lats: seq<string>, lons: seq<string>, ids: seq<int>): (n: nat)
    ensures n <= |lats| && n <= |lons| && n <= |ids|
    ensures n == |lats| || n == |lons| || n == |ids|
  {
    if |lats| <= |lons| && |lats| <= |ids| then |lats|
    else if |lons| <= |ids| then |lons|
    else |ids|
  }

  function Jobs(lats: seq<string>, lons: seq<string>, ids: seq<int>, feeds: seq<Feed>): (jobs: seq<Job>)
    requires |feeds| >= ZipLen(lats, lons, ids)
    ensures |jobs| == ZipLen(lats, lons, ids)
    ensures forall i :: 0 <= i < |jobs| ==> jobs[i] == Job(TileName(ids[i], lats[i], lons[i]), feeds[i])
  {
    seq(ZipLen(lats, lons, ids), i requires 0 <= i < ZipLen(lats, lons, ids) =>
      Job(TileName(ids[i], lats[i], lons[i]), feeds[i]))
  }

  /** The bot's fields as a value: status text, images left (`img_len`),
      images done (`counter`), stall notices sent, the record on display
      (None: the fixed start-up record the window opens with), the file
      names requested, and the counter values after which the extra pause
      was taken. */
  datatype Bot = Bot(status: string, imgLen: int, counter: nat, notices: nat,
                     display: Option<Report>, requested: seq<string>, pauses: seq<nat>)

  /** The effect of one completion wait on the bot, and how it ended. */
  function WaitEffect(b: Bot, ticks: seq<Tick>): (Bot, WaitOutcome)
  {
    var w := Run(Start(b.status, b.display), ticks, |ticks|, b.counter, b.imgLen);
    (b.(status := w.status, notices := b.notices + w.notices, display := w.display), OutcomeOf(w))
  }

  /** How one image of a batch ended. */
  datatype StepOutcome = Continue | Blocked | Failed(error: PyError)

  /** One pass of the `download_images` loop: request the tile, wait for it,
      then count it. */
  function ImageStep(b: Bot, job: Job, sleepAfter: int): (Bot, StepOutcome)
  {
    var (b2, o) := WaitEffect(b.(requested := b.requested + [job.name]), job.feed.ticks);
    if o == Raised then (b2, Failed(ZeroDivision))
    else if o == Pending then (b2, Blocked)
    else ImageDone(b2, job.feed.after, sleepAfter)
  }

  /** The rest of a pass once the wait completed: one image fewer left, one
      more done, the status shown, and the extra pause on a multiple of
      `sleepAfter` (`counter % 0` raises). */
  function ImageDone(b: Bot, after: int, sleepAfter: int): (Bot, StepOutcome)
  {
    var b3 := b.(imgLen := b.imgLen - 1, counter := b.counter + 1,
                 display := Some(StatusReport(b.status, after, b.imgLen - 1, b.counter + 1)));
    if sleepAfter == 0 then (b3, Failed(ZeroDivision))
    else if b3.counter % sleepAfter == 0 then (b3.(pauses := b3.pauses + [b3.counter]), Continue)
    else (b3, Continue)
  }

  /** What one pass changes, for a bot whose status is "Downloading" or
      "Stopped": one more name requested, at most one more image done (always
      one when the pass continues), the pause rule, and a status that can
      only move to "Stopped". */
  lemma ImageStepFacts(b: Bot, job: Job, sleepAfter: int)
    requires b.status == DownloadingStatus || b.status == StoppedStatus
    ensures var b' := ImageStep(b, job, sleepAfter).0;
            var o := ImageStep(b, job, sleepAfter).1;
            var grew := b'.counter - b.counter;
            && (grew == 0 || grew == 1)
            && (o == Continue ==> grew == 1)
            && b'.imgLen == b.imgLen - grew
            && b'.requested == b.requested + [job.name]
            && b'.pauses == b.pauses + (if grew == 1 && sleepAfter != 0 && b'.counter % sleepAfter == 0
                                        then [b'.counter] else [])
            && (b'.status == DownloadingStatus || b'.status == StoppedStatus)
            && (b.status == StoppedStatus ==> b'.status == StoppedStatus)
            && b'.notices <= b.notices + 1
  {
    var b1 := b.(requested := b.requested + [job.name]);
    var ticks := job.feed.ticks;
    RunCharacterised(ticks, |ticks|, b1.counter, b1.imgLen, b1.status, b1.display);
  }

  /** Every pass requests exactly its own tile name, whatever the status. */
  lemma ImageStepRequests(b: Bot, job: Job, sleepAfter: int)
    ensures ImageStep(b, job, sleepAfter).0.requested == b.requested + [job.name]
  {
  }

  /** The bot after the first `n` images of a batch; the loop stops at the
      first image that does not end with `Continue`. */
  function BatchRun(b0: Bot, jobs: seq<Job>, n: nat, sleepAfter: int): (Bot, StepOutcome)
    requires n <= |jobs|
  {
    if n == 0 then (b0, Continue)
    else
      var prev := BatchRun(b0, jobs, n - 1, sleepAfter);
      if prev.1 != Continue then prev else ImageStep(prev.0, jobs[n - 1], sleepAfter)
  }

  /** A batch that goes on after `i` images handles image `i` next. */
  lemma BatchStep(b0: Bot, jobs: seq<Job>, i: nat, sleepAfter: int)
    requires i < |jobs| && BatchRun(b0, jobs, i, sleepAfter).1 == Continue
    ensures BatchRun(b0, jobs, i + 1, sleepAfter) == ImageStep(BatchRun(b0, jobs, i, sleepAfter).0, jobs[i], sleepAfter)
  {
  }

  lemma {:induction false} BatchHaltedStable(b0: Bot, jobs: seq<Job>, n: nat, m: nat, sleepAfter: int)
    requires n <= m <= |jobs|
    requires BatchRun(b0, jobs, n, sleepAfter).1 != Continue
    ensures BatchRun(b0, jobs, m, sleepAfter) == BatchRun(b0, jobs, n, sleepAfter)
  {
    if m > n {
      BatchHaltedStable(b0, jobs, n, m - 1, sleepAfter);
    }
  }

  /** The counter values in (from, upTo] at which the extra pause is taken. */
  function PausePoints(from: nat, upTo: nat, sleepAfter: int): seq<nat>
  {
    if upTo <= from then []
    else PausePoints(from, upTo - 1, sleepAfter) + (if sleepAfter != 0 && upTo % sleepAfter == 0 then [upTo] else [])
  }

  /** The pause is taken after exactly those images whose counter value is a
      multiple of `sleepAfter`, in increasing order. */
  lemma {:induction false} PausePointsExact(from: nat, upTo: nat, sleepAfter: int)
    ensures forall x :: x in PausePoints(from, upTo, sleepAfter) <==>
                        from < x <= upTo && sleepAfter != 0 && x % sleepAfter == 0
    ensures forall i, j :: 0 <= i < j < |PausePoints(from, upTo, sleepAfter)| ==>
                        PausePoints(from, upTo, sleepAfter)[i] < PausePoints(from, upTo, sleepAfter)[j]
  {
    if upTo > from {
      PausePointsExact(from, upTo - 1, sleepAfter);
      var before := PausePoints(from, upTo - 1, sleepAfter);
      var tail: seq<nat> := if sleepAfter != 0 && upTo % sleepAfter == 0 then [upTo] else [];
      var p := PausePoints(from, upTo, sleepAfter);
      assert p == before + tail;
      forall x
        ensures x in p <==> from < x <= upTo && sleepAfter != 0 && x % sleepAfter == 0
      {
        assert x in p <==> x in before || x in tail;
      }
      forall i, j | 0 <= i < j < |p|
        ensures p[i] < p[j]
      {
        if j >= |before| {
          assert p[i] in before;
        }
      }
    }
  }

  /** After the first `n` images of a batch, with `k` images done: the
      counter has grown by `k` and `img_len` has shrunk by `k`; a batch
      that goes on has done all `n`. */
  lemma {:induction false} BatchCounts(b0: Bot, jobs: seq<Job>, n: nat, sleepAfter: int)
    requires n <= |jobs|
    requires b0.status == DownloadingStatus || b0.status == StoppedStatus
    ensures var b := BatchRun(b0, jobs, n, sleepAfter).0;
            var k := b.counter - b0.counter;
            && 0 <= k <= n
            && b.imgLen == b0.imgLen - k
            && (BatchRun(b0, jobs, n, sleepAfter).1 == Continue ==> k == n)
  {
    if n > 0 {
      BatchCounts(b0, jobs, n - 1, sleepAfter);
      BatchStatus(b0, jobs, n - 1, sleepAfter);
      var prev := BatchRun(b0, jobs, n - 1, sleepAfter);
      if prev.1 == Continue {
        ImageStepFacts(prev.0, jobs[n - 1], sleepAfter);
        assert BatchRun(b0, jobs, n, sleepAfter) == ImageStep(prev.0, jobs[n - 1], sleepAfter);
      }
    }
  }

  /** The names requested in a batch are the tile names of its first images, in order. */
  lemma {:induction false} BatchRequested(b0: Bot, jobs: seq<Job>, n: nat, sleepAfter: int)
    requires n <= |jobs|
    ensures var b := BatchRun(b0, jobs, n, sleepAfter).0;
            && |b0.requested| <= |b.requested| <= |b0.requested| + n
            && b.requested == b0.requested + Names(jobs[..|b.requested| - |b0.requested|])
            && (BatchRun(b0, jobs, n, sleepAfter).1 == Continue ==> |b.requested| == |b0.requested| + n)
  {
    if n > 0 {
      BatchRequested(b0, jobs, n - 1, sleepAfter);
      var prev := BatchRun(b0, jobs, n - 1, sleepAfter);
      if prev.1 == Continue {
        var job := jobs[n - 1];
        var b := prev.0;
        var next := ImageStep(b, job, sleepAfter);
        assert BatchRun(b0, jobs, n, sleepAfter) == next;
        ImageStepRequests(b, job, sleepAfter);
        assert jobs[..n] == jobs[..n - 1] + [job];
        NamesSnoc(jobs[..n - 1], job);
      }
    }
  }

  /** The pauses taken in a batch are the multiples of `sleepAfter` among
      the counter values it passed. */
  lemma {:induction false} BatchPauses(b0: Bot, jobs: seq<Job>, n: nat, sleepAfter: int)
    requires n <= |jobs|
    requires b0.status == DownloadingStatus || b0.status == StoppedStatus
    ensures var b := BatchRun(b0, jobs, n, sleepAfter).0;
            b.counter >= b0.counter &&
            b.pauses == b0.pauses + PausePoints(b0.counter, b.counter, sleepAfter)
  {
    if n > 0 {
      BatchPauses(b0, jobs, n - 1, sleepAfter);
      BatchStatus(b0, jobs, n - 1, sleepAfter);
      var prev := BatchRun(b0, jobs, n - 1, sleepAfter);
      if prev.1 == Continue {
        assert BatchRun(b0, jobs, n, sleepAfter) == ImageStep(prev.0, jobs[n - 1], sleepAfter);
        PausesStep(b0, prev.0, jobs[n - 1], sleepAfter);
      }
    }
  }

  /** One pass keeps the pauses equal to the pause points passed since `b0`. */
  lemma PausesStep(b0: Bot, b: Bot, job: Job, sleepAfter: int)
    requires b.status == DownloadingStatus || b.status == StoppedStatus
    requires b.counter >= b0.counter
    requires b.pauses == b0.pauses + PausePoints(b0.counter, b.counter, sleepAfter)
    ensures var b' := ImageStep(b, job, sleepAfter).0;
            b'.counter >= b0.counter &&
            b'.pauses == b0.pauses + PausePoints(b0.counter, b'.counter, sleepAfter)
  {
    ImageStepFacts(b, job, sleepAfter);
    var b' := ImageStep(b, job, sleepAfter).0;
    if b'.counter == b.counter + 1 {
      assert PausePoints(b0.counter, b'.counter, sleepAfter) ==
             PausePoints(b0.counter, b.counter, sleepAfter)
             + (if sleepAfter != 0 && b'.counter % sleepAfter == 0 then [b'.counter] else []);
    }
  }

  /** During a batch the status is "Downloading" or "Stopped" and never
      goes back from "Stopped"; at most one notice is sent per image. */
  lemma {:induction false} BatchStatus(b0: Bot, jobs: seq<Job>, n: nat, sleepAfter: int)
    requires n <= |jobs|
    requires b0.status == DownloadingStatus || b0.status == StoppedStatus
    ensures var b := BatchRun(b0, jobs, n, sleepAfter).0;
            && (b.status == DownloadingStatus || b.status == StoppedStatus)
            && (b0.status == StoppedStatus ==> b.status == StoppedStatus)
            && b.notices <= b0.notices + n
  {
    if n > 0 {
      BatchStatus(b0, jobs, n - 1, sleepAfter);
      var prev := BatchRun(b0, jobs, n - 1, sleepAfter);
      if prev.1 == Continue {
        ImageStepFacts(prev.0, jobs[n - 1], sleepAfter);
      }
    }
  }

  function Names(jobs: seq<Job>): (names: seq<string>)
    ensures |names| == |jobs|
    ensures forall i :: 0 <= i < |jobs| ==> names[i] == jobs[i].name
  {
    seq(|jobs|, i requires 0 <= i < |jobs| => jobs[i].name)
  }

  lemma NamesSnoc(jobs: seq<Job>, job: Job)
    ensures Names(jobs + [job]) == Names(jobs) + [job.name]
  {
  }

  /** While the batch goes on, the record on display after image `n` reports
      `img_len - 1` images remaining, that is `N - k - 1` with `N` the
      number of ids and `k` the images done. */
  lemma RemainingReported(b0: Bot, jobs: seq<Job>, n: nat, sleepAfter: int)
    requires 0 < n <= |jobs|
    requires b0.status == DownloadingStatus
    requires BatchRun(b0, jobs, n, sleepAfter).1 == Continue
    ensures var b := BatchRun(b0, jobs, n, sleepAfter).0;
            && b.display.Some?
            && b.display.value.remaining == b0.imgLen - (b.counter - b0.counter) - 1
            && b.display.value.remaining == b0.imgLen - n - 1
  {
    BatchCounts(b0, jobs, n, sleepAfter);
    BatchCounts(b0, jobs, n - 1, sleepAfter);
    BatchStatus(b0, jobs, n - 1, sleepAfter);
  }

  /** A zero `sleepAfter` stops the batch at its first image: with
      ZeroDivisionError (from `counter % 0` once the wait completes, or from
      a stalled status update), or with the wait unfinished. */
  lemma ZeroSleepAfterRaises(b0: Bot, jobs: seq<Job>, n: nat)
    requires 0 < n <= |jobs|
    ensures BatchRun(b0, jobs, n, 0) == BatchRun(b0, jobs, 1, 0)
    ensures BatchRun(b0, jobs, n, 0).1 == Blocked || BatchRun(b0, jobs, n, 0).1 == Failed(ZeroDivision)
    ensures WaitEffect(b0.(requested := b0.requested + [jobs[0].name]), jobs[0].feed.ticks).1 == Completed ==>
              BatchRun(b0, jobs, n, 0).1 == Failed(ZeroDivision)
  {
    assert BatchRun(b0, jobs, 1, 0) == ImageStep(b0, jobs[0], 0);
    BatchHaltedStable(b0, jobs, 1, n, 0);
  }

  /** The image bot.  Its clock, the file system, the application it drives
      and the mail transport are outside the model. */
  class ImageDownloader {
    var status: string
    var imgLen: int
    var counter: nat
    var notices: nat
    var display: Option<Report>
    var requested: seq<string>
    var pauses: seq<nat>

    function State(): Bot
      reads this
    {
      Bot(status, imgLen, counter, notices, display, requested, pauses)
    }

    /** A new bot: status "STOPPED", nothing counted, and the window
        showing its fixed start-up record. */
    constructor ()
      ensures State() == Bot(InitialStatus, 0, 0, 0, None, [], [])
    {
      status := InitialStatus;
      imgLen := 0;
      counter := 0;
      notices := 0;
      display := None;
      requested := [];
      pauses := [];
    }

    /** `__update_status__`: builds the status record and shows it, or
        raises ZeroDivisionError (`ok` false) while the counter is 0. */
    method UpdateStatus(elapsed: int) returns (ok: bool)
      modifies this
      ensures ok == (counter > 0)
      ensures State() == old(State()).(display :=
                if ok then Some(StatusReport(status, elapsed, imgLen, counter)) else old(display))
    {
      var r := GetStatus(status, elapsed, imgLen, counter);
      if r.Ok? {
        display := Some(r.value);
      }
      ok := r.Ok?;
    }

    /** `__check_download_complete__` over the ticks it observes; `used` is
        the number of ticks read. */
    method CheckDownloadComplete(filename: string, ticks: seq<Tick>) returns (outcome: WaitOutcome, used: nat)
      modifies this
      ensures (State(), outcome) == WaitEffect(old(State()), ticks)
      ensures used == Consumed(ticks, old(counter), |ticks|)
      ensures outcome == Completed ==>
                0 < used && Completes(ticks, used - 1)
                && forall j :: 0 <= j < used - 1 ==> !Completes(ticks, j)
      ensures outcome == Pending ==>
                used == |ticks| && forall j :: 0 <= j < |ticks| ==> !Completes(ticks, j)
      ensures outcome == Raised ==> old(counter) == 0 && 0 < used && Stalling(ticks[used - 1])
      ensures notices == old(notices) + (if exists j :: 0 <= j < used && Stalling(ticks[j]) then 1 else 0)
      ensures status == if exists j :: 0 <= j < used && Stalling(ticks[j]) then StoppedStatus else old(status)
    {
      ghost var w0 := Start(status, display);
      ghost var sent: nat := 0;  // notices sent during this wait
      var sizePr := 0;
      var done := false;
      var emailed := false;
      var raised := false;
      var i := 0;
      while !done && !raised && i < |ticks|
        invariant 0 <= i <= |ticks| && notices == old(notices) + sent
        invariant Run(w0, ticks, i, counter, imgLen) == Wait(sizePr, done, emailed, sent, status, display, raised)
        invariant i > 0 ==> !Halted(Run(w0, ticks, i - 1, counter, imgLen))
        invariant counter == old(counter) && imgLen == old(imgLen)
        invariant requested == old(requested) && pauses == old(pauses)
      {
        ghost var before := Wait(sizePr, done, emailed, sent, status, display, raised);
        var t := ticks[i];
        if t.present {
          if t.size == sizePr {
            done := true;
          }
          sizePr := t.size;
        }
        if t.waited > TriggerTime {
          if !emailed {
            notices := notices + 1;  // the stall notice (`process_stopped`)
            sent := sent + 1;
            emailed := true;
          }
          status := StoppedStatus;
          var ok := UpdateStatus(t.sinceStart);
          raised := !ok;
        }
        assert Wait(sizePr, done, emailed, sent, status, display, raised)
            == Step(before, t, counter, imgLen);
        i := i + 1;
      }
      used := i;
      outcome := if raised then Raised else if done then Completed else Pending;
      LoopExit(ticks, i, counter, imgLen, w0.status, w0.display);
      WaitSummary(ticks, counter, imgLen, w0.status, w0.display);
    }

    /** The end of one `download_images` pass once the image is complete:
        one image fewer left, one more done, the status shown, and the extra
        pause when the counter is a multiple of `sleepAfter`. */
    method CountImage(after: int, sleepAfter: int) returns (outcome: StepOutcome)
      modifies this
      ensures (State(), outcome) == ImageDone(old(State()), after, sleepAfter)
    {
      imgLen := imgLen - 1;
      counter := counter + 1;
      var ok := UpdateStatus(after);
      outcome := Continue;
      if sleepAfter == 0 {
        outcome := Failed(ZeroDivision);  // `counter % 0`
      } else if counter % sleepAfter == 0 {
        pauses := pauses + [counter];
      }
    }

    /** One pass of the `download_images` loop: request the tile under its
        name, wait for the file, then count it. */
    method DownloadTile(job: Job, sleepAfter: int) returns (outcome: StepOutcome)
      modifies this
      ensures (State(), outcome) == ImageStep(old(State()), job, sleepAfter)
    {
      requested := requested + [job.name];  // `download_image(..., filename=name)`
      var w, used := CheckDownloadComplete(job.name, job.feed.ticks);
      if w == Raised {
        outcome := Failed(ZeroDivision);
      } else if w == Pending {
        outcome := Blocked;
      } else {
        outcome := CountImage(job.feed.after, sleepAfter);
      }
    }

    /** `download_images`: resets the status to "Downloading" and `img_len`
        to the number of ids, then handles the zipped lists in order. */
    method DownloadImages(lats: seq<string>, lons: seq<string>, ids: seq<int>,
                          sleepAfter: int, feeds: seq<Feed>) returns (outcome: StepOutcome)
      requires |feeds| >= ZipLen(lats, lons, ids)
      modifies this
      ensures var b0 := old(State()).(status := DownloadingStatus, imgLen := |ids|);
              var r := BatchRun(b0, Jobs(lats, lons, ids, feeds), ZipLen(lats, lons, ids), sleepAfter);
              State() == r.0 && outcome == r.1
    {
      status := DownloadingStatus;
      imgLen := |ids|;
      // `jobs[i]` pairs the tile name of `ids[i]`, `lats[i]`, `lons[i]` with `feeds[i]`
      var jobs := Jobs(lats, lons, ids, feeds);
      outcome := DownloadAll(jobs, sleepAfter);
    }

    /** The loop of `download_images` over its jobs: one pass each, until
        a pass does not end with `Continue`. */
    method DownloadAll(jobs: seq<Job>, sleepAfter: int) returns (outcome: StepOutcome)
      modifies this
      ensures (State(), outcome) == BatchRun(old(State()), jobs, |jobs|, sleepAfter)
    {
      ghost var b0 := State();
      var i := 0;
      outcome := Continue;
      while i < |jobs|
        invariant 0 <= i <= |jobs|
        invariant BatchRun(b0, jobs, i, sleepAfter) == (State(), Continue)
        invariant outcome == Continue
      {
        BatchStep(b0, jobs, i, sleepAfter);
        outcome := DownloadTile(jobs[i], sleepAfter);
        if outcome != Continue {
          BatchHaltedStable(b0, jobs, i + 1, |jobs|, sleepAfter);
          return;
        }
        i := i + 1;
      }
    }
  }
}
