/** The voice front end: a countdown of audio frames that encodes wake-up, command lock-out and
    sleep, and the assistant state it drives. */
module VoiceWake {
  import opened Geometry

  /** Answer numbers of the command table; -1 marks an entry that is ignored. */
  const ANSWERS: seq<int> := [0, -1, -1, 3, 4, 3, 4, 3, 4, 3, 4, 3, 4, 3, 4, 3, 4, 3, 4, 3, 4, 2]

  const WAKE_FRAMES := 375
  const COMMAND_FRAMES := 500
  const LOCKED_FROM := 480

  /** What the recogniser says of one captured frame: a wake word, and a command number that is
      looked at only while awake (0 for none). */
  datatype Frame = Frame(wake: bool, cmd: int)

  // ----- The assistant -----

  datatype Assistant = Assistant(awake: bool, id: int, pending: bool, answers: seq<int>)

  /** The size check of the program lets the table size itself through and then reads past the
      table; negative numbers other than -1 are large as unsigned ones and are turned away. */
  predicate Known(id: int) {
    id != |ANSWERS|
  }

  function Update(a: Assistant, id: int): Assistant
    requires Known(id)
  {
    if id == -1 then a.(awake := false)
    else if id < 0 || id > |ANSWERS| || ANSWERS[id] == -1 then a
    else Assistant(true, id, true, a.answers + [ANSWERS[id]])
  }

  /** The command numbers that are answered: the wake word and the commands with an answer. */
  predicate Announced(id: int) {
    id == 0 || 3 <= id <= 21
  }

  /** "I'm here", "Executing" for stop, "Turned on" for the odd numbers and "Turned off" for the
      even ones. */
  function Reply(id: int): int {
    if id == 0 then 0 else if id == 21 then 2 else if id % 2 == 1 then 3 else 4
  }

  /** What a call to asr_update does, by the number alone. */
  lemma UpdateMeans(a: Assistant, id: int)
    requires Known(id)
    ensures var t := Update(a, id);
            if id == -1 then t == Assistant(false, a.id, a.pending, a.answers)
            else if Announced(id) then t == Assistant(true, id, true, a.answers + [Reply(id)])
            else t == a
  {
  }

  class Asr {
    var wakeup: bool
    var wakeid: int
    var wakeUpdate: bool
    /** Answer numbers sent to the player. */
    var answers: seq<int>

    ghost function Now(): Assistant
      reads this
    {
      Assistant(wakeup, wakeid, wakeUpdate, answers)
    }

    method AsrUpdate(id: int)
      requires Known(id)
      modifies this
      ensures Now() == Update(old(Now()), id)
    {
      if id == -1 {
        wakeup := false;
        return;
      }
      if id < 0 || id > |ANSWERS| {
        return;
      }
      if ANSWERS[id] == -1 {
        return;
      }
      wakeid := id;
      wakeUpdate := true;
      wakeup := true;
      answers := answers + [ANSWERS[id]];
    }
  }

  // ----- The countdown -----

  /** The counter as a command of this frame finds it, before its decrement. */
  function Before(count: nat, f: Frame): nat {
    if f.wake then WAKE_FRAMES else count
  }

  function Next(count: nat, f: Frame): nat {
    var c := Before(count, f);
    if c == 0 then 0 else if f.cmd != 0 then COMMAND_FRAMES else c - 1
  }

  /** The counter after a history of frames. */
  function Count(h: seq<Frame>): nat {
    if h == [] then 0 else Next(Count(h[..|h| - 1]), h[|h| - 1])
  }

  function Woken(f: Frame): seq<int> {
    if f.wake then [0] else []
  }

  /** The call for the command of a frame, or the sleep report. */
  function Told(count: nat, f: Frame): seq<int> {
    var c := Before(count, f);
    if c == 0 then []
    else if f.cmd != 0 then (if c - 1 < LOCKED_FROM then [f.cmd] else [])
    else if c == 1 then [-1] else []
  }

  /** The calls of asr_update made during one frame. */
  function Calls(count: nat, f: Frame): (ids: seq<int>)
    ensures Known(f.cmd) ==> forall i :: 0 <= i < |ids| ==> Known(ids[i])
  {
    Woken(f) + Told(count, f)
  }

  function UpdateAll(a: Assistant, ids: seq<int>): Assistant
    requires forall i :: 0 <= i < |ids| ==> Known(ids[i])
  {
    if ids == [] then a else Update(UpdateAll(a, ids[..|ids| - 1]), ids[|ids| - 1])
  }

  /** The assistant after a history of frames. */
  function Assisted(a: Assistant, h: seq<Frame>): Assistant
    requires forall i :: 0 <= i < |h| ==> Known(h[i].cmd)
  {
    if h == [] then a
    else UpdateAll(Assisted(a, h[..|h| - 1]), Calls(Count(h[..|h| - 1]), h[|h| - 1]))
  }

  /** The frames of successful reads. */
  function Captured(input: seq<Option<Frame>>): seq<Frame> {
    if input == [] then []
    else Captured(input[..|input| - 1]) +
         (match input[|input| - 1] case None => [] case Some(f) => [f])
  }

  lemma CapturedLast(input: seq<Option<Frame>>, x: Option<Frame>)
    ensures Captured(input + [x]) == Captured(input) + (match x case None => [] case Some(f) => [f])
  {
    assert (input + [x])[..|input|] == input;
  }

  /** A failed read gives no frame, every other its own. */
  lemma CapturedOne(x: Option<Frame>)
    ensures Captured([x]) == (match x case None => [] case Some(f) => [f])
  {
    CapturedLast([], x);
    assert [] + [x] == [x];
  }

  /** Frames come in the order of the reads. */
  lemma {:induction false} CapturedJoin(input: seq<Option<Frame>>, more: seq<Option<Frame>>)
    ensures Captured(input + more) == Captured(input) + Captured(more)
    decreases |more|
  {
    if more == [] {
      assert input + more == input;
    } else {
      var n := |more| - 1;
      var x, front := more[n], more[..n];
      CapturedJoin(input, front);
      CapturedLast(front, x);
      CapturedLast(input + front, x);
      assert more == front + [x] && input + more == (input + front) + [x];
    }
  }

  lemma {:induction false} CapturedKnown(input: seq<Option<Frame>>, f: Frame)
    requires forall i :: 0 <= i < |input| && input[i].Some? ==> Known(input[i].value.cmd)
    requires f in Captured(input)
    ensures Known(f.cmd)
  {
    if f in Captured(input[..|input| - 1]) {
      CapturedKnown(input[..|input| - 1], f);
    }
  }

  lemma CapturedStep(input: seq<Option<Frame>>, i: nat)
    requires i < |input|
    ensures Captured(input[..i + 1])
         == Captured(input[..i]) + (match input[i] case None => [] case Some(f) => [f])
  {
    assert input[..i + 1] == input[..i] + [input[i]];
    CapturedLast(input[..i], input[i]);
  }

  lemma FrameStep(a: Assistant, h: seq<Frame>, f: Frame)
    requires Known(f.cmd) && forall i :: 0 <= i < |h| ==> Known(h[i].cmd)
    ensures Count(h + [f]) == Next(Count(h), f)
    ensures Assisted(a, h + [f]) == UpdateAll(Assisted(a, h), Calls(Count(h), f))
  {
    assert (h + [f])[..|h|] == h;
  }

  /** One successful read. */
  method DoFrame(asr: Asr, count: nat, f: Frame) returns (frameCot: nat)
    requires Known(f.cmd)
    modifies asr
    ensures frameCot == Next(count, f)
    ensures asr.Now() == UpdateAll(old(asr.Now()), Calls(count, f))
  {
    frameCot := count;
    ghost var ids: seq<int> := [];
    ghost var start := asr.Now();
    if f.wake {
      frameCot := 375;
      asr.AsrUpdate(0);
      ids := [0];
    }
    assert asr.Now() == UpdateAll(start, ids);
    if frameCot > 0 {
      frameCot := frameCot - 1;
      if f.cmd != 0 {
        if frameCot < 480 {
          asr.AsrUpdate(f.cmd);
          assert (ids + [f.cmd])[..|ids|] == ids;
        }
        frameCot := 500;
      } else if frameCot == 0 {
        asr.AsrUpdate(-1);
        assert (ids + [-1])[..|ids|] == ids;
      }
    }
  }

  /** The capture loop: failed reads are skipped, and the assistant is put to sleep at the end. */
  method Docap(asr: Asr, input: seq<Option<Frame>>) returns (frameCot: nat)
    requires forall i :: 0 <= i < |input| && input[i].Some? ==> Known(input[i].value.cmd)
    modifies asr
    ensures frameCot == Count(Captured(input))
    ensures forall f :: f in Captured(input) ==> Known(f.cmd)
    ensures asr.Now() == Update(Assisted(old(asr.Now()), Captured(input)), -1)
    ensures HasSaid(old(asr.Now()), asr.Now(), Said(Captured(input), |Captured(input)|)) && !asr.wakeup
  {
    frameCot := 0;
    forall f | f in Captured(input)
      ensures Known(f.cmd)
    {
      CapturedKnown(input, f);
    }
    ghost var h: seq<Frame> := [];
    assert input[..0] == [];
    for i := 0 to |input|
      invariant h == Captured(input[..i]) && frameCot == Count(h)
      invariant forall k :: 0 <= k < |h| ==> Known(h[k].cmd)
      invariant asr.Now() == Assisted(old(asr.Now()), h)
    {
      CapturedStep(input, i);
      if input[i] == None {
        continue;
      }
      FrameStep(old(asr.Now()), h, input[i].value);
      frameCot := DoFrame(asr, frameCot, input[i].value);
      h := h + [input[i].value];
    }
    assert input[..|input|] == input;
    HistorySaid(old(asr.Now()), h);
    asr.AsrUpdate(-1);
  }

  // ----- The countdown as a function of history -----

  /** A command at frame m is heard iff it comes while awake or with a wake word. */
  predicate Heard(h: seq<Frame>, m: nat)
    requires m < |h|
  {
    h[m].cmd != 0 && (h[m].wake || 0 < Count(h[..m]))
  }

  predicate Reset(h: seq<Frame>, m: nat)
    requires m < |h|
  {
    h[m].wake || Heard(h, m)
  }

  predicate Quiet(h: seq<Frame>, lo: nat, hi: nat)
    requires hi <= |h|
  {
    forall k :: lo <= k < hi ==> !Reset(h, k)
  }

  function Max(a: int, b: int): int {
    if a < b then b else a
  }

  lemma CountStep(h: seq<Frame>, n: nat)
    requires n < |h|
    ensures Count(h[..n + 1]) == Next(Count(h[..n]), h[n])
  {
    assert h[..n + 1][..n] == h[..n];
  }

  /** The counter is determined by the last reset: 374 down from a wake-up, 500 down from a
      command heard while awake, and never below 0. */
  lemma {:induction false} CountFromReset(h: seq<Frame>, m: nat, n: nat)
    requires m < n <= |h| && Reset(h, m) && Quiet(h, m + 1, n)
    ensures Count(h[..n]) == Max(0, (if Heard(h, m) then 500 else 374) - (n - 1 - m))
    decreases n
  {
    CountStep(h, n - 1);
    if m < n - 1 {
      CountFromReset(h, m, n - 1);
      assert !Reset(h, n - 1);
    }
  }

  lemma {:induction false} CountWithoutReset(h: seq<Frame>, n: nat)
    requires n <= |h| && Quiet(h, 0, n)
    ensures Count(h[..n]) == 0
    decreases n
  {
    if n > 0 {
      CountStep(h, n - 1);
      CountWithoutReset(h, n - 1);
      assert !Reset(h, n - 1);
    }
  }

  lemma {:induction false} LastReset(h: seq<Frame>, n: nat) returns (m: Option<nat>)
    requires n <= |h|
    ensures match m
            case None => Quiet(h, 0, n)
            case Some(k) => k < n && Reset(h, k) && Quiet(h, k + 1, n)
    decreases n
  {
    if n == 0 {
      m := None;
    } else if Reset(h, n - 1) {
      m := Some(n - 1);
    } else {
      m := LastReset(h, n - 1);
    }
  }

  /** A command is passed on at frame n. */
  predicate Dispatched(h: seq<Frame>, n: nat)
    requires n < |h|
  {
    var c := Before(Count(h[..n]), h[n]);
    h[n].cmd != 0 && 0 < c && c - 1 < LOCKED_FROM
  }

  predicate WakeBetween(h: seq<Frame>, lo: nat, hi: nat)
    requires hi <= |h|
  {
    exists k :: lo <= k < hi && h[k].wake
  }

  /** Exactly the heard commands are passed on that come after a new wake-up since every
      earlier heard command, or at least 21 frames after it. A suppressed command counts as
      heard, so it extends the lock-out. */
  lemma DispatchIff(h: seq<Frame>, n: nat)
    requires n < |h|
    ensures Dispatched(h, n) <==>
            && Heard(h, n)
            && forall m :: 0 <= m < n && Heard(h, m) ==> WakeBetween(h, m + 1, n + 1) || 21 <= n - m
  {
    if Heard(h, n) {
      if h[n].wake {
        forall m | 0 <= m < n && Heard(h, m)
          ensures WakeBetween(h, m + 1, n + 1)
        {
        }
      } else {
        var last := LastReset(h, n);
        if last == None {
          CountWithoutReset(h, n);
        } else {
          DispatchFrom(h, n, last.value);
        }
      }
    }
  }

  lemma DispatchFrom(h: seq<Frame>, n: nat, last: nat)
    requires last < n < |h| && Heard(h, n) && !h[n].wake && Reset(h, last) && Quiet(h, last + 1, n)
    ensures Dispatched(h, n) <==>
            forall m :: 0 <= m < n && Heard(h, m) ==> WakeBetween(h, m + 1, n + 1) || 21 <= n - m
  {
    CountFromReset(h, last, n);
    if Heard(h, last) {
      forall k | last < k <= n
        ensures !h[k].wake
      {
        assert k < n ==> !Reset(h, k);
      }
      assert !WakeBetween(h, last + 1, n + 1);
      assert Dispatched(h, n) <==> 21 <= n - last;
      forall m | 0 <= m < n && Heard(h, m)
        ensures m <= last
      {
        assert last < m ==> !Reset(h, m);
      }
    } else {
      forall m | 0 <= m < n && Heard(h, m)
        ensures WakeBetween(h, m + 1, n + 1)
      {
        assert last < m ==> !Reset(h, m);
        assert m < last && h[last].wake;
      }
    }
  }

  // ----- What the assistant is told, and says, over a history -----

  /** A command at frame n gets through: it is heard while awake, and every earlier heard command
      has a wake-up after it or lies at least 21 frames back. */
  ghost predicate GetsThrough(h: seq<Frame>, n: nat)
    requires n < |h|
  {
    && Heard(h, n)
    && forall m :: 0 <= m < n && Heard(h, m) ==> WakeBetween(h, m + 1, n + 1) || 21 <= n - m
  }

  /** asr_update is called with the command of frame n if and only if the command gets through,
      and with the wake word's number if and only if there is a wake-up. */
  lemma CallIff(h: seq<Frame>, n: nat)
    requires n < |h|
    ensures h[n].cmd != 0 ==> (h[n].cmd in Calls(Count(h[..n]), h[n]) <==> GetsThrough(h, n))
    ensures 0 in Calls(Count(h[..n]), h[n]) <==> h[n].wake
  {
    DispatchIff(h, n);
  }

  /** What frame n makes the assistant answer: the wake-up first, then the command. */
  ghost function SaidAt(h: seq<Frame>, n: nat): seq<int>
    requires n < |h|
  {
    (if h[n].wake then [0] else []) +
    (if GetsThrough(h, n) && Announced(h[n].cmd) then [h[n].cmd] else [])
  }

  /** The numbers answered in the first n frames. */
  ghost function Said(h: seq<Frame>, n: nat): seq<int>
    requires n <= |h|
  {
    if n == 0 then [] else Said(h, n - 1) + SaidAt(h, n - 1)
  }

  function Replies(ids: seq<int>): (r: seq<int>)
    ensures |r| == |ids| && forall i :: 0 <= i < |ids| ==> r[i] == Reply(ids[i])
  {
    seq(|ids|, i requires 0 <= i < |ids| => Reply(ids[i]))
  }

  function LastOr(ids: seq<int>, id: int): int {
    if ids == [] then id else ids[|ids| - 1]
  }

  /** The assistant b is a after answering the given numbers, awake or not. */
  predicate HasSaid(a: Assistant, b: Assistant, ids: seq<int>) {
    && b.answers == a.answers + Replies(ids)
    && b.id == LastOr(ids, a.id)
    && (b.pending <==> a.pending || ids != [])
  }

  lemma SaidMore(a: Assistant, b: Assistant, c: Assistant, ids: seq<int>, more: seq<int>)
    requires HasSaid(a, b, ids) && HasSaid(b, c, more)
    ensures HasSaid(a, c, ids + more)
  {
    assert Replies(ids + more) == Replies(ids) + Replies(more);
  }

  lemma UpdateSaid(a: Assistant, id: int)
    requires Known(id)
    ensures HasSaid(a, Update(a, id), if Announced(id) then [id] else [])
  {
    UpdateMeans(a, id);
  }

  lemma UpdateAllCalls(a: Assistant, count: nat, f: Frame)
    requires Known(f.cmd)
    ensures var b, told := if f.wake then Update(a, 0) else a, Told(count, f);
            UpdateAll(a, Calls(count, f)) == if told == [] then b else Update(b, told[0])
  {
    var woken, told := Woken(f), Told(count, f);
    assert UpdateAll(a, []) == a;
    if f.wake {
      UpdateOneMore(a, [], 0);
      assert [] + [0] == woken;
    }
    if told == [] {
      assert woken + told == woken;
    } else {
      UpdateOneMore(a, woken, told[0]);
      assert woken + [told[0]] == woken + told;
    }
  }

  predicate RunsOut(h: seq<Frame>, n: nat)
    requires n < |h|
  {
    0 < Count(h[..n]) && Count(h[..n + 1]) == 0
  }

  lemma ToldIs(h: seq<Frame>, n: nat)
    requires n < |h|
    ensures Told(Count(h[..n]), h[n]) == if GetsThrough(h, n) then [h[n].cmd] else if RunsOut(h, n) then [-1] else []
  {
    DispatchIff(h, n);
    CountStep(h, n);
  }

  /** One frame of a history, in terms of the calls it makes. */
  lemma FrameMeans(a: Assistant, h: seq<Frame>, n: nat)
    requires n < |h| && Known(h[n].cmd)
    ensures var b := if h[n].wake then Update(a, 0) else a;
            UpdateAll(a, Calls(Count(h[..n]), h[n]))
            == if GetsThrough(h, n) then Update(b, h[n].cmd) else if RunsOut(h, n) then Update(b, -1) else b
  {
    UpdateAllCalls(a, Count(h[..n]), h[n]);
    ToldIs(h, n);
  }

  lemma FrameSaid(a: Assistant, h: seq<Frame>, n: nat)
    requires n < |h| && Known(h[n].cmd)
    ensures HasSaid(a, UpdateAll(a, Calls(Count(h[..n]), h[n])), SaidAt(h, n))
  {
    FrameMeans(a, h, n);
    var f := h[n];
    var b := if f.wake then Update(a, 0) else a;
    UpdateSaid(a, 0);
    assert HasSaid(a, b, Woken(f));
    if GetsThrough(h, n) {
      UpdateSaid(b, f.cmd);
      SaidMore(a, b, Update(b, f.cmd), Woken(f), if Announced(f.cmd) then [f.cmd] else []);
    } else {
      assert SaidAt(h, n) == Woken(f);
      UpdateSaid(b, -1);
      SaidMore(a, b, Update(b, -1), Woken(f), []);
      assert Woken(f) + [] == Woken(f);
    }
  }

  /** Over every history of n frames the assistant says exactly this: for each wake-up "I'm here",
      and for each answered command that gets through its reply, in order. */
  lemma {:induction false} AssistantSaid(a: Assistant, h: seq<Frame>, n: nat)
    requires n <= |h| && forall i :: 0 <= i < |h| ==> Known(h[i].cmd)
    ensures HasSaid(a, Assisted(a, h[..n]), Said(h, n))
    decreases n
  {
    if n > 0 {
      AssistantSaid(a, h, n - 1);
      StepSaid(a, h, n - 1);
      SaidMore(a, Assisted(a, h[..n - 1]), Assisted(a, h[..n]), Said(h, n - 1), SaidAt(h, n - 1));
    }
  }

  lemma StepSaid(a: Assistant, h: seq<Frame>, n: nat)
    requires n < |h| && forall i :: 0 <= i < |h| ==> Known(h[i].cmd)
    ensures HasSaid(Assisted(a, h[..n]), Assisted(a, h[..n + 1]), SaidAt(h, n))
  {
    AssistedStep(a, h, n);
    FrameSaid(Assisted(a, h[..n]), h, n);
  }

  lemma HistorySaid(a: Assistant, h: seq<Frame>)
    requires forall i :: 0 <= i < |h| ==> Known(h[i].cmd)
    ensures HasSaid(a, Assisted(a, h), Said(h, |h|))
  {
    assert h[..|h|] == h;
    AssistantSaid(a, h, |h|);
  }

  lemma AssistedStep(a: Assistant, h: seq<Frame>, n: nat)
    requires n < |h| && forall i :: 0 <= i < |h| ==> Known(h[i].cmd)
    ensures Assisted(a, h[..n + 1]) == UpdateAll(Assisted(a, h[..n]), Calls(Count(h[..n]), h[n]))
  {
    assert h[..n + 1] == h[..n] + [h[n]];
    FrameStep(a, h[..n], h[n]);
  }

  /** Frame n puts the assistant to sleep: the counter reaches 0, or a command of -1 gets through. */
  ghost predicate FallsAsleep(h: seq<Frame>, n: nat)
    requires n < |h|
  {
    RunsOut(h, n) || (h[n].cmd == -1 && GetsThrough(h, n))
  }

  /** Frame n wakes it: a wake-up, or an answered command that gets through. */
  ghost predicate WakesUp(h: seq<Frame>, n: nat)
    requires n < |h|
  {
    h[n].wake || (GetsThrough(h, n) && Announced(h[n].cmd))
  }

  lemma FrameAwake(a: Assistant, h: seq<Frame>, n: nat)
    requires n < |h| && Known(h[n].cmd)
    ensures UpdateAll(a, Calls(Count(h[..n]), h[n])).awake <==> !FallsAsleep(h, n) && (WakesUp(h, n) || a.awake)
  {
    FrameMeans(a, h, n);
    var b := if h[n].wake then Update(a, 0) else a;
    UpdateMeans(a, 0);
    UpdateMeans(b, h[n].cmd);
    CountStep(h, n);
  }

  /** Since some frame that woke it, itself included, or since the start if it was awake then, no
      frame has put the assistant to sleep. */
  ghost predicate AwakeSince(awake: bool, h: seq<Frame>, n: nat)
    requires n <= |h|
  {
    (awake && NoSleep(h, 0, n)) || exists m :: 0 <= m < n && WakesUp(h, m) && NoSleep(h, m, n)
  }

  lemma AwakeSinceStep(awake: bool, h: seq<Frame>, n: nat)
    requires n < |h|
    ensures AwakeSince(awake, h, n + 1) <==> !FallsAsleep(h, n) && (WakesUp(h, n) || AwakeSince(awake, h, n))
  {
    forall m | 0 <= m <= n
      ensures NoSleep(h, m, n + 1) <==> NoSleep(h, m, n) && !FallsAsleep(h, n)
    {
    }
    if WakesUp(h, n) && !FallsAsleep(h, n) {
      assert NoSleep(h, n, n + 1);
    }
  }

  /** The assistant is awake after n frames of a history exactly in that case. */
  lemma {:induction false} AwakeExactly(a: Assistant, h: seq<Frame>, n: nat)
    requires n <= |h| && forall i :: 0 <= i < |h| ==> Known(h[i].cmd)
    ensures Assisted(a, h[..n]).awake <==> AwakeSince(a.awake, h, n)
    decreases n
  {
    if n > 0 {
      AwakeExactly(a, h, n - 1);
      StepAwake(a, h, n - 1);
      AwakeSinceStep(a.awake, h, n - 1);
    }
  }

  lemma StepAwake(a: Assistant, h: seq<Frame>, n: nat)
    requires n < |h| && forall i :: 0 <= i < |h| ==> Known(h[i].cmd)
    ensures Assisted(a, h[..n + 1]).awake <==>
              !FallsAsleep(h, n) && (WakesUp(h, n) || Assisted(a, h[..n]).awake)
  {
    AssistedStep(a, h, n);
    FrameAwake(Assisted(a, h[..n]), h, n);
  }

  ghost predicate NoSleep(h: seq<Frame>, lo: int, hi: nat)
    requires 0 <= lo && hi <= |h|
  {
    forall k :: lo <= k < hi ==> !FallsAsleep(h, k)
  }

  /** The in-loop sleep report is made at frame n. */
  predicate SleepsAt(h: seq<Frame>, n: nat)
    requires n < |h|
  {
    -1 in Calls(Count(h[..n]), h[n])
  }

  /** Sleep is reported exactly when the counter reaches 0, or when a recogniser command of -1 is
      passed on. */
  lemma SleepIff(h: seq<Frame>, n: nat)
    requires n < |h|
    ensures SleepsAt(h, n) <==>
              (0 < Count(h[..n]) && Count(h[..n + 1]) == 0) || (h[n].cmd == -1 && Dispatched(h, n))
  {
    CountStep(h, n);
  }

  /** Sleep is reported once per awake period: between two reports there is a wake-up, unless the
      first was a command of -1, which leaves the counter running. A second that is such a command
      may come in the very frame of the wake-up. */
  lemma {:induction false} OneSleepPerPeriod(h: seq<Frame>, i: nat, j: nat)
    requires i < j < |h| && SleepsAt(h, i) && SleepsAt(h, j)
    ensures h[i].cmd == -1 || WakeBetween(h, i + 1, if h[j].cmd == -1 then j + 1 else j)
  {
    SleepIff(h, i);
    SleepIff(h, j);
    if h[i].cmd != -1 && !WakeBetween(h, i + 1, j) {
      AsleepUntilWake(h, i + 1, j);
      assert h[j].cmd == -1 ==> h[j].wake;
    }
  }

  lemma {:induction false} AsleepUntilWake(h: seq<Frame>, i: nat, j: nat)
    requires i <= j <= |h| && Count(h[..i]) == 0 && !WakeBetween(h, i, j)
    ensures Count(h[..j]) == 0
    decreases j
  {
    if i < j {
      assert !h[j - 1].wake;
      assert !WakeBetween(h, i, j - 1);
      AsleepUntilWake(h, i, j - 1);
      CountStep(h, j - 1);
    }
  }

  /** At every frame boundary the assistant is awake exactly while the counter is positive. */
  lemma {:induction false} AwakeIff(a: Assistant, h: seq<Frame>)
    requires forall i :: 0 <= i < |h| ==> Known(h[i].cmd) && h[i].cmd != -1
    requires !a.awake
    ensures Assisted(a, h).awake <==> 0 < Count(h)
  {
    if h != [] {
      var n := |h| - 1;
      AwakeIff(a, h[..n]);
      AwakeStep(Assisted(a, h[..n]), Count(h[..n]), h[n]);
    }
  }

  lemma AwakeStep(a: Assistant, count: nat, f: Frame)
    requires Known(f.cmd) && f.cmd != -1
    requires a.awake <==> 0 < count
    ensures UpdateAll(a, Calls(count, f)).awake <==> 0 < Next(count, f)
  {
    UpdateAllCalls(a, count, f);
  }

  lemma UpdateOneMore(a: Assistant, ids: seq<int>, id: int)
    requires Known(id) && forall i :: 0 <= i < |ids| ==> Known(ids[i])
    ensures UpdateAll(a, ids + [id]) == Update(UpdateAll(a, ids), id)
  {
    assert (ids + [id])[..|ids|] == ids;
  }
}
