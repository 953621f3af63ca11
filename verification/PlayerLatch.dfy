/** The monitor page's request latch. UI callbacks, the player's event handler and the play
    thread share a current and a desired player state without a lock, so every read, store and
    command is a step of its own. */
module PlayerLatch {

  /** BUTT doubles as "nothing desired". */
  datatype PlayerState = IDLE | PLAY | PAUSE | STOP | BUTT

  datatype Event = StateChanged | Eof | Sof | SeekEnd | Error | Prepared | Play | Paused | Stopped

  /** Where the UI thread is: free, or before the named read, store or command. */
  datatype Ui =
    | Free
    | ReadNetwork(network: bool)
    | TestIdle
    | ReadThread(restart: bool)
    | Join(restart: bool)
    | StoreIdle
    | Spawn
    | ReadCurrent
    | TestPause
    | StorePause
    | SendPause
    | TestPlay
    | StorePlay
    | SendPlay

  /** Where the play thread is. */
  datatype Thread = NoThread | Preparing | ThreadStore | ThreadSend | Polling | Leaving | Returned

  /** Where the event handler is. */
  datatype Handler = Resting | Storing(event: Event) | Testing(event: Event) | Clearing(event: Event)

  /** What happened, in order: stores to the desired state, passed tests, commands and events. */
  datatype Entry =
    | PauseStore
    | PlayStore
    | PauseCmd
    | PlayCmd
    | StopCmd
    | Reported(event: Event)
    | Tested(event: Event)
    | Cleared(event: Event)

  datatype State = State(current: PlayerState, desired: PlayerState, videoThread: bool, thread: Thread, ui: Ui,
                         handler: Handler, log: seq<Entry>)

  datatype Step =
    | PauseClick(network: bool)
    | StartClick(network: bool)
    | StopClick
    | UiGoes
    | ThreadGoes(ok: bool)
    | EventArrives(event: Event)
    | HandlerGoes

  const INIT := State(BUTT, BUTT, false, NoThread, Free, Resting, [])

  function Note(s: State, e: Entry): State {
    s.(log := s.log + [e])
  }

  predicate Enabled(s: State, step: Step) {
    match step
    case PauseClick(_) => s.ui.Free?
    case StartClick(_) => s.ui.Free?
    case StopClick => s.ui.Free?
    case UiGoes => !s.ui.Free? && (s.ui.Join? ==> s.thread.Returned? || s.thread.NoThread?)
    case ThreadGoes(_) => !s.thread.NoThread? && !s.thread.Returned?
    case EventArrives(_) => s.handler.Resting?
    case HandlerGoes => !s.handler.Resting?
  }

  function UiStep(s: State): State {
    match s.ui
    case Free => s
    case ReadNetwork(network) => s.(ui := if network then TestIdle else Free)
    case TestIdle => s.(ui := if s.desired != BUTT then Free else ReadThread(true))
    case ReadThread(restart) =>
      if s.videoThread then Note(s, StopCmd).(ui := Join(restart))
      else s.(ui := if restart then StoreIdle else Free)
    case Join(restart) => s.(videoThread := false, ui := if restart then StoreIdle else Free)
    case StoreIdle => s.(current := IDLE, ui := Spawn)
    case Spawn => s.(videoThread := true, thread := Preparing, ui := Free)
    case ReadCurrent => s.(ui := if s.current == PLAY then TestPause else TestPlay)
    case TestPause => s.(ui := if s.desired != PAUSE then StorePause else Free)
    case StorePause => Note(s, PauseStore).(desired := PAUSE, ui := SendPause)
    case SendPause => Note(s, PauseCmd).(ui := Free)
    case TestPlay => s.(ui := if s.desired != PLAY then StorePlay else Free)
    case StorePlay => Note(s, PlayStore).(desired := PLAY, ui := SendPlay)
    case SendPlay => Note(s, PlayCmd).(ui := Free)
  }

  function ThreadStep(s: State, ok: bool): State {
    match s.thread
    case Preparing => s.(thread := if ok then ThreadStore else Returned)
    case ThreadStore => Note(s, PlayStore).(desired := PLAY, thread := ThreadSend)
    case ThreadSend => Note(s, PlayCmd).(thread := Polling)
    case Polling => s.(thread := if s.current == STOP then Leaving else Polling)
    case Leaving => s.(videoThread := false, thread := Returned)
    case _ => s
  }

  /** The current state an event stands for. */
  function Meaning(e: Event): PlayerState {
    match e
    case Play => PLAY
    case Paused => PAUSE
    case _ => STOP
  }

  /** The handler's test of the desired state. */
  predicate Answers(e: Event, desired: PlayerState) {
    match e
    case Eof => desired == STOP
    case Error => desired != BUTT
    case Play => desired == PLAY
    case Paused => desired == PAUSE
    case _ => true
  }

  predicate Handled(e: Event) {
    e.Eof? || e.Error? || e.Play? || e.Paused? || e.Stopped?
  }

  function HandlerStep(s: State): State {
    match s.handler
    case Resting => s
    case Storing(e) => s.(current := Meaning(e), handler := if e.Stopped? then Clearing(e) else Testing(e))
    case Testing(e) =>
      if Answers(e, s.desired) then Note(s, Tested(e)).(handler := Clearing(e)) else s.(handler := Resting)
    case Clearing(e) => Note(s, Cleared(e)).(desired := BUTT, handler := Resting)
  }

  function Apply(s: State, step: Step): State
    requires Enabled(s, step)
  {
    match step
    case PauseClick(network) => s.(ui := if s.videoThread then ReadCurrent else ReadNetwork(network))
    case StartClick(network) => s.(ui := ReadNetwork(network))
    case StopClick => s.(ui := ReadThread(false))
    case UiGoes => UiStep(s)
    case ThreadGoes(ok) => ThreadStep(s, ok)
    case EventArrives(e) => Note(s, Reported(e)).(handler := if Handled(e) then Storing(e) else Resting)
    case HandlerGoes => HandlerStep(s)
  }

  predicate IsRun(run: seq<Step>)
    decreases |run|, 0
  {
    run == [] ||
    var n := |run| - 1;
    IsRun(run[..n]) && Enabled(After(run[..n]), run[n])
  }

  function After(run: seq<Step>): State
    requires IsRun(run)
    decreases |run|, 1
  {
    if run == [] then INIT else Apply(After(run[..|run| - 1]), run[|run| - 1])
  }

  // ----- The two gaps -----

  /** A pause is stored between the PLAY handler's test of the desired state and its store. */
  predicate InTestGap(s: State, step: Step) {
    step.UiGoes? && s.ui.StorePause? && s.handler == Clearing(Play)
  }

  /** The desired state is stored to between a pause store and its command. */
  predicate InSendGap(s: State, step: Step) {
    s.ui.SendPause? && ((step.HandlerGoes? && s.handler.Clearing?) || (step.ThreadGoes? && s.thread.ThreadStore?))
  }

  /** The gaps a run keeps out of. */
  datatype Gaps = Gaps(test: bool, send: bool)

  predicate Avoids(gaps: Gaps, s: State, step: Step) {
    !(gaps.test && InTestGap(s, step)) && !(gaps.send && InSendGap(s, step))
  }

  predicate RunAvoids(gaps: Gaps, run: seq<Step>)
    requires IsRun(run)
    decreases |run|
  {
    run == [] ||
    var n := |run| - 1;
    RunAvoids(gaps, run[..n]) && Avoids(gaps, After(run[..n]), run[n])
  }

  // ----- What ends a pause request -----

  /** A store that answers or replaces a pause request. */
  predicate Final(e: Entry) {
    e.PlayStore? || (e.Cleared? && (e.event.Paused? || e.event.Error? || e.event.Stopped?))
  }

  /** Entry k is the store of a PLAY handler whose test came before entry i. */
  ghost predicate Stale(log: seq<Entry>, i: int, k: int) {
    && 0 <= k < |log| && log[k] == Cleared(Play)
    && exists m :: 0 <= m < i && m < k && log[m] == Tested(Play) && forall q :: m < q < k ==> !log[q].Tested?
  }

  ghost predicate Ends(strict: bool, log: seq<Entry>, i: int, k: int) {
    0 <= i < k < |log| && (Final(log[k]) || (!strict && Stale(log, i, k)))
  }

  ghost predicate EndedBefore(strict: bool, log: seq<Entry>, i: int, j: int) {
    exists k :: k < j && Ends(strict, log, i, k)
  }

  /** Between any two pause stores the first has been ended. */
  ghost predicate Apart(strict: bool, log: seq<Entry>) {
    forall i, j :: 0 <= i < j < |log| && log[i] == PauseStore && log[j] == PauseStore ==> EndedBefore(strict, log, i, j)
  }

  ghost predicate AllEnded(strict: bool, log: seq<Entry>, upTo: int) {
    forall i :: 0 <= i < |log| && i < upTo && log[i] == PauseStore ==> EndedBefore(strict, log, i, |log|)
  }

  /** The handler's passed test is the latest one, and every earlier pause had ended by then. */
  ghost predicate StaleTest(log: seq<Entry>, m: int) {
    && 0 <= m < |log| && log[m] == Tested(Play)
    && (forall q :: m < q < |log| ==> !log[q].Tested?)
    && AllEnded(false, log, m)
  }

  /** `strict` when the test gap is kept out of. */
  ghost predicate Inv(strict: bool, s: State) {
    && s.desired in {BUTT, PLAY, PAUSE}
    && Apart(strict, s.log)
    && (s.desired != PAUSE ==> AllEnded(strict, s.log, |s.log|))
    && (s.ui.StorePause? ==> s.desired != PAUSE)
    && (s.handler.Clearing? ==>
          && Handled(s.handler.event) && !s.handler.event.Eof?
          && (s.handler.event.Play? ==> if strict then s.desired != PAUSE else exists m :: StaleTest(s.log, m)))
    && (s.handler.Storing? || s.handler.Testing? ==> Handled(s.handler.event))
  }

  /** Appending keeps what had ended ended. */
  lemma Append(strict: bool, log: seq<Entry>, e: Entry)
    ensures forall i, j :: j <= |log| && EndedBefore(strict, log, i, j) ==>
              EndedBefore(strict, log + [e], i, j) && EndedBefore(strict, log + [e], i, |log + [e]|)
    ensures Final(e) ==> forall i :: 0 <= i < |log| ==> EndedBefore(strict, log + [e], i, |log + [e]|)
  {
    var all := log + [e];
    forall i, j | j <= |log| && EndedBefore(strict, log, i, j)
      ensures EndedBefore(strict, all, i, j) && EndedBefore(strict, all, i, |all|)
    {
      var k :| k < j && Ends(strict, log, i, k);
      if !Final(log[k]) {
        var m :| 0 <= m < i && m < k && log[m] == Tested(Play) && forall q :: m < q < k ==> !log[q].Tested?;
        assert all[m] == Tested(Play);
      }
      assert Ends(strict, all, i, k);
    }
    if Final(e) {
      forall i | 0 <= i < |log|
        ensures EndedBefore(strict, all, i, |all|)
      {
        assert Ends(strict, all, i, |log|);
      }
    }
  }

  /** An entry that is no pause store keeps the log in order; so does a pause store when all
      earlier ones have ended. */
  lemma AppendKeeps(strict: bool, log: seq<Entry>, e: Entry)
    requires Apart(strict, log) && (e == PauseStore ==> AllEnded(strict, log, |log|))
    ensures Apart(strict, log + [e])
    ensures Final(e) || (e != PauseStore && AllEnded(strict, log, |log|)) ==> AllEnded(strict, log + [e], |log + [e]|)
    ensures !e.Tested? ==> forall m :: StaleTest(log, m) ==> StaleTest(log + [e], m)
  {
    Append(strict, log, e);
    Append(false, log, e);
  }

  /** The store of a PLAY handler ends every pause: the earlier ones had ended by its test, the
      later ones it ends itself, being stale. */
  lemma StaleClear(log: seq<Entry>, m: int)
    requires StaleTest(log, m)
    ensures AllEnded(false, log + [Cleared(Play)], |log| + 1)
  {
    var all := log + [Cleared(Play)];
    Append(false, log, Cleared(Play));
    forall i | 0 <= i < |all| && all[i] == PauseStore
      ensures EndedBefore(false, all, i, |all|)
    {
      if m < i {
        assert all[m] == Tested(Play);
        assert Stale(all, i, |log|);
        assert Ends(false, all, i, |log|);
      }
    }
  }

  lemma UiKeepsInv(strict: bool, s: State)
    requires Inv(strict, s) && (strict ==> !InTestGap(s, UiGoes))
    ensures Inv(strict, UiStep(s))
  {
    match s.ui
    case ReadThread(_) => AppendKeeps(strict, s.log, StopCmd);
    case StorePause => AppendKeeps(strict, s.log, PauseStore);
    case SendPause => AppendKeeps(strict, s.log, PauseCmd);
    case StorePlay => AppendKeeps(strict, s.log, PlayStore);
    case SendPlay => AppendKeeps(strict, s.log, PlayCmd);
    case _ => SilentUiKeepsInv(strict, s);
  }

  lemma SilentUiKeepsInv(strict: bool, s: State)
    requires Inv(strict, s) && UiStep(s).log == s.log
    ensures Inv(strict, UiStep(s))
  {
  }

  lemma ThreadKeepsInv(strict: bool, s: State, ok: bool)
    requires Inv(strict, s)
    ensures Inv(strict, ThreadStep(s, ok))
  {
    match s.thread
    case ThreadStore => AppendKeeps(strict, s.log, PlayStore);
    case ThreadSend => AppendKeeps(strict, s.log, PlayCmd);
    case _ =>
  }

  lemma TestKeepsInv(strict: bool, s: State)
    requires Inv(strict, s) && s.handler.Testing?
    ensures Inv(strict, HandlerStep(s))
  {
    var e := s.handler.event;
    if Answers(e, s.desired) {
      AppendKeeps(strict, s.log, Tested(e));
      if e.Play? && !strict {
        assert StaleTest(s.log + [Tested(e)], |s.log|);
      }
    }
  }

  lemma ClearKeepsInv(strict: bool, s: State)
    requires Inv(strict, s) && s.handler.Clearing?
    ensures Inv(strict, HandlerStep(s))
  {
    var e := s.handler.event;
    AppendKeeps(strict, s.log, Cleared(e));
    if e.Play? && !strict {
      var m :| StaleTest(s.log, m);
      StaleClear(s.log, m);
    }
  }

  lemma StepKeepsInv(strict: bool, s: State, step: Step)
    requires Inv(strict, s) && Enabled(s, step) && (strict ==> !InTestGap(s, step))
    ensures Inv(strict, Apply(s, step))
  {
    match step
    case UiGoes => UiKeepsInv(strict, s);
    case ThreadGoes(ok) => ThreadKeepsInv(strict, s, ok);
    case EventArrives(e) => AppendKeeps(strict, s.log, Reported(e));
    case HandlerGoes =>
      if s.handler.Testing? {
        TestKeepsInv(strict, s);
      } else if s.handler.Clearing? {
        ClearKeepsInv(strict, s);
      }
    case _ =>
  }

  lemma {:induction false} RunKeepsInv(gaps: Gaps, run: seq<Step>)
    requires IsRun(run) && RunAvoids(gaps, run)
    ensures Inv(gaps.test, After(run))
    decreases |run|
  {
    if run != [] {
      RunKeepsInv(gaps, run[..|run| - 1]);
      StepKeepsInv(gaps.test, After(run[..|run| - 1]), run[|run| - 1]);
    }
  }

  // ----- Commands and their own stores -----

  /** What may lie between a pause store and its command: no other pause store or command, nor, if
      `tight`, any store to the desired state. */
  predicate Between(tight: bool, e: Entry) {
    e != PauseStore && e != PauseCmd && (tight ==> !e.PlayStore? && !e.Cleared?)
  }

  /** Entry s is the pause store behind a command at c. */
  ghost predicate OwnStore(tight: bool, log: seq<Entry>, s: int, c: int) {
    && 0 <= s < c <= |log| && log[s] == PauseStore
    && forall q :: s < q < c ==> Between(tight, log[q])
  }

  ghost predicate HasStore(tight: bool, log: seq<Entry>, c: int) {
    exists s :: OwnStore(tight, log, s, c)
  }

  /** Every pause command has a store of its own, and so has the one about to be sent. */
  ghost predicate Paced(tight: bool, s: State) {
    && (forall c :: 0 <= c < |s.log| && s.log[c] == PauseCmd ==> HasStore(tight, s.log, c))
    && (s.ui.SendPause? ==> HasStore(tight, s.log, |s.log|))
  }

  lemma StoreStays(tight: bool, log: seq<Entry>, e: Entry, c: int)
    requires c <= |log| && HasStore(tight, log, c)
    ensures HasStore(tight, log + [e], c)
  {
    var s :| OwnStore(tight, log, s, c);
    assert OwnStore(tight, log + [e], s, c);
  }

  /** An entry other than a pause command, or the command of the latest store. */
  lemma PaceAppend(tight: bool, log: seq<Entry>, e: Entry)
    requires forall c :: 0 <= c < |log| && log[c] == PauseCmd ==> HasStore(tight, log, c)
    requires e == PauseCmd ==> HasStore(tight, log, |log|)
    ensures forall c :: 0 <= c < |log + [e]| && (log + [e])[c] == PauseCmd ==> HasStore(tight, log + [e], c)
    ensures e == PauseStore ==> HasStore(tight, log + [e], |log + [e]|)
    ensures HasStore(tight, log, |log|) && Between(tight, e) ==> HasStore(tight, log + [e], |log + [e]|)
  {
    var all := log + [e];
    forall c | 0 <= c < |all| && all[c] == PauseCmd
      ensures HasStore(tight, all, c)
    {
      StoreStays(tight, log, e, c);
    }
    if e == PauseStore {
      assert OwnStore(tight, all, |log|, |all|);
    } else if HasStore(tight, log, |log|) && Between(tight, e) {
      var s :| OwnStore(tight, log, s, |log|);
      assert OwnStore(tight, all, s, |all|);
    }
  }

  lemma UiKeepsPace(tight: bool, s: State)
    requires Paced(tight, s)
    ensures Paced(tight, UiStep(s))
  {
    match s.ui
    case ReadThread(_) => PaceAppend(tight, s.log, StopCmd);
    case StorePause => PaceAppend(tight, s.log, PauseStore);
    case SendPause => PaceAppend(tight, s.log, PauseCmd);
    case StorePlay => PaceAppend(tight, s.log, PlayStore);
    case SendPlay => PaceAppend(tight, s.log, PlayCmd);
    case _ =>
  }

  lemma StepKeepsPace(tight: bool, s: State, step: Step)
    requires Paced(tight, s) && Enabled(s, step) && (tight ==> !InSendGap(s, step))
    ensures Paced(tight, Apply(s, step))
  {
    match step
    case UiGoes => UiKeepsPace(tight, s);
    case ThreadGoes(_) =>
      PaceAppend(tight, s.log, PlayStore);
      PaceAppend(tight, s.log, PlayCmd);
    case EventArrives(e) => PaceAppend(tight, s.log, Reported(e));
    case HandlerGoes =>
      if !s.handler.Resting? {
        PaceAppend(tight, s.log, Tested(s.handler.event));
        PaceAppend(tight, s.log, Cleared(s.handler.event));
      }
    case _ =>
  }

  /** Every pause command follows a pause store of its own, with no other pause store or command
      between, at every moment of every run. */
  lemma {:induction false} CommandsFollowStores(gaps: Gaps, run: seq<Step>)
    requires IsRun(run) && RunAvoids(gaps, run)
    ensures Paced(gaps.send, After(run))
    decreases |run|
  {
    if run != [] {
      CommandsFollowStores(gaps, run[..|run| - 1]);
      StepKeepsPace(gaps.send, After(run[..|run| - 1]), run[|run| - 1]);
    }
  }

  // ----- The discipline of pause commands -----

  /** The request of the command at c, which begins with its own store or, if nothing comes between
      the two, with the command, is ended before the command at d. */
  ghost predicate Spaced(gaps: Gaps, log: seq<Entry>, c: int, d: int) {
    exists s, k :: OwnStore(gaps.send, log, s, c) && (if gaps.send then c else s) < k < d && Ends(gaps.test, log, s, k)
  }

  ghost predicate AllSpaced(gaps: Gaps, log: seq<Entry>) {
    forall c, d :: 0 <= c < d < |log| && log[c] == PauseCmd && log[d] == PauseCmd ==> Spaced(gaps, log, c, d)
  }

  lemma StoresSpaceCommands(gaps: Gaps, log: seq<Entry>, c: int, d: int)
    requires 0 <= c < d < |log| && log[c] == PauseCmd && log[d] == PauseCmd
    requires Apart(gaps.test, log) && HasStore(gaps.send, log, c) && HasStore(gaps.send, log, d)
    ensures Spaced(gaps, log, c, d)
  {
    var s :| OwnStore(gaps.send, log, s, c);
    var s' :| OwnStore(gaps.send, log, s', d);
    assert c < s';
    assert EndedBefore(gaps.test, log, s, s');
    var k :| k < s' && Ends(gaps.test, log, s, k);
    assert log[k].PlayStore? || log[k].Cleared?;
    assert gaps.send ==> c < k;
  }

  /** In every interleaving of the program's single reads, stores and commands, the desired state
      is nothing, play or pause, and before a second pause command the request of the first is
      ended: by a store for a PAUSED, ERROR or STOPPED event, a play store, or the store of a PLAY
      handler whose test came before it. Runs that keep out of the test gap need no such PLAY
      handler; in runs that keep out of the send gap the end lies between the two commands. */
  lemma PauseDiscipline(gaps: Gaps, run: seq<Step>)
    requires IsRun(run) && RunAvoids(gaps, run)
    ensures var s := After(run); s.desired in {BUTT, PLAY, PAUSE} && AllSpaced(gaps, s.log)
  {
    RunKeepsInv(gaps, run);
    CommandsFollowStores(gaps, run);
    var log := After(run).log;
    forall c, d | 0 <= c < d < |log| && log[c] == PauseCmd && log[d] == PauseCmd
      ensures Spaced(gaps, log, c, d)
    {
      StoresSpaceCommands(gaps, log, c, d);
    }
  }

  ghost predicate EndBetween(log: seq<Entry>, c: int, d: int) {
    exists k :: 0 <= c < k < d < |log| && Final(log[k])
  }

  /** Between any two pause commands lies a store for a PAUSED, ERROR or STOPPED event or a play
      store. */
  ghost predicate CommandsApart(log: seq<Entry>) {
    forall c, d :: 0 <= c < d < |log| && log[c] == PauseCmd && log[d] == PauseCmd ==> EndBetween(log, c, d)
  }

  /** As many pause commands as pause stores, but for the one about to be sent. */
  predicate Paired(s: State) {
    multiset(s.log)[PauseStore] == multiset(s.log)[PauseCmd] + if s.ui.SendPause? then 1 else 0
  }

  /** Each pause store sends one command, at every moment of every run. */
  lemma {:induction false} StoresMatchCommands(run: seq<Step>)
    requires IsRun(run)
    ensures Paired(After(run))
    decreases |run|
  {
    if run != [] {
      StoresMatchCommands(run[..|run| - 1]);
      PairStep(After(run[..|run| - 1]), run[|run| - 1]);
    }
  }

  lemma UiPairs(s: State)
    requires Paired(s)
    ensures Paired(UiStep(s))
  {
    if s.ui.StorePause? {
      assert UiStep(s).log == s.log + [PauseStore] && UiStep(s).ui == SendPause;
    } else if s.ui.SendPause? {
      assert UiStep(s).log == s.log + [PauseCmd] && UiStep(s).ui == Free;
    } else {
      UiSilent(s);
    }
  }

  lemma UiSilent(s: State)
    requires !s.ui.StorePause? && !s.ui.SendPause?
    ensures var t := UiStep(s);
            && !t.ui.SendPause?
            && t.log in [s.log, s.log + [StopCmd], s.log + [PlayStore], s.log + [PlayCmd]]
  {}

  lemma HandlerPairs(s: State)
    requires Paired(s)
    ensures Paired(HandlerStep(s))
  {}

  lemma PairStep(s: State, step: Step)
    requires Enabled(s, step) && Paired(s)
    ensures Paired(Apply(s, step))
  {
    match step
    case UiGoes => UiPairs(s);
    case HandlerGoes => HandlerPairs(s);
    case _ =>
  }

  // ----- The failing runs, and the exact condition -----

  const ONLY_TEST := Gaps(true, false)
  const ONLY_SEND := Gaps(false, true)

  /** The run after one more step, whose outcome is named. */
  lemma Extend(gaps: Gaps, run: seq<Step>, step: Step, t: State) returns (more: seq<Step>)
    requires IsRun(run) && RunAvoids(gaps, run)
    requires var s := After(run); Enabled(s, step) && Avoids(gaps, s, step) && t == Apply(s, step)
    ensures IsRun(more) && RunAvoids(gaps, more) && After(more) == t
  {
    more := run + [step];
    assert more[..|run|] == run;
  }

  /** The start click up to the new thread's first step. */
  lemma Started(gaps: Gaps) returns (run: seq<Step>)
    ensures IsRun(run) && RunAvoids(gaps, run)
    ensures After(run) == State(IDLE, BUTT, true, Preparing, Free, Resting, [])
  {
    run := [];
    run := Extend(gaps, run, StartClick(true), State(BUTT, BUTT, false, NoThread, ReadNetwork(true), Resting, []));
    run := Extend(gaps, run, UiGoes, State(BUTT, BUTT, false, NoThread, TestIdle, Resting, []));
    run := Extend(gaps, run, UiGoes, State(BUTT, BUTT, false, NoThread, ReadThread(true), Resting, []));
    run := Extend(gaps, run, UiGoes, State(BUTT, BUTT, false, NoThread, StoreIdle, Resting, []));
    run := Extend(gaps, run, UiGoes, State(IDLE, BUTT, false, NoThread, Spawn, Resting, []));
    run := Extend(gaps, run, UiGoes, State(IDLE, BUTT, true, Preparing, Free, Resting, []));
  }

  /** The play thread has asked to play. */
  lemma Playing(gaps: Gaps) returns (run: seq<Step>)
    ensures IsRun(run) && RunAvoids(gaps, run)
    ensures After(run) == State(IDLE, PLAY, true, Polling, Free, Resting, [PlayStore, PlayCmd])
  {
    run := Started(gaps);
    run := Extend(gaps, run, ThreadGoes(true), State(IDLE, BUTT, true, ThreadStore, Free, Resting, []));
    run := Extend(gaps, run, ThreadGoes(true), State(IDLE, PLAY, true, ThreadSend, Free, Resting, [PlayStore]));
    run := Extend(gaps, run, ThreadGoes(true), State(IDLE, PLAY, true, Polling, Free, Resting, [PlayStore, PlayCmd]));
  }

  /** An event whose handler has stored the current state. */
  lemma EventStored(gaps: Gaps, run0: seq<Step>, e: Event) returns (run: seq<Step>)
    requires IsRun(run0) && RunAvoids(gaps, run0) && After(run0).handler.Resting?
    requires Handled(e) && !e.Stopped?
    ensures IsRun(run) && RunAvoids(gaps, run)
    ensures var s := After(run0);
            After(run) == s.(current := Meaning(e), handler := Testing(e), log := s.log + [Reported(e)])
  {
    var s := After(run0);
    var log := s.log + [Reported(e)];
    run := Extend(gaps, run0, EventArrives(e), s.(handler := Storing(e), log := log));
    run := Extend(gaps, run, HandlerGoes, s.(current := Meaning(e), handler := Testing(e), log := log));
  }

  /** An event whose handler has passed its test. */
  lemma EventTested(gaps: Gaps, run0: seq<Step>, e: Event) returns (run: seq<Step>)
    requires IsRun(run0) && RunAvoids(gaps, run0) && After(run0).handler.Resting?
    requires Handled(e) && !e.Stopped? && Answers(e, After(run0).desired)
    ensures IsRun(run) && RunAvoids(gaps, run)
    ensures var s := After(run0);
            After(run) == s.(current := Meaning(e), handler := Clearing(e), log := s.log + [Reported(e)] + [Tested(e)])
  {
    run := EventStored(gaps, run0, e);
    var s := After(run);
    run := Extend(gaps, run, HandlerGoes, s.(handler := Clearing(e), log := s.log + [Tested(e)]));
  }

  /** The handler stores that nothing is desired any more. */
  lemma EventCleared(gaps: Gaps, run0: seq<Step>, e: Event) returns (run: seq<Step>)
    requires IsRun(run0) && RunAvoids(gaps, run0)
    requires var s := After(run0); s.handler == Clearing(e) && !(gaps.send && s.ui.SendPause?)
    ensures IsRun(run) && RunAvoids(gaps, run)
    ensures var s := After(run0);
            After(run) == s.(desired := BUTT, handler := Resting, log := s.log + [Cleared(e)])
  {
    var s := After(run0);
    run := Extend(gaps, run0, HandlerGoes, s.(desired := BUTT, handler := Resting, log := s.log + [Cleared(e)]));
  }

  /** A pause click up to its store. */
  lemma PauseTested(gaps: Gaps, run0: seq<Step>) returns (run: seq<Step>)
    requires IsRun(run0) && RunAvoids(gaps, run0)
    requires var s := After(run0); s.ui.Free? && s.videoThread && s.current == PLAY && s.desired != PAUSE
    ensures IsRun(run) && RunAvoids(gaps, run)
    ensures After(run) == After(run0).(ui := StorePause)
  {
    var s := After(run0);
    run := Extend(gaps, run0, PauseClick(true), s.(ui := ReadCurrent));
    run := Extend(gaps, run, UiGoes, s.(ui := TestPause));
    run := Extend(gaps, run, UiGoes, s.(ui := StorePause));
  }

  /** A pause click up to its command. */
  lemma PauseStored(gaps: Gaps, run0: seq<Step>) returns (run: seq<Step>)
    requires IsRun(run0) && RunAvoids(gaps, run0)
    requires var s := After(run0); s.ui.Free? && s.videoThread && s.current == PLAY && s.desired != PAUSE
    requires !(gaps.test && After(run0).handler == Clearing(Play))
    ensures IsRun(run) && RunAvoids(gaps, run)
    ensures var s := After(run0);
            After(run) == s.(desired := PAUSE, ui := SendPause, log := s.log + [PauseStore])
  {
    var s := After(run0);
    run := PauseTested(gaps, run0);
    run := Extend(gaps, run, UiGoes, s.(desired := PAUSE, ui := SendPause, log := s.log + [PauseStore]));
  }

  lemma PauseSent(gaps: Gaps, run0: seq<Step>) returns (run: seq<Step>)
    requires IsRun(run0) && RunAvoids(gaps, run0) && After(run0).ui.SendPause?
    ensures IsRun(run) && RunAvoids(gaps, run)
    ensures var s := After(run0); After(run) == s.(ui := Free, log := s.log + [PauseCmd])
  {
    var s := After(run0);
    run := Extend(gaps, run0, UiGoes, s.(ui := Free, log := s.log + [PauseCmd]));
  }

  /** A whole pause click. */
  lemma ClickPause(gaps: Gaps, run0: seq<Step>) returns (run: seq<Step>)
    requires IsRun(run0) && RunAvoids(gaps, run0)
    requires var s := After(run0); s.ui.Free? && s.videoThread && s.current == PLAY && s.desired != PAUSE
    requires !(gaps.test && After(run0).handler == Clearing(Play))
    ensures IsRun(run) && RunAvoids(gaps, run)
    ensures var s := After(run0);
            After(run) == s.(desired := PAUSE, log := s.log + [PauseStore] + [PauseCmd])
  {
    run := PauseStored(gaps, run0);
    run := PauseSent(gaps, run);
  }

  const CLICKED_IN_TEST := [PlayStore, PlayCmd, Reported(Play), Tested(Play), PauseStore, PauseCmd]

  lemma ClickInTest() returns (run: seq<Step>)
    ensures IsRun(run) && RunAvoids(ONLY_SEND, run)
    ensures After(run) == State(PLAY, PAUSE, true, Polling, Free, Clearing(Play), CLICKED_IN_TEST)
  {
    run := Playing(ONLY_SEND);
    run := EventTested(ONLY_SEND, run, Play);
    assert After(run).log == CLICKED_IN_TEST[..4];
    run := ClickPause(ONLY_SEND, run);
    assert After(run).log == CLICKED_IN_TEST;
  }

  lemma NotApart(log: seq<Entry>, c: nat, d: nat)
    requires c < d < |log| && log[c] == PauseCmd && log[d] == PauseCmd
    requires forall k :: c < k < d ==> !Final(log[k])
    ensures !CommandsApart(log)
  {
    assert !EndBetween(log, c, d);
  }

  /** A pause click between the PLAY handler's test and its store: the store wipes the pause
      request, and a second click pauses again with nothing to end the first. */
  lemma RepeatedPause() returns (run: seq<Step>)
    ensures IsRun(run) && RunAvoids(ONLY_SEND, run)
    ensures After(run).log == CLICKED_IN_TEST + [Cleared(Play)] + [PauseStore] + [PauseCmd]
    ensures !CommandsApart(After(run).log)
  {
    run := ClickInTest();
    run := EventCleared(ONLY_SEND, run, Play);
    run := ClickPause(ONLY_SEND, run);
    NotApart(After(run).log, 5, 8);
  }

  const PAUSED_BEFORE_SEND := [PlayStore, PlayCmd, Reported(Play), Tested(Play), Cleared(Play), PauseStore,
                               Reported(Paused), Tested(Paused), Cleared(Paused)]

  /** Playing with nothing desired any more, and a pause stored. */
  lemma StoredInPlay() returns (run: seq<Step>)
    ensures IsRun(run) && RunAvoids(ONLY_TEST, run)
    ensures After(run) == State(PLAY, PAUSE, true, Polling, SendPause, Resting, PAUSED_BEFORE_SEND[..6])
  {
    run := Playing(ONLY_TEST);
    run := EventTested(ONLY_TEST, run, Play);
    assert After(run).log == PAUSED_BEFORE_SEND[..4];
    run := EventCleared(ONLY_TEST, run, Play);
    assert After(run).log == PAUSED_BEFORE_SEND[..5];
    run := PauseStored(ONLY_TEST, run);
    assert After(run).log == PAUSED_BEFORE_SEND[..6];
  }

  /** The pause is answered before it is sent. */
  lemma PausedBeforeSend() returns (run: seq<Step>)
    ensures IsRun(run) && RunAvoids(ONLY_TEST, run)
    ensures After(run) == State(PAUSE, BUTT, true, Polling, SendPause, Resting, PAUSED_BEFORE_SEND)
  {
    run := StoredInPlay();
    run := EventTested(ONLY_TEST, run, Paused);
    assert After(run).log == PAUSED_BEFORE_SEND[..8];
    run := EventCleared(ONLY_TEST, run, Paused);
    assert After(run).log == PAUSED_BEFORE_SEND;
  }

  /** A PAUSED and a PLAY event between a pause store and its command: by the time the command goes
      out the request counts as answered, and a second click pauses again. */
  lemma LatePause() returns (run: seq<Step>)
    ensures IsRun(run) && RunAvoids(ONLY_TEST, run)
    ensures After(run).log == PAUSED_BEFORE_SEND + [Reported(Play)] + [PauseCmd] + [PauseStore] + [PauseCmd]
    ensures !CommandsApart(After(run).log)
  {
    run := PausedBeforeSend();
    run := EventStored(ONLY_TEST, run, Play);
    var s := After(run);
    run := Extend(ONLY_TEST, run, HandlerGoes, s.(handler := Resting));
    run := PauseSent(ONLY_TEST, run);
    run := ClickPause(ONLY_TEST, run);
    NotApart(After(run).log, 10, 12);
  }

  lemma {:induction false} AvoidsFewer(a: Gaps, b: Gaps, run: seq<Step>)
    requires IsRun(run) && RunAvoids(a, run) && (b.test ==> a.test) && (b.send ==> a.send)
    ensures RunAvoids(b, run)
    decreases |run|
  {
    if run != [] {
      AvoidsFewer(a, b, run[..|run| - 1]);
    }
  }

  /** A store for a PAUSED, ERROR or STOPPED event or a play store lies between any two pause
      commands of every run that keeps out of the given gaps, if and only if these are both. */
  lemma PauseDisciplineIff(gaps: Gaps)
    ensures (forall run :: IsRun(run) && RunAvoids(gaps, run) ==> CommandsApart(After(run).log))
            <==> gaps.test && gaps.send
  {
    if gaps.test && gaps.send {
      forall run | IsRun(run) && RunAvoids(gaps, run)
        ensures CommandsApart(After(run).log)
      {
        PauseDiscipline(gaps, run);
        SpacedApart(gaps, After(run).log);
      }
    } else if gaps.test {
      var run := LatePause();
      AvoidsFewer(ONLY_TEST, gaps, run);
    } else {
      var run := RepeatedPause();
      AvoidsFewer(ONLY_SEND, gaps, run);
    }
  }

  lemma SpacedApart(gaps: Gaps, log: seq<Entry>)
    requires gaps.test && gaps.send && AllSpaced(gaps, log)
    ensures CommandsApart(log)
  {
    forall c, d | 0 <= c < d < |log| && log[c] == PauseCmd && log[d] == PauseCmd
      ensures EndBetween(log, c, d)
    {
      assert Spaced(gaps, log, c, d);
    }
  }

  // ----- The callbacks, uninterrupted -----

  /** Steps the UI still has before it is free or waits for the thread. */
  function UiRank(ui: Ui): nat {
    match ui
    case Free => 0
    case Join(_) => 0
    case SendPause => 1
    case SendPlay => 1
    case Spawn => 1
    case StoreIdle => 2
    case StorePause => 2
    case StorePlay => 2
    case ReadThread(_) => 3
    case TestPause => 3
    case TestPlay => 3
    case TestIdle => 4
    case ReadCurrent => 4
    case ReadNetwork(_) => 5
  }

  /** The UI runs on until it is free or waits for the thread. */
  function UiRuns(s: State): State
    decreases UiRank(s.ui)
  {
    if UiRank(s.ui) == 0 then s else UiRuns(UiStep(s))
  }

  function HandlerRuns(s: State): State
    decreases if s.handler.Storing? then 3 else if s.handler.Testing? then 2 else if s.handler.Clearing? then 1 else 0
  {
    if s.handler.Resting? then s else HandlerRuns(HandlerStep(s))
  }

  lemma UiRunsOn(s: State)
    requires UiRank(s.ui) != 0
    ensures UiRuns(s) == UiRuns(UiStep(s))
  {}

  /** stop_player up to its join, with the restart if there is nothing to join. */
  lemma StopRuns(s: State, restart: bool)
    requires s.ui == ReadThread(restart)
    ensures UiRuns(s) ==
            if s.videoThread then Note(s, StopCmd).(ui := Join(restart))
            else if restart then s.(current := IDLE, videoThread := true, thread := Preparing, ui := Free)
            else s.(ui := Free)
  {
    UiRunsOn(s);
    if !s.videoThread && restart {
      UiRunsOn(s.(ui := StoreIdle));
      UiRunsOn(s.(current := IDLE, ui := Spawn));
    }
  }

  lemma StartRuns(s: State, network: bool)
    requires s.ui == ReadNetwork(network)
    ensures UiRuns(s) == if network && s.desired == BUTT then UiRuns(s.(ui := ReadThread(true))) else s.(ui := Free)
  {
    UiRunsOn(s);
    if network {
      UiRunsOn(s.(ui := TestIdle));
    }
  }

  lemma StoreRuns(s: State)
    ensures s.ui.StorePause? ==> UiRuns(s) == Note(Note(s, PauseStore), PauseCmd).(desired := PAUSE, ui := Free)
    ensures s.ui.StorePlay? ==> UiRuns(s) == Note(Note(s, PlayStore), PlayCmd).(desired := PLAY, ui := Free)
  {
    if s.ui.StorePause? {
      UiRunsOn(s);
      UiRunsOn(Note(s, PauseStore).(desired := PAUSE, ui := SendPause));
    } else if s.ui.StorePlay? {
      UiRunsOn(s);
      UiRunsOn(Note(s, PlayStore).(desired := PLAY, ui := SendPlay));
    }
  }

  lemma PauseRuns(s: State)
    requires s.ui == ReadCurrent && s.current == PLAY
    ensures UiRuns(s) == if s.desired == PAUSE then s.(ui := Free)
                         else Note(Note(s, PauseStore), PauseCmd).(desired := PAUSE, ui := Free)
  {
    UiRunsOn(s);
    UiRunsOn(s.(ui := TestPause));
    StoreRuns(s.(ui := StorePause));
  }

  lemma PlayRuns(s: State)
    requires s.ui == ReadCurrent && s.current != PLAY
    ensures UiRuns(s) == if s.desired == PLAY then s.(ui := Free)
                         else Note(Note(s, PlayStore), PlayCmd).(desired := PLAY, ui := Free)
  {
    UiRunsOn(s);
    UiRunsOn(s.(ui := TestPlay));
    StoreRuns(s.(ui := StorePlay));
  }

  lemma HandlerRunsOn(s: State)
    requires !s.handler.Resting?
    ensures HandlerRuns(s) == HandlerRuns(HandlerStep(s))
  {}

  lemma EventRuns(s: State, e: Event)
    requires s.handler == Storing(e)
    ensures HandlerRuns(s) ==
            var t := s.(current := Meaning(e), handler := Resting);
            if e.Stopped? then Note(t, Cleared(e)).(desired := BUTT)
            else if Answers(e, s.desired) then Note(Note(t, Tested(e)), Cleared(e)).(desired := BUTT)
            else t
  {
    var t := s.(current := Meaning(e), handler := Resting);
    HandlerRunsOn(s);
    if e.Stopped? {
      HandlerRunsOn(t.(handler := Clearing(e)));
    } else {
      HandlerRunsOn(t.(handler := Testing(e)));
      if Answers(e, s.desired) {
        HandlerRunsOn(Note(t, Tested(e)).(handler := Clearing(e)));
      }
    }
  }

  /** What an event leaves, its handler run without interruption: end of stream, errors and stops
      mean stopped, PLAY and PAUSED what they say; errors and stops end any request, PLAY and PAUSED
      one of their own kind; other events change nothing. */
  lemma EventMeans(s: State, e: Event)
    requires s.handler.Resting?
    ensures var t := HandlerRuns(Apply(s, EventArrives(e)));
            && t.current == (match e
                             case Eof => STOP case Error => STOP case Stopped => STOP
                             case Play => PLAY case Paused => PAUSE
                             case _ => s.current)
            && t.desired == (match e
                             case Error => BUTT case Stopped => BUTT
                             case Play => if s.desired == PLAY then BUTT else s.desired
                             case Paused => if s.desired == PAUSE then BUTT else s.desired
                             case Eof => if s.desired == STOP then BUTT else s.desired
                             case _ => s.desired)
            && t.handler.Resting? && t.thread == s.thread && t.ui == s.ui && t.videoThread == s.videoThread
  {
    var started := Apply(s, EventArrives(e));
    if Handled(e) {
      EventRuns(started, e);
    }
  }

  // ----- The play thread -----

  /** The thread takes n steps with no other in between, its preparation succeeding. */
  function ThreadAlone(s: State, n: nat): State
    decreases n
  {
    if n == 0 then s else ThreadAlone(ThreadStep(s, true), n - 1)
  }

  /** A prepared thread stores and sends one play request and goes into its loop; one whose
      preparation fails returns and leaves its identifier set. */
  lemma ThreadBegins(s: State)
    requires s.thread.Preparing?
    ensures ThreadAlone(s, 3) == Note(Note(s, PlayStore), PlayCmd).(desired := PLAY, thread := Polling)
    ensures ThreadStep(s, false) == s.(thread := Returned)
  {
    var a := ThreadStep(s, true);
    var b := ThreadStep(a, true);
    assert ThreadAlone(s, 3) == ThreadAlone(a, 2) == ThreadAlone(b, 1) == ThreadStep(b, true);
  }

  lemma {:induction false} PollsOn(s: State, n: nat)
    requires s.thread.Polling? && s.current != STOP
    ensures ThreadAlone(s, n) == s
    decreases n
  {
    if n > 0 {
      assert ThreadStep(s, true) == s;
      PollsOn(s, n - 1);
    }
  }

  /** The thread, left to itself, returns. */
  ghost predicate Leaves(s: State) {
    exists n: nat :: ThreadAlone(s, n).thread.Returned?
  }

  lemma ReturnsAfter(s: State, n: nat)
    requires ThreadAlone(s, n).thread.Returned?
    ensures Leaves(s)
  {
  }

  /** A thread in its loop, left to itself, returns if and only if the current state is STOP, and
      then it clears its identifier and changes nothing else. */
  lemma PollEndsIff(s: State)
    requires s.thread.Polling?
    ensures Leaves(s) <==> s.current == STOP
    ensures s.current == STOP ==> ThreadAlone(s, 2) == s.(thread := Returned, videoThread := false)
  {
    if s.current == STOP {
      var a := ThreadStep(s, true);
      assert ThreadAlone(s, 2) == ThreadAlone(a, 1) == ThreadStep(a, true);
      ReturnsAfter(s, 2);
    } else {
      forall n: nat
        ensures !ThreadAlone(s, n).thread.Returned?
      {
        PollsOn(s, n);
      }
    }
  }

  /** An event lets the thread out of its loop if and only if it is an end of stream, an error or
      a stop, or one that leaves an earlier STOP in place. */
  lemma EventEndsPoll(s: State, e: Event)
    requires s.handler.Resting? && s.thread.Polling?
    ensures var t := HandlerRuns(Apply(s, EventArrives(e)));
            Leaves(t) <==>
              e.Eof? || e.Error? || e.Stopped? || (s.current == STOP && !e.Play? && !e.Paused?)
  {
    EventMeans(s, e);
    PollEndsIff(HandlerRuns(Apply(s, EventArrives(e))));
  }

  predicate Alive(thread: Thread) {
    !thread.NoThread? && !thread.Returned?
  }

  /** A running thread has its identifier set, and the UI is about to start one only when none
      runs. */
  predicate OneThreadInv(s: State) {
    && (Alive(s.thread) ==> s.videoThread)
    && (s.videoThread ==> !s.thread.NoThread?)
    && (s.ui.StoreIdle? || s.ui.Spawn? ==> !Alive(s.thread))
  }

  lemma StepKeepsOneThread(s: State, step: Step)
    requires OneThreadInv(s) && Enabled(s, step)
    ensures OneThreadInv(Apply(s, step))
  {
  }

  /** In every interleaving there is at most one play thread: none is started while one runs. */
  lemma {:induction false} OneThread(run: seq<Step>)
    requires IsRun(run)
    ensures OneThreadInv(After(run))
    decreases |run|
  {
    if run != [] {
      OneThread(run[..|run| - 1]);
      StepKeepsOneThread(After(run[..|run| - 1]), run[|run| - 1]);
    }
  }

  // ----- Whole clicks -----

  function Restarted(s: State): State {
    s.(current := IDLE, videoThread := true, thread := Preparing, ui := Free)
  }

  /** A stop click tells a running player to stop and waits for its thread. */
  lemma StopClickMeans(s: State)
    requires s.ui.Free?
    ensures UiRuns(Apply(s, StopClick)) == if s.videoThread then Note(s, StopCmd).(ui := Join(false)) else s
  {
    StopRuns(Apply(s, StopClick), false);
  }

  /** A start click does nothing without a network or with a request outstanding; otherwise it
      stops what plays and starts again, at once if nothing does. */
  lemma StartClickMeans(s: State, network: bool)
    requires s.ui.Free?
    ensures UiRuns(Apply(s, StartClick(network))) ==
            if !network || s.desired != BUTT then s
            else if s.videoThread then Note(s, StopCmd).(ui := Join(true))
            else Restarted(s)
  {
    StartRuns(Apply(s, StartClick(network)), network);
    StopRuns(s.(ui := ReadThread(true)), true);
  }

  /** A pause click is a start click while nothing plays; otherwise it asks to pause what is
      playing and to play what is not, once per request. */
  lemma PauseClickMeans(s: State, network: bool)
    requires s.ui.Free?
    ensures UiRuns(Apply(s, PauseClick(network))) ==
            if !s.videoThread then UiRuns(Apply(s, StartClick(network)))
            else if s.current == PLAY then
              (if s.desired == PAUSE then s else Note(Note(s, PauseStore), PauseCmd).(desired := PAUSE))
            else (if s.desired == PLAY then s else Note(Note(s, PlayStore), PlayCmd).(desired := PLAY))
  {
    if s.videoThread {
      if s.current == PLAY {
        PauseRuns(Apply(s, PauseClick(network)));
      } else {
        PlayRuns(Apply(s, PauseClick(network)));
      }
    }
  }

  /** Once the thread has returned, the waiting UI clears its identifier and restarts, if asked. */
  lemma JoinMeans(s: State, restart: bool)
    requires s.ui == Join(restart)
    ensures UiRuns(UiStep(s)) == if restart then Restarted(s) else s.(videoThread := false, ui := Free)
  {
    var t := s.(videoThread := false);
    if restart {
      UiRunsOn(t.(ui := StoreIdle));
      UiRunsOn(t.(current := IDLE, ui := Spawn));
    }
  }

  class Monitor {
    var current: PlayerState
    var desired: PlayerState
    var videoThread: bool
    var thread: Thread
    var ui: Ui
    var handler: Handler
    var log: seq<Entry>

    ghost function Now(): State
      reads this
    {
      State(current, desired, videoThread, thread, ui, handler, log)
    }

    constructor ()
      ensures Now() == INIT && Inv(false, Now())
    {
      current, desired, videoThread, thread, ui, handler, log := BUTT, BUTT, false, NoThread, Free, Resting, [];
    }

    /** The event handler, run without interruption, takes exactly its steps. */
    method PlayerEventFn(e: Event)
      requires handler.Resting?
      modifies this
      ensures Now() == HandlerRuns(Apply(old(Now()), EventArrives(e)))
      ensures e.Eof? || e.Error? || e.Stopped? ==> current == STOP
      ensures e.Play? ==> current == PLAY && desired == if old(desired) == PLAY then BUTT else old(desired)
      ensures e.Paused? ==> current == PAUSE && desired == if old(desired) == PAUSE then BUTT else old(desired)
      ensures e.Error? || e.Stopped? ==> desired == BUTT
    {
      ghost var started := Apply(Now(), EventArrives(e));
      if Handled(e) {
        EventRuns(started, e);
      }
      log := log + [Reported(e)];
      match e {
        case Eof =>
          current := STOP;
          if desired == STOP {
            log := log + [Tested(e)];
            desired := BUTT;
            log := log + [Cleared(e)];
          }
        case Error =>
          current := STOP;
          if desired != BUTT {
            log := log + [Tested(e)];
            desired := BUTT;
            log := log + [Cleared(e)];
          }
        case Play =>
          current := PLAY;
          if desired == PLAY {
            log := log + [Tested(e)];
            desired := BUTT;
            log := log + [Cleared(e)];
          }
        case Paused =>
          current := PAUSE;
          if desired == PAUSE {
            log := log + [Tested(e)];
            desired := BUTT;
            log := log + [Cleared(e)];
          }
        case Stopped =>
          current := STOP;
          desired := BUTT;
          log := log + [Cleared(e)];
        case _ =>
      }
    }

    /** stop_player up to its join, and the restart if it need not wait. */
    method StopPlayer(restart: bool)
      requires ui.Free?
      modifies this
      ensures Now() == UiRuns(old(Now()).(ui := ReadThread(restart)))
    {
      StopRuns(Now().(ui := ReadThread(restart)), restart);
      if videoThread {
        log := log + [StopCmd];
        ui := Join(restart);
      } else if restart {
        current := IDLE;
        videoThread := true;
        thread := Preparing;
      }
    }

    method RtspPlayStop()
      requires ui.Free?
      modifies this
      ensures Now() == UiRuns(Apply(old(Now()), StopClick))
    {
      StopPlayer(false);
    }

    method RtspPlayStart(network: bool)
      requires ui.Free?
      modifies this
      ensures Now() == UiRuns(Apply(old(Now()), StartClick(network)))
    {
      StartRuns(Apply(Now(), StartClick(network)), network);
      if network {
        if desired != BUTT {
          return;
        }
        StopPlayer(true);
      }
    }

    method RtspPlayPause(network: bool)
      requires ui.Free?
      modifies this
      ensures Now() == UiRuns(Apply(old(Now()), PauseClick(network)))
    {
      if !videoThread {
        RtspPlayStart(network);
        return;
      }
      ghost var started := Apply(Now(), PauseClick(network));
      if current == PLAY {
        PauseRuns(started);
        if desired != PAUSE {
          desired := PAUSE;
          log := log + [PauseStore];
          log := log + [PauseCmd];
        }
      } else {
        PlayRuns(started);
        if desired != PLAY {
          desired := PLAY;
          log := log + [PlayStore];
          log := log + [PlayCmd];
        }
      }
    }
  }
}
