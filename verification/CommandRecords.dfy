/** The command protocol on whole records: one client writes records into a pipe, the server
    takes everything pending, handles the first record and answers waiting calls through a
    semaphore. The byte-level channel behaves like this as long as its reads fit the buffer. */
module CommandRecords {

  /** `id` numbers the records in the order sent. */
  datatype Record = Record(id: nat, cmd: int, wait: bool)

  /** The server's program counter, with what it has read. */
  datatype Server<+T> = Starting | Reading | Executing(rec: T) | Posting(rec: T)

  datatype Client = Idle | Waiting(rec: Record)

  datatype State = State(pipe: seq<Record>, sem: nat, server: Server<Record>, client: Client,
                         sent: seq<Record>, executed: seq<Record>)

  /** The atomic steps: the two calls up to their write, the return from the semaphore, and the
      server's start, read, switch and post. */
  datatype Step =
    | Query(cmd: int)
    | QueryWait(cmd: int)
    | Return
    | Listen
    | Read
    | Execute
    | Post

  function Listening(s: State): bool {
    !s.server.Starting?
  }

  predicate Enabled(s: State, step: Step) {
    match step
    case Query(_) => s.client.Idle?
    case QueryWait(_) => s.client.Idle?
    case Return => s.client.Waiting? && 0 < s.sem
    case Listen => s.server.Starting?
    case Read => s.server.Reading? && s.pipe != []
    case Execute => s.server.Executing?
    case Post => s.server.Posting?
  }

  function Apply(s: State, step: Step): State
    requires Enabled(s, step)
  {
    match step
    case Query(cmd) => if Listening(s) then Send(s, Record(|s.sent|, cmd, false)) else s
    case QueryWait(cmd) =>
      if Listening(s) then
        var r := Record(|s.sent|, cmd, true);
        Send(s, r).(client := Waiting(r))
      else s
    case Return => s.(sem := s.sem - 1, client := Idle)
    case Listen => s.(server := Reading)
    case Read => s.(pipe := [], server := Executing(s.pipe[0]))
    case Execute => s.(executed := s.executed + [s.server.rec], server := Posting(s.server.rec))
    case Post => s.(sem := if s.server.rec.wait then s.sem + 1 else s.sem, server := Reading)
  }

  function Send(s: State, r: Record): State {
    s.(pipe := s.pipe + [r], sent := s.sent + [r])
  }

  const INIT := State([], 0, Starting, Idle, [], [])

  predicate IsRun(s: State, run: seq<Step>)
    decreases |run|
  {
    run == [] || (Enabled(s, run[0]) && IsRun(Apply(s, run[0]), run[1..]))
  }

  function After(s: State, run: seq<Step>): State
    requires IsRun(s, run)
    decreases |run|
  {
    if run == [] then s else After(Apply(s, run[0]), run[1..])
  }

  // ----- Invariant -----

  function Current(s: State): seq<Record> {
    if s.server.Executing? then [s.server.rec] else []
  }

  /** Everything executed, being executed or pending, in that order. */
  function Line(s: State): seq<Record> {
    s.executed + Current(s) + s.pipe
  }

  predicate Numbered(sent: seq<Record>) {
    forall i :: 0 <= i < |sent| ==> sent[i].id == i
  }

  /** An in-order, duplicate-free selection of the sent records. */
  predicate Selection(line: seq<Record>, sent: seq<Record>) {
    && (forall i :: 0 <= i < |line| ==> line[i].id < |sent| && sent[line[i].id] == line[i])
    && (forall i, j :: 0 <= i < j < |line| ==> line[i].id < line[j].id)
  }

  /** The record the server has read and not yet answered waits for an answer. */
  predicate Owing(s: State) {
    (s.server.Executing? || s.server.Posting?) && s.server.rec.wait
  }

  predicate Pending(s: State) {
    s.pipe != [] && s.pipe[|s.pipe| - 1].wait
  }

  predicate LastIs(rs: seq<Record>, r: Record) {
    rs != [] && rs[|rs| - 1] == r
  }

  /** The handshake. Between calls nothing waits for an answer. During a waiting call its
      record, the last one sent, is at most one of: last in the pipe, with the server, answered;
      in the last two cases nothing else is pending. */
  predicate Handshake(s: State) {
    && (s.server.Posting? ==> LastIs(s.executed, s.server.rec))
    && (s.server.Starting? ==> s.client.Idle? && s.pipe == [])
    && (forall i :: 0 <= i < |s.pipe| - 1 ==> !s.pipe[i].wait)
    && match s.client
       case Idle => s.sem == 0 && !Owing(s) && !Pending(s)
       case Waiting(r) =>
         && r.wait && LastIs(s.sent, r) && s.sem <= 1
         && (Pending(s) ==> s.sem == 0 && !Owing(s) && LastIs(s.pipe, r))
         && (Owing(s) ==> s.sem == 0 && s.pipe == [] && s.server.rec == r)
         && (s.sem == 1 ==> s.server.Reading? && s.pipe == [] && LastIs(s.executed, r))
  }

  predicate Ordered(s: State) {
    Numbered(s.sent) && Selection(Line(s), s.sent)
  }

  predicate Inv(s: State) {
    Handshake(s) && Ordered(s)
  }

  lemma StepKeepsHandshake(s: State, step: Step)
    requires Handshake(s) && Enabled(s, step)
    ensures Handshake(Apply(s, step))
  {
  }

  lemma StepKeepsOrder(s: State, step: Step)
    requires Ordered(s) && Enabled(s, step)
    ensures Ordered(Apply(s, step))
  {
    var t := Apply(s, step);
    match step
    case Query(cmd) => if Listening(s) { SendKeepsOrder(s, Record(|s.sent|, cmd, false)); }
    case QueryWait(cmd) => if Listening(s) { SendKeepsOrder(s, Record(|s.sent|, cmd, true)); }
    case Return => assert Line(t) == Line(s);
    case Listen => assert Line(t) == Line(s);
    case Read =>
      assert Line(t) == s.executed + [s.pipe[0]];
      assert Line(s)[..|s.executed| + 1] == Line(t);
      PrefixSelection(Line(s), s.sent, |s.executed| + 1);
    case Execute => assert Line(t) == Line(s);
    case Post => assert Line(t) == Line(s);
  }

  lemma PrefixSelection(line: seq<Record>, sent: seq<Record>, n: nat)
    requires n <= |line| && Selection(line, sent)
    ensures Selection(line[..n], sent)
  {
  }

  lemma SendKeepsOrder(s: State, r: Record)
    requires Ordered(s) && r.id == |s.sent|
    ensures Numbered(s.sent + [r]) && Selection(Line(Send(s, r)), s.sent + [r])
  {
    assert Line(Send(s, r)) == Line(s) + [r];
  }

  lemma StepKeepsInv(s: State, step: Step)
    requires Inv(s) && Enabled(s, step)
    ensures Inv(Apply(s, step))
  {
    StepKeepsHandshake(s, step);
    StepKeepsOrder(s, step);
  }

  lemma {:induction false} RunKeepsInv(s: State, run: seq<Step>)
    requires Inv(s) && IsRun(s, run)
    ensures Inv(After(s, run))
    decreases |run|
  {
    if run != [] {
      StepKeepsInv(s, run[0]);
      RunKeepsInv(Apply(s, run[0]), run[1..]);
    }
  }

  lemma ExecutedFirst(s: State)
    requires Ordered(s)
    ensures Selection(s.executed, s.sent)
  {
    assert Line(s)[..|s.executed|] == s.executed;
    PrefixSelection(Line(s), s.sent, |s.executed|);
  }

  /** In every interleaving, what was executed is an in-order, duplicate-free subsequence of
      what was sent. */
  lemma ExecutedInOrder(run: seq<Step>)
    requires IsRun(INIT, run)
    ensures var s := After(INIT, run); Numbered(s.sent) && Selection(s.executed, s.sent)
  {
    RunKeepsInv(INIT, run);
    ExecutedFirst(After(INIT, run));
  }

  /** A waiting call returns only when its own record is the last one executed, and it leaves
      the semaphore at 0. */
  lemma ReturnAfterExecution(run: seq<Step>)
    requires IsRun(INIT, run)
    requires var s := After(INIT, run); Enabled(s, Return)
    ensures var s := After(INIT, run);
            && LastIs(s.executed, s.client.rec)
            && Apply(s, Return).sem == 0
  {
    RunKeepsInv(INIT, run);
  }

  // ----- A client that only ever waits -----

  predicate WaitOnly(run: seq<Step>) {
    forall i :: 0 <= i < |run| ==> !run[i].Query?
  }

  /** No record has been dropped. */
  predicate NothingLost(s: State) {
    Line(s) == s.sent && |s.pipe| <= 1 && (s.client.Idle? ==> s.pipe == [] && Current(s) == [])
  }

  lemma WaitStep(s: State, step: Step)
    requires Inv(s) && NothingLost(s) && Enabled(s, step) && !step.Query?
    ensures NothingLost(Apply(s, step))
  {
    var t := Apply(s, step);
    if step.QueryWait? && Listening(s) {
      assert Line(t) == Line(s) + [t.client.rec];
    } else if step.Read? {
      assert s.pipe == [s.pipe[0]];
    }
  }

  lemma {:induction false} WaitRun(s: State, run: seq<Step>)
    requires Inv(s) && NothingLost(s) && IsRun(s, run) && WaitOnly(run)
    ensures NothingLost(After(s, run))
    decreases |run|
  {
    if run != [] {
      WaitStep(s, run[0]);
      StepKeepsInv(s, run[0]);
      WaitRun(Apply(s, run[0]), run[1..]);
    }
  }

  /** A client using only waiting calls loses no command: between calls everything sent has been
      executed, in order, the pipe is empty and the semaphore is 0. */
  lemma WaitOnlyLosesNothing(run: seq<Step>)
    requires IsRun(INIT, run) && WaitOnly(run)
    ensures var s := After(INIT, run);
            && Line(s) == s.sent
            && (s.client.Idle? ==> s.executed == s.sent && s.pipe == [] && s.sem == 0)
  {
    WaitRun(INIT, run);
    RunKeepsInv(INIT, run);
    var s := After(INIT, run);
    if s.client.Idle? {
      assert Line(s) == s.executed;
    }
  }
}
