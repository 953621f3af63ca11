/** The command channel of the Bluetooth and Wi-Fi servers, byte by byte: every read takes up to
    1024 bytes of the pipe, wherever they fall, and handles what lies at the start of the buffer.
    All interleavings of one client and the server are covered. */
module CommandPipe {
  import R = CommandRecords
  import opened CommandRecords

  const BUFFER := 1024

  /** A byte of a record, by its place. */
  datatype Octet = Octet(rec: Record, place: nat)

  /** Records take `size` bytes, the wait flag is the byte at `flag`, and `nonzero` tells which bytes
      are; the padding and pointer bytes are arbitrary. */
  datatype Layout = Layout(size: nat, flag: nat, nonzero: Octet -> bool)

  ghost predicate ValidLayout(l: Layout) {
    l.flag < l.size <= BUFFER && forall r: Record :: l.nonzero(Octet(r, l.flag)) == r.wait
  }

  /** What the server finds at the start of its buffer: a whole record, or bytes of several. */
  datatype Handled = Whole(rec: Record) | Torn(wait: bool)

  predicate Wants(h: Handled) {
    match h
    case Whole(r) => r.wait
    case Torn(wait) => wait
  }

  datatype Wire = Wire(pipe: seq<Octet>, buf: seq<Octet>, sem: nat, server: Server<Handled>, client: Client,
                       sent: seq<Record>, executed: seq<Handled>)

  const QUIET := Wire([], [], 0, Starting, Idle, [], [])

  function Bytes(r: Record, size: nat): (b: seq<Octet>)
    ensures |b| == size && forall i :: 0 <= i < size ==> b[i] == Octet(r, i)
  {
    seq(size, i requires 0 <= i < size => Octet(r, i))
  }

  function Stream(rs: seq<Record>, size: nat): seq<Octet> {
    if rs == [] then [] else Bytes(rs[0], size) + Stream(rs[1..], size)
  }

  function ReadSize(pipe: seq<Octet>): nat {
    if |pipe| < BUFFER then |pipe| else BUFFER
  }

  /** The buffer after a read; a short read leaves its rest as it was. */
  function Refill(pipe: seq<Octet>, buf: seq<Octet>): seq<Octet> {
    var n := ReadSize(pipe);
    pipe[..n] + if n < |buf| then buf[n..] else []
  }

  predicate FlagSet(l: Layout, buf: seq<Octet>) {
    l.flag < |buf| && l.nonzero(buf[l.flag])
  }

  function Parse(l: Layout, buf: seq<Octet>): Handled {
    if 0 < |buf| && l.size <= |buf| && buf[..l.size] == Bytes(buf[0].rec, l.size) then Whole(buf[0].rec)
    else Torn(FlagSet(l, buf))
  }

  lemma ParseFlag(l: Layout, buf: seq<Octet>)
    requires ValidLayout(l)
    ensures Wants(Parse(l, buf)) == FlagSet(l, buf)
  {
    var h := Parse(l, buf);
    if h.Whole? {
      assert buf[..l.size][l.flag] == Octet(buf[0].rec, l.flag);
    }
  }

  predicate Hears(w: Wire) {
    !w.server.Starting?
  }

  predicate Can(w: Wire, step: Step) {
    match step
    case Query(_) => w.client.Idle?
    case QueryWait(_) => w.client.Idle?
    case Return => w.client.Waiting? && 0 < w.sem
    case Listen => w.server.Starting?
    case Read => w.server.Reading? && w.pipe != []
    case Execute => w.server.Executing?
    case Post => w.server.Posting?
  }

  function Put(l: Layout, w: Wire, r: Record): Wire {
    w.(pipe := w.pipe + Bytes(r, l.size), sent := w.sent + [r])
  }

  function Do(l: Layout, w: Wire, step: Step): Wire
    requires Can(w, step)
  {
    match step
    case Query(cmd) => if Hears(w) then Put(l, w, Record(|w.sent|, cmd, false)) else w
    case QueryWait(cmd) =>
      if Hears(w) then
        var r := Record(|w.sent|, cmd, true);
        Put(l, w, r).(client := Waiting(r))
      else w
    case Return => w.(sem := w.sem - 1, client := Idle)
    case Listen => w.(server := Reading)
    case Read =>
      var buf := Refill(w.pipe, w.buf);
      w.(pipe := w.pipe[ReadSize(w.pipe)..], buf := buf, server := Executing(Parse(l, buf)))
    case Execute => w.(executed := w.executed + [w.server.rec], server := Posting(w.server.rec))
    case Post => w.(sem := if Wants(w.server.rec) then w.sem + 1 else w.sem, server := Reading)
  }

  predicate IsWireRun(l: Layout, w: Wire, run: seq<Step>)
    decreases |run|
  {
    run == [] || (Can(w, run[0]) && IsWireRun(l, Do(l, w, run[0]), run[1..]))
  }

  function Final(l: Layout, w: Wire, run: seq<Step>): Wire
    requires IsWireRun(l, w, run)
    decreases |run|
  {
    if run == [] then w else Final(l, Do(l, w, run[0]), run[1..])
  }

  // ----- Every run: what is executed whole -----

  lemma StreamPast(rs: seq<Record>, size: nat, p: nat)
    requires rs != [] && size <= p <= |Stream(rs, size)|
    ensures |Stream(rs[1..], size)| == |Stream(rs, size)| - size
    ensures Stream(rs, size)[p..] == Stream(rs[1..], size)[p - size..]
  {
    var first, others := Bytes(rs[0], size), Stream(rs[1..], size);
    assert (first + others)[p..] == others[p - size..];
  }

  /** Position p of a stream is a place in one of its records, or the end. */
  lemma {:induction false} Locate(rs: seq<Record>, size: nat, p: nat) returns (j: nat, off: nat)
    requires 0 < size && p <= |Stream(rs, size)|
    ensures j <= |rs| && off < size && off <= |Stream(rs[j..], size)| && (j == |rs| ==> off == 0)
    ensures Stream(rs, size)[p..] == Stream(rs[j..], size)[off..]
    ensures rs != [] && size <= p ==> 0 < j
    decreases |rs|
  {
    if rs == [] || p < size {
      j, off := 0, p;
      assert rs[0..] == rs;
    } else {
      StreamPast(rs, size, p);
      j, off := Locate(rs[1..], size, p - size);
      assert rs[1..][j..] == rs[j + 1..];
      j := j + 1;
    }
  }

  /** The records executed whole, in order. */
  function Wholes(hs: seq<Handled>): seq<Record> {
    if hs == [] then []
    else Wholes(hs[..|hs| - 1]) + match hs[|hs| - 1] case Whole(r) => [r] case Torn(_) => []
  }

  function Begun(w: Wire): seq<Handled> {
    w.executed + if w.server.Executing? then [w.server.rec] else []
  }

  /** The pipe is the stream from record k, byte off, on; what was taken whole was sent before. */
  ghost predicate Placed(l: Layout, w: Wire, k: nat, off: nat) {
    && k <= |w.sent| && off < l.size && (k == |w.sent| ==> off == 0)
    && off <= |Stream(w.sent[k..], l.size)| && w.pipe == Stream(w.sent[k..], l.size)[off..]
    && Numbered(w.sent) && Selection(Wholes(Begun(w)), w.sent)
    && forall i :: 0 <= i < |Wholes(Begun(w))| ==> Wholes(Begun(w))[i].id < k
  }

  lemma WholesGrow(hs: seq<Handled>, h: Handled)
    ensures Wholes(hs + [h]) == Wholes(hs) + match h case Whole(r) => [r] case Torn(_) => []
  {
    assert (hs + [h])[..|hs|] == hs;
  }

  lemma {:induction false} StreamGrows(rs: seq<Record>, r: Record, size: nat)
    ensures Stream(rs + [r], size) == Stream(rs, size) + Bytes(r, size)
  {
    if rs == [] {
      assert [r][1..] == [];
    } else {
      StreamGrows(rs[1..], r, size);
      assert (rs + [r])[1..] == rs[1..] + [r];
    }
  }

  lemma SelectionOfMore(rs: seq<Record>, sent: seq<Record>, r: Record)
    requires Selection(rs, sent)
    ensures Selection(rs, sent + [r])
  {
  }

  lemma PutKeepsPlaced(l: Layout, w: Wire, r: Record, k: nat, off: nat)
    requires Placed(l, w, k, off) && r.id == |w.sent|
    ensures Placed(l, Put(l, w, r), k, off)
  {
    var t := Put(l, w, r);
    var ahead := Stream(w.sent[k..], l.size);
    StreamGrows(w.sent[k..], r, l.size);
    assert t.sent[k..] == w.sent[k..] + [r];
    assert (ahead + Bytes(r, l.size))[off..] == ahead[off..] + Bytes(r, l.size);
    SelectionOfMore(Wholes(Begun(w)), w.sent, r);
    assert Begun(t) == Begun(w);
  }

  /** What a read finds, by where it starts in the stream. */
  lemma ReadAt(l: Layout, w: Wire, k: nat, off: nat)
    requires 0 < l.size <= BUFFER && Placed(l, w, k, off) && w.pipe != []
    ensures var h := Parse(l, Refill(w.pipe, w.buf));
            && l.size - off <= ReadSize(w.pipe)
            && (if off == 0 then h == Whole(w.sent[k]) else h.Torn?)
  {
    var buf := Refill(w.pipe, w.buf);
    var ahead := Stream(w.sent[k..], l.size);
    assert ahead[off] == Bytes(w.sent[k], l.size)[off];
    assert buf[0] == w.pipe[0] == Octet(w.sent[k], off);
    if off == 0 {
      assert ahead[..l.size] == Bytes(w.sent[k], l.size);
      assert buf[..l.size] == w.pipe[..l.size] == ahead[..l.size];
    } else if l.size <= |buf| {
      assert buf[..l.size][0] != Bytes(buf[0].rec, l.size)[0];
    }
  }

  /** Where the pipe starts after a read. */
  lemma ReadMoves(l: Layout, w: Wire, k: nat, off: nat) returns (k': nat, off': nat)
    requires 0 < l.size <= BUFFER && Placed(l, w, k, off) && w.pipe != []
    ensures k < k' <= |w.sent| && off' < l.size && (k' == |w.sent| ==> off' == 0)
    ensures off' <= |Stream(w.sent[k'..], l.size)|
    ensures w.pipe[ReadSize(w.pipe)..] == Stream(w.sent[k'..], l.size)[off'..]
  {
    var n, ahead := ReadSize(w.pipe), w.sent[k..];
    ReadAt(l, w, k, off);
    var j;
    j, off' := Locate(ahead, l.size, off + n);
    k' := k + j;
    assert ahead[j..] == w.sent[k'..];
    assert w.pipe[n..] == Stream(ahead, l.size)[off + n..];
  }

  lemma ReadKeepsPlaced(l: Layout, w: Wire, k: nat, off: nat) returns (k': nat, off': nat)
    requires 0 < l.size <= BUFFER && Placed(l, w, k, off) && Can(w, Read)
    ensures Placed(l, Do(l, w, Read), k', off')
  {
    var h := Parse(l, Refill(w.pipe, w.buf));
    ReadAt(l, w, k, off);
    k', off' := ReadMoves(l, w, k, off);
    WholesGrow(w.executed, h);
    assert Begun(w) == w.executed && Begun(Do(l, w, Read)) == w.executed + [h];
    SelectionGrows(Wholes(w.executed), w.sent, k, h);
  }

  /** Record k may join a selection of earlier records. */
  lemma SelectionGrows(rs: seq<Record>, sent: seq<Record>, k: nat, h: Handled)
    requires Numbered(sent) && Selection(rs, sent) && k < |sent|
    requires forall i :: 0 <= i < |rs| ==> rs[i].id < k
    requires h.Whole? ==> h.rec == sent[k]
    ensures var all := rs + match h case Whole(r) => [r] case Torn(_) => [];
            Selection(all, sent) && forall i :: 0 <= i < |all| ==> all[i].id < k + 1
  {
  }

  lemma StepKeepsPlaced(l: Layout, w: Wire, step: Step, k: nat, off: nat) returns (k': nat, off': nat)
    requires 0 < l.size <= BUFFER && Placed(l, w, k, off) && Can(w, step)
    ensures Placed(l, Do(l, w, step), k', off')
  {
    var t := Do(l, w, step);
    k', off' := k, off;
    match step
    case Query(cmd) => if Hears(w) { PutKeepsPlaced(l, w, Record(|w.sent|, cmd, false), k, off); }
    case QueryWait(cmd) => if Hears(w) { PutKeepsPlaced(l, w, Record(|w.sent|, cmd, true), k, off); }
    case Read => k', off' := ReadKeepsPlaced(l, w, k, off);
    case _ =>
      assert Begun(t) == Begun(w);
      SamePlace(l, w, t, k, off);
  }

  lemma SamePlace(l: Layout, w: Wire, t: Wire, k: nat, off: nat)
    requires Placed(l, w, k, off) && t.pipe == w.pipe && t.sent == w.sent && Begun(t) == Begun(w)
    ensures Placed(l, t, k, off)
  {
  }

  lemma {:induction false} RunKeepsPlaced(l: Layout, w: Wire, run: seq<Step>, k: nat, off: nat)
    returns (k': nat, off': nat)
    requires 0 < l.size <= BUFFER && Placed(l, w, k, off) && IsWireRun(l, w, run)
    ensures Placed(l, Final(l, w, run), k', off')
    decreases |run|
  {
    k', off' := k, off;
    if run != [] {
      k', off' := StepKeepsPlaced(l, w, run[0], k, off);
      k', off' := RunKeepsPlaced(l, Do(l, w, run[0]), run[1..], k', off');
    }
  }

  lemma {:induction false} WholesPrefix(hs: seq<Handled>, h: Handled)
    ensures |Wholes(hs)| <= |Wholes(hs + [h])| && Wholes(hs) == Wholes(hs + [h])[..|Wholes(hs)|]
  {
    WholesGrow(hs, h);
  }

  /** In every interleaving, over-full reads included, the records executed whole are an
      in-order, duplicate-free subsequence of those sent. */
  lemma ExecutedInOrder(l: Layout, run: seq<Step>)
    requires ValidLayout(l) && IsWireRun(l, QUIET, run)
    ensures var w := Final(l, QUIET, run); Numbered(w.sent) && Selection(Wholes(w.executed), w.sent)
  {
    var k, off := RunKeepsPlaced(l, QUIET, run, 0, 0);
    var w := Final(l, QUIET, run);
    if w.server.Executing? {
      WholesPrefix(w.executed, w.server.rec);
      PrefixSelection(Wholes(Begun(w)), w.sent, |Wholes(w.executed)|);
    } else {
      assert Begun(w) == w.executed;
    }
  }

  // ----- What is sent, read and posted -----

  /** A call made while the server listens: its command, and whether it waits. */
  datatype Call = Call(cmd: int, wait: bool)

  /** The calls of a run that find the server listening. */
  function Issued(run: seq<Step>, listening: bool): seq<Call>
    decreases |run|
  {
    if run == [] then []
    else
      var rest := Issued(run[1..], listening || run[0].Listen?);
      match run[0]
      case Query(cmd) => (if listening then [Call(cmd, false)] else []) + rest
      case QueryWait(cmd) => (if listening then [Call(cmd, true)] else []) + rest
      case _ => rest
  }

  function CallsOf(sent: seq<Record>): (cs: seq<Call>)
    ensures |cs| == |sent| && forall i :: 0 <= i < |sent| ==> cs[i] == Call(sent[i].cmd, sent[i].wait)
  {
    seq(|sent|, i requires 0 <= i < |sent| => Call(sent[i].cmd, sent[i].wait))
  }

  function Reads(run: seq<Step>): nat {
    if run == [] then 0 else Reads(run[1..]) + if run[0].Read? then 1 else 0
  }

  function Returns(run: seq<Step>): nat {
    if run == [] then 0 else Returns(run[1..]) + if run[0].Return? then 1 else 0
  }

  /** Bytes taken out of the pipe: at most 1024 by each read, and all there are if fewer. */
  function BytesRead(l: Layout, w: Wire, run: seq<Step>): nat
    requires IsWireRun(l, w, run)
    decreases |run|
  {
    if run == [] then 0
    else BytesRead(l, Do(l, w, run[0]), run[1..])
         + if run[0].Read? then (if |w.pipe| < 1024 then |w.pipe| else 1024) else 0
  }

  function Wanted(hs: seq<Handled>): nat {
    if hs == [] then 0 else Wanted(hs[..|hs| - 1]) + if Wants(hs[|hs| - 1]) then 1 else 0
  }

  /** What has been executed and waits for an answer, less what is still to be posted. */
  function Posted(w: Wire): int {
    Wanted(w.executed) - if w.server.Posting? && Wants(w.server.rec) then 1 else 0
  }

  lemma WantedGrows(hs: seq<Handled>, h: Handled)
    ensures Wanted(hs + [h]) == Wanted(hs) + if Wants(h) then 1 else 0
  {
    assert (hs + [h])[..|hs|] == hs;
  }

  lemma StepSends(l: Layout, w: Wire, step: Step)
    requires Can(w, step)
    ensures CallsOf(Do(l, w, step).sent) == CallsOf(w.sent) + Issued([step], Hears(w))
    ensures Hears(Do(l, w, step)) <==> Hears(w) || step.Listen?
    ensures var taken := if step.Read? then (if |w.pipe| < 1024 then |w.pipe| else 1024) else 0;
            |Do(l, w, step).pipe| == |w.pipe| - taken + |Issued([step], Hears(w))| * l.size
  {
    assert [step][1..] == [];
  }

  lemma StepPosts(l: Layout, w: Wire, step: Step)
    requires Can(w, step)
    ensures var t := Do(l, w, step);
            && Posted(t) - t.sem == Posted(w) - w.sem + (if step.Return? then 1 else 0)
            && |Begun(t)| == |Begun(w)| + (if step.Read? then 1 else 0)
  {
    if step.Execute? {
      WantedGrows(w.executed, w.server.rec);
    }
  }

  lemma IssuedStep(step: Step, run: seq<Step>, listening: bool)
    ensures Issued([step] + run, listening) == Issued([step], listening) + Issued(run, listening || step.Listen?)
  {
    assert ([step] + run)[1..] == run && [step][1..] == [];
  }

  /** Over every run, busy server or not: the records sent carry, in order, exactly the commands
      and wait flags of the calls made while the server listens; each call puts one record into the
      pipe and each read takes at most 1024 bytes out; each read leads to one execution; and the
      semaphore has been posted once for every executed record with its flag set. */
  lemma {:induction false} RunConserves(l: Layout, w: Wire, run: seq<Step>)
    requires IsWireRun(l, w, run)
    ensures var t, calls := Final(l, w, run), Issued(run, Hears(w));
            && CallsOf(t.sent) == CallsOf(w.sent) + calls
            && |t.pipe| + BytesRead(l, w, run) == |w.pipe| + |calls| * l.size
            && |Begun(t)| == |Begun(w)| + Reads(run)
            && t.sem + Returns(run) - Posted(t) == w.sem - Posted(w)
    decreases |run|
  {
    if run != [] {
      var t := Do(l, w, run[0]);
      RunConserves(l, t, run[1..]);
      StepSends(l, w, run[0]);
      StepPosts(l, w, run[0]);
      IssuedStep(run[0], run[1..], Hears(w));
      assert [run[0]] + run[1..] == run;
      var first, rest := Issued([run[0]], Hears(w)), Issued(run[1..], Hears(t));
      assert (|first| + |rest|) * l.size == |first| * l.size + |rest| * l.size;
    }
  }

  /** The same from the start: record i is the i-th call made while the server listens. */
  lemma SentAreIssued(l: Layout, run: seq<Step>)
    requires ValidLayout(l) && IsWireRun(l, QUIET, run)
    ensures var w, calls := Final(l, QUIET, run), Issued(run, false);
            && |w.sent| == |calls|
            && (forall i :: 0 <= i < |calls| ==> w.sent[i] == Record(i, calls[i].cmd, calls[i].wait))
            && |w.pipe| + BytesRead(l, QUIET, run) == |calls| * l.size
            && |Begun(w)| == Reads(run)
            && w.sem + Returns(run) == Posted(w)
  {
    RunConserves(l, QUIET, run);
    SentNumbered(l, run);
    RecordsAre(Final(l, QUIET, run).sent, Issued(run, false));
  }

  lemma SentNumbered(l: Layout, run: seq<Step>)
    requires ValidLayout(l) && IsWireRun(l, QUIET, run)
    ensures Numbered(Final(l, QUIET, run).sent)
  {
    var k, off := RunKeepsPlaced(l, QUIET, run, 0, 0);
  }

  lemma RecordsAre(sent: seq<Record>, calls: seq<Call>)
    requires Numbered(sent) && CallsOf(sent) == calls
    ensures |sent| == |calls|
    ensures forall i :: 0 <= i < |calls| ==> sent[i] == Record(i, calls[i].cmd, calls[i].wait)
  {
    forall i | 0 <= i < |calls|
      ensures sent[i] == Record(i, calls[i].cmd, calls[i].wait)
    {
      assert CallsOf(sent)[i] == calls[i];
    }
  }

  // ----- Runs whose reads fit the buffer -----

  /** No read of the run finds more bytes than it can take. */
  predicate ReadsFit(l: Layout, w: Wire, run: seq<Step>)
    requires IsWireRun(l, w, run)
    decreases |run|
  {
    run == [] || ((run[0].Read? ==> |w.pipe| <= 1024) && ReadsFit(l, Do(l, w, run[0]), run[1..]))
  }

  function AsWhole(rs: seq<Record>): (hs: seq<Handled>)
    ensures |hs| == |rs| && forall i :: 0 <= i < |rs| ==> hs[i] == Whole(rs[i])
  {
    seq(|rs|, i requires 0 <= i < |rs| => Whole(rs[i]))
  }

  predicate SameServer(a: Server<Handled>, b: Server<Record>) {
    match b
    case Starting => a == Starting
    case Reading => a == Reading
    case Executing(r) => a == Executing(Whole(r))
    case Posting(r) => a == Posting(Whole(r))
  }

  /** The bytes in the pipe are those of whole records, and so is everything handled. */
  ghost predicate Shows(l: Layout, w: Wire, s: State) {
    && w.pipe == Stream(s.pipe, l.size) && w.sem == s.sem && w.client == s.client && w.sent == s.sent
    && SameServer(w.server, s.server) && w.executed == AsWhole(s.executed)
  }

  /** A step whose read fits the buffer is the same step of the protocol on whole records. */
  lemma FittingStep(l: Layout, w: Wire, s: State, step: Step)
    requires ValidLayout(l) && Shows(l, w, s) && Can(w, step) && (step.Read? ==> |w.pipe| <= BUFFER)
    ensures Enabled(s, step) && Shows(l, Do(l, w, step), Apply(s, step))
  {
    match step
    case Query(cmd) => StreamGrows(s.pipe, Record(|s.sent|, cmd, false), l.size);
    case QueryWait(cmd) => StreamGrows(s.pipe, Record(|s.sent|, cmd, true), l.size);
    case Read =>
      var buf := Refill(w.pipe, w.buf);
      assert buf[..l.size] == Bytes(s.pipe[0], l.size);
      assert buf[0] == Octet(s.pipe[0], 0);
    case _ =>
  }

  lemma {:induction false} FittingRun(l: Layout, w: Wire, s: State, run: seq<Step>)
    requires ValidLayout(l) && Shows(l, w, s) && IsWireRun(l, w, run) && ReadsFit(l, w, run)
    ensures IsRun(s, run) && Shows(l, Final(l, w, run), After(s, run))
    decreases |run|
  {
    if run != [] {
      FittingStep(l, w, s, run[0]);
      FittingRun(l, Do(l, w, run[0]), Apply(s, run[0]), run[1..]);
    }
  }

  /** While reads fit, everything executed is a whole record. */
  lemma FittingIsWhole(l: Layout, run: seq<Step>)
    requires ValidLayout(l) && IsWireRun(l, QUIET, run) && ReadsFit(l, QUIET, run)
    ensures var w := Final(l, QUIET, run); w.executed == AsWhole(Wholes(w.executed))
  {
    FittingRun(l, QUIET, INIT, run);
    WholesOfWhole(After(INIT, run).executed);
  }

  lemma {:induction false} WholesOfWhole(rs: seq<Record>)
    ensures Wholes(AsWhole(rs)) == rs
  {
    if rs != [] {
      var n := |rs| - 1;
      WholesOfWhole(rs[..n]);
      assert AsWhole(rs)[..n] == AsWhole(rs[..n]);
      assert rs == rs[..n] + [rs[n]];
    }
  }

  /** While reads fit, a waiting call returns only when its own record is the last one executed,
      and it leaves the semaphore at 0. */
  lemma ReturnAfterExecution(l: Layout, run: seq<Step>)
    requires ValidLayout(l) && IsWireRun(l, QUIET, run) && ReadsFit(l, QUIET, run)
    requires Can(Final(l, QUIET, run), Return)
    ensures var w := Final(l, QUIET, run);
            && w.executed != [] && w.executed[|w.executed| - 1] == Whole(w.client.rec)
            && Do(l, w, Return).sem == 0
  {
    FittingRun(l, QUIET, INIT, run);
    R.ReturnAfterExecution(run);
  }

  // ----- A client that only ever waits -----

  lemma {:induction false} WaitOnlyFits(l: Layout, w: Wire, s: State, run: seq<Step>)
    requires ValidLayout(l) && Shows(l, w, s) && Inv(s) && NothingLost(s)
    requires IsWireRun(l, w, run) && WaitOnly(run)
    ensures ReadsFit(l, w, run)
    decreases |run|
  {
    if run != [] {
      assert |s.pipe| == 1 ==> Stream(s.pipe[1..], l.size) == [];
      FittingStep(l, w, s, run[0]);
      WaitStep(s, run[0]);
      StepKeepsInv(s, run[0]);
      WaitOnlyFits(l, Do(l, w, run[0]), Apply(s, run[0]), run[1..]);
    }
  }

  /** A client using only waiting calls never over-fills a read and loses no command: between
      calls everything sent has been executed whole, in order, the pipe is empty and the
      semaphore is 0. */
  lemma WaitOnlyLosesNothing(l: Layout, run: seq<Step>)
    requires ValidLayout(l) && IsWireRun(l, QUIET, run) && WaitOnly(run)
    ensures ReadsFit(l, QUIET, run)
    ensures var w := Final(l, QUIET, run);
            w.client.Idle? ==> w.executed == AsWhole(w.sent) && w.pipe == [] && w.sem == 0
  {
    WaitOnlyFits(l, QUIET, INIT, run);
    FittingRun(l, QUIET, INIT, run);
    R.WaitOnlyLosesNothing(run);
  }

  // ----- Exactly when a waiting call returns -----

  /** The server owes the semaphore a post for what it has read. */
  predicate WillPost(w: Wire) {
    (w.server.Executing? || w.server.Posting?) && Wants(w.server.rec)
  }

  /** Some read of the bytes now in the pipe will find the flag byte set. */
  predicate Flagged(l: Layout, pipe: seq<Octet>, buf: seq<Octet>)
    decreases |pipe|
  {
    pipe != [] &&
    var next := Refill(pipe, buf);
    FlagSet(l, next) || Flagged(l, pipe[ReadSize(pipe)..], next)
  }

  predicate Served(l: Layout, w: Wire) {
    0 < w.sem || WillPost(w) || Flagged(l, w.pipe, w.buf)
  }

  ghost predicate CanReturn(l: Layout, w: Wire) {
    exists run :: IsWireRun(l, w, run) && Final(l, w, run).client.Idle?
  }

  function Rank(w: Wire): nat {
    3 * |w.pipe| + (if w.server.Executing? then 2 else if w.server.Posting? then 1 else 0)
  }

  /** While a call waits, every step is its return or keeps what it can hope for, and takes the
      server further along. */
  lemma WaitingStep(l: Layout, w: Wire, step: Step)
    requires ValidLayout(l) && w.client.Waiting? && Hears(w) && Can(w, step)
    ensures var t := Do(l, w, step);
            if step.Return? then t.client.Idle?
            else t.client == w.client && Hears(t) && Served(l, t) == Served(l, w) && Rank(t) < Rank(w)
  {
    if step.Read? {
      ParseFlag(l, Refill(w.pipe, w.buf));
    }
  }

  /** A served call is never held up: some step is possible until it returns. */
  lemma ServedStep(l: Layout, w: Wire) returns (step: Step)
    requires w.client.Waiting? && Hears(w) && Served(l, w)
    ensures Can(w, step)
  {
    step := if 0 < w.sem then Return
            else if w.server.Posting? then Post
            else if w.server.Executing? then Execute
            else Read;
  }

  lemma {:induction false} ServedReturns(l: Layout, w: Wire) returns (run: seq<Step>)
    requires ValidLayout(l) && w.client.Waiting? && Hears(w) && Served(l, w)
    ensures IsWireRun(l, w, run) && Final(l, w, run).client.Idle?
    decreases Rank(w)
  {
    var step := ServedStep(l, w);
    WaitingStep(l, w, step);
    run := [];
    if !step.Return? {
      run := ServedReturns(l, Do(l, w, step));
    }
    assert ([step] + run)[1..] == run;
    run := [step] + run;
  }

  lemma {:induction false} UnservedWaits(l: Layout, w: Wire, run: seq<Step>)
    requires ValidLayout(l) && w.client.Waiting? && Hears(w) && !Served(l, w) && IsWireRun(l, w, run)
    ensures Final(l, w, run).client.Waiting?
    decreases |run|
  {
    if run != [] {
      WaitingStep(l, w, run[0]);
      UnservedWaits(l, Do(l, w, run[0]), run[1..]);
    }
  }

  /** The byte that the j-th read from here on takes for the wait flag is set. */
  predicate FlagAt(l: Layout, pipe: seq<Octet>, j: nat) {
    BUFFER * j + l.flag < |pipe| && l.nonzero(pipe[BUFFER * j + l.flag])
  }

  /** Reads start 1024 bytes apart; a last read too short to reach the flag finds the one before. */
  lemma {:induction false} FlaggedAt(l: Layout, pipe: seq<Octet>, buf: seq<Octet>)
    requires l.flag < BUFFER && l.flag < |pipe|
    ensures Flagged(l, pipe, buf) <==> exists j: nat :: FlagAt(l, pipe, j)
    decreases |pipe|
  {
    var next, rest := Refill(pipe, buf), pipe[ReadSize(pipe)..];
    assert next[l.flag] == pipe[l.flag];
    assert FlagAt(l, pipe, 0) <==> FlagSet(l, next);
    forall j: nat | 0 < j
      ensures FlagAt(l, pipe, j) <==> BUFFER < |pipe| && FlagAt(l, rest, j - 1)
    {
    }
    if l.flag < |rest| {
      FlaggedAt(l, rest, next);
      if j: nat :| FlagAt(l, rest, j) {
        assert FlagAt(l, pipe, j + 1);
      }
      if j: nat :| 0 < j && FlagAt(l, pipe, j) {
        assert FlagAt(l, rest, j - 1);
      }
    } else if rest != [] {
      ShortRest(l, rest, next);
    }
  }

  /** A read too short to reach the flag byte finds the one left by the read before. */
  lemma ShortRest(l: Layout, rest: seq<Octet>, buf: seq<Octet>)
    requires rest != [] && |rest| <= l.flag < BUFFER && l.flag < |buf|
    ensures Flagged(l, rest, buf) <==> FlagSet(l, buf)
    ensures forall j: nat :: !FlagAt(l, rest, j)
  {
    var next := Refill(rest, buf);
    assert next[l.flag] == buf[l.flag];
    assert rest[ReadSize(rest)..] == [];
    assert !Flagged(l, [], next);
  }

  /** From any state of the channel with a listening server, a waiting call can return if and
      only if a post is already owed, or one of the reads that start at every 1024th byte of
      what is then in the pipe has its flag byte set. If it can, it does: see ServedStep. */
  lemma WaitReturnsIff(l: Layout, w: Wire, cmd: int)
    requires ValidLayout(l) && w.client.Idle? && Hears(w)
    ensures var bytes := w.pipe + Bytes(Record(|w.sent|, cmd, true), l.size);
            CanReturn(l, Do(l, w, QueryWait(cmd))) <==>
              (0 < w.sem || WillPost(w) || exists j: nat :: FlagAt(l, bytes, j))
  {
    var t := Do(l, w, QueryWait(cmd));
    FlaggedAt(l, t.pipe, t.buf);
    if Served(l, t) {
      var run := ServedReturns(l, t);
    } else {
      forall run | IsWireRun(l, t, run)
        ensures !Final(l, t, run).client.Idle?
      {
        UnservedWaits(l, t, run);
      }
    }
  }

  /** While reads fit and the waiting record still fits behind what is pending, that means: if
      and only if the pipe was empty. Otherwise the batch that begins with an older record is
      thrown away behind it, and the call blocks for ever. */
  lemma FittingWaitReturnsIff(l: Layout, run: seq<Step>, cmd: int)
    requires ValidLayout(l) && IsWireRun(l, QUIET, run) && ReadsFit(l, QUIET, run)
    requires var w := Final(l, QUIET, run); w.client.Idle? && Hears(w) && |w.pipe| + l.size <= BUFFER
    ensures var w := Final(l, QUIET, run);
            CanReturn(l, Do(l, w, QueryWait(cmd))) <==> w.pipe == []
  {
    FittingRun(l, QUIET, INIT, run);
    R.RunKeepsInv(INIT, run);
    FittingWait(l, Final(l, QUIET, run), After(INIT, run), cmd);
  }

  lemma FittingWait(l: Layout, w: Wire, s: State, cmd: int)
    requires ValidLayout(l) && Shows(l, w, s) && Inv(s)
    requires w.client.Idle? && Hears(w) && |w.pipe| + l.size <= BUFFER
    ensures CanReturn(l, Do(l, w, QueryWait(cmd))) <==> w.pipe == []
  {
    var r := Record(|w.sent|, cmd, true);
    var bytes := w.pipe + Bytes(r, l.size);
    WaitReturnsIff(l, w, cmd);
    if s.pipe == [] {
      assert bytes[l.flag] == Octet(r, l.flag);
      assert FlagAt(l, bytes, 0);
    } else {
      assert bytes[l.flag] == w.pipe[l.flag] == Octet(s.pipe[0], l.flag);
      assert !s.pipe[0].wait;
      assert !FlagAt(l, bytes, 0);
    }
  }

  // ----- Exactly when a waiting call's own command is executed -----

  /** Some run executes record r whole. */
  ghost predicate CanExecute(l: Layout, w: Wire, r: Record) {
    exists run :: IsWireRun(l, w, run) && Whole(r) in Final(l, w, run).executed
  }

  /** Record r is none of those handled or pending. */
  predicate New(w: Wire, r: Record) {
    && Whole(r) !in w.executed && w.server != Executing(Whole(r))
    && forall i :: 0 <= i < |w.pipe| ==> w.pipe[i].rec != r
  }

  /** Record r, already sent, has not been found, and no read will start at its first byte. */
  predicate Missed(w: Wire, r: Record) {
    && r.id < |w.sent| && Whole(r) !in w.executed && w.server != Executing(Whole(r))
    && forall i :: 0 <= i < |w.pipe| && w.pipe[i] == Octet(r, 0) ==> i % BUFFER != 0
  }

  lemma WholeStarts(l: Layout, w: Wire, r: Record)
    requires ValidLayout(l) && Can(w, Read)
    ensures Parse(l, Refill(w.pipe, w.buf)) == Whole(r) ==> w.pipe[0] == Octet(r, 0)
  {
    var buf := Refill(w.pipe, w.buf);
    assert buf[0] == w.pipe[0];
    assert l.size <= |buf| ==> buf[..l.size][0] == buf[0];
  }

  lemma ReadKeepsMissed(l: Layout, w: Wire, r: Record)
    requires ValidLayout(l) && Missed(w, r) && Can(w, Read)
    ensures Missed(Do(l, w, Read), r)
  {
    var rest := w.pipe[ReadSize(w.pipe)..];
    WholeStarts(l, w, r);
    forall i | 0 <= i < |rest| && rest[i] == Octet(r, 0)
      ensures i % BUFFER != 0
    {
      assert w.pipe[i + BUFFER] == Octet(r, 0);
    }
  }

  lemma StepKeepsMissed(l: Layout, w: Wire, r: Record, step: Step)
    requires ValidLayout(l) && Missed(w, r) && Can(w, step)
    ensures Missed(Do(l, w, step), r)
  {
    if step.Read? {
      ReadKeepsMissed(l, w, r);
    }
  }

  lemma {:induction false} NeverExecuted(l: Layout, w: Wire, r: Record, run: seq<Step>)
    requires ValidLayout(l) && Missed(w, r) && IsWireRun(l, w, run)
    ensures Whole(r) !in Final(l, w, run).executed
    decreases |run|
  {
    if run != [] {
      StepKeepsMissed(l, w, r, run[0]);
      NeverExecuted(l, Do(l, w, run[0]), r, run[1..]);
    }
  }

  /** A read that starts at the record finds it. */
  lemma ReadWhole(l: Layout, w: Wire, r: Record)
    requires ValidLayout(l) && Can(w, Read) && l.size <= |w.pipe| && w.pipe[..l.size] == Bytes(r, l.size)
    ensures Parse(l, Refill(w.pipe, w.buf)) == Whole(r)
  {
    var buf := Refill(w.pipe, w.buf);
    assert buf[..l.size] == w.pipe[..l.size];
    assert buf[0] == buf[..l.size][0] == Octet(r, 0);
  }

  /** A read that starts before the record moves it 1024 bytes nearer. */
  lemma StillThere(l: Layout, w: Wire, p: nat)
    requires p + l.size <= |w.pipe|
    ensures BUFFER <= p ==> w.pipe[ReadSize(w.pipe)..][p - BUFFER..p - BUFFER + l.size] == w.pipe[p..p + l.size]
  {
    if BUFFER <= p {
      var rest, from := w.pipe[BUFFER..], p - BUFFER;
      assert ReadSize(w.pipe) == BUFFER;
      assert rest[from..from + l.size] == w.pipe[BUFFER + from..BUFFER + from + l.size];
    }
  }

  /** The server works through the pipe until it comes to the record at a multiple of 1024. */
  lemma {:induction false} Comes(l: Layout, w: Wire, r: Record, p: nat) returns (run: seq<Step>)
    requires ValidLayout(l) && Hears(w) && p % BUFFER == 0
    requires p + l.size <= |w.pipe| && w.pipe[p..p + l.size] == Bytes(r, l.size)
    ensures IsWireRun(l, w, run) && Whole(r) in Final(l, w, run).executed
    decreases Rank(w)
  {
    if w.server.Reading? && p == 0 {
      ReadWhole(l, w, r);
      run := TwoSteps(l, w, r);
    } else {
      var step := if w.server.Posting? then Post else if w.server.Executing? then Execute else Read;
      var t, q := Do(l, w, step), if step.Read? then p - BUFFER else p;
      StillThere(l, w, p);
      run := Comes(l, t, r, q);
      assert ([step] + run)[1..] == run;
      run := [step] + run;
    }
  }

  lemma TwoSteps(l: Layout, w: Wire, r: Record) returns (run: seq<Step>)
    requires Can(w, Read) && Parse(l, Refill(w.pipe, w.buf)) == Whole(r)
    ensures IsWireRun(l, w, run) && Whole(r) in Final(l, w, run).executed
  {
    run := [Read, Execute];
    var a := Do(l, w, Read);
    var b := Do(l, a, Execute);
    assert run[1..] == [Execute] && run[1..][1..] == [];
    assert b.executed == w.executed + [Whole(r)];
    assert Final(l, a, [Execute]) == b;
  }

  /** Whatever else is pending, and whatever is sent afterwards: the record of a waiting call is
      executed whole in some run if and only if the bytes before it are a multiple of 1024. */
  lemma OwnRecordIff(l: Layout, w: Wire, cmd: int)
    requires ValidLayout(l) && w.client.Idle? && Hears(w) && New(w, Record(|w.sent|, cmd, true))
    ensures var t := Do(l, w, QueryWait(cmd));
            CanExecute(l, t, t.client.rec) <==> |w.pipe| % 1024 == 0
  {
    var t := Do(l, w, QueryWait(cmd));
    var r := t.client.rec;
    if |w.pipe| % BUFFER == 0 {
      assert t.pipe[|w.pipe|..|w.pipe| + l.size] == Bytes(r, l.size);
      var run := Comes(l, t, r, |w.pipe|);
    } else {
      forall i | 0 <= i < |t.pipe| && t.pipe[i] == Octet(r, 0)
        ensures i % BUFFER != 0
      {
        assert i == |w.pipe|;
      }
      forall run | IsWireRun(l, t, run)
        ensures Whole(r) !in Final(l, t, run).executed
      {
        NeverExecuted(l, t, r, run);
      }
    }
  }

  lemma {:induction false} StreamRecords(rs: seq<Record>, size: nat, i: nat)
    requires i < |Stream(rs, size)|
    ensures Stream(rs, size)[i].rec in rs
    decreases |rs|
  {
    if size <= i {
      StreamRecords(rs[1..], size, i - size);
    }
  }

  /** In every reachable state of a listening server: the command of a waiting call is executed
      whole in some run from there if and only if the bytes pending before it are a multiple of
      1024. */
  lemma OwnCommandIff(l: Layout, run: seq<Step>, cmd: int)
    requires ValidLayout(l) && IsWireRun(l, QUIET, run)
    requires var w := Final(l, QUIET, run); w.client.Idle? && Hears(w)
    ensures var w := Final(l, QUIET, run);
            var t := Do(l, w, QueryWait(cmd));
            CanExecute(l, t, t.client.rec) <==> |w.pipe| % 1024 == 0
  {
    NewRecord(l, run, cmd);
    OwnRecordIff(l, Final(l, QUIET, run), cmd);
  }

  // ----- Exactly when a waiting call returns too early -----

  /** Some read before the one that finds record r whole will find the flag byte set. */
  predicate EarlyFlag(l: Layout, pipe: seq<Octet>, buf: seq<Octet>, r: Record)
    decreases |pipe|
  {
    pipe != [] &&
    var next := Refill(pipe, buf);
    Parse(l, next) != Whole(r) && (FlagSet(l, next) || EarlyFlag(l, pipe[ReadSize(pipe)..], next, r))
  }

  /** A post will come before the waiting call's own record is executed. */
  predicate EarlyServed(l: Layout, w: Wire)
    requires w.client.Waiting?
  {
    var r := w.client.rec;
    && Whole(r) !in w.executed
    && (0 < w.sem || (w.server != Executing(Whole(r)) && (WillPost(w) || EarlyFlag(l, w.pipe, w.buf, r))))
  }

  /** Some run brings the waiting call's semaphore up before its own record is executed. */
  ghost predicate CanReturnEarly(l: Layout, w: Wire)
    requires w.client.Waiting?
  {
    exists run :: IsWireRun(l, w, run) && Return !in run && ReturnsEarly(Final(l, w, run), w.client.rec)
  }

  predicate ReturnsEarly(w: Wire, r: Record) {
    w.client == Waiting(r) && Can(w, Return) && Whole(r) !in w.executed
  }

  lemma NotEarlyStep(l: Layout, w: Wire, step: Step)
    requires ValidLayout(l) && w.client.Waiting? && Hears(w) && Can(w, step) && !step.Return?
    ensures var t := Do(l, w, step);
            t.client == w.client && Hears(t) && (!EarlyServed(l, w) ==> !EarlyServed(l, t))
  {
    if step.Read? {
      ParseFlag(l, Refill(w.pipe, w.buf));
    }
  }

  lemma {:induction false} NeverEarly(l: Layout, w: Wire, run: seq<Step>)
    requires ValidLayout(l) && w.client.Waiting? && Hears(w) && !EarlyServed(l, w)
    requires IsWireRun(l, w, run) && Return !in run
    ensures !ReturnsEarly(Final(l, w, run), w.client.rec)
    decreases |run|
  {
    if run != [] {
      assert run[0] in run;
      NotEarlyStep(l, w, run[0]);
      NeverEarly(l, Do(l, w, run[0]), run[1..]);
    }
  }

  lemma EarlyStep(l: Layout, w: Wire) returns (step: Step)
    requires ValidLayout(l) && w.client.Waiting? && Hears(w) && EarlyServed(l, w) && w.sem == 0
    ensures Can(w, step) && !step.Return?
    ensures var t := Do(l, w, step);
            t.client == w.client && Hears(t) && EarlyServed(l, t) && Rank(t) < Rank(w)
  {
    step := if w.server.Posting? then Post else if w.server.Executing? then Execute else Read;
    if step.Read? {
      ParseFlag(l, Refill(w.pipe, w.buf));
    }
  }

  lemma {:induction false} ServedEarly(l: Layout, w: Wire) returns (run: seq<Step>)
    requires ValidLayout(l) && w.client.Waiting? && Hears(w) && EarlyServed(l, w)
    ensures IsWireRun(l, w, run) && Return !in run && ReturnsEarly(Final(l, w, run), w.client.rec)
    decreases Rank(w)
  {
    run := [];
    if w.sem == 0 {
      var step := EarlyStep(l, w);
      run := ServedEarly(l, Do(l, w, step));
      assert ([step] + run)[1..] == run;
      run := [step] + run;
    }
  }

  /** The flag byte of a read that starts elsewhere than at `at` is set. */
  ghost predicate FlagBesides(l: Layout, pipe: seq<Octet>, at: int) {
    exists j: nat :: FlagAt(l, pipe, j) && BUFFER * j != at
  }

  lemma FlagBesidesShift(l: Layout, pipe: seq<Octet>, at: int)
    requires l.flag < BUFFER && pipe != [] && at != 0
    ensures FlagBesides(l, pipe, at) <==>
              FlagAt(l, pipe, 0) || FlagBesides(l, pipe[ReadSize(pipe)..], at - BUFFER)
  {
    var rest := pipe[ReadSize(pipe)..];
    if j: nat :| FlagAt(l, pipe, j) && BUFFER * j != at {
      assert 0 < j ==> FlagAt(l, rest, j - 1) && BUFFER * (j - 1) != at - BUFFER;
    }
    if j: nat :| FlagAt(l, rest, j) && BUFFER * j != at - BUFFER {
      assert FlagAt(l, pipe, j + 1) && BUFFER * (j + 1) != at;
    }
  }

  /** The flag bytes that count: those of every read but the one that starts at the record. */
  lemma {:induction false} EarlyFlagAt(l: Layout, before: seq<Octet>, buf: seq<Octet>, r: Record)
    requires ValidLayout(l) && forall i :: 0 <= i < |before| ==> before[i].rec != r
    ensures var pipe := before + Bytes(r, l.size);
            EarlyFlag(l, pipe, buf, r) <==> FlagBesides(l, pipe, |before|)
    decreases |before|
  {
    var pipe := before + Bytes(r, l.size);
    var next, rest := Refill(pipe, buf), pipe[ReadSize(pipe)..];
    if before == [] {
      AtRecord(l, pipe, buf, r);
    } else {
      OffRecord(l, pipe, buf, r);
      FlagBesidesShift(l, pipe, |before|);
      if BUFFER <= |before| {
        assert rest == before[BUFFER..] + Bytes(r, l.size);
        EarlyFlagAt(l, before[BUFFER..], next, r);
      } else if rest != [] {
        assert rest[0] == Octet(r, BUFFER - |before|);
        PieceOfRecord(l, rest, next, r);
        assert FlagAt(l, rest, 0) ==> FlagBesides(l, rest, |before| - BUFFER);
      }
    }
  }

  lemma AtRecord(l: Layout, pipe: seq<Octet>, buf: seq<Octet>, r: Record)
    requires ValidLayout(l) && pipe == Bytes(r, l.size)
    ensures !EarlyFlag(l, pipe, buf, r) && !FlagBesides(l, pipe, 0)
  {
    var next := Refill(pipe, buf);
    assert next[..l.size] == pipe && next[0] == Octet(r, 0);
  }

  lemma OffRecord(l: Layout, pipe: seq<Octet>, buf: seq<Octet>, r: Record)
    requires ValidLayout(l) && l.flag < |pipe| && pipe[0].rec != r
    ensures var next := Refill(pipe, buf);
            l.flag < |next| && Parse(l, next) != Whole(r) && (FlagSet(l, next) <==> FlagAt(l, pipe, 0))
  {
    var next := Refill(pipe, buf);
    assert next[0] == pipe[0] && next[l.flag] == pipe[l.flag];
  }

  /** A piece of the record without its first byte, too short for a second read: its flag byte, or
      if it does not reach there, that of the read before. */
  lemma PieceOfRecord(l: Layout, rest: seq<Octet>, buf: seq<Octet>, r: Record)
    requires ValidLayout(l) && 0 < |rest| < BUFFER && rest[0].place != 0 && l.flag < |buf|
    ensures EarlyFlag(l, rest, buf, r) <==> if l.flag < |rest| then FlagAt(l, rest, 0) else FlagSet(l, buf)
    ensures forall j: nat :: FlagAt(l, rest, j) ==> j == 0
  {
    var next := Refill(rest, buf);
    assert next[0] == rest[0];
    assert l.size <= |next| ==> next[..l.size][0] != Bytes(next[0].rec, l.size)[0];
    assert rest[ReadSize(rest)..] == [] && !EarlyFlag(l, [], next, r);
    assert next[l.flag] == if l.flag < |rest| then rest[l.flag] else buf[l.flag];
  }

  lemma {:induction false} WholesHave(hs: seq<Handled>, i: nat)
    requires i < |hs| && hs[i].Whole?
    ensures hs[i].rec in Wholes(hs)
  {
    if i < |hs| - 1 {
      WholesHave(hs[..|hs| - 1], i);
    }
  }

  /** In every reachable state of a listening server: a waiting call can return before its own
      command is executed if and only if a post is already owed, or one of the reads that start at
      every 1024th byte, other than one that starts at its record, has its flag byte set. */
  lemma EarlyReturnIff(l: Layout, run: seq<Step>, cmd: int)
    requires ValidLayout(l) && IsWireRun(l, QUIET, run)
    requires var w := Final(l, QUIET, run); w.client.Idle? && Hears(w)
    ensures var w := Final(l, QUIET, run);
            var t := Do(l, w, QueryWait(cmd));
            CanReturnEarly(l, t) <==>
              (0 < w.sem || WillPost(w) || FlagBesides(l, t.pipe, |w.pipe|))
  {
    var w := Final(l, QUIET, run);
    var t := Do(l, w, QueryWait(cmd));
    NewRecord(l, run, cmd);
    EarlyFlagAt(l, w.pipe, w.buf, t.client.rec);
    if EarlyServed(l, t) {
      var more := ServedEarly(l, t);
    } else {
      forall more | IsWireRun(l, t, more) && Return !in more
        ensures !ReturnsEarly(Final(l, t, more), t.client.rec)
      {
        NeverEarly(l, t, more);
      }
    }
  }

  lemma NewToHandled(w: Wire, r: Record)
    requires forall i :: 0 <= i < |Wholes(Begun(w))| ==> Wholes(Begun(w))[i] != r
    ensures Whole(r) !in w.executed && w.server != Executing(Whole(r))
  {
    var hs := Begun(w);
    forall i | 0 <= i < |hs|
      ensures hs[i] != Whole(r)
    {
      if hs[i].Whole? {
        WholesHave(hs, i);
      }
    }
    assert forall i :: 0 <= i < |w.executed| ==> w.executed[i] == hs[i];
    if w.server.Executing? {
      assert hs[|w.executed|] == w.server.rec;
    }
  }

  /** The record of a call is none of those sent, handled or pending so far. */
  lemma NewRecord(l: Layout, run: seq<Step>, cmd: int)
    requires ValidLayout(l) && IsWireRun(l, QUIET, run)
    ensures var w := Final(l, QUIET, run);
            var r := Record(|w.sent|, cmd, true);
            New(w, r)
  {
    var k, off := RunKeepsPlaced(l, QUIET, run, 0, 0);
    var w := Final(l, QUIET, run);
    var r := Record(|w.sent|, cmd, true);
    NewToHandled(w, r);
    forall i | 0 <= i < |w.pipe|
      ensures w.pipe[i].rec != r
    {
      StreamRecords(w.sent[k..], l.size, off + i);
    }
  }

  lemma {:induction false} Queries(l: Layout, w: Wire, n: nat) returns (run: seq<Step>)
    requires w.client.Idle? && w.server.Reading?
    ensures IsWireRun(l, w, run)
    ensures var t := Final(l, w, run);
            t.client.Idle? && t.server == w.server && t.sem == w.sem && |t.pipe| == |w.pipe| + n * l.size
    decreases n
  {
    run := [];
    if 0 < n {
      run := Queries(l, Do(l, w, Query(1)), n - 1);
      assert ([Query(1)] + run)[1..] == run;
      run := [Query(1)] + run;
    }
  }

  /** The record of a 32-bit program, command, pointer and flag, for commands whose lowest byte is
      not zero and pointers that are null. */
  const SMALL := Layout(12, 8, (o: Octet) => if o.place == 8 then o.rec.wait else o.place == 0)

  /** Behind 86 plain calls the second read begins 8 bytes before the waiting record, takes the
      lowest byte of its command for the flag, and posts: the call can return, and no run from there
      executes its own command. */
  lemma EarlyReturn() returns (run: seq<Step>)
    ensures ValidLayout(SMALL) && IsWireRun(SMALL, QUIET, run)
    ensures var w := Final(SMALL, QUIET, run); w.client.Idle? && w.server.Reading? && w.sem == 0
    ensures var t := Do(SMALL, Final(SMALL, QUIET, run), QueryWait(2));
            CanReturnEarly(SMALL, t) && !CanExecute(SMALL, t, t.client.rec)
  {
    var listening := Do(SMALL, QUIET, Listen);
    var more := Queries(SMALL, listening, 86);
    run := [Listen] + more;
    assert run[1..] == more;
    var w := Final(SMALL, QUIET, run);
    assert w == Final(SMALL, listening, more);
    var t := Do(SMALL, w, QueryWait(2));
    assert t.pipe[1032] == Bytes(t.client.rec, 12)[0];
    assert FlagAt(SMALL, t.pipe, 1);
    assert FlagBesides(SMALL, t.pipe, 1032);
    EarlyReturnIff(SMALL, run, 2);
    OwnCommandIff(SMALL, run, 2);
  }

  // ----- The channel itself -----

  class Channel {
    const layout: Layout
    var pipe: seq<Octet>
    var buf: seq<Octet>
    var sem: nat
    var listening: bool
    var server: Server<Handled>
    var client: Client
    ghost var sent: seq<Record>
    ghost var executed: seq<Handled>

    ghost predicate Valid()
      reads this
    {
      ValidLayout(layout) && (listening <==> !server.Starting?)
    }

    /** Only whole records so far, and the handshake in order. */
    ghost predicate Clean()
      reads this
    {
      exists s: State :: Shows(layout, Now(), s) && Inv(s)
    }

    ghost function Now(): Wire
      reads this
    {
      Wire(pipe, buf, sem, server, client, sent, executed)
    }

    lemma CleanStep(step: Step) returns (s: State)
      requires Valid() && Clean() && Can(Now(), step) && (step.Read? ==> |pipe| <= BUFFER)
      ensures Shows(layout, Now(), s) && Inv(s) && Enabled(s, step)
      ensures Shows(layout, Do(layout, Now(), step), Apply(s, step)) && Inv(Apply(s, step))
    {
      s :| Shows(layout, Now(), s) && Inv(s);
      FittingStep(layout, Now(), s, step);
      StepKeepsInv(s, step);
    }

    constructor (layout: Layout)
      requires ValidLayout(layout)
      ensures Valid() && Clean() && Now() == QUIET && this.layout == layout
    {
      this.layout := layout;
      pipe, buf, sem, listening, server, client, sent, executed := [], [], 0, false, Starting, Idle, [], [];
      new;
      assert Shows(layout, Now(), INIT) && Inv(INIT);
    }

    method BtQuery(cmd: int, len: int, id: nat) returns (ret: int)
      requires Valid() && client.Idle? && id == |sent|
      modifies this
      ensures Valid() && Now() == Do(layout, old(Now()), Query(cmd)) && (old(Clean()) ==> Clean())
      ensures ret == if listening then len else -1
      ensures pipe == old(pipe) + if listening then Bytes(Record(id, cmd, false), layout.size) else []
    {
      ghost var was := Clean();
      ghost var s;
      if was {
        s := CleanStep(Query(cmd));
      }
      ret := -1;
      if listening {
        var r := Record(id, cmd, false);
        pipe := pipe + Bytes(r, layout.size);
        sent := sent + [r];
        ret := len;
      }
      assert was ==> Shows(layout, Now(), Apply(s, Query(cmd)));
    }

    /** bt_query_wait up to the semaphore; the call does not get there without a listener. */
    method BtQueryWait(cmd: int, len: int, id: nat) returns (ret: int)
      requires Valid() && client.Idle? && id == |sent|
      modifies this
      ensures Valid() && Now() == Do(layout, old(Now()), QueryWait(cmd)) && (old(Clean()) ==> Clean())
      ensures ret == if listening then len else -1
      ensures pipe == old(pipe) + if listening then Bytes(Record(id, cmd, true), layout.size) else []
    {
      ghost var was := Clean();
      ghost var s;
      if was {
        s := CleanStep(QueryWait(cmd));
      }
      ret := -1;
      if listening {
        var r := Record(id, cmd, true);
        pipe := pipe + Bytes(r, layout.size);
        sent := sent + [r];
        client := Waiting(r);
        ret := len;
      }
      assert was ==> Shows(layout, Now(), Apply(s, QueryWait(cmd)));
    }

    /** sem_wait comes back; on a clean channel, after the call's own command. */
    method SemWait()
      requires Valid() && Can(Now(), Return)
      modifies this
      ensures Valid() && Now() == Do(layout, old(Now()), Return)
      ensures old(Clean()) ==> Clean() && sem == 0 && executed != []
                               && executed[|executed| - 1] == Whole(old(client).rec)
    {
      ghost var was := Clean();
      ghost var s;
      if was {
        s := CleanStep(Return);
      }
      sem := sem - 1;
      client := Idle;
      assert was ==> Shows(layout, Now(), Apply(s, Return));
    }

    method StartListening()
      requires Valid() && server.Starting?
      modifies this
      ensures Valid() && Now() == Do(layout, old(Now()), Listen) && (old(Clean()) ==> Clean())
    {
      ghost var was := Clean();
      ghost var s;
      if was {
        s := CleanStep(Listen);
      }
      listening := true;
      server := Reading;
      assert was ==> Shows(layout, Now(), Apply(s, Listen));
    }

    /** The server loop's read: a read that takes everything keeps the channel clean. */
    method ReadBatch()
      requires Valid() && Can(Now(), Read)
      modifies this
      ensures Valid() && Now() == Do(layout, old(Now()), Read)
      ensures var n := if |old(pipe)| < 1024 then |old(pipe)| else 1024;
              && pipe == old(pipe)[n..] && n <= |buf| && buf[..n] == old(pipe)[..n]
              && forall i :: n <= i < |old(buf)| ==> i < |buf| && buf[i] == old(buf)[i]
      ensures old(Clean()) && |old(pipe)| <= BUFFER ==> Clean()
    {
      ghost var was := Clean() && |pipe| <= BUFFER;
      ghost var s;
      if was {
        s := CleanStep(Read);
      }
      var n := ReadSize(pipe);
      buf := pipe[..n] + if n < |buf| then buf[n..] else [];
      pipe := pipe[n..];
      server := Executing(Parse(layout, buf));
      assert was ==> Shows(layout, Now(), Apply(s, Read));
    }

    /** The switch over the command. */
    method HandleCommand()
      requires Valid() && server.Executing?
      modifies this
      ensures Valid() && Now() == Do(layout, old(Now()), Execute) && (old(Clean()) ==> Clean())
    {
      ghost var was := Clean();
      ghost var s;
      if was {
        s := CleanStep(Execute);
      }
      executed := executed + [server.rec];
      server := Posting(server.rec);
      assert was ==> Shows(layout, Now(), Apply(s, Execute));
    }

    method PostIfWaited()
      requires Valid() && server.Posting?
      modifies this
      ensures Valid() && Now() == Do(layout, old(Now()), Post) && (old(Clean()) ==> Clean())
    {
      ghost var was := Clean();
      ghost var s;
      if was {
        s := CleanStep(Post);
      }
      if Wants(server.rec) {
        sem := sem + 1;
      }
      server := Reading;
      assert was ==> Shows(layout, Now(), Apply(s, Post));
    }
  }
}
