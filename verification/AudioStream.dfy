/** The intercom's receive path: exact-length reads from a socket that delivers bytes in any
    chunks, pushed to the decoder block by block. */
module AudioStream {
  import opened Bytes

  const BLOCK := 1024
  const WRAP32 := 0x1_0000_0000
  const WRAP64 := 0x1_0000_0000_0000_0000

  /** One accepted connection. The peer's bytes, the most that each read call delivers (not
      positive for an error) and the number of looks at the server state that still find it
      running are arbitrary. Other threads only ever stop a running server and this thread does
      not restart it during a session, so once stopped it stays stopped. */
  class Connection {
    const data: seq<Byte>
    var pos: nat
    var chunks: seq<int>
    var runningLooks: nat

    constructor (data: seq<Byte>, chunks: seq<int>, runningLooks: nat)
      ensures Valid() && pos == 0 && this.data == data
    {
      this.data, pos, this.chunks, this.runningLooks := data, 0, chunks, runningLooks;
    }

    predicate Valid()
      reads this
    {
      pos <= |data|
    }

    /** Every read call to come delivers something until the data ends. */
    predicate Steady()
      reads this
    {
      Valid() && |data| - pos <= |chunks| && forall i :: 0 <= i < |chunks| ==> 0 < chunks[i]
    }

    /** And the server keeps running for as many looks as the rest of the data can need. */
    predicate Undisturbed()
      reads this
    {
      Steady() && 2 * (|data| - pos) <= runningLooks
    }

    /** The bytes consumed since an earlier position. */
    function Since(start: nat): seq<Byte>
      requires Valid() && start <= pos
      reads this
    {
      data[start..pos]
    }

    method IsRunning() returns (r: bool)
      modifies this`runningLooks
      ensures r <==> 0 < old(runningLooks)
      ensures runningLooks == if r then old(runningLooks) - 1 else 0
    {
      r := 0 < runningLooks;
      if r {
        runningLooks := runningLooks - 1;
      }
    }

    /** read(2) into buf at offset `at`, for at most `max` bytes. */
    method Read(buf: array<Byte>, at: nat, max: nat) returns (num: int)
      requires Valid() && at + max <= buf.Length
      modifies this`pos, this`chunks, buf
      ensures Valid()
      ensures num <= max && pos == old(pos) + (if 0 < num then num else 0)
      ensures buf[..at] == old(buf[..at])
      ensures 0 < num ==> buf[at..at + num] == data[old(pos)..pos]
      ensures old(Steady()) && 0 < max ==> Steady() && (old(pos) < |data| ==> 0 < num)
    {
      if chunks == [] {
        return 0;
      }
      num := chunks[0];
      chunks := chunks[1..];
      if num > max {
        num := max;
      }
      if num > |data| - pos {
        num := |data| - pos;
      }
      if num > 0 {
        forall k | 0 <= k < num {
          buf[at + k] := data[pos + k];
        }
        pos := pos + num;
      }
    }
  }

  lemma JoinSlices(data: seq<Byte>, a: nat, b: nat, c: nat)
    requires a <= b <= c <= |data|
    ensures data[a..c] == data[a..b] + data[b..c]
  {
  }

  /** ao_read: fill the whole buffer, or report 0. */
  method AoRead(conn: Connection, buf: array<Byte>) returns (ret: int)
    requires conn.Valid() && 0 < buf.Length
    modifies conn`pos, conn`chunks, conn`runningLooks, buf
    ensures conn.Valid() && conn.runningLooks <= old(conn.runningLooks)
    ensures ret == 0 || ret == buf.Length
    ensures old(conn.pos) <= conn.pos <= old(conn.pos) + buf.Length
    ensures ret == buf.Length ==>
              conn.pos == old(conn.pos) + buf.Length && buf[..] == conn.Since(old(conn.pos))
    ensures ret == buf.Length ==> conn.runningLooks + 2 <= old(conn.runningLooks)
    ensures old(conn.runningLooks) == 0 ==> ret == 0 && conn.pos == old(conn.pos)
    ensures old(conn.Steady() && buf.Length <= |conn.data| - conn.pos && buf.Length < conn.runningLooks) ==>
              ret == buf.Length && conn.Steady() && old(conn.runningLooks) - buf.Length - 1 <= conn.runningLooks
  {
    var len := buf.Length;
    var left := len;
    ghost var start := conn.pos;
    ghost var steady := conn.Steady() && len <= |conn.data| - start && len < conn.runningLooks;
    while left != 0
      invariant conn.Valid() && 0 <= left <= len && conn.pos == start + (len - left)
      invariant buf[..len - left] == conn.Since(start)
      invariant conn.runningLooks <= old(conn.runningLooks)
      invariant left < len ==> conn.runningLooks < old(conn.runningLooks)
      invariant steady ==> conn.Steady() && old(conn.runningLooks) - (len - left) <= conn.runningLooks
      decreases left
    {
      var running := conn.IsRunning();
      if !running {
        break;
      }
      ghost var done, mid, got := len - left, conn.pos, buf[..len - left];
      var num := conn.Read(buf, len - left, left);
      if num <= 0 {
        return 0;
      }
      left := left - num;
      assert buf[..done + num] == buf[..done] + buf[done..done + num] == got + conn.data[mid..conn.pos];
      JoinSlices(conn.data, start, mid, conn.pos);
    }
    var running := conn.IsRunning();
    if !running {
      return 0;
    }
    assert buf[..len] == buf[..];
    return len;
  }

  /** A block handed to the decoder, with the sequence number and time stamp it carries. */
  datatype Block = Block(bytes: seq<Byte>, seqno: int, stamp: int)

  /** The decoder's answer to the i-th block from here on; it accepts what no answer is set for. */
  function AnswerAt(results: seq<int>, i: nat): int {
    if i < |results| then results[i] else 0
  }

  function AnswersFrom(results: seq<int>, i: nat): seq<int> {
    if i < |results| then results[i..] else []
  }

  /** The decoder's side of ao_push: its two static counters, and what was sent. `results` are
      the decoder's answers, arbitrary in advance. */
  class Decoder {
    var timeStamp: int
    var count: int
    var results: seq<int>
    var sent: seq<Block>

    /** The k-th block ever sent, across sessions, carries sequence number k and time stamp
        k - 1, up to the width of the fields. */
    ghost predicate Valid()
      reads this
    {
      && timeStamp == |sent| % WRAP64 && count == |sent| % WRAP64
      && forall i :: 0 <= i < |sent| ==> sent[i].seqno == (i + 1) % WRAP32 && sent[i].stamp == i % WRAP64
    }

    constructor (results: seq<int>)
      ensures Valid() && sent == []
    {
      timeStamp, count, this.results, sent := 0, 0, results, [];
    }

    method SendStream(bytes: seq<Byte>) returns (result: int)
      requires Valid()
      modifies this
      ensures Valid() && |sent| == |old(sent)| + 1
      ensures sent == old(sent) + [Block(bytes, |sent| % 0x1_0000_0000, |old(sent)| % 0x1_0000_0000_0000_0000)]
      ensures result == AnswerAt(old(results), 0) && results == AnswersFrom(old(results), 1)
    {
      var stamp := timeStamp;
      timeStamp := (timeStamp + 1) % WRAP64;
      count := (count + 1) % WRAP64;
      NextCounter(|sent|);
      sent := sent + [Block(bytes, count % WRAP32, stamp)];
      if results == [] {
        return 0;
      }
      result := results[0];
      results := results[1..];
    }
  }

  /** Wrapping at 64 bits first does not change the low 32 bits. */
  lemma NextCounter(n: nat)
    ensures (n % WRAP64 + 1) % WRAP64 == (n + 1) % WRAP64
    ensures (n + 1) % WRAP64 % WRAP32 == (n + 1) % WRAP32
  {
    var q := (n + 1) / WRAP64;
    assert n + 1 == q * WRAP64 + (n + 1) % WRAP64;
    LowBits((n + 1) % WRAP64, q * WRAP32);
  }

  lemma {:induction false} LowBits(a: nat, d: nat)
    ensures (a + d * WRAP32) % WRAP32 == a % WRAP32
    decreases d
  {
    if d > 0 {
      LowBits(a, d - 1);
      assert a + d * WRAP32 == (a + (d - 1) * WRAP32) + WRAP32;
    }
  }

  /** ao_push: one block from the hook to the decoder. */
  method AoPush(conn: Connection, dec: Decoder) returns (result: int, ghost pushed: seq<Block>)
    requires conn.Valid() && dec.Valid()
    modifies conn`pos, conn`chunks, conn`runningLooks, dec
    ensures conn.Valid() && dec.Valid() && conn.runningLooks <= old(conn.runningLooks)
    ensures old(conn.pos) <= conn.pos <= old(conn.pos) + BLOCK
    ensures dec.sent == old(dec.sent) + pushed
    ensures if pushed == [] then result == -1
            else |pushed| == 1 && pushed[0].bytes == conn.Since(old(conn.pos))
                 && conn.pos == old(conn.pos) + BLOCK
    ensures pushed != [] ==> conn.runningLooks + 2 <= old(conn.runningLooks)
    ensures old(conn.runningLooks) == 0 ==> pushed == [] && conn.pos == old(conn.pos)
    ensures if pushed == [] then dec.results == old(dec.results)
            else result == AnswerAt(old(dec.results), 0) && dec.results == AnswersFrom(old(dec.results), 1)
    ensures old(conn.Steady() && BLOCK <= |conn.data| - conn.pos && BLOCK < conn.runningLooks) ==>
              && pushed != [] && conn.Steady() && old(conn.runningLooks) - BLOCK - 1 <= conn.runningLooks
  {
    var buf := new Byte[BLOCK](_ => 0);
    pushed := [];
    var size := AoRead(conn, buf);
    if size <= 0 {
      return -1, pushed;
    }
    result := dec.SendStream(buf[..]);
    pushed := [dec.sent[|dec.sent| - 1]];
  }

  function Payload(blocks: seq<Block>): seq<Byte> {
    if blocks == [] then [] else Payload(blocks[..|blocks| - 1]) + blocks[|blocks| - 1].bytes
  }

  lemma PayloadGrows(blocks: seq<Block>, b: Block)
    ensures Payload(blocks + [b]) == Payload(blocks) + b.bytes
  {
    assert (blocks + [b])[..|blocks|] == blocks;
  }

  /** The blocks carry the consecutive 1024-byte pieces of the data from `start` on. */
  ghost predicate Carries(blocks: seq<Block>, data: seq<Byte>, start: nat) {
    && start + BLOCK * |blocks| <= |data|
    && Payload(blocks) == data[start..start + BLOCK * |blocks|]
    && forall i :: 0 <= i < |blocks| ==> |blocks[i].bytes| == BLOCK
  }

  lemma CarriesOneMore(blocks: seq<Block>, data: seq<Byte>, start: nat, b: Block)
    requires Carries(blocks, data, start)
    requires var at := start + BLOCK * |blocks|; at + BLOCK <= |data| && b.bytes == data[at..at + BLOCK]
    ensures Carries(blocks + [b], data, start)
  {
    var at := start + BLOCK * |blocks|;
    PayloadGrows(blocks, b);
    assert data[start..at + BLOCK] == data[start..at] + data[at..at + BLOCK];
  }

  /** The session loop: whatever the chunking, the bytes handed on are exactly the first
      1024 * k bytes received, k being the blocks sent, in order, and at most one block of
      consumed bytes is thrown away at the end. No block follows one that the decoder answered
      with -1. With the server running and no read failing before the data ends, every whole block
      of the data is handed on, up to the first that is so answered. The server is seen running
      three times for each block, the last time after the block is complete. */
  method Session(conn: Connection, dec: Decoder) returns (ghost blocks: seq<Block>)
    requires conn.Valid() && dec.Valid()
    modifies conn`pos, conn`chunks, conn`runningLooks, dec
    ensures conn.Valid() && dec.Valid() && dec.sent == old(dec.sent) + blocks
    ensures Carries(blocks, conn.data, old(conn.pos))
    ensures var start, k := old(conn.pos), |blocks|; start + 1024 * k <= conn.pos <= start + 1024 * (k + 1)
    ensures conn.runningLooks + 3 * |blocks| <= old(conn.runningLooks)
    ensures old(conn.runningLooks) <= 1 ==> conn.pos == old(conn.pos)
    ensures forall i :: 0 <= i < |blocks| - 1 ==> AnswerAt(old(dec.results), i) != -1
    ensures old(conn.Undisturbed()) ==>
              || |blocks| == (|conn.data| - old(conn.pos)) / 1024
              || (blocks != [] && AnswerAt(old(dec.results), |blocks| - 1) == -1)
  {
    blocks := [];
    ghost var start := conn.pos;
    ghost var calm, results := conn.Undisturbed(), dec.results;
    while true
      invariant conn.Valid() && dec.Valid() && dec.sent == old(dec.sent) + blocks
      invariant conn.pos == start + BLOCK * |blocks| && Carries(blocks, conn.data, start)
      invariant calm ==> conn.Undisturbed()
      invariant conn.runningLooks + 3 * |blocks| <= old(conn.runningLooks)
      invariant dec.results == AnswersFrom(results, |blocks|)
      invariant forall i :: 0 <= i < |blocks| ==> AnswerAt(results, i) != -1
      decreases conn.runningLooks
    {
      ghost var whole := BLOCK <= |conn.data| - conn.pos;
      var running := conn.IsRunning();
      if !running {
        assert calm ==> !whole;
        break;
      }
      var result;
      ghost var pushed;
      result, pushed := AoPush(conn, dec);
      if pushed != [] {
        CarriesOneMore(blocks, conn.data, start, pushed[0]);
        assert pushed == [pushed[0]];
        assert result == AnswerAt(results, |blocks|);
        blocks := blocks + [pushed[0]];
      }
      if result == -1 {
        assert calm && pushed == [] ==> !whole;
        break;
      }
    }
  }

  /** Two readings of one byte stream, however chunked, agree on every block both delivered:
      block i holds bytes 1024 * i to 1024 * (i + 1). */
  lemma ChunkingIrrelevant(data: seq<Byte>, a: seq<Block>, b: seq<Block>, i: nat)
    requires i < |a| && i < |b| && Carries(a, data, 0) && Carries(b, data, 0)
    ensures a[i].bytes == b[i].bytes == data[1024 * i..1024 * (i + 1)]
  {
    BlockAt(data, a, i);
    BlockAt(data, b, i);
  }

  lemma {:induction false} BlockAt(data: seq<Byte>, a: seq<Block>, i: nat)
    requires i < |a| && Carries(a, data, 0)
    ensures a[i].bytes == data[BLOCK * i..BLOCK * (i + 1)]
    decreases |a|
  {
    var n := |a| - 1;
    PayloadSize(a[..n]);
    var p := Payload(a);
    assert p == Payload(a[..n]) + a[n].bytes;
    assert Payload(a[..n]) == p[..BLOCK * n] == data[..BLOCK * n];
    if i < n {
      BlockAt(data, a[..n], i);
    } else {
      assert a[n].bytes == p[BLOCK * n..] == data[BLOCK * n..BLOCK * (n + 1)];
    }
  }

  lemma {:induction false} PayloadSize(a: seq<Block>)
    requires forall k :: 0 <= k < |a| ==> |a[k].bytes| == BLOCK
    ensures |Payload(a)| == BLOCK * |a|
  {
    if a != [] {
      PayloadSize(a[..|a| - 1]);
    }
  }
}
