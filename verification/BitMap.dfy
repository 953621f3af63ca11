/** Byte buffers as pictures of sets of bit positions: bit b of byte k is position 8 * k + b. */
module BitMap {
  import opened Bytes

  function Mask(b: int): Byte
    requires 0 <= b < 8
  {
    (1 as Byte) << b
  }

  predicate TestBit(v: Byte, b: int)
    requires 0 <= b < 8
  {
    v & Mask(b) != 0
  }

  /** The set bits of the buffer are exactly the positions in `bits`. */
  ghost predicate Shows(d: seq<Byte>, bits: set<int>) {
    && (forall p :: p in bits ==> 0 <= p < 8 * |d|)
    && (forall k, b :: 0 <= k < |d| && 0 <= b < 8 ==> (TestBit(d[k], b) <==> 8 * k + b in bits))
  }

  /** The eight masks, so that bit facts can be checked mask by mask. */
  lemma MaskTable(b: int)
    requires 0 <= b < 8
    ensures Mask(b) == (match b
                        case 0 => 1 case 1 => 2 case 2 => 4 case 3 => 8
                        case 4 => 16 case 5 => 32 case 6 => 64 case _ => 128)
  {
  }

  lemma OrMask(v: Byte, b: int, c: int)
    requires 0 <= b < 8 && 0 <= c < 8
    ensures TestBit(v | Mask(b), c) <==> c == b || TestBit(v, c)
  {
    MaskTable(b);
    MaskTable(c);
  }

  lemma AndNotMask(v: Byte, b: int, c: int)
    requires 0 <= b < 8 && 0 <= c < 8
    ensures TestBit(v & !Mask(b), c) <==> c != b && TestBit(v, c)
  {
    if b != c {
      OtherBit(v, b, c);
    } else {
      OwnBit(v, Mask(b));
    }
  }

  lemma OtherBit(v: Byte, b: int, c: int)
    requires 0 <= b < 8 && 0 <= c < 8 && b != c
    ensures v & !Mask(b) & Mask(c) == v & Mask(c)
  {
    MasksApart(b, c);
    AndAssociates(v, !Mask(b), Mask(c));
  }

  lemma OwnBit(v: Byte, m: Byte)
    ensures v & !m & m == 0
  {
    AndAssociates(v, !m, m);
    assert !m & m == 0;
  }

  lemma AndAssociates(u: Byte, v: Byte, w: Byte)
    ensures u & v & w == u & (v & w)
  {
  }

  lemma MasksApart(b: int, c: int)
    requires 0 <= b < 8 && 0 <= c < 8 && b != c
    ensures !Mask(b) & Mask(c) == Mask(c)
  {
    MaskTable(b);
    MaskTable(c);
  }

  lemma NothingSet(d: seq<Byte>)
    requires forall k :: 0 <= k < |d| ==> d[k] == 0
    ensures Shows(d, {})
  {
  }

  /** A byte is determined by its eight bits. */
  lemma ByteDetermined(u: Byte, v: Byte)
    requires forall b :: 0 <= b < 8 ==> TestBit(u, b) == TestBit(v, b)
    ensures u == v
  {
    forall b | 0 <= b < 8
      ensures u & Mask(b) == v & Mask(b)
    {
      assert TestBit(u, b) == TestBit(v, b);
      SingleBit(u, b);
      SingleBit(v, b);
    }
    MaskTable(0); MaskTable(1); MaskTable(2); MaskTable(3);
    MaskTable(4); MaskTable(5); MaskTable(6); MaskTable(7);
    assert u & Mask(0) == v & Mask(0) && u & Mask(1) == v & Mask(1);
    assert u & Mask(2) == v & Mask(2) && u & Mask(3) == v & Mask(3);
    assert u & Mask(4) == v & Mask(4) && u & Mask(5) == v & Mask(5);
    assert u & Mask(6) == v & Mask(6) && u & Mask(7) == v & Mask(7);
  }

  lemma SingleBit(v: Byte, b: int)
    requires 0 <= b < 8
    ensures v & Mask(b) == 0 || v & Mask(b) == Mask(b)
  {
    MaskTable(b);
  }

  /** A change of one byte is a change of its positions. */
  lemma OneByte(d: seq<Byte>, bits: set<int>, k: int, v: Byte, changed: set<int>)
    requires Shows(d, bits) && 0 <= k < |d|
    requires forall c :: 0 <= c < 8 ==> (TestBit(v, c) <==> 8 * k + c in changed)
    requires forall p :: p < 8 * k || 8 * k + 8 <= p ==> (p in changed <==> p in bits)
    ensures Shows(d[k := v], changed)
  {
  }

  /** Setting one bit of one byte adds exactly its position. */
  lemma SetPosition(d: seq<Byte>, bits: set<int>, k: int, b: int)
    requires Shows(d, bits) && 0 <= k < |d| && 0 <= b < 8
    ensures Shows(d[k := d[k] | Mask(b)], bits + {8 * k + b})
  {
    var v := d[k] | Mask(b);
    forall c | 0 <= c < 8
      ensures TestBit(v, c) <==> 8 * k + c in bits + {8 * k + b}
    {
      OrMask(d[k], b, c);
    }
    OneByte(d, bits, k, v, bits + {8 * k + b});
  }

  /** Clearing one bit of one byte removes exactly its position. */
  lemma ClearPosition(d: seq<Byte>, bits: set<int>, k: int, b: int)
    requires Shows(d, bits) && 0 <= k < |d| && 0 <= b < 8
    ensures Shows(d[k := d[k] & !Mask(b)], bits - {8 * k + b})
  {
    var v := d[k] & !Mask(b);
    forall c | 0 <= c < 8
      ensures TestBit(v, c) <==> 8 * k + c in bits - {8 * k + b}
    {
      AndNotMask(d[k], b, c);
    }
    OneByte(d, bits, k, v, bits - {8 * k + b});
  }

  /** A buffer shows one set only. */
  lemma ShownSetUnique(d: seq<Byte>, p: set<int>, q: set<int>)
    requires Shows(d, p) && Shows(d, q)
    ensures p == q
  {
    forall x: int
      ensures x in p <==> x in q
    {
      if 0 <= x < 8 * |d| {
        var k, b := x / 8, x % 8;
        assert x == 8 * k + b && 0 <= k < |d| && 0 <= b < 8;
        assert TestBit(d[k], b) <==> 8 * k + b in p;
        assert TestBit(d[k], b) <==> 8 * k + b in q;
      }
    }
  }

  /** Two buffers of one length showing the same set hold the same bytes. */
  lemma BufferDetermined(d: seq<Byte>, e: seq<Byte>, bits: set<int>)
    requires |d| == |e| && Shows(d, bits) && Shows(e, bits)
    ensures d == e
  {
    forall k | 0 <= k < |d|
      ensures d[k] == e[k]
    {
      ByteDetermined(d[k], e[k]);
    }
  }
}
