/**
 A decompressor between two streams: it can be paused in the middle of a buffer, keeps what it has not yet used,
 and goes on later; and the running CRC of what it has sent.
 */
module Decompressor {
  import opened Common
  import opened DuplexStream

  const CHUNK: nat := 16384

  // ----- CRC-32 -----

  /** The table for one octet, which makes the polynomial. */
  type Table = bv32 -> bv32

  function Xor(a: bv32, b: bv32): bv32 { a ^ b }

  function UpdateOne(t: Table, crc: bv32, octet: bv8): bv32 {
    Xor(t(Xor(crc, octet as bv32) & 0xFF), crc >> 8)
  }

  function Fold(t: Table, crc: bv32, buf: seq<bv8>): bv32
    decreases |buf|
  {
    if buf == [] then crc else Fold(t, UpdateOne(t, crc, buf[0]), buf[1..])
  }

  function Invert(x: bv32): bv32 { x ^ 0xFFFF_FFFF }

  function Crc(t: Table, crc: bv32, buf: seq<bv8>): bv32 { Invert(Fold(t, Invert(crc), buf)) }

  lemma InvertTwice(x: bv32)
    ensures Invert(Invert(x)) == x
  {
  }

  lemma {:induction false} FoldSplits(t: Table, crc: bv32, a: seq<bv8>, b: seq<bv8>)
    ensures Fold(t, crc, a + b) == Fold(t, Fold(t, crc, a), b)
    decreases |a|
  {
    if a == [] {
      assert a + b == b;
    } else {
      FoldSplits(t, UpdateOne(t, crc, a[0]), a[1..], b);
      assert (a + b)[1..] == a[1..] + b;
    }
  }

  /** The CRC of pieces, each started from the one before, is the CRC of the whole. */
  lemma CrcStreams(t: Table, crc: bv32, a: seq<bv8>, b: seq<bv8>)
    ensures Crc(t, Crc(t, crc, a), b) == Crc(t, crc, a + b)
  {
    FoldSplits(t, Invert(crc), a, b);
    InvertTwice(Fold(t, Invert(crc), a));
  }

  lemma CrcOfNothing(t: Table, crc: bv32)
    ensures Crc(t, crc, []) == crc
  {
    InvertTwice(crc);
  }

  /** Eight octets at a time while there are as many, and then one at a time. */
  method Crc32(t: Table, start: bv32, buf: seq<bv8>) returns (crc: bv32)
    ensures crc == Crc(t, start, buf)
  {
    crc := Invert(start);
    var i := 0;
    while |buf| - i >= 8
      invariant 0 <= i <= |buf| && Fold(t, crc, buf[i..]) == Fold(t, Invert(start), buf)
      decreases |buf| - i
    {
      ghost var first := i;
      for k := 0 to 8
        invariant i == first + k && first + 8 <= |buf| && Fold(t, crc, buf[i..]) == Fold(t, Invert(start), buf)
      {
        assert buf[i..][1..] == buf[i + 1..];
        crc := UpdateOne(t, crc, buf[i]);
        i := i + 1;
      }
    }
    while i < |buf|
      invariant 0 <= i <= |buf| && Fold(t, crc, buf[i..]) == Fold(t, Invert(start), buf)
    {
      assert buf[i..][1..] == buf[i + 1..];
      crc := UpdateOne(t, crc, buf[i]);
      i := i + 1;
    }
    crc := Invert(crc);
  }

  // ----- The CRC bit by bit -----

  const POLYNOMIAL: bv32 := 0xEDB8_8320
  const OCTET: nat := 8

  function Down(x: bv32): bv32 { x >> 1 }

  predicate Odd(x: bv32) { x & 1 == 1 }

  function Subtracted(odd: bool): bv32 { if odd then POLYNOMIAL else 0 }

  function Reduced(x: bv32, odd: bool): bv32 { Xor(Down(x), Subtracted(odd)) }

  /** One step of the division, low bit first. */
  function Halve(crc: bv32): bv32 { Reduced(crc, Odd(crc)) }

  function HalveTimes(crc: bv32, n: nat): bv32
    decreases n
  {
    if n == 0 then crc else HalveTimes(Halve(crc), n - 1)
  }

  /** The table that the polynomial makes. */
  function PolynomialTable(): Table { (octet: bv32) => HalveTimes(octet, OCTET) }

  /** The reference: the message goes in bit by bit, the low bit of each octet first. */
  function TakeBit(crc: bv32, bit: bool): bv32 { Reduced(crc, Odd(crc) != bit) }

  function TakeBits(crc: bv32, bits: bv32, n: nat): bv32
    decreases n
  {
    if n == 0 then crc else TakeBits(TakeBit(crc, Odd(bits)), Down(bits), n - 1)
  }

  function TakeAll(crc: bv32, buf: seq<bv8>): bv32
    decreases |buf|
  {
    if buf == [] then crc else TakeAll(TakeBits(crc, buf[0] as bv32, OCTET), buf[1..])
  }

  function DownTimes(x: bv32, n: nat): bv32
    decreases n
  {
    if n == 0 then x else DownTimes(Down(x), n - 1)
  }

  lemma DownOfXor(a: bv32, b: bv32)
    ensures Down(Xor(a, b)) == Xor(Down(a), Down(b))
  {
  }

  lemma OddOfXor(a: bv32, b: bv32)
    ensures Odd(Xor(a, b)) == (Odd(a) != Odd(b))
  {
  }

  lemma XorIsAssociative(a: bv32, b: bv32, c: bv32)
    ensures Xor(Xor(a, b), c) == Xor(a, Xor(b, c))
  {
  }

  lemma XorIsCommutative(a: bv32, b: bv32)
    ensures Xor(a, b) == Xor(b, a)
  {
  }

  lemma XorMoves(a: bv32, b: bv32, c: bv32)
    ensures Xor(Xor(a, c), b) == Xor(Xor(a, b), c) == Xor(a, Xor(b, c))
  {
    XorIsAssociative(a, b, c);
    XorIsAssociative(a, c, b);
    XorIsCommutative(b, c);
  }

  lemma XorPairs(a: bv32, b: bv32, c: bv32, d: bv32)
    ensures Xor(Xor(a, c), Xor(b, d)) == Xor(Xor(a, b), Xor(c, d))
  {
    XorMoves(a, Xor(b, d), c);
    XorMoves(a, b, d);
    XorMoves(Xor(a, b), c, d);
  }

  lemma SubtractedIsLinear(odd: bool, other: bool)
    ensures Xor(Subtracted(odd), Subtracted(other)) == Subtracted(odd != other)
  {
  }

  lemma ReducedIsLinear(a: bv32, b: bv32, odd: bool, other: bool)
    ensures Reduced(Xor(a, b), odd != other) == Xor(Reduced(a, odd), Reduced(b, other))
  {
    DownOfXor(a, b);
    SubtractedIsLinear(odd, other);
    XorPairs(Down(a), Down(b), Subtracted(odd), Subtracted(other));
  }

  lemma HalveIsLinear(a: bv32, b: bv32)
    ensures Halve(Xor(a, b)) == Xor(Halve(a), Halve(b))
  {
    OddOfXor(a, b);
    ReducedIsLinear(a, b, Odd(a), Odd(b));
  }

  lemma {:induction false} HalvingIsLinear(a: bv32, b: bv32, n: nat)
    ensures HalveTimes(Xor(a, b), n) == Xor(HalveTimes(a, n), HalveTimes(b, n))
    decreases n
  {
    if n > 0 {
      HalveIsLinear(a, b);
      HalvingIsLinear(Halve(a), Halve(b), n - 1);
    }
  }

  lemma TakeIsHalve(crc: bv32, bits: bv32)
    ensures Halve(Xor(crc, bits)) == Xor(TakeBit(crc, Odd(bits)), Down(bits))
  {
    DownOfXor(crc, bits);
    OddOfXor(crc, bits);
    XorMoves(Down(crc), Down(bits), Subtracted(Odd(crc) != Odd(bits)));
  }

  lemma {:induction false} TakingIsHalving(crc: bv32, bits: bv32, n: nat)
    ensures HalveTimes(Xor(crc, bits), n) == Xor(TakeBits(crc, bits, n), DownTimes(bits, n))
    decreases n
  {
    if n > 0 {
      TakeIsHalve(crc, bits);
      TakingIsHalving(TakeBit(crc, Odd(bits)), Down(bits), n - 1);
    }
  }

  /** Nothing has been taken out of the low bits yet. */
  predicate LowZeros(x: bv32, n: nat)
    decreases n
  {
    n > 0 ==> !Odd(x) && LowZeros(Down(x), n - 1)
  }

  lemma {:induction false} ZerosOnlyMove(x: bv32, n: nat)
    requires LowZeros(x, n)
    ensures HalveTimes(x, n) == DownTimes(x, n)
    decreases n
  {
    if n > 0 { ZerosOnlyMove(Down(x), n - 1); }
  }

  lemma DownByEight(x: bv32)
    ensures DownTimes(x, 8) == x >> 8
  {
  }

  lemma HighHasZeros(x: bv32)
    ensures LowZeros(x & 0xFFFF_FF00, 8)
  {
  }

  lemma Parts(x: bv32)
    ensures x == Xor(x & 0xFF, x & 0xFFFF_FF00) && (x & 0xFFFF_FF00) >> 8 == x >> 8
  {
  }

  lemma HighHalves(x: bv32)
    ensures HalveTimes(x & 0xFFFF_FF00, OCTET) == x >> 8
  {
    var high := x & 0xFFFF_FF00;
    Parts(x);
    HighHasZeros(x);
    ZerosOnlyMove(high, OCTET);
    DownByEight(high);
  }

  /** The high bits of a CRC only move down while its low octet is divided. */
  lemma HighBitsMove(x: bv32)
    ensures HalveTimes(x, OCTET) == Xor(HalveTimes(x & 0xFF, OCTET), x >> 8)
  {
    Parts(x);
    HalvingIsLinear(x & 0xFF, x & 0xFFFF_FF00, OCTET);
    HighHalves(x);
  }

  lemma HighOfOctet(crc: bv32, octet: bv8)
    ensures (octet as bv32) >> 8 == 0 && Xor(crc, octet as bv32) >> 8 == crc >> 8
  {
  }

  lemma XorZero(x: bv32)
    ensures Xor(x, 0) == x
  {
  }

  lemma TakingAnOctet(crc: bv32, octet: bv8)
    ensures TakeBits(crc, octet as bv32, OCTET) == HalveTimes(Xor(crc, octet as bv32), OCTET)
  {
    TakingIsHalving(crc, octet as bv32, OCTET);
    DownByEight(octet as bv32);
    HighOfOctet(crc, octet);
    XorZero(TakeBits(crc, octet as bv32, OCTET));
  }

  lemma Entry(x: bv32)
    ensures PolynomialTable()(x) == HalveTimes(x, OCTET)
  {
  }

  /** One look-up in the table takes in the eight bits of an octet. */
  lemma UpdateTakesBits(crc: bv32, octet: bv8)
    ensures UpdateOne(PolynomialTable(), crc, octet) == TakeBits(crc, octet as bv32, OCTET)
  {
    Entry(Xor(crc, octet as bv32) & 0xFF);
    TakingAnOctet(crc, octet);
    HighBitsMove(Xor(crc, octet as bv32));
    HighOfOctet(crc, octet);
  }

  /** So the CRC of any octets is the remainder that the bit by bit division gives. */
  lemma {:induction false} FoldIsSerial(crc: bv32, buf: seq<bv8>)
    ensures Fold(PolynomialTable(), crc, buf) == TakeAll(crc, buf)
    decreases |buf|
  {
    if buf != [] {
      UpdateTakesBits(crc, buf[0]);
      FoldIsSerial(UpdateOne(PolynomialTable(), crc, buf[0]), buf[1..]);
    }
  }

  lemma CrcIsSerial(start: bv32, buf: seq<bv8>)
    ensures Crc(PolynomialTable(), start, buf) == TakeAll(start ^ 0xFFFF_FFFF, buf) ^ 0xFFFF_FFFF
  {
    FoldIsSerial(Invert(start), buf);
  }

  /** The entries for single bits; the others are sums of these, as HalvingIsLinear says. */
  lemma {:induction false} TableEntries()
    ensures HalveTimes(1, 8) == 0x7707_3096 && HalveTimes(2, 8) == 0xEE0E_612C
    ensures HalveTimes(4, 8) == 0x076D_C419 && HalveTimes(8, 8) == 0x0EDB_8832
    ensures HalveTimes(16, 8) == 0x1DB7_1064 && HalveTimes(32, 8) == 0x3B6E_20C8
    ensures HalveTimes(64, 8) == 0x76DC_4190 && HalveTimes(128, 8) == 0xEDB8_8320
  {
  }

  // ----- The compressed format -----

  /** What compressed octets decode to so far, whether the compressed stream has ended, and whether they are valid. */
  datatype Codec = Codec(decode: seq<bv8> -> seq<bv8>, complete: seq<bv8> -> bool, valid: seq<bv8> -> bool)

  predicate Extends(c: Codec, a: seq<bv8>, x: bv8) {
    && c.decode(a) <= c.decode(a + [x])
    && (c.complete(a) ==> c.complete(a + [x]) && c.decode(a + [x]) == c.decode(a))
  }

  /** More input never takes back output, and what follows the end of the compressed stream adds none. */
  ghost predicate Lawful(c: Codec) {
    c.decode([]) == [] && forall a, x :: Extends(c, a, x)
  }

  lemma {:induction false} MoreInput(c: Codec, a: seq<bv8>, b: seq<bv8>)
    requires Lawful(c)
    ensures c.decode(a) <= c.decode(a + b)
    ensures c.complete(a) ==> c.complete(a + b) && c.decode(a + b) == c.decode(a)
    decreases |b|
  {
    if b == [] {
      assert a + b == a;
    } else {
      var n := |b| - 1;
      MoreInput(c, a, b[..n]);
      assert Extends(c, a + b[..n], b[n]);
      assert a + b == (a + b[..n]) + [b[n]];
    }
  }

  function Pending(resume: Option<seq<bv8>>): seq<bv8> { if resume.Some? then resume.value else [] }

  /**
   The input accepted is what the codec has been fed and what is kept; after the end of the compressed stream, the
   rest is dropped.
   */
  predicate Conserved(c: Codec, fed: seq<bv8>, kept: seq<bv8>, accepted: seq<bv8>) {
    if c.complete(fed) then fed <= accepted else fed + kept == accepted
  }

  /** What is sent, and then what codec and kept input still decode to, is what the accepted input decodes to. */
  lemma NothingIsLost(c: Codec, fed: seq<bv8>, kept: seq<bv8>, accepted: seq<bv8>, emitted: nat)
    requires Lawful(c) && Conserved(c, fed, kept, accepted) && emitted <= |c.decode(fed)|
    ensures emitted <= |c.decode(fed + kept)|
    ensures c.decode(fed)[..emitted] + c.decode(fed + kept)[emitted..] == c.decode(accepted)
  {
    MoreInput(c, fed, kept);
    if c.complete(fed) { AllDecoded(c, fed, kept, accepted); }
  }

  lemma AllDecoded(c: Codec, fed: seq<bv8>, kept: seq<bv8>, accepted: seq<bv8>)
    requires Lawful(c) && Conserved(c, fed, kept, accepted) && (kept == [] || c.complete(fed))
    ensures c.decode(accepted) == c.decode(fed)
  {
    if c.complete(fed) {
      MoreInput(c, fed, accepted[|fed|..]);
      assert fed + accepted[|fed|..] == accepted;
    } else {
      assert fed + kept == fed;
    }
  }

  lemma WithinAccepted(c: Codec, fed: seq<bv8>, kept: seq<bv8>, accepted: seq<bv8>)
    requires Lawful(c) && Conserved(c, fed, kept, accepted)
    ensures c.decode(fed) <= c.decode(accepted)
  {
    MoreInput(c, fed, accepted[|fed|..]);
    assert fed + accepted[|fed|..] == accepted;
  }

  lemma UsedIsConserved(c: Codec, fed: seq<bv8>, kept: seq<bv8>, used: nat, accepted: seq<bv8>)
    requires Conserved(c, fed, kept, accepted) && used <= |kept| && (c.complete(fed) ==> used == 0)
    ensures Conserved(c, fed + kept[..used], kept[used..], accepted)
  {
    if c.complete(fed) {
      assert fed + kept[..used] == fed;
    } else {
      assert (fed + kept[..used]) + kept[used..] == accepted;
    }
  }

  lemma SentGrows(before: seq<bv8>, after: seq<bv8>, m: nat, n: nat)
    requires before <= after && m <= |before| && m <= n <= |after|
    ensures after[..n] == before[..m] + after[m..n]
  {
  }

  /** How things stand when a round of the loop begins: the input used and unused, and what has been sent. */
  datatype Moment = Moment(fed: seq<bv8>, left: seq<bv8>, sent: seq<bv8>)

  /** The codec has nothing to do: no input, no output inside itself, and the compressed stream goes on. */
  predicate Exhausted(c: Codec, m: Moment) {
    m.left == [] && |m.sent| == |c.decode(m.fed)| && !c.complete(m.fed)
  }

  /** The last octet accepted adds output, so the codec cannot have sent everything without it. */
  predicate LastAdds(c: Codec, accepted: seq<bv8>) {
    accepted != [] && c.decode(accepted[..|accepted| - 1]) != c.decode(accepted)
  }

  /**
   Whatever input the codec leaves unused when its output is full: the last round finds it exhausted exactly when
   all the output is a whole number of full buffers, and the compressed stream goes on.
   */
  lemma ExhaustedIffFull(c: Codec, accepted: seq<bv8>, input: seq<bv8>, before: nat, rounds: nat, last: Moment)
    requires Lawful(c) && (input == [] || LastAdds(c, accepted)) && |last.left| <= |input|
    requires Conserved(c, last.fed, last.left, accepted) && |last.sent| <= |c.decode(last.fed)|
    requires |last.sent| == before + CHUNK * rounds && |last.sent| <= |c.decode(accepted)| < |last.sent| + CHUNK
    ensures before <= |c.decode(accepted)|
    ensures Exhausted(c, last) <==> !c.complete(accepted) && (|c.decode(accepted)| - before) % CHUNK == 0
  {
    if c.complete(last.fed) {
      MoreInput(c, last.fed, accepted[|last.fed|..]);
      assert last.fed + accepted[|last.fed|..] == accepted;
    } else if last.left == [] {
      assert last.fed + [] == last.fed == accepted;
    } else {
      var n := |accepted| - 1;
      var most := accepted[..n];
      assert most[..|last.fed|] == last.fed && last.fed + most[|last.fed|..] == most;
      MoreInput(c, last.fed, most[|last.fed|..]);
      MoreInput(c, most, [accepted[n]]);
      assert most + [accepted[n]] == accepted;
      ProperPrefix(c.decode(most), c.decode(accepted));
    }
  }

  lemma ProperPrefix(a: seq<bv8>, b: seq<bv8>)
    requires a <= b && a != b
    ensures |a| < |b|
  {
  }

  // ----- The codec of the zlib library, by its contract -----

  datatype Code = Ok | StreamEnd | BufError | DataError

  class ZStream {
    const codec: Codec
    var fed: seq<bv8>     // input used so far
    var emitted: nat      // how much of what it decodes to has been handed out
    var bad: bool         // the input was invalid

    ghost predicate Valid()
      reads this
    {
      emitted <= |codec.decode(fed)|
    }

    constructor (codec: Codec)
      ensures Valid() && this.codec == codec && fed == [] && emitted == 0 && !bad
    {
      this.codec, fed, emitted, bad := codec, [], 0, false;
    }

    /** With the output full, the codec may leave input unused, and output inside itself. */
    method Inflate(input: seq<bv8>, finish: bool) returns (code: Code, used: nat, out: seq<bv8>)
      requires Valid() && Lawful(codec)
      modifies this
      ensures Valid() && used <= |input| && |out| <= CHUNK
      ensures code.DataError? <==> bad
      ensures bad ==> fed == old(fed) && emitted == old(emitted)
      ensures !bad ==>
        && !old(bad)
        && fed == old(fed) + input[..used]
        && emitted == old(emitted) + |out| && out == codec.decode(fed)[old(emitted)..emitted]
        && codec.decode(old(fed)) <= codec.decode(fed)
        && (used == 0 ==> fed == old(fed)) && (codec.complete(old(fed)) ==> used == 0)
        && (|out| < CHUNK ==> (used == |input| || codec.complete(fed)) && emitted == |codec.decode(fed)|)
        && (code.StreamEnd? <==> codec.complete(fed) && emitted == |codec.decode(fed)|)
        && (code.BufError? <==> !code.StreamEnd? && (finish || (used == 0 && out == [])))
      ensures bad && !old(bad) ==> exists k :: 0 < k <= |input| && !codec.valid(old(fed) + input[..k])
    {
      if bad { return DataError, 0, []; }
      var f := fed;
      used := 0;
      while used < |input| && !codec.complete(f)
        invariant used <= |input| && f == fed + input[..used]
        invariant codec.decode(fed) <= codec.decode(f)
        invariant codec.complete(fed) ==> used == 0
        modifies {}
      {
        if |codec.decode(f)| - emitted >= CHUNK {
          var stop: bool := *;
          if stop { break; }
        }
        assert Extends(codec, f, input[used]);
        assert f + [input[used]] == fed + input[..used + 1];
        f, used := f + [input[used]], used + 1;
        if !codec.valid(f) { break; }
      }
      if used > 0 && !codec.valid(f) {
        bad := true;
        return DataError, 0, [];
      }
      var n := if |codec.decode(f)| - emitted < CHUNK then |codec.decode(f)| - emitted else CHUNK;
      out := codec.decode(f)[emitted..emitted + n];
      fed, emitted := f, emitted + n;
      if codec.complete(fed) && emitted == |codec.decode(fed)| {
        code := StreamEnd;
      } else if finish || (used == 0 && out == []) {
        code := BufError;
      } else {
        code := Ok;
      }
    }
  }

  // ----- The decompressor -----

  datatype DoneState = Complete | Incomplete | Error

  /**
   How a loop over a buffer ends: the codec refused, the reader paused, the compressed stream was over, or all was
   used.
   */
  datatype Outcome = Refused | Paused | Ended | Drained

  class DeCompressor {
    const table: Table
    const z: ZStream
    const ds: Readable
    var crc: bv32
    var resumeBuffer: Option<seq<bv8>>
    ghost var accepted: seq<bv8>
    ghost var spent: bool  // the kept buffer has been used, but is still there

    /** The input that is kept for later. */
    ghost function Held(): seq<bv8>
      reads this
    {
      if spent then [] else Pending(resumeBuffer)
    }

    ghost predicate Core()
      reads this, z, ds
    {
      && Lawful(z.codec) && z.Valid()
      && ds.received == z.codec.decode(z.fed)[..z.emitted]
      && crc == Crc(table, 0, ds.received)
    }

    ghost predicate Valid()
      reads this, z, ds
    {
      && Core()
      && (resumeBuffer.Some? ==> resumeBuffer.value != [])
      && (!z.bad ==> Conserved(z.codec, z.fed, Held(), accepted))
    }

    /** Everything accepted has been decoded and sent. */
    ghost predicate AllSent()
      reads this, z, ds
    {
      ds.received == z.codec.decode(accepted)
    }

    constructor (codec: Codec, table: Table)
      requires Lawful(codec)
      ensures Valid() && z.codec == codec && this.table == table && accepted == []
      ensures ds.received == [] && !ds.over && !z.bad && resumeBuffer.None? && !spent && z.fed == []
      ensures fresh(z) && fresh(ds)
    {
      this.table := table;
      z := new ZStream(codec);
      ds := new Readable();
      crc, resumeBuffer, accepted, spent := 0, None, [], false;
      CrcOfNothing(table, 0);
    }

    /** Sends what the codec has handed out. */
    method Send(out: seq<bv8>) returns (res: int)
      requires crc == Crc(table, 0, ds.received)
      modifies this`crc, ds
      ensures ds.received == old(ds.received) + out && ds.over == old(ds.over)
      ensures crc == Crc(table, 0, ds.received)
      ensures res == if ds.paused then 1 else 0
    {
      CrcStreams(table, 0, ds.received, out);
      crc := Crc32(table, crc, out);
      res := ds.WriteData(out);
    }

    /** One call of the codec. */
    method InflateOnce(input: seq<bv8>) returns (code: Code, out: seq<bv8>, left: seq<bv8>)
      requires Core() && !z.bad && Conserved(z.codec, z.fed, input, accepted)
      modifies z
      ensures z.Valid() && |out| <= CHUNK && (code.DataError? <==> z.bad)
      ensures z.bad ==> z.fed == old(z.fed) && z.emitted == old(z.emitted)
      ensures old(z.codec.complete(z.fed)) ==> z.codec.complete(z.fed)
      ensures !z.bad ==>
        && z.codec.decode(z.fed)[..z.emitted] == ds.received + out && z.emitted == old(z.emitted) + |out|
        && Conserved(z.codec, z.fed, left, accepted)
        && z.emitted <= |z.codec.decode(accepted)|
        && (|out| < CHUNK ==>
              && ds.received + out == z.codec.decode(accepted)
              && (z.codec.complete(z.fed) || (z.fed == accepted && left == [])))
        && (code.StreamEnd? ==> z.codec.complete(z.fed))
        && |left| <= |input| && (code.BufError? ==> out == [] && z.fed == old(z.fed))
        && (code.BufError? <==> Exhausted(z.codec, Moment(old(z.fed), input, ds.received)))
    {
      var used;
      ghost var fed, emitted := z.fed, z.emitted;
      code, used, out := z.Inflate(input, false);
      left := [];
      if code.DataError? { return; }
      UsedIsConserved(z.codec, fed, input, used, accepted);
      SentGrows(z.codec.decode(fed), z.codec.decode(z.fed), emitted, z.emitted);
      WithinAccepted(z.codec, z.fed, input[used..], accepted);
      left := input[used..];
      if |out| < CHUNK { AllDecoded(z.codec, z.fed, left, accepted); }
    }

    /** Keeps the unused input, if there is any. */
    method Keep(rest: seq<bv8>)
      modifies this`resumeBuffer, this`spent
      ensures Held() == rest && !spent && resumeBuffer == if rest == [] then None else Some(rest)
    {
      resumeBuffer, spent := if |rest| > 0 then Some(rest) else None, false;
    }

    /** What the end of the loop says: about the input kept, and about what was sent. */
    ghost predicate Settled(outcome: Outcome)
      reads this, z, ds
    {
      && Core() && (resumeBuffer.Some? ==> resumeBuffer.value != [])
      && (z.bad ==> outcome.Refused?)
      && (!z.bad ==> Conserved(z.codec, z.fed, if outcome.Paused? then Held() else [], accepted))
      && (!z.bad && !outcome.Paused? ==> AllSent())
      && (outcome.Ended? ==> z.codec.complete(z.fed))
      && (outcome.Drained? ==> resumeBuffer.None?)
      && (outcome.Paused? || outcome.Drained? ==> !spent)
      && (outcome.Paused? ==> ds.paused)
    }

    /** The loop that Write and Resume share; `last` is how its last round began. */
    method InflateAll(input: seq<bv8>) returns (outcome: Outcome, ghost last: Moment, ghost rounds: nat)
      requires Core() && !z.bad && Conserved(z.codec, z.fed, input, accepted)
      requires resumeBuffer.Some? ==> resumeBuffer.value != []
      modifies this`crc, this`resumeBuffer, this`spent, z, ds
      ensures Settled(outcome) && ds.over == old(ds.over)
      ensures outcome.Paused? <==> ds.paused && |ds.received| > |old(ds.received)|
      ensures outcome.Refused? || outcome.Ended? ==> resumeBuffer == old(resumeBuffer) && spent == old(spent)
      ensures old(z.codec.complete(z.fed)) && !z.bad ==> !outcome.Refused? && z.codec.complete(z.fed)
      ensures LastRound(old(ds.received), input, last, rounds)
      ensures !z.bad ==> (outcome.Refused? <==> Exhausted(z.codec, last))
      ensures !z.bad && !outcome.Paused? ==> |ds.received| < |last.sent| + CHUNK
    {
      var rest := input;
      var ended := false;
      rounds := 0;
      last := Moment(z.fed, rest, ds.received);
      WithinAccepted(z.codec, z.fed, rest, accepted);
      while true
        invariant Core() && !z.bad && ds.over == old(ds.over) && Conserved(z.codec, z.fed, rest, accepted)
        invariant resumeBuffer == old(resumeBuffer) && spent == old(spent)
        invariant |ds.received| == |old(ds.received)| + CHUNK * rounds && (rounds > 0 ==> !ds.paused)
        invariant z.emitted <= |z.codec.decode(accepted)| && (old(z.codec.complete(z.fed)) ==> z.codec.complete(z.fed))
        invariant |rest| <= |input| && last == Moment(z.fed, rest, ds.received)
        decreases |z.codec.decode(accepted)| - z.emitted
      {
        var code, out, left := InflateOnce(rest);
        if code.DataError? { return Refused, last, rounds; }
        rest := left;
        if code.BufError? { return Refused, last, rounds; }
        ended := code.StreamEnd?;
        if |out| > 0 {
          var res := Send(out);
          if res == 1 {
            Keep(rest);
            return Paused, last, rounds;
          }
          ended := false;
        }
        if |out| < CHUNK { break; }
        rounds := rounds + 1;
        last := Moment(z.fed, rest, ds.received);
      }
      if ended { return Ended, last, rounds; }
      Keep([]);
      outcome := Drained;
    }

    /** The last round began after a number of full buffers, with part of the input left. */
    ghost predicate LastRound(before: seq<bv8>, input: seq<bv8>, last: Moment, rounds: nat)
      reads this, z, ds
    {
      && |last.sent| == |before| + CHUNK * rounds && |last.left| <= |input|
      && Conserved(z.codec, last.fed, last.left, accepted) && |last.sent| <= |z.codec.decode(last.fed)|
      && |last.sent| <= |ds.received|
    }

    /** All the output is a whole number of full buffers, and the compressed stream goes on. */
    ghost predicate Fills(before: seq<bv8>)
      reads this, z
    {
      |before| <= |z.codec.decode(accepted)|
      && !z.codec.complete(accepted) && (|z.codec.decode(accepted)| - |before|) % CHUNK == 0
    }

    /** The loop, and what its end says about the input. */
    method Pump(input: seq<bv8>) returns (outcome: Outcome, ghost last: Moment, ghost rounds: nat)
      requires Core() && !z.bad && Conserved(z.codec, z.fed, input, accepted)
      requires resumeBuffer.Some? ==> resumeBuffer.value != []
      modifies this`crc, this`resumeBuffer, this`spent, z, ds
      ensures Settled(outcome) && ds.over == old(ds.over)
      ensures outcome.Paused? <==> ds.paused && |ds.received| > |old(ds.received)|
      ensures outcome.Refused? || outcome.Ended? ==> resumeBuffer == old(resumeBuffer) && spent == old(spent)
      ensures old(z.codec.complete(z.fed)) && !z.bad ==> !outcome.Refused? && z.codec.complete(z.fed)
      ensures LastRound(old(ds.received), input, last, rounds)
      ensures !z.bad ==> (outcome.Refused? <==> Exhausted(z.codec, last))
      ensures !z.bad && !outcome.Paused? && (input == [] || LastAdds(z.codec, accepted)) ==>
        (outcome.Refused? <==> Fills(old(ds.received)))
    {
      outcome, last, rounds := InflateAll(input);
      if !z.bad && !outcome.Paused? && (input == [] || LastAdds(z.codec, accepted)) {
        ExhaustedIffFull(z.codec, accepted, input, |old(ds.received)|, rounds, last);
      }
    }

    /**
     New input. The stream it comes from waits, after an Incomplete, until it is told to go on; so nothing is kept
     from before, unless the compressed stream has ended. Without invalid input and without a pause, an error means
     that the last round found nothing to do, and that is so exactly when the output fills its buffers.
     */
    method Write(buffer: seq<bv8>) returns (state: DoneState, ghost last: Moment, ghost rounds: nat)
      requires Valid() && (Held() == [] || z.codec.complete(z.fed))
      modifies this`crc, this`resumeBuffer, this`accepted, this`spent, z, ds
      ensures Valid() && ds.over == old(ds.over) && accepted == old(accepted) + buffer && (!old(spent) ==> !spent)
      ensures z.bad ==> state.Error?
      ensures state.Complete? ==> AllSent() && resumeBuffer.None?
      ensures state.Incomplete? ==> ds.paused || (AllSent() && z.codec.complete(z.fed))
      ensures !z.bad && ds.paused && |ds.received| > |old(ds.received)| ==> state.Incomplete?
      ensures !z.bad ==>
        LastRound(old(ds.received), buffer, last, rounds) && (state.Error? <==> Exhausted(z.codec, last))
      ensures !z.bad && state.Error? ==> AllSent()
      ensures !z.bad && !(ds.paused && |ds.received| > |old(ds.received)|)
              && (buffer == [] || LastAdds(z.codec, accepted)) ==>
        (state.Error? <==> Fills(old(ds.received)))
    {
      accepted := accepted + buffer;
      if z.bad { return Error, Moment([], [], []), 0; }
      NewInput(z.codec, z.fed, Held(), old(accepted), buffer);
      ghost var held := Held();
      var outcome;
      outcome, last, rounds := Pump(buffer);
      if !z.bad { KeptAsBefore(z.codec, z.fed, held, accepted); }
      state := if outcome.Refused? then Error else if outcome.Drained? then Complete else Incomplete;
    }

    /**
     The reader goes on; `ready` says that the writer is told to go on too. When the kept input turns out to fill
     its buffers exactly, valid as it is, the reader's stream is ended; such a reader is not resumed again.
     */
    method Resume() returns (ready: bool, ghost last: Moment, ghost rounds: nat)
      requires Valid() && !spent
      modifies this`crc, this`resumeBuffer, this`spent, z, ds
      ensures Valid() && accepted == old(accepted)
      ensures old(resumeBuffer).None? ==>
        ready && ds.received == old(ds.received) && z.emitted == old(z.emitted) && ds.over == old(ds.over) && !spent
      ensures old(resumeBuffer).None? && !z.bad ==> (AllSent() <==> z.emitted == |z.codec.decode(z.fed)|)
      ensures old(resumeBuffer).Some? ==> (ds.over <==> old(ds.over) || spent || z.bad)
      ensures old(resumeBuffer).Some? && ready ==> AllSent() && resumeBuffer.None?
      ensures old(resumeBuffer).Some? && !z.bad && !ready ==>
        (ds.paused && |ds.received| > |old(ds.received)|) || (AllSent() && (spent || z.codec.complete(z.fed)))
      ensures old(resumeBuffer).Some? && !z.bad ==>
        LastRound(old(ds.received), old(resumeBuffer).value, last, rounds) && (spent <==> Exhausted(z.codec, last))
      ensures old(resumeBuffer).Some? && !z.bad && !(ds.paused && |ds.received| > |old(ds.received)|)
              && LastAdds(z.codec, accepted) ==>
        (spent <==> Fills(old(ds.received)))
    {
      ready, last, rounds := true, Moment([], [], []), 0;
      if resumeBuffer.None? {
        if !z.bad { AllDecoded(z.codec, z.fed, [], accepted); }
      } else {
        ready, last, rounds := ResumeKept();
      }
    }

    method ResumeKept() returns (ready: bool, ghost last: Moment, ghost rounds: nat)
      requires Valid() && !spent && resumeBuffer.Some?
      modifies this`crc, this`resumeBuffer, this`spent, z, ds
      ensures Valid() && accepted == old(accepted)
      ensures ds.over <==> old(ds.over) || spent || z.bad
      ensures ready ==> AllSent() && resumeBuffer.None?
      ensures !z.bad && !ready ==>
        (ds.paused && |ds.received| > |old(ds.received)|) || (AllSent() && (spent || z.codec.complete(z.fed)))
      ensures !z.bad ==>
        LastRound(old(ds.received), old(resumeBuffer).value, last, rounds) && (spent <==> Exhausted(z.codec, last))
      ensures !z.bad && !(ds.paused && |ds.received| > |old(ds.received)|) && LastAdds(z.codec, accepted) ==>
        (spent <==> Fills(old(ds.received)))
    {
      ready, last, rounds := false, Moment([], [], []), 0;
      if z.bad {
        ds.WriteEnd();
        return;
      }
      var outcome;
      outcome, last, rounds := Pump(resumeBuffer.value);
      if outcome.Refused? {
        ds.WriteEnd();
        spent := !z.bad;
      }
      if outcome.Ended? { assert Conserved(z.codec, z.fed, Held(), accepted); }
      ready := outcome.Drained?;
    }

    /** What is left in the codec goes out if the compressed stream is over and it fits in one buffer. */
    ghost predicate Flushes()
      reads this, z
    {
      !z.bad && z.codec.complete(z.fed) && |z.codec.decode(z.fed)| - z.emitted <= CHUNK
    }

    /** The end of the input: what is kept is dropped, and what the codec cannot finish with is too. */
    method End()
      requires Valid()
      modifies this`crc, z, ds
      ensures ds.over && crc == Crc(table, 0, ds.received) && accepted == old(accepted)
      ensures ds.received ==
        if old(Flushes()) then old(z.codec.decode(z.fed)) else old(ds.received)
      ensures old(!z.bad) ==>
        (AllSent() <==>
          && old(z.codec.decode(z.fed)) == z.codec.decode(accepted)
          && old(z.emitted == |z.codec.decode(z.fed)| || Flushes()))
    {
      ghost var decoded, emitted := z.codec.decode(z.fed), z.emitted;
      if !z.bad { WithinAccepted(z.codec, z.fed, Held(), accepted); }
      ghost var first := true;
      while true
        invariant z.Valid() && Lawful(z.codec) && accepted == old(accepted)
        invariant crc == Crc(table, 0, ds.received)
        invariant first ==>
          z.fed == old(z.fed) && z.emitted == emitted && z.bad == old(z.bad) && ds.received == old(ds.received)
        invariant !first ==>
          && old(Flushes()) && !z.bad && z.codec.decode(z.fed) == decoded
          && z.emitted == |decoded| && ds.received == decoded
        decreases first
      {
        var code, used, out := z.Inflate([], true);
        if !code.Ok? && !code.StreamEnd? { break; }
        assert code.StreamEnd?;
        assert decoded == decoded[..emitted] + decoded[emitted..];
        if |out| > 0 {
          var res := Send(out);
        }
        if |out| < CHUNK { break; }
        first := false;
      }
      ds.WriteEnd();
    }
  }

  lemma KeptAsBefore(c: Codec, fed: seq<bv8>, kept: seq<bv8>, accepted: seq<bv8>)
    ensures Conserved(c, fed, [], accepted) && (kept == [] || c.complete(fed)) ==> Conserved(c, fed, kept, accepted)
  {
  }

  lemma NewInput(c: Codec, fed: seq<bv8>, kept: seq<bv8>, accepted: seq<bv8>, buffer: seq<bv8>)
    requires Conserved(c, fed, kept, accepted) && (kept == [] || c.complete(fed))
    ensures Conserved(c, fed, buffer, accepted + buffer)
  {
    if !c.complete(fed) { assert fed + kept == fed; }
  }

  /**
   At any time, what is sent and what is still held decode to what was accepted; and the CRC is that of what is sent.
   */
  lemma AcceptedIsSentOrHeld(d: DeCompressor)
    requires d.Valid() && !d.z.bad
    ensures var held := d.z.fed + d.Held();
      && |d.ds.received| <= |d.z.codec.decode(held)|
      && d.ds.received + d.z.codec.decode(held)[|d.ds.received|..] == d.z.codec.decode(d.accepted)
      && d.crc == Crc(d.table, 0, d.ds.received)
  {
    NothingIsLost(d.z.codec, d.z.fed, d.Held(), d.accepted, d.z.emitted);
  }

  // ----- Inputs that are reported as errors although nothing is wrong -----

  /** Stored data that never end. */
  function Stored(): Codec { Codec((x: seq<bv8>) => x, (x: seq<bv8>) => false, (x: seq<bv8>) => true) }

  lemma StoredIsLawful()
    ensures Lawful(Stored())
  {
    forall a: seq<bv8>, x: bv8 ensures Extends(Stored(), a, x) {
      assert a <= a + [x];
    }
  }

  lemma StoredAdds(accepted: seq<bv8>)
    requires accepted != []
    ensures LastAdds(Stored(), accepted)
  {
    assert |accepted[..|accepted| - 1]| < |accepted|;
  }

  /** A write of nothing. */
  method EmptyWriteFails(table: Table) returns (state: DoneState)
    ensures state.Error?
  {
    StoredIsLawful();
    var d := new DeCompressor(Stored(), table);
    ghost var last, rounds;
    state, last, rounds := d.Write([]);
    if !d.z.bad { AcceptedIsSentOrHeld(d); }
  }

  /** A write that fills the buffer, to a reader that does not pause. */
  method ExactFillFails(octets: seq<bv8>, table: Table) returns (state: DoneState, paused: bool)
    requires |octets| == CHUNK
    ensures !paused ==> state.Error?
  {
    StoredIsLawful();
    StoredAdds(octets);
    var d := new DeCompressor(Stored(), table);
    ghost var last, rounds;
    state, last, rounds := d.Write(octets);
    paused := d.ds.paused;
    assert [] + octets == octets;
  }

  /** A reader that pauses after the first of two buffers, and goes on: its stream is ended. */
  method ResumeEndsTheStream(octets: seq<bv8>, table: Table) returns (kept: bool, paused: bool, over: bool)
    requires |octets| == 2 * CHUNK
    ensures kept && !paused ==> over
  {
    StoredIsLawful();
    StoredAdds(octets);
    var d := new DeCompressor(Stored(), table);
    ghost var last, rounds;
    var state, ready;
    state, last, rounds := d.Write(octets);
    assert [] + octets == octets;
    kept := d.resumeBuffer.Some? && |d.ds.received| == CHUNK;
    paused, over := false, false;
    if kept {
      ready, last, rounds := d.Resume();
      paused, over := d.ds.paused, d.ds.over;
    }
  }

  /** A reader that pauses in the same way, and a writer that ends: what was kept is never sent. */
  method EndDropsWhatIsKept(octets: seq<bv8>, table: Table) returns (kept: bool, sent: seq<bv8>)
    requires |octets| == 2 * CHUNK
    ensures kept ==> sent == octets[..CHUNK]
  {
    StoredIsLawful();
    var d := new DeCompressor(Stored(), table);
    ghost var last, rounds;
    var state;
    state, last, rounds := d.Write(octets);
    assert [] + octets == octets;
    kept := state.Incomplete? && d.resumeBuffer.Some? && |d.ds.received| == CHUNK;
    if kept {
      AcceptedIsSentOrHeld(d);
      d.End();
    }
    sent := d.ds.received;
  }
}
