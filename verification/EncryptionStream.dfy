/**
 A pair of streams, one clear and one encrypted, joined by AES in counter mode (section 6.5 of NIST SP 800-38A):
 what is written to one end comes out of the other, in chunks of 4096 octets.
 */
module EncryptionStream {
  import opened Common
  import opened DuplexStream

  const CHUNK: nat := 4096
  const BLOCK: nat := 16
  const COUNTERS: nat := 0x1_0000_0000_0000_0000_0000_0000_0000_0000

  /** The block cipher under some key: it turns a counter into a block of key stream. */
  type Cipher = nat -> seq<bv8>

  datatype Key = Key(cipher: Cipher, iv: nat)

  datatype DoneState = Complete | Incomplete

  // ----- Specification -----

  /** The octets to combine with the data, by position. */
  type Octets = nat -> bv8

  /** The key stream of counter mode: the counter starts at the initial value and counts blocks. */
  function KeyStream(k: Key): Octets {
    (p: nat) =>
      var block := k.cipher((k.iv + p / BLOCK) % COUNTERS);
      if p % BLOCK < |block| then block[p % BLOCK] else 0
  }

  function Mix(a: bv8, x: bv8): bv8 { a ^ x }

  /** `data` combined with the key stream from position `p` on. */
  function Crypt(k: Octets, p: nat, data: seq<bv8>): (r: seq<bv8>)
    ensures |r| == |data|
    decreases |data|
  {
    if data == [] then [] else [Mix(data[0], k(p))] + Crypt(k, p + 1, data[1..])
  }

  lemma {:induction false} CryptAt(k: Octets, p: nat, data: seq<bv8>, i: nat)
    requires i < |data|
    ensures Crypt(k, p, data)[i] == Mix(data[i], k(p + i))
    decreases |data|
  {
    if i > 0 { CryptAt(k, p + 1, data[1..], i - 1); }
  }

  lemma {:induction false} CryptSplits(k: Octets, p: nat, a: seq<bv8>, b: seq<bv8>)
    ensures Crypt(k, p, a + b) == Crypt(k, p, a) + Crypt(k, p + |a|, b)
    decreases |a|
  {
    if a == [] {
      assert a + b == b;
    } else {
      var rest := a[1..];
      CryptSplits(k, p + 1, rest, b);
      CryptCons(k, p, a[0], rest);
      CryptCons(k, p, a[0], rest + b);
      assert a == [a[0]] + rest && a + b == [a[0]] + (rest + b);
      Regroup([Mix(a[0], k(p))], Crypt(k, p + 1, rest), Crypt(k, p + |a|, b));
    }
  }

  lemma CryptCons(k: Octets, p: nat, x: bv8, rest: seq<bv8>)
    ensures Crypt(k, p, [x] + rest) == [Mix(x, k(p))] + Crypt(k, p + 1, rest)
  {
    assert ([x] + rest)[1..] == rest;
  }

  lemma Regroup(a: seq<bv8>, b: seq<bv8>, c: seq<bv8>)
    ensures a + (b + c) == a + b + c
  {
  }

  /** What comes out when `parts` are written one after another. */
  function CryptAll(k: Octets, p: nat, parts: seq<seq<bv8>>): seq<seq<bv8>>
    decreases |parts|
  {
    if parts == [] then [] else [Crypt(k, p, parts[0])] + CryptAll(k, p + |parts[0]|, parts[1..])
  }

  /** How the data are cut into writes does not show in what comes out. */
  lemma {:induction false} FragmentationIsInvisible(k: Octets, p: nat, parts: seq<seq<bv8>>)
    ensures Concat(CryptAll(k, p, parts)) == Crypt(k, p, Concat(parts))
    decreases |parts|
  {
    if parts != [] {
      FragmentationIsInvisible(k, p + |parts[0]|, parts[1..]);
      CryptSplits(k, p, parts[0], Concat(parts[1..]));
    }
  }

  lemma MixTwice(a: bv8, x: bv8)
    ensures Mix(Mix(a, x), x) == a
  {
  }

  lemma MixSame(a: bv8, x: bv8, y: bv8)
    requires Mix(Mix(a, x), y) == a
    ensures x == y
  {
    assert a ^ ((a ^ x) ^ y) == x ^ y;
  }

  /**
   What the sender wrote comes out at the receiver, whatever the writes at the clear end, and whatever way the
   ciphertext is cut on its way: any part of it that has arrived gives the same part of the clear text.
   */
  lemma RoundTrip(k: Octets, p: nat, writes: seq<seq<bv8>>, arrived: seq<seq<bv8>>)
    requires Concat(arrived) <= Concat(CryptAll(k, p, writes))
    ensures |Concat(CryptAll(k, p, arrived))| == |Concat(arrived)|
    ensures Concat(CryptAll(k, p, arrived)) <= Concat(writes)
  {
    FragmentationIsInvisible(k, p, writes);
    FragmentationIsInvisible(k, p, arrived);
    CryptBack(k, p, Concat(writes), Concat(arrived));
  }

  lemma CryptBack(k: Octets, p: nat, clear: seq<bv8>, part: seq<bv8>)
    requires part <= Crypt(k, p, clear)
    ensures Crypt(k, p, part) <= clear
  {
    forall i | 0 <= i < |part| ensures Crypt(k, p, part)[i] == clear[i] {
      CryptAt(k, p, part, i);
      CryptAt(k, p, clear, i);
      MixTwice(clear[i], k(p + i));
    }
  }

  predicate SameAt(k: Octets, p: nat, other: Octets, q: nat, i: nat) { k(p + i) == other(q + i) }

  /** Two ends understand each other on `data` exactly when their key streams agree where the data lie. */
  lemma UnderstoodIff(k: Octets, p: nat, other: Octets, q: nat, data: seq<bv8>)
    ensures Crypt(other, q, Crypt(k, p, data)) == data <==>
            forall i :: 0 <= i < |data| ==> SameAt(k, p, other, q, i)
  {
    var back := Crypt(other, q, Crypt(k, p, data));
    forall i | 0 <= i < |data| ensures back[i] == data[i] <==> SameAt(k, p, other, q, i) {
      UnderstoodAt(k, p, other, q, data, i);
    }
  }

  lemma UnderstoodAt(k: Octets, p: nat, other: Octets, q: nat, data: seq<bv8>, i: nat)
    requires i < |data|
    ensures Crypt(other, q, Crypt(k, p, data))[i] == data[i] <==> SameAt(k, p, other, q, i)
  {
    var x, y := k(p + i), other(q + i);
    CryptAt(k, p, data, i);
    CryptAt(other, q, Crypt(k, p, data), i);
    if x == y {
      MixTwice(data[i], x);
    } else if Mix(Mix(data[i], x), y) == data[i] {
      MixSame(data[i], x, y);
    }
  }

  // ----- Counter mode, block by block -----

  /** The blocks that the cipher makes of `n` counters from `counter` on, which wrap round after 2^128. */
  function Blocks(cipher: Cipher, counter: nat, n: nat): seq<bv8>
    decreases n
  {
    if n == 0 then []
    else cipher(counter % 0x1_0000_0000_0000_0000_0000_0000_0000_0000) + Blocks(cipher, counter + 1, n - 1)
  }

  ghost predicate FullBlocks(cipher: Cipher) { forall counter :: |cipher(counter)| == 16 }

  lemma {:induction false} BlocksAt(cipher: Cipher, counter: nat, n: nat, q: nat, r: nat)
    requires FullBlocks(cipher) && q < n && r < 16
    ensures |Blocks(cipher, counter, n)| == 16 * n
    ensures Blocks(cipher, counter, n)[16 * q + r] ==
            cipher((counter + q) % 0x1_0000_0000_0000_0000_0000_0000_0000_0000)[r]
    decreases n
  {
    if n > 1 { BlocksAt(cipher, counter + 1, n - 1, if q > 0 then q - 1 else 0, r); }
  }

  lemma {:induction false} BlocksLength(cipher: Cipher, counter: nat, n: nat)
    requires FullBlocks(cipher)
    ensures |Blocks(cipher, counter, n)| == 16 * n
    decreases n
  {
    if n > 0 { BlocksLength(cipher, counter + 1, n - 1); }
  }

  lemma KeyStreamAt(key: Key, n: nat, p: nat)
    requires FullBlocks(key.cipher) && p < 16 * n
    ensures |Blocks(key.cipher, key.iv, n)| == 16 * n && KeyStream(key)(p) == Blocks(key.cipher, key.iv, n)[p]
  {
    var q, r := p / 16, p % 16;
    BlocksAt(key.cipher, key.iv, n, q, r);
    assert p == 16 * q + r;
  }

  /** What is encrypted is the data combined bit by bit with those blocks. */
  lemma CounterMode(key: Key, data: seq<bv8>, n: nat)
    requires FullBlocks(key.cipher) && |data| <= 16 * n
    ensures |Blocks(key.cipher, key.iv, n)| == 16 * n
    ensures forall i :: 0 <= i < |data| ==>
      Crypt(KeyStream(key), 0, data)[i] == data[i] ^ Blocks(key.cipher, key.iv, n)[i]
  {
    BlocksLength(key.cipher, key.iv, n);
    forall i | 0 <= i < |data|
      ensures Crypt(KeyStream(key), 0, data)[i] == data[i] ^ Blocks(key.cipher, key.iv, n)[i]
    {
      CryptAt(KeyStream(key), 0, data, i);
      KeyStreamAt(key, n, i);
    }
  }

  /** So of zeros, those blocks themselves. */
  lemma ZerosGiveTheBlocks(key: Key, n: nat)
    requires FullBlocks(key.cipher)
    ensures Crypt(KeyStream(key), 0, Repeat(16 * n, 0)) == Blocks(key.cipher, key.iv, n)
  {
    CounterMode(key, Repeat(16 * n, 0), n);
  }

  // ----- The streams -----

  /** A cipher context: it goes on where the last update stopped. */
  class CipherContext {
    const octets: Octets
    var pos: nat

    constructor (octets: Octets)
      ensures this.octets == octets && pos == 0
    {
      this.octets, pos := octets, 0;
    }

    method Update(data: seq<bv8>) returns (out: seq<bv8>)
      modifies this
      ensures out == Crypt(octets, old(pos), data) && pos == old(pos) + |data|
    {
      out := Crypt(octets, pos, data);
      pos := pos + |data|;
    }
  }

  method WriteSink(ctx: CipherContext, out: Readable, buffer: seq<bv8>) returns (state: DoneState)
    modifies ctx, out
    ensures ctx.pos == old(ctx.pos) + |buffer| && out.over == old(out.over)
    ensures out.received == old(out.received) + Crypt(ctx.octets, old(ctx.pos), buffer)
    ensures buffer == [] ==> out.paused == old(out.paused)
    ensures state.Incomplete? <==> buffer != [] && out.paused
  {
    var i, result := 0, 0;
    ghost var start, before := ctx.pos, out.received;
    ghost var done, sofar := 0, [];
    while i < |buffer|
      invariant 0 <= i && done == if i < |buffer| then i else |buffer|
      invariant ctx.pos == start + done && out.over == old(out.over)
      invariant sofar == Crypt(ctx.octets, start, buffer[..done]) && out.received == before + sofar
      invariant i == 0 ==> result == 0 && out.paused == old(out.paused)
      invariant i > 0 ==> |buffer| > 0 && result == if out.paused then 1 else 0
    {
      var n := if |buffer| - i > CHUNK then CHUNK else |buffer| - i;
      var data := ctx.Update(buffer[i..i + n]);
      NextChunk(ctx.octets, start, buffer, i, n);
      result := out.WriteData(data);
      assert before + sofar + data == before + (sofar + data);
      i, done, sofar := i + CHUNK, done + n, sofar + data;
    }
    assert buffer[..done] == buffer;
    state := if result == 0 then Complete else Incomplete;
  }

  lemma NextChunk(k: Octets, p: nat, buffer: seq<bv8>, i: nat, n: nat)
    requires i + n <= |buffer|
    ensures Crypt(k, p, buffer[..i + n]) == Crypt(k, p, buffer[..i]) + Crypt(k, p + i, buffer[i..i + n])
  {
    CryptSplits(k, p, buffer[..i], buffer[i..i + n]);
    assert buffer[..i] + buffer[i..i + n] == buffer[..i + n];
  }

  class Stream {
    const octets: Octets
    const encrypted: Readable
    const clear: Readable
    const encryptedCtx: CipherContext
    const decryptedCtx: CipherContext
    ghost var clearWrites: seq<seq<bv8>>
    ghost var encryptedWrites: seq<seq<bv8>>

    ghost predicate Valid()
      reads this, encrypted, clear, encryptedCtx, decryptedCtx
    {
      && encrypted != clear && encryptedCtx != decryptedCtx
      && encryptedCtx.octets == octets && decryptedCtx.octets == octets
      && encryptedCtx.pos == |Concat(clearWrites)| && decryptedCtx.pos == |Concat(encryptedWrites)|
      && encrypted.received == Crypt(octets, 0, Concat(clearWrites))
      && clear.received == Crypt(octets, 0, Concat(encryptedWrites))
    }

    constructor (key: Key)
      ensures Valid() && octets == KeyStream(key) && clearWrites == [] && encryptedWrites == []
      ensures fresh(encrypted) && fresh(clear) && fresh(encryptedCtx) && fresh(decryptedCtx)
    {
      octets := KeyStream(key);
      encrypted := new Readable();
      clear := new Readable();
      encryptedCtx := new CipherContext(KeyStream(key));
      decryptedCtx := new CipherContext(KeyStream(key));
      clearWrites, encryptedWrites := [], [];
    }

    /** Clear data written come out encrypted. */
    method DecryptedWrite(buffer: seq<bv8>) returns (state: DoneState)
      requires Valid()
      modifies this`clearWrites, encryptedCtx, encrypted
      ensures Valid() && clearWrites == old(clearWrites) + [buffer]
      ensures encrypted.received == old(encrypted.received) + Crypt(octets, |Concat(old(clearWrites))|, buffer)
      ensures state.Incomplete? <==> buffer != [] && encrypted.paused
    {
      state := WriteSink(encryptedCtx, encrypted, buffer);
      Appended(octets, clearWrites, buffer);
      clearWrites := clearWrites + [buffer];
    }

    /** Encrypted data written come out in clear. */
    method EncryptedWrite(buffer: seq<bv8>) returns (state: DoneState)
      requires Valid()
      modifies this`encryptedWrites, decryptedCtx, clear
      ensures Valid() && encryptedWrites == old(encryptedWrites) + [buffer]
      ensures clear.received == old(clear.received) + Crypt(octets, |Concat(old(encryptedWrites))|, buffer)
      ensures state.Incomplete? <==> buffer != [] && clear.paused
    {
      state := WriteSink(decryptedCtx, clear, buffer);
      Appended(octets, encryptedWrites, buffer);
      encryptedWrites := encryptedWrites + [buffer];
    }
  }

  lemma Appended(k: Octets, writes: seq<seq<bv8>>, buffer: seq<bv8>)
    ensures |Concat(writes + [buffer])| == |Concat(writes)| + |buffer|
    ensures Crypt(k, 0, Concat(writes + [buffer])) ==
            Crypt(k, 0, Concat(writes)) + Crypt(k, |Concat(writes)|, buffer)
  {
    ConcatOne(writes, buffer);
    CryptSplits(k, 0, Concat(writes), buffer);
  }

  /** In every run the encrypted side has received all that was written, in counter mode under its key. */
  lemma ReceivedInCounterMode(s: Stream, key: Key, n: nat)
    requires s.Valid() && s.octets == KeyStream(key) && FullBlocks(key.cipher)
    requires |Concat(s.clearWrites)| <= 16 * n
    ensures |Blocks(key.cipher, key.iv, n)| == 16 * n && |s.encrypted.received| == |Concat(s.clearWrites)|
    ensures forall i :: 0 <= i < |s.encrypted.received| ==>
      s.encrypted.received[i] == Concat(s.clearWrites)[i] ^ Blocks(key.cipher, key.iv, n)[i]
  {
    CounterMode(key, Concat(s.clearWrites), n);
  }

  method EncryptOnce(key: Key, data: seq<bv8>) returns (sent: seq<bv8>)
    requires FullBlocks(key.cipher)
    ensures |sent| == |data| <= |Blocks(key.cipher, key.iv, |data| / 16 + 1)|
    ensures forall i :: 0 <= i < |data| ==> sent[i] == data[i] ^ Blocks(key.cipher, key.iv, |data| / 16 + 1)[i]
  {
    var s := new Stream(key);
    var state := s.DecryptedWrite(data);
    ConcatOne([], data);
    assert [] + [data] == [data] && [] + data == data;
    ReceivedInCounterMode(s, key, |data| / 16 + 1);
    sent := s.encrypted.received;
  }

  /** The link between two streams with the same key: whatever reached one end is what was written at the other. */
  lemma LinkedStreams(sender: Stream, receiver: Stream)
    requires sender.Valid() && receiver.Valid() && sender.octets == receiver.octets
    requires Concat(receiver.encryptedWrites) <= sender.encrypted.received
    ensures receiver.clear.received <= Concat(sender.clearWrites)
    ensures |receiver.clear.received| == |Concat(receiver.encryptedWrites)|
  {
    FragmentationIsInvisible(sender.octets, 0, sender.clearWrites);
    FragmentationIsInvisible(sender.octets, 0, receiver.encryptedWrites);
    RoundTrip(sender.octets, 0, sender.clearWrites, receiver.encryptedWrites);
  }
}
