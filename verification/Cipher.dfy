/** Copying a stream through a block cipher in counter mode (section 6.5 of NIST SP 800-38A). */
module Cipher {
  import opened Types
  import opened Chunking

  const BLOCK_SIZE: nat := 16

  /** The forward cipher function: key and input block to output block. */
  type BlockCipher = (Bytes, Bytes) -> Bytes

  ghost predicate FullBlocks(cipher: BlockCipher) {
    forall key, block :: |cipher(key, block)| == BLOCK_SIZE
  }

  predicate KeySizeOk(key: Bytes) {
    |key| == 16 || |key| == 24 || |key| == 32
  }

  // ----- Counter mode -----

  /** The standard incrementing function on a whole block: plus one, big-endian, modulo 2^8|c|. */
  function Increment(c: Bytes): (r: Bytes)
    ensures |r| == |c|
  {
    if c == [] then []
    else
      var last := |c| - 1;
      if c[last] == 255 then Increment(c[..last]) + [0] else c[..last] + [c[last] + 1]
  }

  function Value(c: Bytes): nat {
    if c == [] then 0 else 256 * Value(c[..|c| - 1]) + c[|c| - 1] as nat
  }

  function Limit(n: nat): nat {
    if n == 0 then 1 else 256 * Limit(n - 1)
  }

  lemma {:induction false} ValueBound(c: Bytes)
    ensures Value(c) < Limit(|c|)
  {
    if c != [] { ValueBound(c[..|c| - 1]); }
  }

  /** Incrementing a counter block adds one to its value and wraps around at the end. */
  lemma {:induction false} IncrementAddsOne(c: Bytes)
    ensures Value(Increment(c)) == if Value(c) + 1 == Limit(|c|) then 0 else Value(c) + 1
  {
    hide Value;
    if c == [] {
      ValueEmpty();
    } else {
      var (front, b) := (c[..|c| - 1], c[|c| - 1]);
      assert c == front + [b];
      ValueSnoc(front, b);
      ValueBound(front);
      ByteUp(b);
      if b == 255 {
        IncrementAddsOne(front);
        ValueSnoc(Increment(front), 0);
      } else {
        ValueSnoc(front, b + 1);
      }
    }
  }

  lemma ValueEmpty()
    ensures Value([]) == 0
  {
  }

  lemma ValueSnoc(c: Bytes, b: bv8)
    ensures Value(c + [b]) == 256 * Value(c) + b as nat
  {
    assert (c + [b])[..|c|] == c;
  }

  lemma ByteUp(b: bv8)
    ensures b == 255 ==> b as nat == 255
    ensures b != 255 ==> (b + 1) as nat == b as nat + 1 <= 255
  {
  }

  /** Counter block n of a message. */
  function Counter(iv: Bytes, n: nat): Bytes {
    if n == 0 then iv else Increment(Counter(iv, n - 1))
  }

  lemma BigEndian()
    ensures Value([0, 1]) == 1 && Value([1, 0]) == 256
  {
    assert [0, 1] == [0] + [1] && [1, 0] == [1] + [0] && [0] == [] + [0] && [1] == [] + [1];
    ValueSnoc([], 0);
    ValueSnoc([], 1);
    ValueSnoc([0], 1);
    ValueSnoc([1], 0);
  }

  lemma BlockLimit()
    ensures Limit(16) == 0x1_0000_0000_0000_0000_0000_0000_0000_0000
  {
    assert Limit(4) == 0x1_0000_0000;
    assert Limit(8) == 0x1_0000_0000 * Limit(4);
    assert Limit(12) == 0x1_0000_0000 * Limit(8);
    assert Limit(16) == 0x1_0000_0000 * Limit(12);
  }

  /** Counter block n is the initialization vector plus n, as a big-endian number modulo 2^128. */
  lemma {:induction false} CounterValue(iv: Bytes, n: nat)
    requires |iv| == 16
    ensures |Counter(iv, n)| == 16
    ensures Value(Counter(iv, n)) == (Value(iv) + n) % 0x1_0000_0000_0000_0000_0000_0000_0000_0000
  {
    hide Increment, Value, Limit;
    BlockLimit();
    if n == 0 {
      ValueBound(iv);
    } else {
      CounterValue(iv, n - 1);
      IncrementAddsOne(Counter(iv, n - 1));
    }
  }

  lemma {:induction false} ValueInjective(c: Bytes, d: Bytes)
    requires |c| == |d| && Value(c) == Value(d)
    ensures c == d
  {
    hide Value;
    if c != [] {
      var (x, y, a, b) := (c[..|c| - 1], d[..|d| - 1], c[|c| - 1], d[|d| - 1]);
      assert c == x + [a] && d == y + [b];
      ValueSnoc(x, a);
      ValueSnoc(y, b);
      ByteRange(a);
      ByteRange(b);
      SplitLast(Value(x), a as nat, Value(y), b as nat);
      SameByte(a, b);
      ValueInjective(x, y);
    }
  }

  lemma SplitLast(u: nat, a: nat, v: nat, b: nat)
    requires 256 * u + a == 256 * v + b && a < 256 && b < 256
    ensures u == v && a == b
  {
  }

  lemma ByteRange(b: bv8)
    ensures 0 <= b as nat < 256
  {
  }

  lemma SameByte(a: bv8, b: bv8)
    requires a as nat == b as nat
    ensures a == b
  {
  }

  /**
   * out is data in counter mode: byte j is combined with byte j % 16 of the cipher of the 16-byte block whose value
   * is that of the initialization vector plus j / 16, modulo 2^128.
   */
  ghost predicate InCounterMode(cipher: BlockCipher, key: Bytes, iv: Bytes, data: Bytes, out: Bytes)
    requires FullBlocks(cipher)
  {
    && |out| == |data|
    && forall j, c: Bytes ::
         0 <= j < |data| && |c| == 16
         && Value(c) == (Value(iv) + j / 16) % 0x1_0000_0000_0000_0000_0000_0000_0000_0000 ==>
           out[j] == data[j] ^ cipher(key, c)[j % 16]
  }

  lemma XoredInCounterMode(cipher: BlockCipher, key: Bytes, iv: Bytes, data: Bytes)
    requires FullBlocks(cipher) && |iv| == 16
    ensures InCounterMode(cipher, key, iv, data, Xored(cipher, key, iv, 0, data))
  {
    hide Counter, Value;
    forall j, c: Bytes | 0 <= j < |data| && |c| == 16
                         && Value(c) == (Value(iv) + j / 16) % 0x1_0000_0000_0000_0000_0000_0000_0000_0000
      ensures Xored(cipher, key, iv, 0, data)[j] == data[j] ^ cipher(key, c)[j % 16]
    {
      CounterValue(iv, j / 16);
      ValueInjective(c, Counter(iv, j / 16));
    }
  }

  function KeyByte(cipher: BlockCipher, key: Bytes, iv: Bytes, i: nat): bv8
    requires FullBlocks(cipher)
  {
    cipher(key, Counter(iv, i / BLOCK_SIZE))[i % BLOCK_SIZE]
  }

  /** data, starting at byte pos of the message, combined with the key stream. */
  function Xored(cipher: BlockCipher, key: Bytes, iv: Bytes, pos: nat, data: Bytes): (r: Bytes)
    requires FullBlocks(cipher)
    ensures |r| == |data|
  {
    seq(|data|, j requires 0 <= j < |data| => data[j] ^ KeyByte(cipher, key, iv, pos + j))
  }

  /** Combining in two parts is combining at once. */
  lemma XoredParts(cipher: BlockCipher, key: Bytes, iv: Bytes, pos: nat, a: Bytes, b: Bytes)
    requires FullBlocks(cipher)
    ensures Xored(cipher, key, iv, pos, a + b) == Xored(cipher, key, iv, pos, a) + Xored(cipher, key, iv, pos + |a|, b)
  {
    hide KeyByte;
  }

  lemma XorTwice(a: bv8, b: bv8)
    ensures (a ^ b) ^ b == a
  {
  }

  /** The same key stream undoes itself. */
  lemma XoredTwice(cipher: BlockCipher, key: Bytes, iv: Bytes, pos: nat, data: Bytes)
    requires FullBlocks(cipher)
    ensures Xored(cipher, key, iv, pos, Xored(cipher, key, iv, pos, data)) == data
  {
    hide KeyByte;
    forall j | 0 <= j < |data|
      ensures Xored(cipher, key, iv, pos, Xored(cipher, key, iv, pos, data))[j] == data[j]
    {
      XorTwice(data[j], KeyByte(cipher, key, iv, pos + j));
    }
  }

  /** Byte number BLOCK_SIZE * block + used of the key stream, without division. */
  lemma KeyByteAt(cipher: BlockCipher, key: Bytes, iv: Bytes, block: nat, used: nat)
    requires FullBlocks(cipher) && used < BLOCK_SIZE
    ensures KeyByte(cipher, key, iv, BLOCK_SIZE * block + used) == cipher(key, Counter(iv, block))[used]
  {
    hide Counter, FullBlocks;
    assert (BLOCK_SIZE * block + used) / BLOCK_SIZE == block;
    assert (BLOCK_SIZE * block + used) % BLOCK_SIZE == used;
  }

  lemma NextCounter(iv: Bytes, block: nat)
    ensures Increment(Counter(iv, block)) == Counter(iv, block + 1)
  {
  }

  /** A counter mode stream: the next counter block, and what is left of the last output block. */
  class CtrStream {
    const cipher: BlockCipher
    const key: Bytes
    const iv: Bytes
    var counter: Bytes
    var unused: Bytes
    ghost var pos: nat
    ghost var block: nat
    ghost var used: nat

    ghost predicate Valid()
      reads this
    {
      FullBlocks(cipher) && Aligned()
    }

    /** used bytes of output block number block are gone; a full block is not made before its first byte is wanted. */
    ghost predicate Aligned()
      reads this
      requires FullBlocks(cipher)
    {
      && pos == BLOCK_SIZE * block + used
      && used < BLOCK_SIZE
      && counter == Counter(iv, if used == 0 then block else block + 1)
      && unused == if used == 0 then [] else cipher(key, Counter(iv, block))[used..]
    }

    constructor (cipher: BlockCipher, key: Bytes, iv: Bytes)
      requires FullBlocks(cipher)
      ensures Valid() && pos == 0 && this.cipher == cipher && this.key == key && this.iv == iv
    {
      this.cipher, this.key, this.iv := cipher, key, iv;
      counter, unused := iv, [];
      pos, block, used := 0, 0, 0;
    }

    method NextByte() returns (b: bv8)
      requires Valid()
      modifies this
      ensures Valid() && pos == old(pos) + 1 && b == KeyByte(cipher, key, iv, old(pos))
    {
      hide Counter, Increment, KeyByte;
      NextCounter(iv, block);
      KeyByteAt(cipher, key, iv, block, used);
      if |unused| == 0 {
        unused := cipher(key, counter);
        counter := Increment(counter);
      }
      b := unused[0];
      unused := unused[1..];
      pos := pos + 1;
      if used + 1 < BLOCK_SIZE { used := used + 1; } else { block, used := block + 1, 0; }
    }

    method XorKeyStream(src: Bytes) returns (dst: Bytes)
      requires Valid()
      modifies this
      ensures Valid() && pos == old(pos) + |src| && dst == Xored(cipher, key, iv, old(pos), src)
    {
      hide KeyByte, CtrStream.Aligned;
      dst := [];
      for i := 0 to |src|
        invariant Valid() && pos == old(pos) + i && |dst| == i
        invariant forall j :: 0 <= j < i ==> dst[j] == src[j] ^ KeyByte(cipher, key, iv, old(pos) + j)
      {
        var b := NextByte();
        dst := dst + [src[i] ^ b];
      }
    }
  }

  // ----- Readers and writers -----

  /** A reader with bytes to come, the most that each coming Read call will deliver, and how it ends. */
  class Reader {
    var rest: Bytes
    var sizes: seq<nat>
    const end: ReadEnd

    constructor (data: Bytes, sizes: seq<nat>, end: ReadEnd)
      ensures rest == data && this.end == end
    {
      rest, this.sizes, this.end := data, sizes, end;
    }

    /** A Read call may deliver nothing, and may report the end together with the last bytes or after them. */
    method Read(max: nat) returns (data: Bytes, ended: bool)
      requires max > 0
      modifies this
      ensures old(rest) == data + rest && |data| <= max
      ensures ended ==> rest == []
      ensures !ended ==> |rest| + |sizes| < old(|rest| + |sizes|)
    {
      var n := Min(max, |rest|);
      if |sizes| > 0 {
        n := Min(n, sizes[0]);
      }
      ended := *;
      if |rest| > n {
        ended := false;
      } else if n == 0 && |sizes| == 0 {
        ended := true;
      }
      data, rest := rest[..n], rest[n..];
      if |sizes| > 0 {
        sizes := sizes[1..];
      }
    }
  }

  /** A writer that may fail after part of the bytes; an unreliable one need not even say so. */
  class Writer {
    var data: Bytes
    const reliable: bool

    constructor (reliable: bool)
      ensures data == [] && this.reliable == reliable
    {
      data, this.reliable := [], reliable;
    }

    method Write(b: Bytes) returns (n: nat, failed: bool)
      modifies this
      ensures n <= |b| && data == old(data) + b[..n]
      ensures reliable ==> !failed && n == |b|
    {
      n, failed := |b|, false;
      if !reliable {
        n := *;
        n := Min(n, |b|);
        failed := *;
      }
      data := data + b[..n];
    }
  }

  /** The error of a source that ended after got bytes, too early: an empty source is simply at its end. */
  function ShortRead(end: ReadEnd, got: nat): Error {
    if end.ReadFailed? then end.error else if got == 0 then ErrEof else ErrUnexpectedEof
  }

  /** Fills n bytes from a reader, however they come. */
  method ReadFull(src: Reader, n: nat) returns (r: Result<Bytes>)
    modifies src
    ensures r.Ok? <==> |old(src.rest)| >= n
    ensures r.Err? ==> r.error == ShortRead(src.end, |old(src.rest)|)
    ensures r.Err? && src.end.ReadFailed? ==> r.error == src.end.error
    ensures r.Err? && src.end.Eof? ==> r.error == if old(src.rest) == [] then ErrEof else ErrUnexpectedEof
    ensures r.Ok? ==> r.value == old(src.rest)[..n] && src.rest == old(src.rest)[n..]
  {
    var got: Bytes := [];
    while |got| < n
      invariant |got| <= n && got + src.rest == old(src.rest)
      decreases |src.rest| + |src.sizes|
    {
      var data, ended := src.Read(n - |got|);
      got := got + data;
      if ended && |got| < n {
        return Err(ShortRead(src.end, |got|));
      }
      if ended {
        break;
      }
    }
    r := Ok(got);
  }

  // ----- The copy loops -----

  /** Copies the rest of src through the stream; the count starts at blockSize for the initialization vector. */
  method CopyStream(stream: CtrStream, blockSize: nat, src: Reader, dst: Writer) returns (r: Result<nat>)
    requires stream.Valid()
    modifies stream, src, dst
    ensures stream.Valid()
    ensures r.Ok? ==>
      && r.value == blockSize + |old(src.rest)| && src.end.Eof? && src.rest == []
      && dst.data == old(dst.data) + Xored(stream.cipher, stream.key, stream.iv, old(stream.pos), old(src.rest))
    ensures dst.reliable ==> (r.Ok? <==> src.end.Eof?) && (r.Err? ==> r == Err(src.end.error))
  {
    hide Xored, CtrStream.Aligned;
    var nw := blockSize;
    ghost var (all, out, p, done) := (src.rest, dst.data, stream.pos, []);
    NoneXored(stream.cipher, stream.key, stream.iv, p);
    while true
      invariant stream.Valid() && done + src.rest == all && stream.pos == p + |done| && nw == blockSize + |done|
      invariant dst.data == out + Xored(stream.cipher, stream.key, stream.iv, p, done)
      decreases |src.rest| + |src.sizes|
    {
      var buf, ended := src.Read(BUFFER_SIZE);
      ghost var part := buf;
      XoredParts(stream.cipher, stream.key, stream.iv, p, done, part);
      assert done + (part + src.rest) == done + part + src.rest;
      if |buf| > 0 {
        buf := stream.XorKeyStream(buf);
        var nn, failed := dst.Write(buf);
        if failed {
          return Err(ErrIO);
        }
        if nn != |buf| {
          return Err(ErrShortWrite);
        }
        nw := nw + nn;
      }
      assert part == [] ==> done + part == done;
      done := done + part;
      if ended && src.end.Eof? {
        break;
      }
      if ended {
        return Err(src.end.error);
      }
    }
    assert done == all;
    r := Ok(nw);
  }

  lemma NoneXored(cipher: BlockCipher, key: Bytes, iv: Bytes, pos: nat)
    requires FullBlocks(cipher)
    ensures Xored(cipher, key, iv, pos, []) == []
  {
  }

  /** Writes the initialization vector and then the encrypted stream. iv is drawn at random by the program. */
  method CopyEncrypt(cipher: BlockCipher, key: Bytes, iv: Bytes, src: Reader, dst: Writer) returns (r: Result<nat>)
    requires FullBlocks(cipher) && |iv| == 16
    modifies src, dst
    ensures r.Ok? ==> |key| in {16, 24, 32} && r.value == 16 + |old(src.rest)|
    ensures dst.reliable ==> (r.Ok? <==> KeySizeOk(key) && src.end.Eof?)
    ensures dst.reliable && r.Ok? ==>
      exists out :: dst.data == old(dst.data) + iv + out && InCounterMode(cipher, key, iv, old(src.rest), out)
    ensures dst.reliable && r.Ok? ==> dst.data == old(dst.data) + iv + Xored(cipher, key, iv, 0, old(src.rest))
  {
    hide InCounterMode, Xored;
    if !KeySizeOk(key) {
      return Err(ErrKeySize);
    }
    var _, failed := dst.Write(iv);
    if failed {
      return Err(ErrIO);
    }
    var stream := new CtrStream(cipher, key, iv);
    XoredInCounterMode(cipher, key, iv, src.rest);
    r := CopyStream(stream, BLOCK_SIZE, src, dst);
  }

  /** Reads the initialization vector and then decrypts the rest. */
  method CopyDecrypt(cipher: BlockCipher, key: Bytes, src: Reader, dst: Writer) returns (r: Result<nat>)
    requires FullBlocks(cipher)
    modifies src, dst
    ensures r.Ok? ==>
      && KeySizeOk(key) && r.value == |old(src.rest)| >= BLOCK_SIZE
      && dst.data == old(dst.data) + Xored(cipher, key, old(src.rest)[..BLOCK_SIZE], 0, old(src.rest)[BLOCK_SIZE..])
      && exists out :: dst.data == old(dst.data) + out
                       && InCounterMode(cipher, key, old(src.rest)[..16], old(src.rest)[16..], out)
    ensures dst.reliable ==> (r.Ok? <==> KeySizeOk(key) && |old(src.rest)| >= BLOCK_SIZE && src.end.Eof?)
    ensures !KeySizeOk(key) ==> r == Err(ErrKeySize)
    ensures KeySizeOk(key) && |old(src.rest)| < BLOCK_SIZE ==> r == Err(ShortRead(src.end, |old(src.rest)|))
    ensures KeySizeOk(key) && |old(src.rest)| >= BLOCK_SIZE && dst.reliable && r.Err? ==> r == Err(src.end.error)
  {
    hide InCounterMode, Xored;
    if !KeySizeOk(key) {
      return Err(ErrKeySize);
    }
    var iv := ReadFull(src, BLOCK_SIZE);
    if iv.Err? {
      return Err(iv.error);
    }
    var stream := new CtrStream(cipher, key, iv.value);
    XoredInCounterMode(cipher, key, iv.value, src.rest);
    r := CopyStream(stream, BLOCK_SIZE, src, dst);
  }

  /** Decrypting what was encrypted gives the plaintext back, however either side's reads are split. */
  method CipherRoundTrip(
      cipher: BlockCipher, key: Bytes, iv: Bytes, plain: Bytes, sizes: seq<nat>, sizes': seq<nat>)
    returns (encrypted: nat, decrypted: nat, out: Bytes)
    requires FullBlocks(cipher) && |iv| == BLOCK_SIZE && KeySizeOk(key)
    ensures out == plain && encrypted == decrypted == 16 + |plain|
  {
    hide Xored;
    var src := new Reader(plain, sizes, Eof);
    var mid := new Writer(true);
    var n := CopyEncrypt(cipher, key, iv, src, mid);
    var back := new Reader(mid.data, sizes', Eof);
    var dst := new Writer(true);
    var m := CopyDecrypt(cipher, key, back, dst);
    XoredTwice(cipher, key, iv, 0, plain);
    assert mid.data[..BLOCK_SIZE] == iv && mid.data[BLOCK_SIZE..] == Xored(cipher, key, iv, 0, plain);
    return n.value, m.value, dst.data;
  }
}
