/** The streaming hash that validates cached DFAs: buffering and padding around an abstract compression function. */
module Digest {

  type Byte = b: int | 0 <= b < 256

  const BLOCK := 64
  const TWO_64 := 0x1_0000_0000_0000_0000

  /** The compression function applied block by block. */
  function Fold<S>(compress: (S, seq<Byte>) -> S, s: S, m: seq<Byte>): S
    requires |m| % BLOCK == 0
    decreases |m|
  {
    if m == [] then s else Fold(compress, compress(s, m[..BLOCK]), m[BLOCK..])
  }

  function Zeros(n: nat): (z: seq<Byte>)
    ensures |z| == n && forall i :: 0 <= i < n ==> z[i] == 0
  {
    seq(n, _ => 0)
  }

  /** The last n bytes of a number, most significant first. */
  function BigEndian(v: nat, n: nat): (r: seq<Byte>)
    ensures |r| == n
  {
    if n == 0 then [] else BigEndian(v / 256, n - 1) + [v % 256]
  }

  /** The least number of zero bytes that brings the end mark and them to 56 bytes past a whole block. */
  function PadLength(n: nat): (k: nat)
    ensures k < BLOCK && (n + 1 + k) % BLOCK == 56
  {
    if n % BLOCK < 56 then 55 - n % BLOCK else 119 - n % BLOCK
  }

  /** Padding of section 5.1.1 of FIPS 180-4; the length counts bits, modulo 2^64. */
  function Padding(n: nat): (p: seq<Byte>)
    ensures |p| == PadLength(n) + 9
  {
    [0x80] + Zeros(PadLength(n)) + BigEndian(8 * n % TWO_64, 8)
  }

  lemma Multiple(x: int, y: int)
    requires 0 <= y < BLOCK
    ensures (BLOCK * x + y) % BLOCK == y
  {}

  lemma PaddedLength(n: nat)
    ensures (n + (PadLength(n) + 9)) % BLOCK == 0
  {
    var q := n / BLOCK;
    if n % BLOCK < 56 {
      Multiple(q + 1, 0);
    } else {
      Multiple(q + 2, 0);
    }
  }

  function Padded(m: seq<Byte>): (r: seq<Byte>)
    ensures |r| % BLOCK == 0
  {
    PaddedLength(|m|);
    m + Padding(|m|)
  }

  lemma {:induction false} FoldJoins<S>(compress: (S, seq<Byte>) -> S, s: S, a: seq<Byte>, b: seq<Byte>)
    requires |a| % BLOCK == 0 && |b| % BLOCK == 0
    ensures Fold(compress, s, a + b) == Fold(compress, Fold(compress, s, a), b)
    decreases |a|
  {
    if a == [] {
      assert a + b == b;
    } else {
      assert (a + b)[..BLOCK] == a[..BLOCK] && (a + b)[BLOCK..] == a[BLOCK..] + b;
      FoldJoins(compress, compress(s, a[..BLOCK]), a[BLOCK..], b);
    }
  }

  lemma FoldOne<S>(compress: (S, seq<Byte>) -> S, s: S, a: seq<Byte>)
    requires |a| == BLOCK
    ensures Fold(compress, s, a) == compress(s, a)
  {
    assert a[..BLOCK] == a && a[BLOCK..] == [];
    assert Fold(compress, compress(s, a), []) == compress(s, a);
  }

  /** The whole blocks at the front of a message. */
  function Whole(m: seq<Byte>): (w: seq<Byte>)
    ensures |w| % BLOCK == 0 && |w| <= |m|
  {
    m[..|m| - |m| % BLOCK]
  }

  function Remainder(m: seq<Byte>): seq<Byte> {
    m[|m| - |m| % BLOCK..]
  }

  lemma AppendWhole(m: seq<Byte>, a: seq<Byte>)
    requires (|m| % BLOCK + |a|) % BLOCK == 0
    ensures Whole(m + a) == Whole(m) + (Remainder(m) + a) && Remainder(m + a) == []
    ensures |Remainder(m) + a| % BLOCK == 0
  {
    assert |m + a| % BLOCK == 0;
    assert m == Whole(m) + Remainder(m);
  }

  lemma AppendPart(m: seq<Byte>, a: seq<Byte>)
    requires |m| % BLOCK + |a| < BLOCK
    ensures Whole(m + a) == Whole(m) && Remainder(m + a) == Remainder(m) + a
  {
    assert |m + a| % BLOCK == |m| % BLOCK + |a|;
  }

  class Context<S> {
    const compress: (S, seq<Byte>) -> S
    const init: S
    var state: S
    var count: nat
    const buf: array<Byte>
    ghost var message: seq<Byte>

    ghost predicate Valid()
      reads this, buf
    {
      Synced() && count == |message| % TWO_64
    }

    /** The whole blocks are folded into the state, the rest waits in the buffer. */
    ghost predicate Synced()
      reads this, buf
    {
      && buf.Length == BLOCK
      && state == Fold(compress, init, Whole(message))
      && buf[..|message| % BLOCK] == Remainder(message)
    }

    constructor (compress: (S, seq<Byte>) -> S, init: S)
      ensures Valid() && fresh(buf) && message == [] && this.compress == compress && this.init == init
    {
      this.compress, this.init, state, count := compress, init, init, 0;
      buf := new Byte[BLOCK](_ => 0);
      message := [];
    }

    method CopyIn(at: nat, data: seq<Byte>)
      requires buf.Length == BLOCK && at + |data| <= BLOCK
      modifies buf
      ensures buf[..at] == old(buf[..at]) && buf[at..at + |data|] == data
      ensures buf[at + |data|..] == old(buf[at + |data|..])
    {
      for k := 0 to |data|
        invariant buf[..at] == old(buf[..at]) && buf[at..at + k] == data[..k]
        invariant buf[at + k..] == old(buf[at + k..])
      {
        buf[at + k] := data[k];
      }
    }

    /** Completes the block in the buffer. */
    method FillBuffer(buffered: nat, fill: seq<Byte>)
      requires Synced() && buffered == |message| % BLOCK && buffered + |fill| == BLOCK
      modifies this`state, this`message, buf
      ensures Synced() && message == old(message) + fill && |message| % BLOCK == 0
    {
      CopyIn(buffered, fill);
      var b := buf[..];
      assert b == buf[..buffered] + buf[buffered..buffered + |fill|];
      assert b == Remainder(message) + fill;
      FoldOne(compress, state, b);
      FoldJoins(compress, init, Whole(message), b);
      AppendWhole(message, fill);
      state := compress(state, b);
      message := message + fill;
    }

    /** Folds a whole block of the input straight into the state. */
    method TakeBlock(b: seq<Byte>)
      requires Synced() && |message| % BLOCK == 0 && |b| == BLOCK
      modifies this`state, this`message
      ensures Synced() && message == old(message) + b && |message| % BLOCK == 0
    {
      FoldOne(compress, state, b);
      FoldJoins(compress, init, Whole(message), b);
      AppendWhole(message, b);
      assert Remainder(message) + b == b;
      state := compress(state, b);
      message := message + b;
    }

    /** Keeps what does not fill a block. */
    method KeepRest(buffered: nat, rest: seq<Byte>)
      requires Synced() && buffered == |message| % BLOCK && buffered + |rest| < BLOCK
      modifies this`message, buf
      ensures Synced() && message == old(message) + rest
    {
      CopyIn(buffered, rest);
      assert buf[..buffered + |rest|] == buf[..buffered] + buf[buffered..buffered + |rest|];
      AppendPart(message, rest);
      message := message + rest;
    }

    /** Takes in the whole blocks of data from p on; there is none while the buffer is in use. */
    method TakeBlocks(buffered: nat, data: seq<Byte>, p: nat) returns (q: nat)
      requires Synced() && p <= |data| && buffered == |message| % BLOCK
      requires buffered == 0 || buffered + (|data| - p) < BLOCK
      modifies this`state, this`message
      ensures p <= q <= |data| && buffered + (|data| - q) < BLOCK
      ensures Synced() && message == old(message) + data[p..q] && |message| % BLOCK == buffered
    {
      q := p;
      while |data| - q >= BLOCK
        invariant p <= q <= |data| && buffered == |message| % BLOCK
        invariant buffered == 0 || buffered + (|data| - q) < BLOCK
        invariant Synced() && message == old(message) + data[p..q]
      {
        TakeBlock(data[q..q + BLOCK]);
        assert data[p..q] + data[q..q + BLOCK] == data[p..q + BLOCK];
        q := q + BLOCK;
      }
    }

    /** Takes in all of data while no more than part of a block is buffered. */
    method TakeRest(buffered: nat, data: seq<Byte>, p: nat)
      requires Synced() && p <= |data| && buffered == |message| % BLOCK
      requires buffered == 0 || buffered + (|data| - p) < BLOCK
      modifies this`state, this`message, buf
      ensures Synced() && message == old(message) + data[p..]
    {
      var q := TakeBlocks(buffered, data, p);
      KeepRest(buffered, data[q..]);
      assert data[p..q] + data[q..] == data[p..];
    }

    method Absorb(buffered: nat, data: seq<Byte>)
      requires Synced() && buffered == |message| % BLOCK
      modifies this`state, this`message, buf
      ensures Synced() && message == old(message) + data
    {
      if buffered > 0 && buffered + |data| >= BLOCK {
        var fill := BLOCK - buffered;
        FillBuffer(buffered, data[..fill]);
        TakeRest(0, data, fill);
        assert data[..fill] + data[fill..] == data;
      } else {
        TakeRest(buffered, data, 0);
        assert data[0..] == data;
      }
    }

    method Update(data: seq<Byte>)
      requires Valid()
      modifies this, buf
      ensures Valid() && message == old(message) + data
    {
      var buffered := count % BLOCK;
      Wraps(|message|, |data|);
      count := (count + |data|) % TWO_64;
      Absorb(buffered, data);
    }

    /** Pads the message and returns the folded state; the context is spent. */
    method Final() returns (digest: S)
      requires Valid()
      modifies this, buf
      ensures digest == Fold(compress, init, Padded(old(message)))
    {
      ghost var m := message;
      var bits, buffered := count * 8 % TWO_64, count % BLOCK;
      Wraps(|message|, 0);
      WrapsTimes8(|message|);
      if buffered + 1 > 56 {
        FillBuffer(buffered, [0x80] + Zeros(63 - buffered));
        FillBuffer(0, Zeros(56) + BigEndian(bits, 8));
        PadSplits(m, BigEndian(bits, 8));
      } else {
        FillBuffer(buffered, [0x80] + Zeros(55 - buffered) + BigEndian(bits, 8));
      }
      assert message == Padded(m);
      WholeBlocks(message);
      return state;
    }
  }

  lemma WholeBlocks(m: seq<Byte>)
    requires |m| % BLOCK == 0
    ensures Whole(m) == m
  {}

  lemma WrapsTimes8(n: nat)
    ensures n % TWO_64 * 8 % TWO_64 == 8 * n % TWO_64
  {
    var q, r := n / TWO_64, n % TWO_64;
    assert 8 * n == 8 * q * TWO_64 + 8 * r;
    WrapsSum(8 * q, 8 * r);
  }

  /** When the end mark does not leave room for the length, the zeros run over into a second block. */
  lemma PadSplits(m: seq<Byte>, length: seq<Byte>)
    requires |m| % BLOCK >= 56
    ensures m + ([0x80] + Zeros(63 - |m| % BLOCK)) + (Zeros(56) + length)
          == m + ([0x80] + Zeros(PadLength(|m|)) + length)
  {
    assert Zeros(PadLength(|m|)) == Zeros(63 - |m| % BLOCK) + Zeros(56);
  }

  lemma Wraps(n: nat, len: nat)
    ensures n % TWO_64 % BLOCK == n % BLOCK
    ensures (n % TWO_64 + len) % TWO_64 == (n + len) % TWO_64
  {
    var q, r := n / TWO_64, n % TWO_64;
    assert n == BLOCK * (q * (TWO_64 / BLOCK) + r / BLOCK) + r % BLOCK;
    Multiple(q * (TWO_64 / BLOCK) + r / BLOCK, r % BLOCK);
    WrapsSum(q, r + len);
  }

  lemma WrapsSum(q: nat, s: nat)
    ensures (q * TWO_64 + s) % TWO_64 == s % TWO_64
  {
    var t, u := s / TWO_64, s % TWO_64;
    assert q * TWO_64 + s == (q + t) * TWO_64 + u;
  }

  function Power256(n: nat): nat {
    if n == 0 then 1 else 256 * Power256(n - 1)
  }

  /** The number a byte string spells, most significant byte first. */
  function Value(bytes: seq<Byte>): nat {
    if bytes == [] then 0 else 256 * Value(bytes[..|bytes| - 1]) + bytes[|bytes| - 1]
  }

  lemma {:induction false} BigEndianValue(v: nat, n: nat)
    requires v < Power256(n)
    ensures Value(BigEndian(v, n)) == v
  {
    if n > 0 {
      BigEndianValue(v / 256, n - 1);
      assert BigEndian(v, n)[..n - 1] == BigEndian(v / 256, n - 1);
    }
  }

  lemma EightBytes()
    ensures Power256(8) == TWO_64
  {
    assert Power256(4) == 0x1_0000_0000;
    assert Power256(6) == 0x1_0000_0000_0000;
  }

  lemma Parts(m: seq<Byte>, zeros: seq<Byte>, last: seq<Byte>)
    requires forall i :: 0 <= i < |zeros| ==> zeros[i] == 0
    ensures
      var p := m + ([0x80] + zeros + last);
      && m < p && p[|m|] == 0x80
      && (forall i :: |m| < i < |p| - |last| ==> p[i] == 0)
      && |p| - |last| - |m| - 1 == |zeros|
      && p[|p| - |last|..] == last
  {}

  lemma {:induction false} LengthField(v: nat, width: nat)
    requires v < Power256(width) == TWO_64
    ensures Value(BigEndian(v % TWO_64, width)) == v
  {
    assert v % TWO_64 == v;
    BigEndianValue(v, width);
  }

  /** The padded message is as FIPS 180-4 has it: message, end mark, zeros, and the length in bits. */
  lemma PaddedShape(m: seq<Byte>)
    requires |m| < 0x2000_0000_0000_0000
    ensures
      var p := Padded(m);
      && m < p && p[|m|] == 0x80
      && (forall i :: |m| < i < |p| - 8 ==> p[i] == 0)
      && |p| - 8 - |m| - 1 < BLOCK
      && Value(p[|p| - 8..]) == 8 * |m|
  {
    Parts(m, Zeros(PadLength(|m|)), BigEndian(8 * |m| % TWO_64, 8));
    EightBytes();
    LengthField(8 * |m|, 8);
  }

  function Flatten(chunks: seq<seq<Byte>>): seq<Byte> {
    if chunks == [] then [] else Flatten(chunks[..|chunks| - 1]) + chunks[|chunks| - 1]
  }

  /** However a message is cut into updates, the digest is that of the padded message. */
  method HashChunks<S>(compress: (S, seq<Byte>) -> S, init: S, chunks: seq<seq<Byte>>) returns (digest: S)
    ensures digest == Fold(compress, init, Padded(Flatten(chunks)))
  {
    var ctx := new Context(compress, init);
    for i := 0 to |chunks|
      invariant ctx.Valid() && fresh(ctx) && fresh(ctx.buf) && ctx.compress == compress && ctx.init == init
      invariant ctx.message == Flatten(chunks[..i])
    {
      assert chunks[..i + 1][..i] == chunks[..i];
      ctx.Update(chunks[i]);
    }
    assert chunks[..|chunks|] == chunks;
    digest := ctx.Final();
  }
}
