// Streaming MD5 (DebugClient/md5.cpp:314-385): the state after any appends is that of the message so
// far, and finishing follows sections 3.1 to 3.5 of RFC 1321.
module Md5 {
  import opened Bytes
  import opened Md5Compress
  import opened WordNumbers

  const COUNT_LIMIT := 0x1_0000_0000_0000_0000
  const INT_MAX := 0x7fff_ffff

  type Chunk = x: seq<Byte> | |x| == 64 witness seq(64, _ => 0)

  // The registers before the first block.
  function InitRegs(): Regs {
    Regs(0x67452301, 0xefcdab89, 0x98badcfe, 0x10325476)
  }

  function BlockStep(r: Regs, data: Chunk): Regs {
    Compress(r, Words(data))
  }

  // A function that agrees with BlockStep everywhere. Proofs about the streaming use any such function,
  // which keeps the bit arithmetic of the block out of them.
  ghost predicate IsBlockStep(step: (Regs, Chunk) -> Regs) {
    forall r: Regs, data: Chunk :: AgreesAt(step, r, data)
  }

  ghost predicate AgreesAt(step: (Regs, Chunk) -> Regs, r: Regs, data: Chunk) {
    step(r, data) == BlockStep(r, data)
  }

  lemma BlockStepIsStep()
    ensures IsBlockStep(BlockStep)
  {
    forall r: Regs, data: Chunk
      ensures AgreesAt(BlockStep, r, data)
    {
    }
  }

  // The registers after the first n blocks of a message.
  function FoldBlocks(step: (Regs, Chunk) -> Regs, init: Regs, m: seq<Byte>, n: nat): Regs
    requires 64 * n <= |m|
  {
    if n == 0 then init else step(FoldBlocks(step, init, m, n - 1), m[64 * (n - 1)..64 * n])
  }

  // Later bytes do not change the fold over earlier blocks.
  lemma {:induction false} FoldOfPrefix(step: (Regs, Chunk) -> Regs, init: Regs, m: seq<Byte>, more: seq<Byte>, n: nat)
    requires 64 * n <= |m|
    ensures FoldBlocks(step, init, m + more, n) == FoldBlocks(step, init, m, n)
  {
    if n != 0 {
      FoldOfPrefix(step, init, m, more, n - 1);
      assert (m + more)[64 * (n - 1)..64 * n] == m[64 * (n - 1)..64 * n];
    }
  }

  lemma {:induction false} FoldOfAnyStep(
      f: (Regs, Chunk) -> Regs, g: (Regs, Chunk) -> Regs, init: Regs, m: seq<Byte>, n: nat)
    requires IsBlockStep(f) && IsBlockStep(g) && 64 * n <= |m|
    ensures FoldBlocks(f, init, m, n) == FoldBlocks(g, init, m, n)
  {
    if n != 0 {
      FoldOfAnyStep(f, g, init, m, n - 1);
      var r, data := FoldBlocks(f, init, m, n - 1), m[64 * (n - 1)..64 * n];
      assert AgreesAt(f, r, data) && AgreesAt(g, r, data);
    }
  }

  // ---------- Padding and length, sections 3.1 and 3.2 ----------

  // A one bit, then zero bits, at least one byte, at most 64, up to 56 modulo 64.
  ghost predicate IsPadding(length: nat, p: seq<Byte>) {
    && 1 <= |p| <= 64
    && (length + |p|) % 64 == 56
    && p[0] == 0x80
    && forall i :: 1 <= i < |p| ==> p[i] == 0
  }

  function Pad(n: nat): seq<Byte>
    requires n >= 1
  {
    [0x80] + seq(n - 1, _ => 0)
  }

  // The number of padding bytes, in the wrapping arithmetic of a 32-bit word.
  function PadLength(count0: nat): (n: nat)
    ensures 1 <= n <= 64
  {
    (55 - count0 / 8) % WORD_LIMIT % 64 + 1
  }

  // The two words of the bit count of a message.
  function CountLow(length: nat): nat { 8 * length % WORD_LIMIT }
  function CountHigh(length: nat): nat { 8 * length / WORD_LIMIT % WORD_LIMIT }

  lemma ModUnique(x: int, q: int, r: int)
    requires x == 64 * q + r && 0 <= r < 64
    ensures x % 64 == r
  {
  }

  lemma ModOfMod(x: int)
    ensures x % WORD_LIMIT % 64 == x % 64
  {
    var q, y := x / WORD_LIMIT, x % WORD_LIMIT;
    ModUnique(x, 0x400_0000 * q + y / 64, y % 64);
  }

  // The byte count recovered from the low word agrees with the length modulo 64.
  lemma BytesOfCount(length: nat)
    ensures CountLow(length) / 8 % 64 == length % 64
  {
    var q, c := 8 * length / WORD_LIMIT, CountLow(length) / 8;
    assert CountLow(length) == 8 * (length - 0x2000_0000 * q);
    ModUnique(c, length / 64 - 0x80_0000 * q, length % 64);
  }

  lemma PadUpTo56(length: nat, c: nat)
    requires c % 64 == length % 64
    ensures (length + (55 - c) % 64 + 1) % 64 == 56
  {
  }

  lemma PadLengthFits(length: nat)
    ensures (length + PadLength(CountLow(length))) % 64 == 56
  {
    var c := CountLow(length) / 8;
    BytesOfCount(length);
    ModOfMod(55 - c);
    PadUpTo56(length, c);
  }

  lemma PadLengthUnique(length: nat, i: nat, j: nat)
    requires 1 <= i <= 64 && 1 <= j <= 64 && (length + i) % 64 == (length + j) % 64
    ensures i == j
  {
  }

  // Whatever the message length, the low word of its bit count gives the padding that brings it to
  // 56 modulo 64, and there is only one such padding.
  lemma {:induction false} PadLengthExact(length: nat, p: seq<Byte>)
    ensures IsPadding(length, p) <==> p == Pad(PadLength(CountLow(length)))
  {
    PadLengthFits(length);
    var n := PadLength(CountLow(length));
    if IsPadding(length, p) {
      PadLengthUnique(length, |p|, n);
      assert p == Pad(n);
    }
  }

  // The number that digits to base 256 stand for, lowest first.
  function Value(digits: seq<nat>): nat {
    if digits == [] then 0 else digits[0] + 256 * Value(digits[1..])
  }

  ghost predicate AreDigits(digits: seq<nat>) {
    forall i :: 0 <= i < |digits| ==> digits[i] < 256
  }

  lemma LowestDigit(x: nat, a: nat, y: nat, b: nat)
    requires x < 256 && y < 256 && x + 256 * a == y + 256 * b
    ensures x == y && a == b
  {
  }

  // Digits are determined by how many they are and what they stand for.
  lemma {:induction false} ValueInjective(s: seq<nat>, t: seq<nat>)
    requires |s| == |t| && AreDigits(s) && AreDigits(t) && Value(s) == Value(t)
    ensures s == t
  {
    if s != [] {
      LowestDigit(s[0], Value(s[1..]), t[0], Value(t[1..]));
      ValueInjective(s[1..], t[1..]);
      assert s == [s[0]] + s[1..] && t == [t[0]] + t[1..];
    }
  }

  lemma ValueOfFour(d0: nat, d1: nat, d2: nat, d3: nat, s: seq<nat>)
    ensures Value([d0, d1, d2, d3] + s) == d0 + 256 * (d1 + 256 * (d2 + 256 * (d3 + 256 * Value(s))))
  {
    assert ([d3] + s)[1..] == s;
    assert ([d2, d3] + s)[1..] == [d3] + s;
    assert ([d1, d2, d3] + s)[1..] == [d2, d3] + s;
    assert ([d0, d1, d2, d3] + s)[1..] == [d1, d2, d3] + s;
    assert Value([d2, d3] + s) == d2 + 256 * Value([d3] + s);
  }

  // Digit j of a count word: the word shifted right by 8 * j and narrowed to a byte.
  function CountDigit(c: nat, j: nat): (d: nat)
    requires j < 4
    ensures d < 256
  {
    match j
    case 0 => c % 256
    case 1 => c / 0x100 % 256
    case 2 => c / 0x1_0000 % 256
    case _ => c / 0x100_0000 % 256
  }

  function CountDigits(count0: nat, count1: nat): seq<nat> {
    seq(8, i requires 0 <= i < 8 => CountDigit(if i / 4 == 0 then count0 else count1, i % 4))
  }

  lemma DivideTwice(c: nat, n: nat)
    requires n == 0x100 || n == 0x1_0000
    ensures c / n / 256 == c / (256 * n)
  {
  }

  function WordDigits(c: nat): seq<nat> {
    [CountDigit(c, 0), CountDigit(c, 1), CountDigit(c, 2), CountDigit(c, 3)]
  }

  lemma CountWordValue(c: nat, s: seq<nat>)
    requires c < WORD_LIMIT
    ensures Value(WordDigits(c) + s) == c + WORD_LIMIT * Value(s)
  {
    ValueOfFour(CountDigit(c, 0), CountDigit(c, 1), CountDigit(c, 2), CountDigit(c, 3), s);
    DivideTwice(c, 0x100);
    DivideTwice(c, 0x1_0000);
  }

  lemma CountDigitsValue(count0: nat, count1: nat)
    requires count0 < WORD_LIMIT && count1 < WORD_LIMIT
    ensures Value(CountDigits(count0, count1)) == count0 + WORD_LIMIT * count1
  {
    CountWordValue(count0, WordDigits(count1));
    CountWordValue(count1, []);
    assert WordDigits(count1) == WordDigits(count1) + [];
    assert CountDigits(count0, count1) == WordDigits(count0) + WordDigits(count1);
  }

  // The eight saved digits are those of the whole bit count, and no others are.
  lemma CountDigitsExact(count0: nat, count1: nat, digits: seq<nat>)
    requires count0 < WORD_LIMIT && count1 < WORD_LIMIT
    ensures (|digits| == 8 && AreDigits(digits) && Value(digits) == count0 + WORD_LIMIT * count1)
            <==> digits == CountDigits(count0, count1)
  {
    CountDigitsValue(count0, count1);
    var saved := CountDigits(count0, count1);
    if |digits| == 8 && AreDigits(digits) && Value(digits) == Value(saved) {
      ValueInjective(digits, saved);
    }
  }

  function ByteValues(s: seq<Byte>): seq<nat> {
    seq(|s|, i requires 0 <= i < |s| => s[i] as nat)
  }

  function DigitByte(d: nat): Byte
    requires d < 256
  {
    d as Byte
  }

  lemma DigitByteValue(d: nat, b: Byte)
    requires d < 256
    ensures b == DigitByte(d) <==> b as nat == d
  {
    ByteOfNumber(d);
    if b as nat == d {
      ByteInjective(b, DigitByte(d));
    }
  }

  function CountBytes(count0: nat, count1: nat): seq<Byte> {
    seq(8, i requires 0 <= i < 8 => DigitByte(CountDigits(count0, count1)[i]))
  }

  // Eight bytes holding the length in bits, modulo 2 to the power 64, lowest byte first.
  ghost predicate IsLength(length: nat, t: seq<Byte>) {
    |t| == 8 && Value(ByteValues(t)) == 8 * length % COUNT_LIMIT
  }

  lemma SameBytes(t: seq<Byte>, digits: seq<nat>)
    requires AreDigits(digits)
    ensures ByteValues(t) == digits <==> (|t| == |digits| && forall i :: 0 <= i < |t| ==> t[i] == DigitByte(digits[i]))
  {
    if |t| == |digits| {
      forall i | 0 <= i < |t|
        ensures t[i] == DigitByte(digits[i]) <==> ByteValues(t)[i] == digits[i]
      {
        DigitByteValue(digits[i], t[i]);
      }
    }
  }

  lemma CountBytesExact(length: nat, count0: nat, count1: nat, t: seq<Byte>)
    requires count0 < WORD_LIMIT && count1 < WORD_LIMIT
    requires count0 + WORD_LIMIT * count1 == 8 * length % COUNT_LIMIT
    ensures IsLength(length, t) <==> t == CountBytes(count0, count1)
  {
    var digits := CountDigits(count0, count1);
    CountDigitsExact(count0, count1, ByteValues(t));
    SameBytes(t, digits);
    forall i | 0 <= i < |t|
      ensures ByteValues(t)[i] < 256
    {
    }
  }

  // ---------- The digest of a message ----------

  function Padded(m: seq<Byte>): seq<Byte> {
    m + Pad(PadLength(CountLow(|m|))) + CountBytes(CountLow(|m|), CountHigh(|m|))
  }

  lemma CountWords(length: nat)
    ensures CountLow(length) + WORD_LIMIT * CountHigh(length) == 8 * length % COUNT_LIMIT
  {
    var q := 8 * length / WORD_LIMIT;
    assert 8 * length == WORD_LIMIT * q + CountLow(length);
    assert q == WORD_LIMIT * (q / WORD_LIMIT) + CountHigh(length);
  }

  // The padded message ends at a block boundary.
  lemma {:induction false} PaddedIsWhole(m: seq<Byte>)
    ensures |Padded(m)| % 64 == 0
  {
    PadLengthFits(|m|);
    var n := |m| + PadLength(CountLow(|m|));
    ModUnique(n + 8, n / 64 + 1, 0);
    assert |Padded(m)| == n + 8;
  }

  // The padded message is the one of sections 3.1 and 3.2.
  lemma {:induction false} PaddedExact(m: seq<Byte>, p: seq<Byte>, t: seq<Byte>)
    ensures IsPadding(|m|, p) && IsLength(|m|, t)
            <==> p == Pad(PadLength(CountLow(|m|))) && t == CountBytes(CountLow(|m|), CountHigh(|m|))
  {
    var length := |m|;
    CountWords(length);
    PadLengthExact(length, p);
    CountBytesExact(length, CountLow(length), CountHigh(length), t);
  }

  // Section 3.5: the registers, lowest byte of each first.
  function Digest(r: Regs): (bytes: seq<Byte>)
    ensures |bytes| == 16
  {
    BytesOf(r.a) + BytesOf(r.b) + BytesOf(r.c) + BytesOf(r.d)
  }

  // Byte i of the digest is byte i modulo 4 of register i / 4.
  lemma {:induction false} DigestAt(a: Word, b: Word, c: Word, d: Word, i: nat)
    requires i < 16
    ensures Digest(Regs(a, b, c, d))[i] == ByteOf([a, b, c, d][i / 4], i % 4)
  {
    FourFours(BytesOf(a), BytesOf(b), BytesOf(c), BytesOf(d), i);
    ByteOfWord([a, b, c, d][i / 4], i % 4);
  }

  // Section 3.3: as bytes the initial registers count up and down again in steps of 0x22.
  lemma InitialBytes(i: nat)
    requires i < 16
    ensures Digest(InitRegs())[i] == (if i < 8 then 0x01 + 0x22 * i else 0xfe - 0x22 * (i - 8)) as Byte
  {
    var r := InitRegs();
    DigestAt(r.a, r.b, r.c, r.d, i);
    assert BytesOf(r.a) == [0x01, 0x23, 0x45, 0x67] && BytesOf(r.b) == [0x89, 0xab, 0xcd, 0xef];
    assert BytesOf(r.c) == [0xfe, 0xdc, 0xba, 0x98] && BytesOf(r.d) == [0x76, 0x54, 0x32, 0x10];
  }

  lemma FourFours<T>(s: seq<T>, t: seq<T>, u: seq<T>, v: seq<T>, i: nat)
    requires |s| == |t| == |u| == |v| == 4 && i < 16
    ensures (s + t + u + v)[i] == [s, t, u, v][i / 4][i % 4]
  {
  }

  lemma ByteOfWord(w: Word, j: nat)
    requires j < 4
    ensures BytesOf(w)[j] == ByteOf(w, j)
  {
  }

  function DigestOfBlocks(step: (Regs, Chunk) -> Regs, m: seq<Byte>): seq<Byte> {
    Digest(FoldBlocks(step, InitRegs(), m, |m| / 64))
  }

  function MessageDigest(m: seq<Byte>): seq<Byte> {
    DigestOfBlocks(BlockStep, Padded(m))
  }

  lemma DigestOfAnyStep(step: (Regs, Chunk) -> Regs, m: seq<Byte>)
    requires IsBlockStep(step)
    ensures DigestOfBlocks(step, m) == DigestOfBlocks(BlockStep, m)
  {
    BlockStepIsStep();
    FoldOfAnyStep(step, BlockStep, InitRegs(), m, |m| / 64);
  }

  // What Append reads of its argument: nothing when the count is not positive.
  function Taken(data: seq<Byte>, nbytes: int): seq<Byte>
    requires nbytes <= |data|
  {
    if nbytes <= 0 then [] else data[..nbytes]
  }

  lemma {:induction false} CountsAdvance(length: nat, nbytes: nat)
    ensures var low := CountLow(length);
            var bits := 8 * nbytes % WORD_LIMIT;
            var next := (low + bits) % WORD_LIMIT;
            && next == CountLow(length + nbytes)
            && (CountHigh(length) + nbytes / 0x2000_0000 + (if next < bits then 1 else 0)) % WORD_LIMIT
               == CountHigh(length + nbytes)
  {
    var a, b := 8 * length / WORD_LIMIT, 8 * nbytes / WORD_LIMIT;
    var low, bits := CountLow(length), 8 * nbytes % WORD_LIMIT;
    assert b == nbytes / 0x2000_0000;
    var carry := (low + bits) / WORD_LIMIT;
    assert 8 * (length + nbytes) == WORD_LIMIT * (a + b + carry) + (low + bits) % WORD_LIMIT;
    DivUnique(8 * (length + nbytes), a + b + carry, (low + bits) % WORD_LIMIT);
    ModShift(a, b + carry);
  }

  lemma DivUnique(x: int, q: int, r: int)
    requires x == WORD_LIMIT * q + r && 0 <= r < WORD_LIMIT
    ensures x / WORD_LIMIT == q && x % WORD_LIMIT == r
  {
  }

  lemma ModShift(a: int, b: int)
    ensures (a % WORD_LIMIT + b) % WORD_LIMIT == (a + b) % WORD_LIMIT
  {
    var q := a / WORD_LIMIT;
    var y := (a % WORD_LIMIT + b) / WORD_LIMIT;
    DivUnique(a + b, q + y, (a % WORD_LIMIT + b) % WORD_LIMIT);
  }

  // The bytes after the first p of the appended ones start a block when p completes one.
  lemma RestOfMessage(m: seq<Byte>, data: seq<Byte>, nbytes: nat, p: nat)
    requires p <= nbytes <= |data| && (|m| + p) % 64 == 0
    ensures |m| + nbytes == 64 * ((|m| + p) / 64) + (nbytes - p)
    ensures (m + data[..nbytes])[64 * ((|m| + p) / 64)..] == data[p..p + (nbytes - p)]
  {
  }

  lemma SliceOfMessage(m: seq<Byte>, data: seq<Byte>, nbytes: nat, k: nat, copy: nat)
    requires copy <= nbytes <= |data| && 64 * k <= |m|
    ensures (m + data[..nbytes])[64 * k..|m| + copy] == m[64 * k..] + data[0..copy]
  {
  }

  // md5_state_t, with the message so far as ghost state.
  class Md5State {
    var count0: nat
    var count1: nat
    const abcd: array<Word>
    const buf: array<Byte>
    const littleEndian: bool
    ghost const step: (Regs, Chunk) -> Regs
    ghost var message: seq<Byte>

    ghost predicate Valid()
      reads this, abcd, buf
    {
      && abcd.Length == 4 && buf.Length == 64 && IsBlockStep(step)
      && count0 == CountLow(|message|)
      && count1 == CountHigh(|message|)
      && Holds(message)
    }

    // The registers are the fold over the full blocks of m, and the buffer has the rest.
    ghost predicate Holds(m: seq<Byte>)
      requires abcd.Length == 4 && buf.Length == 64
      reads abcd, buf
    {
      && RegsOf(abcd) == FoldBlocks(step, InitRegs(), m, |m| / 64)
      && buf[..|m| % 64] == m[|m| / 64 * 64..]
    }

    // md5_init.
    constructor (littleEndian: bool)
      ensures Valid() && message == [] && fresh(abcd) && fresh(buf)
    {
      this.littleEndian := littleEndian;
      abcd := new Word[] [0x67452301, T_MASK ^ 0x10325476, T_MASK ^ 0x67452301, 0x10325476];
      buf := new Byte[64];
      count0, count1 := 0, 0;
      message := [];
      step := BlockStep;
      BlockStepIsStep();
      new;
    }

    // memcpy of data[from..from + n] to the buffer.
    method CopyToBuffer(at: nat, data: seq<Byte>, from: nat, n: nat)
      requires buf.Length == 64 && at + n <= 64 && from + n <= |data|
      modifies buf
      ensures buf[..at + n] == old(buf[..at]) + data[from..from + n]
    {
      forall i | 0 <= i < n {
        buf[at + i] := data[from + i];
      }
    }

    // The message length grows by nbytes bytes.
    method AddLength(nbytes: nat)
      requires count0 == CountLow(|message|) && count1 == CountHigh(|message|)
      modifies this`count0, this`count1
      ensures count0 == CountLow(|message| + nbytes) && count1 == CountHigh(|message| + nbytes)
    {
      CountsAdvance(|message|, nbytes);
      ghost var high := count1;
      var nbits := 8 * nbytes % WORD_LIMIT;
      count1 := (count1 + nbytes / 0x2000_0000) % WORD_LIMIT;
      count0 := (count0 + nbits) % WORD_LIMIT;
      if count0 < nbits {
        ModShift(high + nbytes / 0x2000_0000, 1);
        count1 := (count1 + 1) % WORD_LIMIT;
      }
    }

    // One block of the message m, taken from the buffer or straight from the caller.
    method NextBlock(data: seq<Byte>, ghost m: seq<Byte>, ghost k: nat)
      requires abcd.Length == 4 && IsBlockStep(step) && 64 * (k + 1) <= |m| && data == m[64 * k..64 * (k + 1)]
      requires RegsOf(abcd) == FoldBlocks(step, InitRegs(), m, k)
      modifies abcd
      ensures RegsOf(abcd) == FoldBlocks(step, InitRegs(), m, k + 1)
    {
      ghost var r := RegsOf(abcd);
      Process(abcd, data, littleEndian);
      assert AgreesAt(step, r, data);
    }

    // The initial partial block. Returns how many bytes it took.
    method FillBuffer(data: seq<Byte>, nbytes: nat, offset: nat, ghost m: seq<Byte>) returns (copy: nat)
      requires abcd.Length == 4 && buf.Length == 64 && IsBlockStep(step) && Holds(m)
      requires 0 < nbytes <= |data| && offset == |m| % 64 && offset > 0
      modifies abcd, buf
      ensures copy == (if offset + nbytes > 64 then 64 - offset else nbytes)
      ensures offset + copy < 64 ==> Holds(m + data[..nbytes])
      ensures offset + copy == 64 ==> RegsOf(abcd) == FoldBlocks(step, InitRegs(), m + data[..nbytes], |m| / 64 + 1)
    {
      copy := if offset + nbytes > 64 then 64 - offset else nbytes;
      ghost var k := |m| / 64;
      ghost var all := m + data[..nbytes];
      FoldOfPrefix(step, InitRegs(), m, data[..nbytes], k);
      CopyToBuffer(offset, data, 0, copy);
      SliceOfMessage(m, data, nbytes, k, copy);
      if offset + copy < 64 {
        assert |all| / 64 == k && |all| % 64 == offset + copy;
        return;
      }
      NextBlock(buf[..], all, k);
    }

    // The full blocks and the final partial block, from data[p] on.
    method AbsorbBlocks(data: seq<Byte>, from: nat, n: nat, ghost m: seq<Byte>, ghost k: nat)
      requires abcd.Length == 4 && buf.Length == 64 && IsBlockStep(step)
      requires from + n <= |data| && |m| == 64 * k + n && m[64 * k..] == data[from..from + n]
      requires RegsOf(abcd) == FoldBlocks(step, InitRegs(), m, k)
      modifies abcd, buf
      ensures Holds(m)
    {
      var p, left := from, n;
      ghost var j := k;
      while left >= 64
        invariant 0 <= left <= n && p + left == from + n && |m| == 64 * j + left
        invariant m[64 * j..] == data[p..p + left]
        invariant RegsOf(abcd) == FoldBlocks(step, InitRegs(), m, j)
      {
        assert data[p..p + 64] == data[p..p + left][..64] == m[64 * j..][..64] == m[64 * j..64 * (j + 1)];
        NextBlock(data[p..p + 64], m, j);
        assert data[p + 64..p + left] == data[p..p + left][64..] == m[64 * j..][64..] == m[64 * (j + 1)..];
        p, left, j := p + 64, left - 64, j + 1;
      }
      assert |m| / 64 == j && |m| % 64 == left;
      if left > 0 {
        CopyToBuffer(0, data, p, left);
      }
      assert buf[..left] == data[p..p + left];
    }

    // The part of md5_append after the message length is updated.
    method AppendBytes(data: seq<Byte>, nbytes: nat, offset: nat, ghost m: seq<Byte>)
      requires abcd.Length == 4 && buf.Length == 64 && IsBlockStep(step) && Holds(m)
      requires 0 < nbytes <= |data| && offset == |m| % 64
      modifies abcd, buf
      ensures Holds(m + data[..nbytes])
    {
      var p := 0;
      if offset != 0 {
        p := FillBuffer(data, nbytes, offset, m);
        if offset + p < 64 {
          return;
        }
      } else {
        FoldOfPrefix(step, InitRegs(), m, data[..nbytes], |m| / 64);
      }
      ghost var k := (|m| + p) / 64;
      ModUnique(|m| + p, k, 0);
      RestOfMessage(m, data, nbytes, p);
      AbsorbBlocks(data, p, nbytes - p, m + data[..nbytes], k);
    }

    // md5_append.
    method Append(data: seq<Byte>, nbytes: int)
      requires Valid() && nbytes <= |data|
      requires |message| % 64 + nbytes <= INT_MAX
      modifies this`count0, this`count1, this`message, abcd, buf
      ensures Valid() && message == old(message) + Taken(data, nbytes)
    {
      var offset := count0 / 8 % 64;
      if nbytes <= 0 {
        return;
      }
      BytesOfCount(|message|);
      AddLength(nbytes);
      AppendBytes(data, nbytes, offset, message);
      message := message + data[..nbytes];
    }

    // The length before padding, as eight bytes.
    method SaveLength() returns (data: seq<Byte>)
      ensures data == CountBytes(count0, count1)
    {
      var d := new Byte[8];
      for i := 0 to 8
        invariant forall j :: 0 <= j < i ==> d[j] == CountBytes(count0, count1)[j]
      {
        d[i] := DigitByte(CountDigit(if i / 4 == 0 then count0 else count1, i % 4));
      }
      data := d[..];
    }

    method DigestByte(i: nat) returns (b: Byte)
      requires abcd.Length == 4 && i < 16
      ensures b == Digest(RegsOf(abcd))[i]
    {
      DigestAt(abcd[0], abcd[1], abcd[2], abcd[3], i);
      b := ByteOf(abcd[i / 4], i % 4);
    }

    // The registers as bytes.
    method WriteDigest(digest: array<Byte>)
      requires abcd.Length == 4 && digest.Length == 16
      modifies digest
      ensures digest[..] == Digest(RegsOf(abcd))
    {
      for i := 0 to 16
        invariant digest[..i] == Digest(RegsOf(abcd))[..i]
      {
        digest[i] := DigestByte(i);
      }
    }

    // md5_finish.
    method Finish(digest: array<Byte>)
      requires Valid() && digest.Length == 16 && digest != buf
      modifies this`count0, this`count1, this`message, abcd, buf, digest
      ensures Valid() && message == Padded(old(message))
      ensures digest[..] == MessageDigest(old(message))
    {
      ghost var m := message;
      var data := SaveLength();
      var n := PadLength(count0);
      Append(Pad(64), n);
      assert Pad(64)[..n] == Pad(n);
      Append(data, 8);
      assert data == data[..8];
      assert message == Padded(m);
      WriteDigest(digest);
      DigestOfAnyStep(step, message);
    }
  }

  function Concat(chunks: seq<seq<Byte>>): seq<Byte> {
    if chunks == [] then [] else Concat(chunks[..|chunks| - 1]) + chunks[|chunks| - 1]
  }

  lemma ConcatLast(m: seq<Byte>, chunks: seq<seq<Byte>>)
    requires chunks != []
    ensures var n := |chunks| - 1;
            m + Concat(chunks[..n]) + Taken(chunks[n], |chunks[n]|) == m + Concat(chunks)
  {
    var n := |chunks| - 1;
    assert Taken(chunks[n], |chunks[n]|) == chunks[n];
    assert Concat(chunks) == Concat(chunks[..n]) + chunks[n];
  }

  // Appending a message in pieces.
  method AppendAll(state: Md5State, chunks: seq<seq<Byte>>)
    requires state.Valid()
    requires forall i :: 0 <= i < |chunks| ==> |chunks[i]| <= INT_MAX - 63
    modifies state, state.abcd, state.buf
    ensures state.Valid() && state.message == old(state.message) + Concat(chunks)
    decreases |chunks|
  {
    if |chunks| > 0 {
      ghost var m := state.message;
      var n := |chunks| - 1;
      AppendAll(state, chunks[..n]);
      state.Append(chunks[n], |chunks[n]|);
      ConcatLast(m, chunks);
    } else {
      assert state.message + [] == state.message;
    }
  }

  // However a message is cut into pieces, the digest is the one of the whole message.
  method DigestOfChunks(state: Md5State, chunks: seq<seq<Byte>>, digest: array<Byte>)
    requires state.Valid()
    requires digest.Length == 16 && digest != state.buf
    requires forall i :: 0 <= i < |chunks| ==> |chunks[i]| <= INT_MAX - 63
    modifies state, state.abcd, state.buf, digest
    ensures digest[..] == MessageDigest(old(state.message) + Concat(chunks))
  {
    AppendAll(state, chunks);
    state.Finish(digest);
  }
}
