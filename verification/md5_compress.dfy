// The MD5 block function: the 64 expanded steps of md5_process refine the loop of section 3.4 of
// RFC 1321 (DebugClient/md5.cpp:64-312).
module Md5Compress {
  import opened Bytes
  import opened WordNumbers

  // The 16 words of a block.
  type Block = x: seq<Word> | |x| == 16 witness seq(16, _ => 0)

  datatype Regs = Regs(a: Word, b: Word, c: Word, d: Word)

  // ---------- Section 3.4 of RFC 1321 ----------

  function F(x: Word, y: Word, z: Word): Word { (x & y) | (!x & z) }
  function G(x: Word, y: Word, z: Word): Word { (x & z) | (y & !z) }
  function H(x: Word, y: Word, z: Word): Word { x ^ y ^ z }
  function I(x: Word, y: Word, z: Word): Word { y ^ (x | !z) }

  type ShiftAmount = n: Word | n <= 32

  function RotateLeft(x: Word, n: ShiftAmount): Word {
    (x << n) | (x >> (32 - n))
  }

  // One step with the auxiliary function of its round: the new value of the first register.
  type Operation = (Regs, Word, ShiftAmount, Word) -> Word

  function Operate(f: Word, r: Regs, xk: Word, s: ShiftAmount, ti: Word): Word {
    Plus(RotateLeft(Plus(Plus(Plus(r.a, f), xk), ti), s), r.b)
  }

  function OpF(r: Regs, xk: Word, s: ShiftAmount, ti: Word): Word {
    Operate(F(r.b, r.c, r.d), r, xk, s, ti)
  }

  function OpG(r: Regs, xk: Word, s: ShiftAmount, ti: Word): Word {
    Operate(G(r.b, r.c, r.d), r, xk, s, ti)
  }

  function OpH(r: Regs, xk: Word, s: ShiftAmount, ti: Word): Word {
    Operate(H(r.b, r.c, r.d), r, xk, s, ti)
  }

  function OpI(r: Regs, xk: Word, s: ShiftAmount, ti: Word): Word {
    Operate(I(r.b, r.c, r.d), r, xk, s, ti)
  }

  function OperationOf(i: nat): Operation {
    if i < 16 then OpF else if i < 32 then OpG else if i < 48 then OpH else OpI
  }

  // ---------- What these are, bit by bit and in numbers ----------

  // Where the bits of m are set, or none of them is.
  predicate AllSet(x: Word, m: Word) {
    x & m == m
  }

  predicate NoneSet(x: Word, m: Word) {
    x & m == 0
  }

  // The table of section 3.4, on any set m of bit positions: F takes y where x is set and z elsewhere, G
  // takes x where z is set and y elsewhere, H flips y ^ z where x is set, and I takes y's
  // complement where x is set and the complement of y ^ z elsewhere.
  lemma BitsOfF(x: Word, y: Word, z: Word, m: Word)
    ensures AllSet(x, m) ==> F(x, y, z) & m == y & m
    ensures NoneSet(x, m) ==> F(x, y, z) & m == z & m
  {
  }

  lemma BitsOfG(x: Word, y: Word, z: Word, m: Word)
    ensures AllSet(z, m) ==> G(x, y, z) & m == x & m
    ensures NoneSet(z, m) ==> G(x, y, z) & m == y & m
  {
  }

  lemma BitsOfH(x: Word, y: Word, z: Word, m: Word)
    ensures NoneSet(x, m) ==> H(x, y, z) & m == (y ^ z) & m
    ensures AllSet(x, m) ==> H(x, y, z) & m == !(y ^ z) & m
  {
  }

  lemma BitsOfI(x: Word, y: Word, z: Word, m: Word)
    ensures AllSet(x, m) ==> I(x, y, z) & m == !y & m
    ensures NoneSet(x, m) ==> I(x, y, z) & m == !(y ^ z) & m
  {
  }

  type BitIndex = j: Word | j < 32

  lemma BitOfShifts(x: Word, n: Word, j: Word)
    requires n <= 32 && j < 32
    ensures (((x << n) | (x >> (32 - n))) >> j) & 1 == (x >> ((j - n) & 31)) & 1
  {
  }

  // Bit j of a rotated word is bit j - n modulo 32.
  lemma BitOfRotated(x: Word, n: Word, j: Word)
    requires n <= 32 && j < 32
    ensures (RotateLeft(x, n) >> j) & 1 == (x >> ((j - n) & 31)) & 1
  {
    BitOfShifts(x, n, j);
  }

  function Auxiliary(i: nat, r: Regs): Word {
    if i < 16 then F(r.b, r.c, r.d) else if i < 32 then G(r.b, r.c, r.d)
    else if i < 48 then H(r.b, r.c, r.d) else I(r.b, r.c, r.d)
  }

  lemma ModuloLater(m: nat, n: nat)
    ensures (m % WORD_LIMIT + n) % WORD_LIMIT == (m + n) % WORD_LIMIT
  {
  }

  lemma SumOfThree(num: Word -> nat, a: Word, b: Word, c: Word)
    requires IsNumber(num)
    ensures num(Plus(Plus(a, b), c)) == (num(a) + num(b) + num(c)) % WORD_LIMIT
  {
    NumberOfSum(num, a, b);
    NumberOfSum(num, Plus(a, b), c);
    ModuloLater(num(a) + num(b), num(c));
  }

  lemma SumOfFour(num: Word -> nat, a: Word, b: Word, c: Word, d: Word, p: Word)
    requires IsNumber(num) && p == Plus(Plus(a, b), c)
    ensures num(Plus(p, d)) == (num(a) + num(b) + num(c) + num(d)) % WORD_LIMIT
  {
    SumOfThree(num, a, b, c);
    NumberOfSum(num, p, d);
    ModuloLater(num(a) + num(b) + num(c), num(d));
  }

  lemma OperateExact(num: Word -> nat, f: Word, r: Regs, xk: Word, s: ShiftAmount, ti: Word) returns (sum: Word)
    requires IsNumber(num)
    ensures num(sum) == (num(r.a) + num(f) + num(xk) + num(ti)) % WORD_LIMIT
    ensures Operate(f, r, xk, s, ti) == Plus(RotateLeft(sum, s), r.b)
  {
    var p := Plus(Plus(r.a, f), xk);
    SumOfFour(num, r.a, f, xk, ti, p);
    sum := Plus(p, ti);
  }

  lemma OperationIs(i: nat, r: Regs, xk: Word, s: ShiftAmount, ti: Word)
    ensures OperationOf(i)(r, xk, s, ti) == Operate(Auxiliary(i, r), r, xk, s, ti)
  {
  }

  // a = b + ((a + aux(b, c, d) + X[k] + T[i]) <<< s), with the sum in numbers.
  lemma OperationExact(num: Word -> nat, i: nat, r: Regs, xk: Word, s: ShiftAmount, ti: Word) returns (sum: Word)
    requires IsNumber(num)
    ensures num(sum) == (num(r.a) + num(Auxiliary(i, r)) + num(xk) + num(ti)) % WORD_LIMIT
    ensures OperationOf(i)(r, xk, s, ti) == Plus(RotateLeft(sum, s), r.b)
  {
    sum := OperateExact(num, Auxiliary(i, r), r, xk, s, ti);
    OperationIs(i, r, xk, s, ti);
  }

  // The word, the shift and the constant that a step uses: [k s i] in the notation of the RFC.
  datatype Entry = Entry(k: WordIndex, s: ShiftAmount, ti: Word)

  type WordIndex = k: nat | k < 16

  function Index(i: nat): WordIndex {
    if i < 16 then i
    else if i < 32 then (5 * i + 1) % 16
    else if i < 48 then (3 * i + 5) % 16
    else (7 * i) % 16
  }

  function Shift(i: nat): ShiftAmount
  {
    var j := i % 4;
    if i < 16 then (if j == 0 then 7 else if j == 1 then 12 else if j == 2 then 17 else 22)
    else if i < 32 then (if j == 0 then 5 else if j == 1 then 9 else if j == 2 then 14 else 20)
    else if i < 48 then (if j == 0 then 4 else if j == 1 then 11 else if j == 2 then 16 else 23)
    else (if j == 0 then 6 else if j == 1 then 10 else if j == 2 then 15 else 21)
  }

  // 4294967296 times abs(sin(i + 1)), rounded down, for the steps of each round.
  function T1(j: nat): Word {
    match j
    case 0 => 0xd76aa478
    case 1 => 0xe8c7b756
    case 2 => 0x242070db
    case 3 => 0xc1bdceee
    case 4 => 0xf57c0faf
    case 5 => 0x4787c62a
    case 6 => 0xa8304613
    case 7 => 0xfd469501
    case 8 => 0x698098d8
    case 9 => 0x8b44f7af
    case 10 => 0xffff5bb1
    case 11 => 0x895cd7be
    case 12 => 0x6b901122
    case 13 => 0xfd987193
    case 14 => 0xa679438e
    case 15 => 0x49b40821
    case _ => 0
  }

  function T2(j: nat): Word {
    match j
    case 0 => 0xf61e2562
    case 1 => 0xc040b340
    case 2 => 0x265e5a51
    case 3 => 0xe9b6c7aa
    case 4 => 0xd62f105d
    case 5 => 0x02441453
    case 6 => 0xd8a1e681
    case 7 => 0xe7d3fbc8
    case 8 => 0x21e1cde6
    case 9 => 0xc33707d6
    case 10 => 0xf4d50d87
    case 11 => 0x455a14ed
    case 12 => 0xa9e3e905
    case 13 => 0xfcefa3f8
    case 14 => 0x676f02d9
    case 15 => 0x8d2a4c8a
    case _ => 0
  }

  function T3(j: nat): Word {
    match j
    case 0 => 0xfffa3942
    case 1 => 0x8771f681
    case 2 => 0x6d9d6122
    case 3 => 0xfde5380c
    case 4 => 0xa4beea44
    case 5 => 0x4bdecfa9
    case 6 => 0xf6bb4b60
    case 7 => 0xbebfbc70
    case 8 => 0x289b7ec6
    case 9 => 0xeaa127fa
    case 10 => 0xd4ef3085
    case 11 => 0x04881d05
    case 12 => 0xd9d4d039
    case 13 => 0xe6db99e5
    case 14 => 0x1fa27cf8
    case 15 => 0xc4ac5665
    case _ => 0
  }

  function T4(j: nat): Word {
    match j
    case 0 => 0xf4292244
    case 1 => 0x432aff97
    case 2 => 0xab9423a7
    case 3 => 0xfc93a039
    case 4 => 0x655b59c3
    case 5 => 0x8f0ccc92
    case 6 => 0xffeff47d
    case 7 => 0x85845dd1
    case 8 => 0x6fa87e4f
    case 9 => 0xfe2ce6e0
    case 10 => 0xa3014314
    case 11 => 0x4e0811a1
    case 12 => 0xf7537e82
    case 13 => 0xbd3af235
    case 14 => 0x2ad7d2bb
    case 15 => 0xeb86d391
    case _ => 0
  }

  function T(i: nat): Word {
    if i < 16 then T1(i) else if i < 32 then T2(i - 16) else if i < 48 then T3(i - 32) else T4(i - 48)
  }

  function EntryOf(i: nat): Entry {
    Entry(Index(i), Shift(i), T(i))
  }

  function Step(op: Operation, e: Entry, r: Regs, x: Block): Regs {
    Regs(r.d, op(r, x[e.k], e.s, e.ti), r.b, r.c)
  }

  // The first n steps of the loop over all 64, with the operation and the entry of each step.
  function Loop(ops: nat -> Operation, entries: nat -> Entry, n: nat, r: Regs, x: Block): Regs
    decreases n, x
  {
    if n == 0 then r else Step(ops(n - 1), entries(n - 1), Loop(ops, entries, n - 1, r, x), x)
  }

  function AddRegs(r: Regs, s: Regs): Regs {
    Regs(Plus(r.a, s.a), Plus(r.b, s.b), Plus(r.c, s.c), Plus(r.d, s.d))
  }

  function Compress(r: Regs, x: Block): Regs {
    AddRegs(r, Loop(OperationOf, EntryOf, 64, r, x))
  }

  // ---------- The expanded form ----------

  const T_MASK: Word := 0xffffffff

  // The word, shift and constant arguments of four consecutive lines.
  datatype Quad = Quad(e0: Entry, e1: Entry, e2: Entry, e3: Entry)

  // The lines are steps i to i + 3 of a loop.
  ghost predicate AreSteps(op: Operation, q: Quad, ops: nat -> Operation, entries: nat -> Entry, i: nat) {
    && ops(i) == ops(i + 1) == ops(i + 2) == ops(i + 3) == op
    && entries(i) == q.e0 && entries(i + 1) == q.e1 && entries(i + 2) == q.e2 && entries(i + 3) == q.e3
  }

  // The lines of round 1.
  function Round1(n: nat): Quad {
    match n
    case 0 =>
      Quad(Entry(0, 7, T_MASK ^ 0x28955b87), Entry(1, 12, T_MASK ^ 0x173848a9),
           Entry(2, 17, 0x242070db), Entry(3, 22, T_MASK ^ 0x3e423111))
    case 1 =>
      Quad(Entry(4, 7, T_MASK ^ 0x0a83f050), Entry(5, 12, 0x4787c62a),
           Entry(6, 17, T_MASK ^ 0x57cfb9ec), Entry(7, 22, T_MASK ^ 0x02b96afe))
    case 2 =>
      Quad(Entry(8, 7, 0x698098d8), Entry(9, 12, T_MASK ^ 0x74bb0850),
           Entry(10, 17, T_MASK ^ 0x0000a44e), Entry(11, 22, T_MASK ^ 0x76a32841))
    case _ =>
      Quad(Entry(12, 7, 0x6b901122), Entry(13, 12, T_MASK ^ 0x02678e6c),
           Entry(14, 17, T_MASK ^ 0x5986bc71), Entry(15, 22, 0x49b40821))
  }

  // The lines of round 2.
  function Round2(n: nat): Quad {
    match n
    case 0 =>
      Quad(Entry(1, 5, T_MASK ^ 0x09e1da9d), Entry(6, 9, T_MASK ^ 0x3fbf4cbf),
           Entry(11, 14, 0x265e5a51), Entry(0, 20, T_MASK ^ 0x16493855))
    case 1 =>
      Quad(Entry(5, 5, T_MASK ^ 0x29d0efa2), Entry(10, 9, 0x02441453),
           Entry(15, 14, T_MASK ^ 0x275e197e), Entry(4, 20, T_MASK ^ 0x182c0437))
    case 2 =>
      Quad(Entry(9, 5, 0x21e1cde6), Entry(14, 9, T_MASK ^ 0x3cc8f829),
           Entry(3, 14, T_MASK ^ 0x0b2af278), Entry(8, 20, 0x455a14ed))
    case _ =>
      Quad(Entry(13, 5, T_MASK ^ 0x561c16fa), Entry(2, 9, T_MASK ^ 0x03105c07),
           Entry(7, 14, 0x676f02d9), Entry(12, 20, T_MASK ^ 0x72d5b375))
  }

  // The lines of round 3.
  function Round3(n: nat): Quad {
    match n
    case 0 =>
      Quad(Entry(5, 4, T_MASK ^ 0x0005c6bd), Entry(8, 11, T_MASK ^ 0x788e097e),
           Entry(11, 16, 0x6d9d6122), Entry(14, 23, T_MASK ^ 0x021ac7f3))
    case 1 =>
      Quad(Entry(1, 4, T_MASK ^ 0x5b4115bb), Entry(4, 11, 0x4bdecfa9),
           Entry(7, 16, T_MASK ^ 0x0944b49f), Entry(10, 23, T_MASK ^ 0x4140438f))
    case 2 =>
      Quad(Entry(13, 4, 0x289b7ec6), Entry(0, 11, T_MASK ^ 0x155ed805),
           Entry(3, 16, T_MASK ^ 0x2b10cf7a), Entry(6, 23, 0x04881d05))
    case _ =>
      Quad(Entry(9, 4, T_MASK ^ 0x262b2fc6), Entry(12, 11, T_MASK ^ 0x1924661a),
           Entry(15, 16, 0x1fa27cf8), Entry(2, 23, T_MASK ^ 0x3b53a99a))
  }

  // The lines of round 4.
  function Round4(n: nat): Quad {
    match n
    case 0 =>
      Quad(Entry(0, 6, T_MASK ^ 0x0bd6ddbb), Entry(7, 10, 0x432aff97),
           Entry(14, 15, T_MASK ^ 0x546bdc58), Entry(5, 21, T_MASK ^ 0x036c5fc6))
    case 1 =>
      Quad(Entry(12, 6, 0x655b59c3), Entry(3, 10, T_MASK ^ 0x70f3336d),
           Entry(10, 15, T_MASK ^ 0x00100b82), Entry(1, 21, T_MASK ^ 0x7a7ba22e))
    case 2 =>
      Quad(Entry(8, 6, 0x6fa87e4f), Entry(15, 10, T_MASK ^ 0x01d3191f),
           Entry(6, 15, T_MASK ^ 0x5cfebceb), Entry(13, 21, 0x4e0811a1))
    case _ =>
      Quad(Entry(4, 6, T_MASK ^ 0x08ac817d), Entry(11, 10, T_MASK ^ 0x42c50dca),
           Entry(2, 15, 0x2ad7d2bb), Entry(9, 21, T_MASK ^ 0x14792c6e))
  }

  lemma Round1Steps(n: nat)
    requires n < 4
    ensures AreSteps(OpF, Round1(n), OperationOf, EntryOf, 0 + 4 * n)
  {
    var q := Round1(n);
    var i := 0 + 4 * n;
    assert q.e0 == EntryOf(i) && q.e1 == EntryOf(i + 1) && q.e2 == EntryOf(i + 2) && q.e3 == EntryOf(i + 3);
  }

  lemma Round2Steps(n: nat)
    requires n < 4
    ensures AreSteps(OpG, Round2(n), OperationOf, EntryOf, 16 + 4 * n)
  {
    var q := Round2(n);
    var i := 16 + 4 * n;
    assert q.e0 == EntryOf(i) && q.e1 == EntryOf(i + 1) && q.e2 == EntryOf(i + 2) && q.e3 == EntryOf(i + 3);
  }

  lemma Round3Steps(n: nat)
    requires n < 4
    ensures AreSteps(OpH, Round3(n), OperationOf, EntryOf, 32 + 4 * n)
  {
    var q := Round3(n);
    var i := 32 + 4 * n;
    assert q.e0 == EntryOf(i) && q.e1 == EntryOf(i + 1) && q.e2 == EntryOf(i + 2) && q.e3 == EntryOf(i + 3);
  }

  lemma Round4Steps(n: nat)
    requires n < 4
    ensures AreSteps(OpI, Round4(n), OperationOf, EntryOf, 48 + 4 * n)
  {
    var q := Round4(n);
    var i := 48 + 4 * n;
    assert q.e0 == EntryOf(i) && q.e1 == EntryOf(i + 1) && q.e2 == EntryOf(i + 2) && q.e3 == EntryOf(i + 3);
  }

  // The operation and the arguments of the lines 4 * q to 4 * q + 3.
  function OpOfLines(q: nat): Operation {
    if q < 4 then OpF else if q < 8 then OpG else if q < 12 then OpH else OpI
  }

  function Lines(q: nat): Quad {
    if q < 4 then Round1(q) else if q < 8 then Round2(q - 4) else if q < 12 then Round3(q - 8) else Round4(q - 12)
  }

  ghost predicate AreAllSteps(op: nat -> Operation, lines: nat -> Quad, ops: nat -> Operation, entries: nat -> Entry) {
    forall q: nat | q < 16 :: AreSteps(op(q), lines(q), ops, entries, 4 * q)
  }

  lemma {:induction false} LinesAreSteps()
    ensures AreAllSteps(OpOfLines, Lines, OperationOf, EntryOf)
  {
    forall q: nat | q < 16
      ensures AreSteps(OpOfLines(q), Lines(q), OperationOf, EntryOf, 4 * q)
    {
      if q < 4 { Round1Steps(q); } else if q < 8 { Round2Steps(q - 4); }
      else if q < 12 { Round3Steps(q - 8); } else { Round4Steps(q - 12); }
    }
  }

  // Four expansions of the SET macro with rotating registers.
  method FourSets(
      op: nat -> Operation, lines: nat -> Quad, q: nat, a0: Word, b0: Word, c0: Word, d0: Word, x: Block,
      ghost ops: nat -> Operation, ghost entries: nat -> Entry, ghost r: Regs)
    returns (a: Word, b: Word, c: Word, d: Word)
    requires q < 16 && AreAllSteps(op, lines, ops, entries)
    requires Regs(a0, b0, c0, d0) == Loop(ops, entries, 4 * q, r, x)
    ensures Regs(a, b, c, d) == Loop(ops, entries, 4 * (q + 1), r, x)
  {
    var step, e := op(q), lines(q);
    ghost var i := 4 * q;
    assert AreSteps(step, e, ops, entries, i);
    a, b, c, d := a0, b0, c0, d0;
    a := step(Regs(a, b, c, d), x[e.e0.k], e.e0.s, e.e0.ti);
    assert Regs(d, a, b, c) == Loop(ops, entries, i + 1, r, x);
    d := step(Regs(d, a, b, c), x[e.e1.k], e.e1.s, e.e1.ti);
    assert Regs(c, d, a, b) == Loop(ops, entries, i + 2, r, x);
    c := step(Regs(c, d, a, b), x[e.e2.k], e.e2.s, e.e2.ti);
    assert Regs(b, c, d, a) == Loop(ops, entries, i + 3, r, x);
    b := step(Regs(b, c, d, a), x[e.e3.k], e.e3.s, e.e3.ti);
    assert Regs(a, b, c, d) == Loop(ops, entries, i + 4, r, x);
  }

  // The 16 lines of a round.
  method SixteenSets(
      op: nat -> Operation, lines: nat -> Quad, q: nat, a0: Word, b0: Word, c0: Word, d0: Word, x: Block,
      ghost ops: nat -> Operation, ghost entries: nat -> Entry, ghost r: Regs)
    returns (a: Word, b: Word, c: Word, d: Word)
    requires q + 4 <= 16 && AreAllSteps(op, lines, ops, entries)
    requires Regs(a0, b0, c0, d0) == Loop(ops, entries, 4 * q, r, x)
    ensures Regs(a, b, c, d) == Loop(ops, entries, 4 * (q + 4), r, x)
  {
    a, b, c, d := FourSets(op, lines, q, a0, b0, c0, d0, x, ops, entries, r);
    a, b, c, d := FourSets(op, lines, q + 1, a, b, c, d, x, ops, entries, r);
    a, b, c, d := FourSets(op, lines, q + 2, a, b, c, d, x, ops, entries, r);
    a, b, c, d := FourSets(op, lines, q + 3, a, b, c, d, x, ops, entries, r);
  }

  // The 64 lines.
  method SixtyFourSets(
      op: nat -> Operation, lines: nat -> Quad, a0: Word, b0: Word, c0: Word, d0: Word, x: Block,
      ghost ops: nat -> Operation, ghost entries: nat -> Entry, ghost n: nat)
    returns (a: Word, b: Word, c: Word, d: Word)
    requires AreAllSteps(op, lines, ops, entries) && n == 64
    ensures Regs(a, b, c, d) == Loop(ops, entries, n, Regs(a0, b0, c0, d0), x)
  {
    ghost var r := Regs(a0, b0, c0, d0);
    var q: nat := 0;
    a, b, c, d := SixteenSets(op, lines, q, a0, b0, c0, d0, x, ops, entries, r);
    a, b, c, d := SixteenSets(op, lines, q + 4, a, b, c, d, x, ops, entries, r);
    a, b, c, d := SixteenSets(op, lines, q + 8, a, b, c, d, x, ops, entries, r);
    a, b, c, d := SixteenSets(op, lines, q + 12, a, b, c, d, x, ops, entries, r);
  }

  // ---------- Bytes and words ----------

  // The word whose bytes, lowest first, are b0 to b3: what a little-endian machine reads from memory.
  function LittleEndianWord(b0: Byte, b1: Byte, b2: Byte, b3: Byte): Word {
    (b0 as Word) | ((b1 as Word) << 8) | ((b2 as Word) << 16) | ((b3 as Word) << 24)
  }

  // The bytes of a word, lowest first.
  function ByteOf(w: Word, j: nat): Byte
    requires j < 4
  {
    match j
    case 0 => (w & 0xff) as Byte
    case 1 => ((w >> 8) & 0xff) as Byte
    case 2 => ((w >> 16) & 0xff) as Byte
    case _ => ((w >> 24) & 0xff) as Byte
  }

  function BytesOf(w: Word): seq<Byte> {
    [ByteOf(w, 0), ByteOf(w, 1), ByteOf(w, 2), ByteOf(w, 3)]
  }

  // Taking a word apart and putting bytes together are inverse to each other.
  lemma BytesRoundTrip(w: Word, b0: Byte, b1: Byte, b2: Byte, b3: Byte)
    ensures LittleEndianWord(ByteOf(w, 0), ByteOf(w, 1), ByteOf(w, 2), ByteOf(w, 3)) == w
    ensures BytesOf(LittleEndianWord(b0, b1, b2, b3)) == [b0, b1, b2, b3]
  {
    assert ByteOf(w, 0) as Word == w & 0xff;
    assert ByteOf(w, 1) as Word == (w >> 8) & 0xff;
    assert ByteOf(w, 2) as Word == (w >> 16) & 0xff;
    assert ByteOf(w, 3) as Word == (w >> 24) & 0xff;
  }

  lemma LittleEndianSteps(b0: Byte, b1: Byte, b2: Byte, b3: Byte)
    ensures b3 as Word < 0x100_0000 && WithByte(b3 as Word, b2) < 0x100_0000
    ensures WithByte(WithByte(b3 as Word, b2), b1) < 0x100_0000
    ensures LittleEndianWord(b0, b1, b2, b3) == WithByte(WithByte(WithByte(b3 as Word, b2), b1), b0)
  {
  }

  // The lowest byte comes first.
  lemma LittleEndianNumber(num: Word -> nat, b0: Byte, b1: Byte, b2: Byte, b3: Byte)
    requires IsNumber(num)
    ensures num(LittleEndianWord(b0, b1, b2, b3))
            == b0 as nat + 0x100 * b1 as nat + 0x1_0000 * b2 as nat + 0x100_0000 * b3 as nat
  {
    LittleEndianSteps(b0, b1, b2, b3);
    NumberOfByte(num, b3);
    NumberWithByte(num, b3 as Word, b2);
    NumberWithByte(num, WithByte(b3 as Word, b2), b1);
    NumberWithByte(num, WithByte(WithByte(b3 as Word, b2), b1), b0);
  }

  // The sum that a big-endian machine computes is the same word.
  lemma SumOfBytes(b0: Byte, b1: Byte, b2: Byte, b3: Byte)
    ensures (b0 as Word) + ((b1 as Word) << 8) + ((b2 as Word) << 16) + ((b3 as Word) << 24)
            == LittleEndianWord(b0, b1, b2, b3)
  {
  }

  function WordAt(data: seq<Byte>, i: nat): Word
    requires 4 * i + 3 < |data|
  {
    LittleEndianWord(data[4 * i], data[4 * i + 1], data[4 * i + 2], data[4 * i + 3])
  }

  // The words of a block.
  function Words(data: seq<Byte>): Block
    requires |data| == 64
  {
    seq(16, i requires 0 <= i < 16 => WordAt(data, i))
  }

  method LoadWords(data: seq<Byte>, littleEndian: bool) returns (x: Block)
    requires |data| == 64
    ensures x == Words(data)
  {
    if littleEndian {
      x := seq(16, i requires 0 <= i < 16 => WordAt(data, i));
    } else {
      var xbuf := new Word[16];
      for i := 0 to 16
        invariant forall k :: 0 <= k < i ==> xbuf[k] == WordAt(data, k)
      {
        var b0, b1, b2, b3 := data[4 * i], data[4 * i + 1], data[4 * i + 2], data[4 * i + 3];
        SumOfBytes(b0, b1, b2, b3);
        xbuf[i] := (b0 as Word) + ((b1 as Word) << 8) + ((b2 as Word) << 16) + ((b3 as Word) << 24);
      }
      x := xbuf[..];
      assert forall k :: 0 <= k < 16 ==> x[k] == Words(data)[k];
    }
  }

  ghost function RegsOf(abcd: array<Word>): Regs
    requires abcd.Length == 4
    reads abcd
  {
    Regs(abcd[0], abcd[1], abcd[2], abcd[3])
  }

  // The additions at the end of a block.
  method AddTo(abcd: array<Word>, a: Word, b: Word, c: Word, d: Word)
    requires abcd.Length == 4
    modifies abcd
    ensures abcd[0] == Plus(old(abcd[0]), a) && abcd[1] == Plus(old(abcd[1]), b)
    ensures abcd[2] == Plus(old(abcd[2]), c) && abcd[3] == Plus(old(abcd[3]), d)
  {
    abcd[0] := Plus(abcd[0], a);
    abcd[1] := Plus(abcd[1], b);
    abcd[2] := Plus(abcd[2], c);
    abcd[3] := Plus(abcd[3], d);
  }

  // In numbers, registers are added modulo 2^32, each to its own.
  lemma AddRegsExact(num: Word -> nat, r: Regs, v: Regs)
    requires IsNumber(num)
    ensures var after := AddRegs(r, v);
            && num(after.a) == (num(r.a) + num(v.a)) % WORD_LIMIT
            && num(after.b) == (num(r.b) + num(v.b)) % WORD_LIMIT
            && num(after.c) == (num(r.c) + num(v.c)) % WORD_LIMIT
            && num(after.d) == (num(r.d) + num(v.d)) % WORD_LIMIT
  {
    NumberOfSum(num, r.a, v.a);
    NumberOfSum(num, r.b, v.b);
    NumberOfSum(num, r.c, v.c);
    NumberOfSum(num, r.d, v.d);
  }

  // md5_process.
  method Process(abcd: array<Word>, data: seq<Byte>, littleEndian: bool)
    requires abcd.Length == 4 && |data| == 64
    modifies abcd
    ensures RegsOf(abcd) == Compress(old(RegsOf(abcd)), Words(data))
    ensures var v := Loop(OperationOf, EntryOf, 64, old(RegsOf(abcd)), Words(data));
            && abcd[0] == Plus(old(abcd[0]), v.a) && abcd[1] == Plus(old(abcd[1]), v.b)
            && abcd[2] == Plus(old(abcd[2]), v.c) && abcd[3] == Plus(old(abcd[3]), v.d)
  {
    var x := LoadWords(data, littleEndian);
    LinesAreSteps();
    var a, b, c, d := SixtyFourSets(OpOfLines, Lines, abcd[0], abcd[1], abcd[2], abcd[3], x, OperationOf, EntryOf, 64);
    AddTo(abcd, a, b, c, d);
  }
}
