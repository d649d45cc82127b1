// Words as numbers: `+` on the words of DebugClient/md5.cpp is addition modulo 2^32, as section 2 of
// RFC 1321 has it.
module WordNumbers {
  import opened Bytes

  const WORD_LIMIT := 0x1_0000_0000
  const MAX_WORD: Word := 0xffff_ffff

  lemma HalfIsLess(w: Word)
    requires w != 0
    ensures w >> 1 < w
  {
  }

  // The number whose binary digits are the bits of the word.
  function Number(w: Word): nat
    decreases w
  {
    if w == 0 then 0
    else
      HalfIsLess(w);
      2 * Number(w >> 1) + if w & 1 == 1 then 1 else 0
  }

  // The same without recursion, which keeps it out of the proofs: Number is such a function, and the only one.
  ghost predicate IsNumber(num: Word -> nat) {
    num(0) == 0 && forall w :: HalvesAt(num, w)
  }

  ghost predicate HalvesAt(num: Word -> nat, w: Word) {
    num(w) == 2 * num(w >> 1) + if w & 1 == 1 then 1 else 0
  }

  lemma NumberIsNumber()
    ensures IsNumber(Number)
  {
    forall w ensures HalvesAt(Number, w) {
      assert (0 as Word) >> 1 == 0;
    }
  }

  lemma {:induction false} NumberIsUnique(num: Word -> nat, w: Word)
    requires IsNumber(num)
    ensures num(w) == Number(w)
    decreases w
  {
    assert HalvesAt(num, w);
    if w != 0 {
      HalfIsLess(w);
      NumberIsUnique(num, w >> 1);
    }
  }

  // ---------- One more ----------

  lemma NextOfEven(w: Word)
    requires w & 1 != 1
    ensures (w + 1) >> 1 == w >> 1 && (w + 1) & 1 == 1
  {
  }

  lemma NextOfOdd(w: Word)
    requires w & 1 == 1 && w != MAX_WORD
    ensures (w + 1) >> 1 == (w >> 1) + 1 && (w + 1) & 1 != 1 && w >> 1 != MAX_WORD
  {
  }

  lemma NumberAfterEven(num: Word -> nat, w: Word)
    requires IsNumber(num) && w & 1 != 1
    ensures num(w + 1) == num(w) + 1
  {
    NextOfEven(w);
    assert HalvesAt(num, w) && HalvesAt(num, w + 1);
  }

  lemma NumberAfterOdd(num: Word -> nat, w: Word)
    requires IsNumber(num) && w & 1 == 1 && w != MAX_WORD
    ensures num(w + 1) == num(w) - 1 + 2 * (num((w >> 1) + 1) - num(w >> 1))
  {
    NextOfOdd(w);
    assert HalvesAt(num, w) && HalvesAt(num, w + 1);
  }

  lemma {:induction false} NumberOfNext(num: Word -> nat, w: Word)
    requires IsNumber(num) && w != MAX_WORD
    ensures num(w + 1) == num(w) + 1
    decreases num(w)
  {
    if w & 1 == 1 {
      assert HalvesAt(num, w);
      NextOfOdd(w);
      NumberOfNext(num, w >> 1);
      NumberAfterOdd(num, w);
    } else {
      NumberAfterEven(num, w);
    }
  }

  // Each line halves twice.
  lemma NumberOfMax(num: Word -> nat)
    requires IsNumber(num)
    ensures num(MAX_WORD) == WORD_LIMIT - 1
  {
    assert HalvesAt(num, 0xffff_ffff) && HalvesAt(num, 0x7fff_ffff);
    assert HalvesAt(num, 0x3fff_ffff) && HalvesAt(num, 0x1fff_ffff);
    assert HalvesAt(num, 0x0fff_ffff) && HalvesAt(num, 0x07ff_ffff);
    assert HalvesAt(num, 0x03ff_ffff) && HalvesAt(num, 0x01ff_ffff);
    assert HalvesAt(num, 0x00ff_ffff) && HalvesAt(num, 0x007f_ffff);
    assert HalvesAt(num, 0x003f_ffff) && HalvesAt(num, 0x001f_ffff);
    assert HalvesAt(num, 0x000f_ffff) && HalvesAt(num, 0x0007_ffff);
    assert HalvesAt(num, 0x0003_ffff) && HalvesAt(num, 0x0001_ffff);
    assert HalvesAt(num, 0xffff) && HalvesAt(num, 0x7fff);
    assert HalvesAt(num, 0x3fff) && HalvesAt(num, 0x1fff);
    assert HalvesAt(num, 0x0fff) && HalvesAt(num, 0x07ff);
    assert HalvesAt(num, 0x03ff) && HalvesAt(num, 0x01ff);
    assert HalvesAt(num, 0x00ff) && HalvesAt(num, 0x007f);
    assert HalvesAt(num, 0x003f) && HalvesAt(num, 0x001f);
    assert HalvesAt(num, 0x000f) && HalvesAt(num, 0x0007);
    assert HalvesAt(num, 0x0003) && HalvesAt(num, 0x0001);
  }

  lemma ComplementIsLess(w: Word)
    requires w != MAX_WORD
    ensures !(w + 1) < !w
  {
  }

  lemma {:induction false} NumberBound(num: Word -> nat, w: Word)
    requires IsNumber(num)
    ensures num(w) < WORD_LIMIT
    decreases !w
  {
    if w == MAX_WORD {
      NumberOfMax(num);
    } else {
      ComplementIsLess(w);
      NumberBound(num, w + 1);
      NumberOfNext(num, w);
    }
  }

  // ---------- Sums ----------

  lemma NextWraps(num: Word -> nat, w: Word)
    requires IsNumber(num)
    ensures num(w) < WORD_LIMIT
    ensures num(w + 1) == if num(w) < WORD_LIMIT - 1 then num(w) + 1 else 0
  {
    if w == MAX_WORD {
      NumberOfMax(num);
    } else {
      NumberOfNext(num, w);
      NumberBound(num, w + 1);
    }
  }

  // The number of a + b is the sum of the numbers, up to one wrap.
  ghost predicate SumAt(num: Word -> nat, a: Word, b: Word) {
    num(a + b) == num(a) + num(b) || num(a + b) + WORD_LIMIT == num(a) + num(b)
  }

  lemma SumStep(num: Word -> nat, a: Word, b: Word)
    requires IsNumber(num) && b != 0
    ensures num(a) < WORD_LIMIT && num(b) == num(b - 1) + 1 < WORD_LIMIT && num(a + (b - 1)) < WORD_LIMIT
    ensures num(a + b) == if num(a + (b - 1)) < WORD_LIMIT - 1 then num(a + (b - 1)) + 1 else 0
  {
    assert b - 1 + 1 == b && b - 1 != MAX_WORD && a + (b - 1) + 1 == a + b;
    NumberOfNext(num, b - 1);
    NumberBound(num, a);
    NumberBound(num, b);
    NextWraps(num, a + (b - 1));
  }

  lemma SumOn(num: Word -> nat, a: Word, b: Word)
    requires IsNumber(num) && b != 0 && SumAt(num, a, b - 1)
    ensures SumAt(num, a, b)
  {
    SumStep(num, a, b);
  }

  lemma {:induction false} SumsUpTo(num: Word -> nat, n: nat)
    requires IsNumber(num)
    ensures forall a, b :: num(b) <= n ==> SumAt(num, a, b)
  {
    if n != 0 {
      SumsUpTo(num, n - 1);
    }
    forall a, b | num(b) <= n ensures SumAt(num, a, b) {
      if b == 0 {
        assert a + 0 == a;
      } else {
        OneBefore(num, b);
        assert SumAt(num, a, b - 1);
        SumOn(num, a, b);
      }
    }
  }

  lemma OneBefore(num: Word -> nat, w: Word)
    requires IsNumber(num) && w != 0
    ensures num(w) == num(w - 1) + 1
  {
    assert w - 1 + 1 == w && w - 1 != MAX_WORD;
    NumberOfNext(num, w - 1);
  }

  function Plus(a: Word, b: Word): Word {
    a + b
  }

  // Adding words is adding numbers modulo 2^32.
  lemma NumberOfSum(num: Word -> nat, a: Word, b: Word)
    requires IsNumber(num)
    ensures num(Plus(a, b)) == (num(a) + num(b)) % WORD_LIMIT
  {
    SumsUpTo(num, num(b));
    assert SumAt(num, a, b);
    NumberBound(num, a + b);
  }

  // ---------- Bytes ----------

  lemma OneByteLess(b: Byte)
    requires b != 0
    ensures b - 1 < b && b as nat == (b - 1) as nat + 1
    ensures (b - 1) as Word + 1 == b as Word && (b - 1) as Word != MAX_WORD
  {
  }

  lemma {:induction false} NumberOfByte(num: Word -> nat, b: Byte)
    requires IsNumber(num)
    ensures num(b as Word) == b as nat
    decreases b
  {
    if b == 0 {
      assert b as Word == 0;
    } else {
      OneByteLess(b);
      NumberOfByte(num, b - 1);
      NumberOfNext(num, (b - 1) as Word);
    }
  }

  lemma NumberOfDouble(num: Word -> nat, w: Word)
    requires IsNumber(num) && w < 0x8000_0000
    ensures num(w << 1) == 2 * num(w)
  {
    assert (w << 1) >> 1 == w && (w << 1) & 1 != 1;
    assert HalvesAt(num, w << 1);
  }

  lemma NumberOfFourfold(num: Word -> nat, w: Word)
    requires IsNumber(num) && w < 0x4000_0000
    ensures num(w << 2) == 4 * num(w)
  {
    NumberOfDouble(num, w);
    NumberOfDouble(num, w << 1);
    assert w << 2 == (w << 1) << 1;
  }

  lemma NumberShiftedByFour(num: Word -> nat, w: Word)
    requires IsNumber(num) && w < 0x1000_0000
    ensures num(w << 4) == 0x10 * num(w)
  {
    NumberOfFourfold(num, w);
    NumberOfFourfold(num, w << 2);
    assert w << 4 == (w << 2) << 2;
  }

  lemma NumberShiftedByEight(num: Word -> nat, w: Word)
    requires IsNumber(num) && w < 0x100_0000
    ensures num(w << 8) == 0x100 * num(w)
  {
    NumberShiftedByFour(num, w);
    NumberShiftedByFour(num, w << 4);
    assert w << 8 == (w << 4) << 4;
  }

  // A word with one more byte, below the others.
  function WithByte(w: Word, b: Byte): Word {
    Plus(w << 8, b as Word)
  }

  lemma SmallSum(num: Word -> nat, a: Word, b: Word)
    requires IsNumber(num) && num(a) + num(b) < WORD_LIMIT
    ensures num(Plus(a, b)) == num(a) + num(b)
  {
    NumberOfSum(num, a, b);
  }

  lemma NumberWithByte(num: Word -> nat, w: Word, b: Byte)
    requires IsNumber(num) && w < 0x100_0000
    ensures num(WithByte(w, b)) == 0x100 * num(w) + b as nat
  {
    NumberShiftedByEight(num, w);
    NumberBound(num, w << 8);
    NumberOfByte(num, b);
    assert num(w) < 0x100_0000 && b as nat < 0x100;
    SmallSum(num, w << 8, b as Word);
  }
}
