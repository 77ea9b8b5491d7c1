/** Words and the numbers they stand for correspond one to one. */
module PoolWords {
  import opened Numbers
  import opened Pool

  // ----- Single bits -----

  predicate TopClear(m: bv64) { m & 0x8000_0000_0000_0000 == 0 }

  function Up(m: bv64): bv64 { m << 1 }

  lemma HalfOfJoin(c: bv64, odd: bool)
    requires TopClear(c)
    ensures Half(Join(c, odd)) == c
  {
  }

  lemma OddJoin(c: bv64, odd: bool)
    ensures Odd(Join(c, odd)) == odd
  {
  }

  lemma JoinOfHalf(b: bv64)
    ensures Join(Half(b), Odd(b)) == b
  {
  }

  lemma HalfOfUp(m: bv64)
    requires TopClear(m)
    ensures Half(Up(m)) == m && !Odd(Up(m))
  {
  }

  predicate Meet(a: bv64, b: bv64) { a & b != 0 }

  lemma JoinMisses(c: bv64, odd: bool, m: bv64)
    requires !Odd(m) && !Meet(c, Half(m))
    ensures !Meet(Join(c, odd), m)
  {
  }

  lemma NothingMeets(m: bv64)
    ensures !Meet(0, m)
  {
  }

  lemma TopClearIs(c: bv64)
    ensures TopClear(c) <==> !Meet(c, 0x8000_0000_0000_0000)
  {
  }

  // ----- Words of n digits do not reach higher -----

  /** The low `n` bits of `m` are zero. */
  predicate LowClear(m: bv64, n: nat) {
    n > 0 ==> !Odd(m) && LowClear(Half(m), n - 1)
  }

  lemma {:induction false} NoHighDigits(x: nat, n: nat, m: bv64)
    requires LowClear(m, n)
    ensures !Meet(ToDigits(x, n), m)
  {
    hide Meet, Odd, Half, Join;
    if n == 0 {
      NothingMeets(m);
    } else {
      NoHighDigits(x / 2, n - 1, Half(m));
      JoinMisses(ToDigits(x / 2, n - 1), x % 2 == 1, m);
    }
  }

  lemma OneUp(m: bv64, n: nat)
    requires TopClear(m) && LowClear(m, n)
    ensures LowClear(Up(m), n + 1)
  {
    HalfOfUp(m);
    hide Up, Half, Odd, TopClear;
  }

  function EightUp(m: bv64): bv64 { m << 8 }

  predicate ByteClear(m: bv64) { m & 0xff00_0000_0000_0000 == 0 }

  lemma UpEightTimes(m: bv64)
    ensures EightUp(m) == Up(Up(Up(Up(Up(Up(Up(Up(m))))))))
  {
  }

  lemma RoomForEight(m: bv64)
    requires ByteClear(m)
    ensures TopClear(m) && TopClear(Up(m)) && TopClear(Up(Up(m))) && TopClear(Up(Up(Up(m))))
    ensures TopClear(Up(Up(Up(Up(m))))) && TopClear(Up(Up(Up(Up(Up(m))))))
    ensures TopClear(Up(Up(Up(Up(Up(Up(m))))))) && TopClear(Up(Up(Up(Up(Up(Up(Up(m))))))))
  {
  }

  lemma ByteUp(m: bv64, n: nat)
    requires ByteClear(m) && LowClear(m, n)
    ensures LowClear(EightUp(m), n + 8)
  {
    RoomForEight(m);
    UpEightTimes(m);
    hide *;
    OneUp(m, n);
    OneUp(Up(m), n + 1);
    OneUp(Up(Up(m)), n + 2);
    OneUp(Up(Up(Up(m))), n + 3);
    OneUp(Up(Up(Up(Up(m)))), n + 4);
    OneUp(Up(Up(Up(Up(Up(m))))), n + 5);
    OneUp(Up(Up(Up(Up(Up(Up(m)))))), n + 6);
    OneUp(Up(Up(Up(Up(Up(Up(Up(m))))))), n + 7);
  }

  lemma TopIsHigh()
    ensures LowClear(0x8000_0000_0000_0000, 63)
  {
    assert LowClear(0x80, 7) by { assert LowClear(0x10, 4) by { assert LowClear(0x2, 1); } }
    hide LowClear;
    ByteUp(0x80, 7);
    ByteUp(0x8000, 15);
    ByteUp(0x80_0000, 23);
    ByteUp(0x8000_0000, 31);
    ByteUp(0x80_0000_0000, 39);
    ByteUp(0x8000_0000_0000, 47);
    ByteUp(0x80_0000_0000_0000, 55);
  }

  lemma {:induction false} LowerThanHigh(m: bv64, n: nat, k: nat)
    requires k <= n && LowClear(m, n)
    ensures LowClear(m, k)
    decreases n
  {
    hide Odd, Half;
    if k > 0 { LowerThanHigh(Half(m), n - 1, k - 1); }
  }

  lemma ShortWordsHaveNoTop(x: nat, n: nat)
    requires n <= 63
    ensures TopClear(ToDigits(x, n))
  {
    hide *;
    TopIsHigh();
    LowerThanHigh(0x8000_0000_0000_0000, 63, n);
    NoHighDigits(x, n, 0x8000_0000_0000_0000);
    TopClearIs(ToDigits(x, n));
  }

  // ----- The correspondence -----

  lemma {:induction false} DigitsSpell(x: nat, n: nat)
    requires n <= 64 && x < Power2(n)
    ensures OfDigits(ToDigits(x, n), n) == x
  {
    hide Odd, Half, Join, TopClear;
    if n > 0 {
      var c := ToDigits(x / 2, n - 1);
      ShortWordsHaveNoTop(x / 2, n - 1);
      HalfOfJoin(c, x % 2 == 1);
      OddJoin(c, x % 2 == 1);
      DigitsSpell(x / 2, n - 1);
    }
  }

  /** `b` has no bits from the n-th on. */
  predicate Fits(b: bv64, n: nat) {
    if n == 0 then b == 0 else Fits(Half(b), n - 1)
  }

  lemma {:induction false} SpelledDigits(b: bv64, n: nat)
    requires Fits(b, n)
    ensures ToDigits(OfDigits(b, n), n) == b
    decreases n
  {
    hide Odd, Half, Join;
    if n > 0 {
      SpelledDigits(Half(b), n - 1);
      JoinOfHalf(b);
      var odd, rest := if Odd(b) then 1 else 0, OfDigits(Half(b), n - 1);
      assert (2 * rest + odd) / 2 == rest && (2 * rest + odd) % 2 == odd;
    }
  }

  function EightDown(b: bv64): bv64 { b >> 8 }

  lemma HalfEightTimes(b: bv64)
    ensures EightDown(b) == Half(Half(Half(Half(Half(Half(Half(Half(b))))))))
  {
  }

  lemma FitsOneMore(b: bv64, n: nat)
    requires Fits(Half(b), n)
    ensures Fits(b, n + 1)
  {
  }

  lemma FitsByteMore(b: bv64, n: nat)
    requires Fits(EightDown(b), n)
    ensures Fits(b, n + 8)
  {
    HalfEightTimes(b);
    hide *;
    FitsOneMore(Half(Half(Half(Half(Half(Half(Half(b))))))), n);
    FitsOneMore(Half(Half(Half(Half(Half(Half(b)))))), n + 1);
    FitsOneMore(Half(Half(Half(Half(Half(b))))), n + 2);
    FitsOneMore(Half(Half(Half(Half(b)))), n + 3);
    FitsOneMore(Half(Half(Half(b))), n + 4);
    FitsOneMore(Half(Half(b)), n + 5);
    FitsOneMore(Half(b), n + 6);
    FitsOneMore(b, n + 7);
  }

  lemma EightBytesDown(b: bv64)
    ensures EightDown(EightDown(EightDown(EightDown(EightDown(EightDown(EightDown(EightDown(b)))))))) == 0
  {
  }

  lemma EveryWordFits(b: bv64)
    ensures Fits(b, 64)
  {
    EightBytesDown(b);
    assert Fits(0, 0);
    hide *;
    FitsByteMore(EightDown(EightDown(EightDown(EightDown(EightDown(EightDown(EightDown(b))))))), 0);
    FitsByteMore(EightDown(EightDown(EightDown(EightDown(EightDown(EightDown(b)))))), 8);
    FitsByteMore(EightDown(EightDown(EightDown(EightDown(EightDown(b))))), 16);
    FitsByteMore(EightDown(EightDown(EightDown(EightDown(b)))), 24);
    FitsByteMore(EightDown(EightDown(EightDown(b))), 32);
    FitsByteMore(EightDown(EightDown(b)), 40);
    FitsByteMore(EightDown(b), 48);
    FitsByteMore(b, 56);
  }

  /** Numbers and words correspond one to one. */
  lemma BitsOfWord(x: U64)
    ensures OfBits(ToBits(x)) == x
  {
    WordRange();
    hide OfDigits, ToDigits, Power2;
    DigitsSpell(x, 64);
  }

  lemma WordOfBits(b: bv64)
    ensures ToBits(OfBits(b)) == b
  {
    hide OfDigits, ToDigits;
    EveryWordFits(b);
    SpelledDigits(b, 64);
  }
}
