/**
 Archives for which sixteen rounds are not enough: fifteen of them, one just
 below each power of ten, so that every round carries one more place past its
 power and makes the descriptor one longer.
 */
module SealedChain {
  import opened Prelude
  import opened HtaData
  import opened SealedLayout
  import opened SealedLaws
  import opened SealedRounds
  import opened SealedSpacing
  import Decimal

  /** Lengths that put the archives after the first just below ten thousand, a hundred thousand and so on. */
  ghost predicate Stepped(archives: seq<Archive>) {
    && |archives| == 15 && archives[0].length == 4992 && 120 <= archives[14].length <= 1000
    && forall i :: 1 <= i < 14 ==> archives[i].length == 9 * Power10(i + 3) - 1
  }

  /** Where the `i`-th archive begins after a descriptor of the given length. */
  function PlaceOf(i: nat, length: nat): int { Power10(i + 3) - 4999 - i + length }

  /** The digits of the places from the `i`-th on. */
  function StepDigits(i: nat, length: nat): nat
    decreases 15 - i
  {
    if i >= 15 then 0 else i + 3 + (if length >= 4999 + i then 1 else 0) + StepDigits(i + 1, length)
  }

  lemma PlaceDigits(i: nat, length: nat)
    requires 1 <= i < 15 && length <= 5014
    ensures PlaceOf(i, length) >= 0 && DigitCount(PlaceOf(i, length)) == i + 3 + (if length >= 4999 + i then 1 else 0)
  {
    hide DigitCount;
    assert Power10(3) == 1000;
    PowersGrow(3, i + 2);
    assert Power10(i + 3) == 10 * Power10(i + 2) && Power10(i + 4) == 10 * Power10(i + 3);
    hide Power10;
    if length >= 4999 + i { ExactDigits(PlaceOf(i, length), i + 4); } else { ExactDigits(PlaceOf(i, length), i + 3); }
  }

  lemma {:induction false} DigitsFrom(archives: seq<Archive>, i: nat, length: nat)
    requires Stepped(archives) && 1 <= i <= 15 && length <= 5014 && PlaceOf(i, length) >= 0
    ensures OffsetDigits(Laid(archives[i..], PlaceOf(i, length))) == StepDigits(i, length)
    decreases 15 - i
  {
    hide DigitCount;
    if i < 15 {
      var rest, start := archives[i..], PlaceOf(i, length);
      PlaceDigits(i, length);
      assert rest[0] == archives[i] && rest[1..] == archives[i + 1..];
      assert Laid(rest, start)[1..] == Laid(rest[1..], start + archives[i].length);
      if i < 14 {
        assert Power10(i + 4) == 10 * Power10(i + 3);
        assert start + archives[i].length == PlaceOf(i + 1, length);
        DigitsFrom(archives, i + 1, length);
      } else {
        assert rest[1..] == [];
      }
    }
  }

  lemma AllDigits(archives: seq<Archive>, length: nat)
    requires Stepped(archives) && length <= 5014
    ensures Digits(archives, length) == DigitCount(8 + length) + StepDigits(1, length)
  {
    hide DigitCount;
    assert Power10(4) == 10000;
    assert PlaceOf(1, length) == 8 + length + archives[0].length;
    DigitsFrom(archives, 1, length);
    assert Laid(archives, 8 + length)[1..] == Laid(archives[1..], 8 + length + archives[0].length);
  }

  /** The digits of the places from the `i`-th on before any has passed its power. */
  function Below(i: nat): nat
    decreases 15 - i
  {
    if i >= 15 then 0 else i + 3 + Below(i + 1)
  }

  lemma {:induction false} StepsPassed(i: nat, length: nat)
    requires 1 <= i <= 15 && length <= 5013
    ensures StepDigits(i, length) == Below(i) + if length < 4999 + i then 0 else length - 4999 - i + 1
    decreases 15 - i
  {
    if i < 15 { StepsPassed(i + 1, length); }
  }

  lemma BelowIs()
    ensures Below(1) == 147
  {
    assert Below(13) == 16 + 17;
    assert Below(11) == 14 + 15 + 33;
    assert Below(9) == 12 + 13 + 62;
    assert Below(7) == 10 + 11 + 87;
    assert Below(5) == 8 + 9 + 108;
    assert Below(3) == 6 + 7 + 125;
  }

  lemma {:induction false} TotalFrom(archives: seq<Archive>, i: nat)
    requires Stepped(archives) && 1 <= i <= 14
    ensures TotalLength(archives[i..]) == Power10(17) - Power10(i + 3) - (14 - i) + archives[14].length
    decreases 14 - i
  {
    var rest := archives[i..];
    assert rest[0] == archives[i] && rest[1..] == archives[i + 1..];
    if i < 14 {
      assert Power10(i + 4) == 10 * Power10(i + 3);
      TotalFrom(archives, i + 1);
    } else {
      assert rest[1..] == [];
    }
  }

  lemma SteppedRoomy(archives: seq<Archive>)
    requires Stepped(archives)
    ensures Roomy(archives, 4849)
  {
    hide Power10;
    TotalFrom(archives, 1);
    assert TotalLength(archives) == 4992 + TotalLength(archives[1..]);
    EighteenDigits();
    assert Power10(18) == 10 * Power10(17) by { LastPower(); }
    PowersGrow(0, 4);
  }

  lemma LastPower()
    ensures Power10(18) == 10 * Power10(17)
  {
  }

  /** Each round the next archive passes its power of ten. */
  lemma {:induction false} OneMoreEachRound(lib: Library, entry: string, archives: seq<Archive>, k: nat)
    requires PrintsDecimals(lib, entry, archives, 4849) && Stepped(archives) && k <= 16
    ensures Guess(lib, entry, archives, k) == if k == 0 then 0 else if k == 1 then 4997 else 4998 + k
  {
    hide PrintsDecimals, Stepped, Digits, Describe, DigitCount, StepDigits;
    if k > 0 {
      OneMoreEachRound(lib, entry, archives, k - 1);
      var before := Guess(lib, entry, archives, k - 1);
      NextGuess(lib, entry, archives, 4849, k - 1);
      AllDigits(archives, before);
      StepsPassed(1, before);
      BelowIs();
      FourDigits(8 + before);
    }
  }

  lemma FourDigits(n: nat)
    ensures n < 10 ==> DigitCount(n) == 1
    ensures 1000 <= n < 10000 ==> DigitCount(n) == 4
  {
    hide DigitCount;
    TenfoldDigits(n);
    assert Power10(3) == 1000 && Power10(4) == 10000;
    if 1000 <= n < 10000 { ExactDigits(n, 4); }
  }

  /**
   Fifteen archives, none of them tiny, do not converge, although the length the
   rounds end at is the right one.  They reach up to the seventeenth power of ten.
   */
  lemma FifteenMayNot(lib: Library, entry: string, archives: seq<Archive>)
    requires PrintsDecimals(lib, entry, archives, 4849) && Stepped(archives)
    ensures AllAtLeast(archives, PACKAGE_BYTES)
    ensures FixedPoint(lib, entry, archives, 0, ROUNDS) == Err(NoConvergence)
    ensures |Describe(lib, entry, archives, 5014)| == 5014 && RoundFits(archives, 5014)
  {
    NoneTiny(archives);
    hide PrintsDecimals, Stepped, FixedPoint, Describe, Roomy, AllAtLeast, RoundFits;
    SteppedRoomy(archives);
    ConvergesWhenStopped(lib, entry, archives, 4849, 0);
    FirstGuess(lib, entry, archives);
    hide Guess;
    forall k | 0 <= k < ROUNDS ensures Guess(lib, entry, archives, k + 1) != Guess(lib, entry, archives, k) {
      OneMoreEachRound(lib, entry, archives, k);
      OneMoreEachRound(lib, entry, archives, k + 1);
    }
    OneMoreEachRound(lib, entry, archives, 16);
    GuessBound(lib, entry, archives, 4849, 16);
    EndsRight(lib, entry, archives);
  }

  lemma EndsRight(lib: Library, entry: string, archives: seq<Archive>)
    requires PrintsDecimals(lib, entry, archives, 4849) && Stepped(archives)
    ensures |Describe(lib, entry, archives, 5014)| == 5014
  {
    hide Stepped, DigitCount, StepDigits, OffsetDigits;
    LaidIsSame(archives, HEADER_BYTES + 5014);
    AllDigits(archives, 5014);
    AllPassed(1);
    BelowIs();
    FourDigits(8 + 5014);
  }

  lemma {:induction false} AllPassed(i: nat)
    requires 1 <= i <= 15
    ensures StepDigits(i, 5014) == Below(i) + 15 - i
    decreases 15 - i
  {
    if i < 15 { AllPassed(i + 1); }
  }

  lemma NoneTiny(archives: seq<Archive>)
    requires Stepped(archives)
    ensures AllAtLeast(archives, PACKAGE_BYTES)
  {
    hide Power10;
    forall a | a in archives ensures a.length >= 120 {
      var i :| 0 <= i < 15 && archives[i] == a;
      if 1 <= i < 14 { BigStep(i); }
    }
  }

  lemma BigStep(i: nat)
    ensures 9 * Power10(i + 3) - 1 >= 120
  {
    assert Power10(3) == 1000;
    PowersGrow(3, i + 3);
  }

  // ----- Such archives exist -----

  /** A descriptor of fixed text followed by the places in decimal. */
  function Spelled(laid: seq<Archive>): (r: Bytes)
    ensures |r| == OffsetDigits(laid)
  {
    if laid == [] then [] else Letters(Decimal.DigitsOf(laid[0].offset)) + Spelled(laid[1..])
  }

  function Letters(digits: string): (r: Bytes)
    requires forall c <- digits :: Decimal.IsDigit(c)
    ensures |r| == |digits|
  {
    if digits == [] then [] else [48 + Decimal.DigitValue(digits[0])] + Letters(digits[1..])
  }

  function Plain(base: nat): Library {
    Library(b => b, b => "", (entry: string, laid: seq<Archive>) => seq(base, _ => 32) + Spelled(laid), b => None)
  }

  lemma PlainPrints(entry: string, archives: seq<Archive>, base: nat)
    ensures PrintsDecimals(Plain(base), entry, archives, base)
  {
  }

  function StepLength(i: nat): nat {
    PowersGrow(0, i + 3);
    if i == 0 then 4992 else if i < 14 then 9 * Power10(i + 3) - 1 else 120
  }

  /** So a list of archives with a descriptor that is true of itself is given up. */
  lemma NotReached(entry: string, a: Archive)
    ensures
      var archives := seq(15, (i: nat) => a.(length := StepLength(i)));
      AllAtLeast(archives, PACKAGE_BYTES) &&
      FixedPoint(Plain(4849), entry, archives, 0, ROUNDS) == Err(NoConvergence) &&
      |Describe(Plain(4849), entry, archives, 5014)| == 5014 && RoundFits(archives, 5014)
  {
    hide Plain, PrintsDecimals, FixedPoint, Describe, RoundFits, AllAtLeast, Power10;
    var archives := seq(15, (i: nat) => a.(length := StepLength(i)));
    PlainPrints(entry, archives, 4849);
    FifteenMayNot(Plain(4849), entry, archives);
  }
}
