/**
 How many rounds the descriptor needs.  Sixteen are enough for thirteen
 archives, whatever their sizes and wherever they lie.
 */
module SealedRounds {
  import opened Prelude
  import opened HtaData
  import opened SealedLayout
  import opened SealedLaws

  /** All digits of the places after a descriptor of the given length. */
  function Digits(archives: seq<Archive>, length: nat): nat { OffsetDigits(Laid(archives, HEADER_BYTES + length)) }

  lemma NextGuess(lib: Library, entry: string, archives: seq<Archive>, base: nat, k: nat)
    requires PrintsDecimals(lib, entry, archives, base)
    ensures Guess(lib, entry, archives, k + 1) == base + Digits(archives, Guess(lib, entry, archives, k))
  {
    hide OffsetDigits, Laid;
    LaidIsSame(archives, HEADER_BYTES + Guess(lib, entry, archives, k));
  }

  // ----- Bounds on the digits -----

  lemma {:induction false} DigitsWithin(archives: seq<Archive>, start: nat)
    requires start + TotalLength(archives) < TWO_64
    ensures |archives| <= OffsetDigits(Laid(archives, start)) <= 20 * |archives|
    decreases |archives|
  {
    hide DigitCount;
    if archives != [] {
      SixtyFourBits(start);
      OneDigit(start);
      DigitsWithin(archives[1..], start + archives[0].length);
      assert Laid(archives, start)[1..] == Laid(archives[1..], start + archives[0].length);
    }
  }

  lemma OneDigit(n: nat)
    ensures DigitCount(n) >= 1
  {
  }

  /** Moving all places by less than nine times the first adds at most one digit to each. */
  lemma {:induction false} DigitsNear(archives: seq<Archive>, start: nat, more: nat)
    requires more <= 9 * start
    ensures OffsetDigits(Laid(archives, start + more)) <= OffsetDigits(Laid(archives, start)) + |archives|
    decreases |archives|
  {
    hide DigitCount;
    if archives != [] {
      var next := start + archives[0].length;
      DigitCountNear(start, more);
      DigitsNear(archives[1..], next, more);
      assert Laid(archives, start)[1..] == Laid(archives[1..], next);
      assert Laid(archives, start + more)[1..] == Laid(archives[1..], next + more);
    }
  }

  lemma {:induction false} LaidBelow(archives: seq<Archive>, start: nat)
    requires start + TotalLength(archives) < TWO_63
    ensures forall a <- Laid(archives, start) :: a.offset < TWO_63 && a.length < TWO_63
    decreases |archives|
  {
    if archives != [] { LaidBelow(archives[1..], start + archives[0].length); }
  }

  /** Room for the longest descriptor these archives can have. */
  predicate Roomy(archives: seq<Archive>, base: nat) {
    HEADER_BYTES + base + 20 * |archives| + TotalLength(archives) < TWO_63
  }

  lemma {:induction false} GuessBound(lib: Library, entry: string, archives: seq<Archive>, base: nat, k: nat)
    requires PrintsDecimals(lib, entry, archives, base) && Roomy(archives, base)
    ensures Guess(lib, entry, archives, k) <= base + 20 * |archives|
    ensures RoundFits(archives, Guess(lib, entry, archives, k))
    ensures Guess(lib, entry, archives, k + 1) >= base + |archives|
  {
    hide PrintsDecimals, Describe, OffsetDigits;
    if k > 0 {
      GuessBound(lib, entry, archives, base, k - 1);
      var before := Guess(lib, entry, archives, k - 1);
      NextGuess(lib, entry, archives, base, k - 1);
      DigitsWithin(archives, HEADER_BYTES + before);
    }
    var g := Guess(lib, entry, archives, k);
    NextGuess(lib, entry, archives, base, k);
    DigitsWithin(archives, HEADER_BYTES + g);
    LaidBelow(archives, HEADER_BYTES + g);
  }

  // ----- Rounds -----

  /** The guesses stop changing at some round below `limit`. */
  ghost predicate Stops(lib: Library, entry: string, archives: seq<Archive>, from: nat, limit: nat) {
    exists k :: from <= k < limit && Guess(lib, entry, archives, k + 1) == Guess(lib, entry, archives, k)
  }

  /** The loop succeeds exactly when two guesses in a row agree within its rounds. */
  lemma {:induction false} ConvergesWhenStopped(lib: Library, entry: string, archives: seq<Archive>, base: nat, k: nat)
    requires PrintsDecimals(lib, entry, archives, base) && Roomy(archives, base) && k <= ROUNDS
    ensures
      var r := FixedPoint(lib, entry, archives, Guess(lib, entry, archives, k), ROUNDS - k);
      if Stops(lib, entry, archives, k, ROUNDS) then r.Ok? else r == Err(NoConvergence)
    decreases ROUNDS - k
  {
    hide PrintsDecimals, Describe, RoundFits, Roomy;
    if k < ROUNDS {
      GuessBound(lib, entry, archives, base, k);
      ConvergesWhenStopped(lib, entry, archives, base, k + 1);
    }
  }

  /** While the guesses keep changing each is at least one more than the last. */
  lemma {:induction false} ClimbsByOne(lib: Library, entry: string, archives: seq<Archive>, base: nat, k: nat)
    requires PrintsDecimals(lib, entry, archives, base) && k >= 2 && !Stops(lib, entry, archives, 0, k)
    ensures Guess(lib, entry, archives, k) >= Guess(lib, entry, archives, 2) + k - 2
  {
    hide PrintsDecimals, Guess;
    if k > 2 {
      GuessesGrow(lib, entry, archives, base, k - 1);
      assert Guess(lib, entry, archives, k - 1 + 1) != Guess(lib, entry, archives, k - 1);
      ClimbsByOne(lib, entry, archives, base, k - 1);
    }
  }

  lemma {:induction false} LaterIsMore(lib: Library, entry: string, archives: seq<Archive>, base: nat, k: nat)
    requires PrintsDecimals(lib, entry, archives, base) && k >= 1
    ensures Guess(lib, entry, archives, k) >= Guess(lib, entry, archives, 1)
  {
    hide PrintsDecimals, Guess;
    if k > 1 {
      GuessesGrow(lib, entry, archives, base, k - 1);
      LaterIsMore(lib, entry, archives, base, k - 1);
    }
  }

  /** From the second guess on, no guess is more than one digit per archive ahead. */
  lemma NarrowWindow(lib: Library, entry: string, archives: seq<Archive>, base: nat, k: nat)
    requires PrintsDecimals(lib, entry, archives, base) && Roomy(archives, base) && k >= 1
    requires 10 * |archives| <= 72 + 9 * base
    ensures Guess(lib, entry, archives, k + 1) <= Guess(lib, entry, archives, 2) + |archives|
  {
    hide PrintsDecimals, Guess, OffsetDigits, Laid;
    var first, now := Guess(lib, entry, archives, 1), Guess(lib, entry, archives, k);
    GuessBound(lib, entry, archives, base, 0);
    GuessBound(lib, entry, archives, base, k);
    LaterIsMore(lib, entry, archives, base, k);
    NextGuess(lib, entry, archives, base, 1);
    NextGuess(lib, entry, archives, base, k);
    DigitsNear(archives, HEADER_BYTES + first, now - first);
  }

  /**
   Up to thirteen archives always converge.  (The bound on the fixed text is
   met by any text of seven characters, and by any at all for seven archives.)
   */
  lemma ThirteenConverge(lib: Library, entry: string, archives: seq<Archive>, base: nat)
    requires PrintsDecimals(lib, entry, archives, base) && Roomy(archives, base)
    requires |archives| <= 13 && 10 * |archives| <= 72 + 9 * base
    ensures FixedPoint(lib, entry, archives, 0, ROUNDS).Ok?
  {
    hide PrintsDecimals, Roomy, FixedPoint, Describe;
    ConvergesWhenStopped(lib, entry, archives, base, 0);
    assert Guess(lib, entry, archives, 0) == 0;
    hide Guess;
    if !Stops(lib, entry, archives, 0, ROUNDS) {
      ClimbsByOne(lib, entry, archives, base, ROUNDS);
      NarrowWindow(lib, entry, archives, base, ROUNDS - 1);
    }
  }

  lemma TenfoldDigits(n: nat)
    ensures DigitCount(n) == if n < 10 then 1 else 1 + DigitCount(n / 10)
  {
  }
}
