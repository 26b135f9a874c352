/**
 How many rounds the descriptor needs when no archive is tiny.  Places lie at
 least an archive apart, so a short move carries few of them past a power of
 ten, and the rounds settle quickly however many archives there are.
 */
module SealedSpacing {
  import opened HtaData
  import opened SealedLayout
  import opened SealedLaws
  import opened SealedRounds

  predicate AllAtLeast(archives: seq<Archive>, m: nat) { forall a <- archives :: a.length >= m }

  /** How many archives, laid from `start` on, begin at `t` or after. */
  function From(archives: seq<Archive>, start: nat, t: nat): (n: nat)
    ensures n <= |archives|
  {
    if archives == [] then 0
    else (if start >= t then 1 else 0) + From(archives[1..], start + archives[0].length, t)
  }

  lemma {:induction false} AllFrom(archives: seq<Archive>, start: nat, t: nat)
    requires start >= t
    ensures From(archives, start, t) == |archives|
    decreases |archives|
  {
    if archives != [] { AllFrom(archives[1..], start + archives[0].length, t); }
  }

  /** Few archives begin in a short stretch. */
  lemma {:induction false} FewBefore(archives: seq<Archive>, start: nat, t: nat, m: nat)
    requires AllAtLeast(archives, m) && start < t
    ensures m * (|archives| - From(archives, start, t) - 1) < t - start
    decreases |archives|
  {
    if archives == [] {
      assert m * -1 <= 0;
    } else {
      var rest, next := archives[1..], start + archives[0].length;
      assert archives[0] in archives;
      var before := |rest| - From(rest, next, t);
      assert |archives| - From(archives, start, t) - 1 == before;
      if next < t {
        FewBefore(rest, next, t, m);
        assert m * before == m * (before - 1) + m;
      } else {
        AllFrom(rest, next, t);
      }
    }
  }

  /** A move by `w` carries at most one archive past a mark, and one more for every `m` of it. */
  lemma {:induction false} FewPass(archives: seq<Archive>, start: nat, w: nat, t: nat, m: nat)
    requires AllAtLeast(archives, m)
    ensures From(archives, start + w, t) >= From(archives, start, t)
    ensures
      var d := From(archives, start + w, t) - From(archives, start, t);
      d == 0 || m * (d - 1) < w
    decreases |archives|
  {
    if archives != [] {
      var rest, next := archives[1..], start + archives[0].length;
      if start >= t {
        AllFrom(archives, start, t);
        AllFrom(archives, start + w, t);
      } else if start + w >= t {
        FewBefore(archives, start, t, m);
        AllFrom(archives, start + w, t);
        var d := From(archives, start + w, t) - From(archives, start, t);
        assert m * (d - 1) < t - start;
      } else {
        FewPass(rest, next, w, t, m);
      }
    }
  }

  // ----- Digits by powers of ten -----

  /** How many of the powers from the `q`-th up to the `p`-th a number has reached. */
  function Reached(n: nat, q: nat, p: nat): nat
    requires q <= p
    decreases p - q
  {
    if q == p then 0 else (if n >= Power10(q) then 1 else 0) + Reached(n, q + 1, p)
  }

  lemma {:induction false} PowersGrow(q: nat, p: nat)
    requires q <= p
    ensures 1 <= Power10(q) <= Power10(p)
    decreases p
  {
    if q < p { PowersGrow(q, p - 1); } else if q > 0 { PowersGrow(q - 1, q - 1); }
  }

  lemma {:induction false} NoneReached(n: nat, q: nat, p: nat)
    requires q <= p && n < Power10(q)
    ensures Reached(n, q, p) == 0
    decreases p - q
  {
    if q < p {
      PowersGrow(q, q + 1);
      NoneReached(n, q + 1, p);
    }
  }

  /** The digits of a number count the powers of ten it has reached. */
  lemma {:induction false} DigitsReached(n: nat, q: nat, p: nat)
    requires 1 <= q <= p && Power10(q - 1) <= n < Power10(p)
    ensures DigitCount(n) == q + Reached(n, q, p)
    decreases p - q
  {
    hide DigitCount;
    if n < Power10(q) {
      NoneReached(n, q, p);
      ExactDigits(n, q);
    } else {
      assert q < p;
      DigitsReached(n, q + 1, p);
    }
  }

  lemma {:induction false} ExactDigits(n: nat, q: nat)
    requires 1 <= q && Power10(q - 1) <= n < Power10(q)
    ensures DigitCount(n) == q
    decreases q
  {
    hide DigitCount;
    TenfoldDigits(n);
    if q > 1 {
      PowersGrow(0, q - 2);
      assert Power10(q - 1) == 10 * Power10(q - 2) && Power10(q) == 10 * Power10(q - 1);
      ExactDigits(n / 10, q - 1);
    }
  }

  /** How many archives begin at each of the powers from the `q`-th up to the `p`-th, or after. */
  function Tally(archives: seq<Archive>, start: nat, q: nat, p: nat): nat
    requires q <= p
    decreases p - q
  {
    if q == p then 0 else From(archives, start, Power10(q)) + Tally(archives, start, q + 1, p)
  }

  lemma {:induction false} TallyFirst(archives: seq<Archive>, start: nat, q: nat, p: nat)
    requires q <= p && archives != []
    ensures Tally(archives, start, q, p)
         == Reached(start, q, p) + Tally(archives[1..], start + archives[0].length, q, p)
    decreases p - q
  {
    if q < p { TallyFirst(archives, start, q + 1, p); }
  }

  lemma {:induction false} TallyNone(start: nat, q: nat, p: nat)
    requires q <= p
    ensures Tally([], start, q, p) == 0
    decreases p - q
  {
    if q < p { TallyNone(start, q + 1, p); }
  }

  /** All digits of all places, power by power. */
  lemma {:induction false} DigitsTally(archives: seq<Archive>, start: nat, q: nat, p: nat)
    requires 1 <= q <= p && Power10(q - 1) <= start && start + TotalLength(archives) < Power10(p)
    ensures OffsetDigits(Laid(archives, start)) == q * |archives| + Tally(archives, start, q, p)
    decreases |archives|
  {
    hide DigitCount, Power10, Tally, Reached;
    if archives == [] {
      TallyNone(start, q, p);
    } else {
      var rest, next := archives[1..], start + archives[0].length;
      DigitsReached(start, q, p);
      DigitsTally(rest, next, q, p);
      TallyFirst(archives, start, q, p);
      assert Laid(archives, start)[1..] == Laid(rest, next);
      assert q * |archives| == q + q * |rest|;
    }
  }

  // ----- A short move adds few digits -----

  function Ceiling(w: nat, m: nat): nat
    requires m > 0
  {
    (w + m - 1) / m
  }

  lemma AtMost(d: nat, w: nat, m: nat)
    requires m > 0 && (d == 0 || m * (d - 1) < w)
    ensures d <= Ceiling(w, m)
  {
    if d > 0 {
      var c := Ceiling(w, m);
      assert w + m - 1 < m * (c + 1);
      assert d > c ==> m * (d - 1) >= m * c;
    }
  }

  lemma {:induction false} TallyGrows(archives: seq<Archive>, start: nat, w: nat, q: nat, p: nat, m: nat)
    requires q <= p && m > 0 && AllAtLeast(archives, m)
    ensures Tally(archives, start + w, q, p) <= Tally(archives, start, q, p) + (p - q) * Ceiling(w, m)
    decreases p - q
  {
    hide Ceiling, Power10, From;
    if q < p {
      TallyGrows(archives, start, w, q + 1, p, m);
      FewPass(archives, start, w, Power10(q), m);
      AtMost(From(archives, start + w, Power10(q)) - From(archives, start, Power10(q)), w, m);
      assert (p - q) * Ceiling(w, m) == Ceiling(w, m) + (p - q - 1) * Ceiling(w, m);
    }
  }

  /** Digits added by a move, from three-digit places on. */
  lemma DigitsGrow(archives: seq<Archive>, start: nat, w: nat, p: nat, m: nat)
    requires 3 <= p && m > 0 && AllAtLeast(archives, m)
    requires 100 <= start && start + w + TotalLength(archives) < Power10(p)
    ensures OffsetDigits(Laid(archives, start + w)) <= OffsetDigits(Laid(archives, start)) + (p - 3) * Ceiling(w, m)
  {
    assert Power10(2) == 100;
    hide Power10, Tally, Ceiling;
    DigitsTally(archives, start, 3, p);
    DigitsTally(archives, start + w, 3, p);
    TallyGrows(archives, start, w, 3, p, m);
  }

  // ----- Rounds -----

  /** What the sealer hands over: archives of at least `m` bytes, a payload below the `p`-th power of ten. */
  ghost predicate Spaced(lib: Library, entry: string, archives: seq<Archive>, base: nat, m: nat, p: nat) {
    && PrintsDecimals(lib, entry, archives, base) && base >= 92
    && m > 0 && AllAtLeast(archives, m) && 3 <= p <= 18
    && HEADER_BYTES + base + 20 * |archives| + TotalLength(archives) < Power10(p)
  }

  lemma SpacedRoomy(lib: Library, entry: string, archives: seq<Archive>, base: nat, m: nat, p: nat)
    requires Spaced(lib, entry, archives, base, m, p)
    ensures Roomy(archives, base)
  {
    PowersGrow(p, 18);
    EighteenDigits();
  }

  lemma EighteenDigits()
    ensures Power10(18) == 1000000000000000000 < TWO_63
  {
    assert Power10(6) == 1000000;
    assert Power10(12) == 1000000000000;
    assert Power10(18) == 1000000000000000000;
  }

  /** How far two successive guesses are apart. */
  function Gap(lib: Library, entry: string, archives: seq<Archive>, k: nat): int {
    Guess(lib, entry, archives, k + 1) - Guess(lib, entry, archives, k)
  }

  lemma {:induction false} LaterGuess(lib: Library, entry: string, archives: seq<Archive>, base: nat, j: nat, k: nat)
    requires PrintsDecimals(lib, entry, archives, base) && j <= k
    ensures Guess(lib, entry, archives, j) <= Guess(lib, entry, archives, k)
    decreases k
  {
    hide PrintsDecimals, Guess;
    if j < k {
      GuessesGrow(lib, entry, archives, base, k - 1);
      LaterGuess(lib, entry, archives, base, j, k - 1);
    }
  }

  /** Guesses after the first lie as close together as the digits added by the move between the ones before. */
  lemma GuessesNear(lib: Library, entry: string, archives: seq<Archive>, base: nat, m: nat, p: nat, j: nat, k: nat)
    requires Spaced(lib, entry, archives, base, m, p) && 1 <= j <= k
    ensures
      var a, b := Guess(lib, entry, archives, j), Guess(lib, entry, archives, k);
      a <= b && Guess(lib, entry, archives, k + 1) <= Guess(lib, entry, archives, j + 1) + (p - 3) * Ceiling(b - a, m)
  {
    hide PrintsDecimals, Guess, Power10, OffsetDigits, Laid, Ceiling;
    SpacedRoomy(lib, entry, archives, base, m, p);
    var a, b := Guess(lib, entry, archives, j), Guess(lib, entry, archives, k);
    LaterGuess(lib, entry, archives, base, j, k);
    GuessBound(lib, entry, archives, base, j - 1);
    GuessBound(lib, entry, archives, base, k);
    NextGuess(lib, entry, archives, base, j);
    NextGuess(lib, entry, archives, base, k);
    DigitsGrow(archives, HEADER_BYTES + a, b - a, p, m);
  }

  /** A bound on the gap between guesses that shrinks by `m` from round to round. */
  function Narrow(m: nat, d: nat, bound: nat, k: nat): nat
    requires m > 0
  {
    if k == 0 then bound else d * Ceiling(Narrow(m, d, bound, k - 1), m)
  }

  lemma CeilingGrows(a: nat, b: nat, m: nat)
    requires m > 0 && a <= b
    ensures Ceiling(a, m) <= Ceiling(b, m)
  {
    AtMost(Ceiling(a, m), b, m) by {
      var c := Ceiling(a, m);
      if c > 0 { assert m * (c - 1) == m * c - m && m * c <= a + m - 1; }
    }
  }

  lemma {:induction false} DigitsAtMost(archives: seq<Archive>, start: nat, p: nat)
    requires p > 0 && start + TotalLength(archives) < Power10(p)
    ensures |archives| <= OffsetDigits(Laid(archives, start)) <= p * |archives|
    decreases |archives|
  {
    hide DigitCount, Power10;
    if archives != [] {
      var rest, next := archives[1..], start + archives[0].length;
      DigitCountBound(start, p);
      OneDigit(start);
      DigitsAtMost(rest, next, p);
      assert Laid(archives, start)[1..] == Laid(rest, next);
      assert p * |archives| == p + p * |rest|;
    }
  }

  lemma FirstGap(lib: Library, entry: string, archives: seq<Archive>, base: nat, m: nat, p: nat)
    requires Spaced(lib, entry, archives, base, m, p)
    ensures 0 <= Gap(lib, entry, archives, 1) <= (p - 1) * |archives|
  {
    hide PrintsDecimals, Guess, Power10, OffsetDigits, Laid;
    SpacedRoomy(lib, entry, archives, base, m, p);
    GuessesGrow(lib, entry, archives, base, 1);
    GuessBound(lib, entry, archives, base, 0);
    GuessBound(lib, entry, archives, base, 1);
    NextGuess(lib, entry, archives, base, 0);
    NextGuess(lib, entry, archives, base, 1);
    DigitsAtMost(archives, HEADER_BYTES + Guess(lib, entry, archives, 0), p);
    DigitsAtMost(archives, HEADER_BYTES + Guess(lib, entry, archives, 1), p);
    assert p * |archives| - |archives| == (p - 1) * |archives|;
  }

  lemma GapStep(lib: Library, entry: string, archives: seq<Archive>, base: nat, m: nat, p: nat, k: nat)
    requires Spaced(lib, entry, archives, base, m, p) && k >= 1
    ensures Gap(lib, entry, archives, k) >= 0 && Gap(lib, entry, archives, k + 1) >= 0
    ensures Gap(lib, entry, archives, k + 1) <= (p - 3) * Ceiling(Gap(lib, entry, archives, k), m)
  {
    hide Guess, Ceiling, PrintsDecimals, Power10;
    GuessesGrow(lib, entry, archives, base, k);
    GuessesGrow(lib, entry, archives, base, k + 1);
    GuessesNear(lib, entry, archives, base, m, p, k, k + 1);
  }

  lemma {:induction false} GapNarrows(
    lib: Library, entry: string, archives: seq<Archive>, base: nat, m: nat, p: nat, bound: nat, k: nat)
    requires Spaced(lib, entry, archives, base, m, p) && 0 <= Gap(lib, entry, archives, 1) <= bound
    ensures 0 <= Gap(lib, entry, archives, 1 + k) <= Narrow(m, p - 3, bound, k)
  {
    hide Spaced, Gap, Ceiling;
    SpacedParts(lib, entry, archives, base, m, p);
    if k > 0 {
      GapNarrows(lib, entry, archives, base, m, p, bound, k - 1);
      GapStep(lib, entry, archives, base, m, p, k);
      var before, after := Gap(lib, entry, archives, k), Narrow(m, p - 3, bound, k - 1);
      CeilingGrows(before, after, m);
      Times(p - 3, Ceiling(before, m), Ceiling(after, m));
    }
  }

  lemma OneCeiling(m: nat)
    requires m > 0
    ensures Ceiling(m, m) == 1
  {
    assert (m + m - 1) / m == 1;
  }

  lemma Times(d: nat, a: nat, b: nat)
    requires a <= b
    ensures d * a <= d * b
  {
  }

  /** Once a gap is small the guesses grow by no more than one digit per power of ten. */
  lemma {:induction false} SmallGap(
    lib: Library, entry: string, archives: seq<Archive>, base: nat, m: nat, p: nat, j: nat, k: nat)
    requires Spaced(lib, entry, archives, base, m, p) && 1 <= j < k
    requires Gap(lib, entry, archives, j) + (p - 3) <= m
    ensures Guess(lib, entry, archives, k) <= Guess(lib, entry, archives, j + 1) + (p - 3)
    decreases k
  {
    hide Spaced, Guess, Ceiling;
    SpacedParts(lib, entry, archives, base, m, p);
    if k > j + 1 {
      SmallGap(lib, entry, archives, base, m, p, j, k - 1);
      GuessesNear(lib, entry, archives, base, m, p, j, k - 1);
      var w := Guess(lib, entry, archives, k - 1) - Guess(lib, entry, archives, j);
      CeilingGrows(w, m, m);
      OneCeiling(m);
      Times(p - 3, Ceiling(w, m), 1);
    }
  }

  lemma SpacedParts(lib: Library, entry: string, archives: seq<Archive>, base: nat, m: nat, p: nat)
    requires Spaced(lib, entry, archives, base, m, p)
    ensures PrintsDecimals(lib, entry, archives, base) && m > 0 && 3 <= p
  {
  }

  lemma {:induction false} ClimbsFrom(
    lib: Library, entry: string, archives: seq<Archive>, base: nat, j: nat, k: nat)
    requires PrintsDecimals(lib, entry, archives, base) && j <= k && !Stops(lib, entry, archives, 0, k)
    ensures Guess(lib, entry, archives, k) >= Guess(lib, entry, archives, j) + k - j
    decreases k
  {
    hide PrintsDecimals, Guess;
    if k > j {
      GuessesGrow(lib, entry, archives, base, k - 1);
      assert Guess(lib, entry, archives, k - 1 + 1) != Guess(lib, entry, archives, k - 1);
      ClimbsFrom(lib, entry, archives, base, j, k - 1);
    }
  }

  /**
   Archives of at least `m` bytes converge within the sixteen rounds when the
   bound on the gap is small enough after `j` of them.
   */
  lemma SpacedConverge(lib: Library, entry: string, archives: seq<Archive>, base: nat, m: nat, p: nat, j: nat)
    requires Spaced(lib, entry, archives, base, m, p) && j >= 1 && j + (p - 3) <= ROUNDS - 2
    requires Narrow(m, p - 3, (p - 1) * |archives|, j - 1) + (p - 3) <= m
    ensures FixedPoint(lib, entry, archives, 0, ROUNDS).Ok?
  {
    hide Spaced, Guess, FixedPoint, Narrow, PrintsDecimals, Roomy;
    SpacedParts(lib, entry, archives, base, m, p);
    SpacedRoomy(lib, entry, archives, base, m, p);
    FirstGap(lib, entry, archives, base, m, p);
    GapNarrows(lib, entry, archives, base, m, p, (p - 1) * |archives|, j - 1);
    SmallGap(lib, entry, archives, base, m, p, j, ROUNDS);
    ConvergesWhenStopped(lib, entry, archives, base, 0);
    FirstGuess(lib, entry, archives);
    if !Stops(lib, entry, archives, 0, ROUNDS) { ClimbsFrom(lib, entry, archives, base, j + 1, ROUNDS); }
  }

  lemma FirstGuess(lib: Library, entry: string, archives: seq<Archive>)
    ensures Guess(lib, entry, archives, 0) == 0
  {
  }

  // ----- Packages -----

  /** The least size of a package: a zip file holding `package.edn`, with its two headers and the end record. */
  const PACKAGE_BYTES := 30 + 11 + 46 + 11 + 22

  lemma {:induction false} NarrowGrows(m: nat, d: nat, a: nat, b: nat, k: nat)
    requires m > 0 && a <= b
    ensures Narrow(m, d, a, k) <= Narrow(m, d, b, k)
  {
    hide Ceiling;
    if k > 0 {
      NarrowGrows(m, d, a, b, k - 1);
      CeilingGrows(Narrow(m, d, a, k - 1), Narrow(m, d, b, k - 1), m);
      Times(d, Ceiling(Narrow(m, d, a, k - 1), m), Ceiling(Narrow(m, d, b, k - 1), m));
    }
  }

  lemma {:induction false} TotalAtLeast(archives: seq<Archive>, m: nat)
    requires AllAtLeast(archives, m)
    ensures m * |archives| <= TotalLength(archives)
    decreases |archives|
  {
    if archives != [] {
      assert archives[0] in archives;
      TotalAtLeast(archives[1..], m);
      assert m * |archives| == m + m * |archives[1..]|;
    }
  }

  lemma TenDigits()
    ensures Power10(10) == 10000000000
  {
    assert Power10(5) == 100000;
  }

  lemma ManyNarrow()
    ensures Narrow(120, 7, 750000000, 6) == 35
  {
    assert Narrow(120, 7, 750000000, 1) == 43750000;
    assert Narrow(120, 7, 750000000, 2) == 2552088;
    assert Narrow(120, 7, 750000000, 3) == 148876;
    assert Narrow(120, 7, 750000000, 4) == 8687;
    assert Narrow(120, 7, 750000000, 5) == 511;
  }

  /** Any number of packages converges, as long as the payload stays below ten thousand million bytes. */
  lemma PackagesConverge(lib: Library, entry: string, archives: seq<Archive>, base: nat)
    requires Spaced(lib, entry, archives, base, PACKAGE_BYTES, 10)
    ensures FixedPoint(lib, entry, archives, 0, ROUNDS).Ok?
  {
    hide FixedPoint, Narrow, PrintsDecimals, Power10;
    TenDigits();
    TotalAtLeast(archives, 120);
    ManyNarrow();
    NarrowGrows(120, 7, 9 * |archives|, 750000000, 6);
    SpacedConverge(lib, entry, archives, base, 120, 10, 7);
  }

  lemma FewNarrow()
    ensures Narrow(120, 10, 12000, 2) == 90
  {
    assert Narrow(120, 10, 12000, 1) == 1000;
  }

  /** Up to a thousand packages converge below ten million million bytes. */
  lemma ThousandConverge(lib: Library, entry: string, archives: seq<Archive>, base: nat)
    requires Spaced(lib, entry, archives, base, PACKAGE_BYTES, 13) && |archives| <= 1000
    ensures FixedPoint(lib, entry, archives, 0, ROUNDS).Ok?
  {
    hide FixedPoint, Narrow, Spaced;
    FewNarrow();
    NarrowGrows(120, 10, 12 * |archives|, 12000, 2);
    SpacedConverge(lib, entry, archives, base, 120, 13, 3);
  }
}
