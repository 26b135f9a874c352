/** What sealing promises: a descriptor that is true of itself, and a file that opens to what was sealed. */
module SealedLaws {
  import opened HtaData
  import opened SealedLayout
  import Decimal

  // ----- Decimal lengths -----

  function DigitCount(n: nat): nat { |Decimal.DigitsOf(n)| }

  lemma {:induction false} DigitCountGrows(m: nat, n: nat)
    requires m <= n
    ensures DigitCount(m) <= DigitCount(n)
    decreases n
  {
    if n >= 10 {
      if m >= 10 { DigitCountGrows(m / 10, n / 10); }
    }
  }

  /** Growing at most tenfold adds at most one digit. */
  lemma DigitCountNear(n: nat, more: nat)
    requires more <= 9 * n
    ensures DigitCount(n + more) <= DigitCount(n) + 1
  {
    if n + more >= 10 { DigitCountGrows((n + more) / 10, n); }
  }

  function Power10(k: nat): nat { if k == 0 then 1 else 10 * Power10(k - 1) }

  lemma {:induction false} DigitCountBound(n: nat, k: nat)
    requires k > 0 && n < Power10(k)
    ensures DigitCount(n) <= k
    decreases k
  {
    if n >= 10 {
      assert k > 1;
      DigitCountBound(n / 10, k - 1);
    }
  }

  lemma SixtyFourBits(n: nat)
    requires n < TWO_64
    ensures DigitCount(n) <= 20
  {
    assert Power10(5) == 100000;
    assert Power10(10) == 10000000000;
    assert Power10(15) == 1000000000000000;
    assert Power10(20) == 100000000000000000000;
    DigitCountBound(n, 20);
  }

  // ----- The descriptor's length -----

  function OffsetDigits(archives: seq<Archive>): nat {
    if archives == [] then 0 else DigitCount(archives[0].offset) + OffsetDigits(archives[1..])
  }

  /** The same archives, wherever they are. */
  predicate SameArchives(a: seq<Archive>, b: seq<Archive>) {
    |a| == |b| && forall i :: 0 <= i < |a| ==> a[i] == b[i].(offset := a[i].offset)
  }

  /** Printing depends on the places only through their decimal text. */
  ghost predicate PrintsDecimals(lib: Library, entry: string, archives: seq<Archive>, base: nat) {
    forall laid | SameArchives(laid, archives) :: |(lib.printer)(entry, laid)| == base + OffsetDigits(laid)
  }

  lemma {:induction false} LaidIsSame(archives: seq<Archive>, start: nat)
    ensures SameArchives(Laid(archives, start), archives)
    decreases |archives|
  {
    if archives != [] {
      LaidIsSame(archives[1..], start + archives[0].length);
    }
  }

  lemma {:induction false} LaidGrows(archives: seq<Archive>, m: nat, n: nat)
    requires m <= n
    ensures OffsetDigits(Laid(archives, m)) <= OffsetDigits(Laid(archives, n))
    decreases |archives|
  {
    if archives != [] {
      DigitCountGrows(m, n);
      LaidGrows(archives[1..], m + archives[0].length, n + archives[0].length);
      assert Laid(archives, m)[1..] == Laid(archives[1..], m + archives[0].length);
      assert Laid(archives, n)[1..] == Laid(archives[1..], n + archives[0].length);
    }
  }

  /** A longer guess never gives a shorter descriptor. */
  lemma DescribeGrows(lib: Library, entry: string, archives: seq<Archive>, base: nat, m: nat, n: nat)
    requires PrintsDecimals(lib, entry, archives, base) && m <= n
    ensures |Describe(lib, entry, archives, m)| <= |Describe(lib, entry, archives, n)|
  {
    LaidIsSame(archives, HEADER_BYTES + m);
    LaidIsSame(archives, HEADER_BYTES + n);
    LaidGrows(archives, HEADER_BYTES + m, HEADER_BYTES + n);
  }

  /** The lengths tried, round after round. */
  function Guess(lib: Library, entry: string, archives: seq<Archive>, k: nat): nat {
    if k == 0 then 0 else |Describe(lib, entry, archives, Guess(lib, entry, archives, k - 1))|
  }

  /** Descriptor lengths never decrease across rounds. */
  lemma {:induction false} GuessesGrow(lib: Library, entry: string, archives: seq<Archive>, base: nat, k: nat)
    requires PrintsDecimals(lib, entry, archives, base)
    ensures Guess(lib, entry, archives, k) <= Guess(lib, entry, archives, k + 1)
  {
    hide PrintsDecimals, Describe;
    if k > 0 {
      GuessesGrow(lib, entry, archives, base, k - 1);
      DescribeGrows(lib, entry, archives, base, Guess(lib, entry, archives, k - 1), Guess(lib, entry, archives, k));
    }
  }

  /** A returned descriptor is true of itself: printed with the archives laid right after it. */
  lemma {:induction false} FixedPointIsFixed(
    lib: Library, entry: string, archives: seq<Archive>, length: nat, rounds: nat)
    requires FixedPoint(lib, entry, archives, length, rounds).Ok?
    ensures var d := FixedPoint(lib, entry, archives, length, rounds).value;
      d == Describe(lib, entry, archives, |d|) && RoundFits(archives, |d|)
    decreases rounds
  {
    hide Describe, RoundFits;
    var d := Describe(lib, entry, archives, length);
    if |d| != length { FixedPointIsFixed(lib, entry, archives, |d|, rounds - 1); }
  }
}
