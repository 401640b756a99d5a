/** The file names of tools/release_ledger.py: a decimal number padded to eight digits, a time stamp
    and a release id. Sorting them is what puts the history in order. */
module LedgerNames {
  import opened Orders

  const LIMIT: nat := 100_000_000

  function Digit(d: nat): char
    requires d < 10
  {
    ['0', '1', '2', '3', '4', '5', '6', '7', '8', '9'][d]
  }

  function Digits(n: nat): string {
    if n < 10 then [Digit(n)] else Digits(n / 10) + [Digit(n % 10)]
  }

  function Zeros(k: int): string {
    if k <= 0 then "" else "0" + Zeros(k - 1)
  }

  /** A number with zeros in front up to eight digits, and no fewer digits than it has. */
  function Pad8(n: nat): string {
    Zeros(8 - |Digits(n)|) + Digits(n)
  }

  function Name(n: nat, stamp: string, id: string): string {
    Pad8(n) + "-" + stamp + "-" + id + ".json"
  }

  /** Exactly w digits. */
  function Fixed(n: nat, w: nat): string {
    if w == 0 then "" else Fixed(n / 10, w - 1) + [Digit(n % 10)]
  }

  function Pow10(w: nat): nat {
    if w == 0 then 1 else 10 * Pow10(w - 1)
  }

  // ----- fixed-width numerals sort like numbers -----

  lemma {:induction false} CommonPrefix(p: string, a: string, b: string)
    ensures Before(p + a, p + b) <==> Before(a, b)
  {
    if p == "" {
      assert p + a == a && p + b == b;
    } else {
      assert (p + a)[1..] == p[1..] + a && (p + b)[1..] == p[1..] + b;
      CommonPrefix(p[1..], a, b);
    }
  }

  lemma DigitOrder(c: nat, d: nat, x: string, y: string)
    requires c < d < 10
    ensures Before([Digit(c)] + x, [Digit(d)] + y) && !Before([Digit(d)] + y, [Digit(c)] + x)
  {
  }

  /** The smaller number comes strictly first whatever follows the two numerals. */
  lemma {:induction false} FixedOrder(m: nat, n: nat, w: nat, x: string, y: string)
    requires m < n < Pow10(w)
    ensures Before(Fixed(m, w) + x, Fixed(n, w) + y) && !Before(Fixed(n, w) + y, Fixed(m, w) + x)
  {
    if w == 0 {
    } else {
      var c, d := m % 10, n % 10;
      assert Fixed(m, w) + x == Fixed(m / 10, w - 1) + ([Digit(c)] + x);
      assert Fixed(n, w) + y == Fixed(n / 10, w - 1) + ([Digit(d)] + y);
      if m / 10 < n / 10 {
        FixedOrder(m / 10, n / 10, w - 1, [Digit(c)] + x, [Digit(d)] + y);
      } else {
        DigitOrder(c, d, x, y);
        CommonPrefix(Fixed(m / 10, w - 1), [Digit(c)] + x, [Digit(d)] + y);
        CommonPrefix(Fixed(m / 10, w - 1), [Digit(d)] + y, [Digit(c)] + x);
      }
    }
  }

  // ----- padding gives fixed width below the limit -----

  lemma {:induction false} ZerosSnoc(k: nat)
    ensures Zeros(k + 1) == Zeros(k) + "0"
  {
    if k == 0 {
    } else {
      ZerosSnoc(k - 1);
    }
  }

  lemma {:induction false} FixedZero(w: nat)
    ensures Fixed(0, w) == Zeros(w)
  {
    if w == 0 {
    } else {
      FixedZero(w - 1);
      ZerosSnoc(w - 1);
    }
  }

  lemma {:induction false} PaddedIsFixed(n: nat, w: nat)
    requires w > 0 && n < Pow10(w)
    ensures |Digits(n)| <= w && Zeros(w - |Digits(n)|) + Digits(n) == Fixed(n, w)
  {
    if n < 10 {
      FixedZero(w - 1);
    } else {
      PaddedIsFixed(n / 10, w - 1);
      assert Zeros(w - |Digits(n)|) + Digits(n) == (Zeros(w - 1 - |Digits(n / 10)|) + Digits(n / 10)) + [Digit(n % 10)];
    }
  }

  lemma LimitIsPower()
    ensures Pow10(8) == LIMIT
  {
  }

  lemma Pad8IsFixed(n: nat)
    requires n < LIMIT
    ensures Pad8(n) == Fixed(n, 8) && n < Pow10(8)
  {
    hide Pow10, Fixed, Zeros, Digits;
    LimitIsPower();
    PaddedIsFixed(n, 8);
  }

  function Tail(stamp: string, id: string): string {
    "-" + stamp + "-" + id + ".json"
  }

  lemma NameParts(n: nat, stamp: string, id: string)
    ensures Name(n, stamp, id) == Pad8(n) + Tail(stamp, id)
  {
  }

  lemma NamesOrdered(m: nat, n: nat, s: string, t: string, x: string, y: string)
    requires m < n < LIMIT
    ensures Before(Name(m, s, x), Name(n, t, y)) && !Before(Name(n, t, y), Name(m, s, x))
  {
    hide Name, Pad8, Fixed, Tail, Before, Pow10;
    Pad8IsFixed(m);
    Pad8IsFixed(n);
    NameParts(m, s, x);
    NameParts(n, t, y);
    FixedOrder(m, n, 8, Tail(s, x), Tail(t, y));
  }

  // ----- and no longer at the limit -----

  lemma {:induction false} LeadingDigit(n: nat, w: nat, d: nat)
    requires 0 < d < 10 && d * Pow10(w) <= n < (d + 1) * Pow10(w)
    ensures Digits(n)[0] == Digit(d) && |Digits(n)| == w + 1
  {
    if w == 0 {
    } else {
      assert Pow10(w) >= 10 by { PowPositive(w - 1); }
      LeadingDigit(n / 10, w - 1, d);
    }
  }

  lemma {:induction false} PowPositive(w: nat)
    ensures Pow10(w) >= 1
  {
    if w == 0 {
    } else {
      PowPositive(w - 1);
    }
  }

  /** The name after 99999999 sorts before it: '1' comes before '9'. */
  lemma WrapsAtLimit(s: string, t: string, x: string, y: string)
    ensures !Before(Name(LIMIT - 1, s, x), Name(LIMIT, t, y))
  {
    LimitIsPower();
    LeadingDigit(LIMIT, 8, 1);
    LeadingDigit(LIMIT - 1, 7, 9);
  }

  // ----- numbering files by how many there are -----

  /** The i-th file written is numbered i. */
  ghost predicate Numbered(names: seq<string>) {
    forall i :: 0 <= i < |names| ==> IsName(names[i], i)
  }

  ghost predicate IsName(name: string, n: nat) {
    exists stamp, id :: name == Name(n, stamp, id)
  }

  /** What is before the first dash. */
  lemma SplitAtDash(a: string, b: string, x: string, y: string)
    requires '-' !in a && '-' !in b && a + "-" + x == b + "-" + y
    ensures a == b
  {
    var s, t := a + "-" + x, b + "-" + y;
    assert s[|a|] == '-' && t[|b|] == '-';
    assert forall k :: 0 <= k < |a| ==> s[k] == a[k] && s[k] != '-';
    assert forall k :: 0 <= k < |b| ==> t[k] == b[k] && t[k] != '-';
    assert |a| == |b|;
    assert a == s[..|a|] && b == t[..|b|];
  }

  lemma {:induction false} DigitsNoDash(n: nat)
    ensures '-' !in Digits(n)
  {
    if n < 10 {
    } else {
      DigitsNoDash(n / 10);
    }
  }

  lemma {:induction false} ZerosNoDash(k: int)
    ensures '-' !in Zeros(k)
  {
    if k <= 0 {
    } else {
      ZerosNoDash(k - 1);
    }
  }

  function DigitValue(c: char): int {
    c as int - '0' as int
  }

  /** Reading a numeral back. */
  function Value(s: string): int {
    if s == "" then 0 else 10 * Value(s[..|s| - 1]) + DigitValue(s[|s| - 1])
  }

  lemma {:induction false} ValueOfDigits(n: nat)
    ensures Value(Digits(n)) == n
  {
    if n < 10 {
    } else {
      ValueOfDigits(n / 10);
      assert Digits(n)[..|Digits(n)| - 1] == Digits(n / 10);
    }
  }

  lemma {:induction false} ValueOfZeros(k: int)
    ensures Value(Zeros(k)) == 0
  {
    if k <= 0 {
    } else {
      ValueOfZeros(k - 1);
      ZerosSnoc(k - 1);
      assert Zeros(k)[..|Zeros(k)| - 1] == Zeros(k - 1);
    }
  }

  lemma {:induction false} LeadingZeros(k: int, s: string)
    ensures Value(Zeros(k) + s) == Value(s)
  {
    if s == "" {
      assert Zeros(k) + s == Zeros(k);
      ValueOfZeros(k);
    } else {
      LeadingZeros(k, s[..|s| - 1]);
      assert (Zeros(k) + s)[..|Zeros(k) + s| - 1] == Zeros(k) + s[..|s| - 1];
    }
  }

  lemma PadReadsBack(n: nat)
    ensures Value(Pad8(n)) == n && '-' !in Pad8(n)
  {
    hide Digits, Zeros, Value;
    DigitsNoDash(n);
    ZerosNoDash(8 - |Digits(n)|);
    LeadingZeros(8 - |Digits(n)|, Digits(n));
    ValueOfDigits(n);
  }

  /** The number can be read off the name, so two files never share one. */
  lemma NameTellsNumber(m: nat, n: nat, s: string, t: string, x: string, y: string)
    requires Name(m, s, x) == Name(n, t, y)
    ensures m == n
  {
    hide Pad8, Value;
    PadReadsBack(m);
    PadReadsBack(n);
    assert Pad8(m) + "-" + (s + "-" + x + ".json") == Name(m, s, x);
    assert Pad8(n) + "-" + (t + "-" + y + ".json") == Name(n, t, y);
    SplitAtDash(Pad8(m), Pad8(n), s + "-" + x + ".json", t + "-" + y + ".json");
  }

  lemma NumberedDistinct(names: seq<string>)
    requires Numbered(names)
    ensures forall i, j :: 0 <= i < j < |names| ==> names[i] != names[j]
  {
    forall i, j | 0 <= i < j < |names|
      ensures names[i] != names[j]
    {
      assert IsName(names[i], i) && IsName(names[j], j);
      var s, x :| names[i] == Name(i, s, x);
      var t, y :| names[j] == Name(j, t, y);
      if names[i] == names[j] {
        NameTellsNumber(i, j, s, t, x, y);
      }
    }
  }

  lemma OutOfOrder(names: seq<string>)
    requires Numbered(names) && |names| > LIMIT
    ensures !Before(names[LIMIT - 1], names[LIMIT])
  {
    hide Name, Before;
    assert IsName(names[LIMIT - 1], LIMIT - 1) && IsName(names[LIMIT], LIMIT);
    var s, x :| names[LIMIT - 1] == Name(LIMIT - 1, s, x);
    var t, y :| names[LIMIT] == Name(LIMIT, t, y);
    WrapsAtLimit(s, t, x, y);
  }

  /** Sorting the file names gives back the order in which they were written, whatever the stamps and
      ids, exactly as long as there are at most 10^8 of them. */
  lemma SortedIsWritten(names: seq<string>)
    requires Numbered(names)
    ensures SortStrings(names) == names <==> |names| <= LIMIT
  {
    hide Name, SortStrings, Before;
    SortStringsCorrect(names);
    if |names| <= LIMIT {
      forall i, j | 0 <= i < j < |names|
        ensures Before(names[i], names[j])
      {
        assert IsName(names[i], i) && IsName(names[j], j);
        var s, x :| names[i] == Name(i, s, x);
        var t, y :| names[j] == Name(j, t, y);
        NamesOrdered(i, j, s, t, x, y);
      }
      SortedUnique(SortStrings(names), names);
    } else {
      OutOfOrder(names);
      assert !Sorted(names);
    }
  }
}
