/**
 Version comparison on version numbers: written in decimal and joined by dots, lists of
 numbers compare by their first difference, and a longer list comes after its own prefix.
 */
module VersionNumbers {
  import opened TtlCache
  import opened Text
  import opened NodeImageVersions

  function Decimal(n: nat): string {
    (if n < 10 then "" else Decimal(n / 10)) + ["0123456789"[n % 10]]
  }

  lemma DigitAt(d: nat)
    requires d < 10
    ensures IsDigit("0123456789"[d]) && "0123456789"[d] as int - '0' as int == d
  {
  }

  lemma ValueWithDigit(s: string, c: char)
    requires AllDigits(s) && IsDigit(c)
    ensures AllDigits(s + [c]) && DigitsValue(s + [c]) == 10 * DigitsValue(s) + (c as int - '0' as int)
  {
    assert (s + [c])[..|s|] == s;
  }

  lemma {:induction false} DecimalValue(n: nat)
    ensures Decimal(n) != "" && AllDigits(Decimal(n)) && DigitsValue(Decimal(n)) == n
  {
    DigitAt(n % 10);
    if n < 10 {
      ValueWithDigit("", "0123456789"[n % 10]);
      assert Decimal(n) == "" + ["0123456789"[n % 10]];
    } else {
      DecimalValue(n / 10);
      ValueWithDigit(Decimal(n / 10), "0123456789"[n % 10]);
    }
  }

  /** A number is read back from its decimal form, unless it does not fit in 64 bits. */
  lemma AtoiOfDecimal(n: nat)
    ensures Atoi(Decimal(n)) == (if n < 0x8000_0000_0000_0000 then Some(n) else None) && Free(Decimal(n), '.')
  {
    DecimalValue(n);
    assert IsDigit(Decimal(n)[0]);
  }

  lemma AtoiBehindSign(sign: char, digits: string, v: int)
    requires (sign == '-' || sign == '+') && digits != "" && AllDigits(digits)
    requires v == if sign == '-' then -DigitsValue(digits) else DigitsValue(digits)
    ensures Atoi([sign] + digits) == if -0x8000_0000_0000_0000 <= v < 0x8000_0000_0000_0000 then Some(v) else None
  {
    assert ([sign] + digits)[1..] == digits;
  }

  /** So are numbers behind a sign. */
  lemma AtoiOfNegative(n: int)
    requires n >= 0
    ensures Atoi(['-'] + Decimal(n)) == if n <= 0x8000_0000_0000_0000 then Some(-n) else None
  {
    DecimalValue(n);
    AtoiBehindSign('-', Decimal(n), -n);
  }

  lemma AtoiOfPositive(n: int)
    requires n >= 0
    ensures Atoi(['+'] + Decimal(n)) == if n < 0x8000_0000_0000_0000 then Some(n) else None
  {
    DecimalValue(n);
    AtoiBehindSign('+', Decimal(n), n);
  }

  /** Anything but digits behind an optional sign is no number. */
  lemma AtoiRejects(s: string, i: nat)
    requires s == "" || s == "-" || s == "+" || (i < |s| && !IsDigit(s[i]) && !(i == 0 && (s[0] == '-' || s[0] == '+')))
    ensures Atoi(s) == None
  {
    if i < |s| && i > 0 {
      assert s[1..][i - 1] == s[i];
    }
  }

  predicate Fit64(xs: seq<nat>) {
    forall i :: 0 <= i < |xs| ==> xs[i] < 0x8000_0000_0000_0000
  }

  function Decimals(xs: seq<nat>): seq<string> {
    seq(|xs|, i requires 0 <= i < |xs| => Decimal(xs[i]))
  }

  /** Dotted form of a list of numbers. */
  function Version(xs: seq<nat>): string
    requires xs != []
  {
    Join(Decimals(xs), '.')
  }

  /** Segments that print numbers are those numbers. */
  lemma SegmentsOfJoin(parts: seq<string>, xs: seq<nat>)
    requires parts != [] && |parts| == |xs| && AllFree(parts, '.')
    requires forall i :: 0 <= i < |xs| ==> Atoi(parts[i]) == Some(xs[i])
    ensures |Segments(Join(parts, '.'))| == |xs|
    ensures forall i :: 0 <= i < |xs| ==> Segments(Join(parts, '.'))[i] == Some(xs[i])
  {
    SplitOfJoin(parts, '.');
  }

  lemma SegmentsOfVersion(xs: seq<nat>)
    requires xs != [] && Fit64(xs)
    ensures |Segments(Version(xs))| == |xs|
    ensures forall i :: 0 <= i < |xs| ==> Segments(Version(xs))[i] == Some(xs[i])
  {
    var parts := Decimals(xs);
    forall i | 0 <= i < |xs| ensures Atoi(parts[i]) == Some(xs[i]) && Free(parts[i], '.') {
      AtoiOfDecimal(xs[i]);
    }
    SegmentsOfJoin(parts, xs);
  }

  /** The first difference, if any, is for `xs`: a larger number, or one more number. */
  ghost predicate Ahead(xs: seq<nat>, ys: seq<nat>, n: nat) {
    && n < |xs| && n <= |ys| && (forall i :: 0 <= i < n ==> xs[i] == ys[i])
    && (n == |ys| || (n < |ys| && xs[n] > ys[n]))
  }

  /** A version is newer exactly if its first number that differs is larger, or it goes on where the other ends. */
  lemma NewerMeansAhead(xs: seq<nat>, ys: seq<nat>)
    requires xs != [] && ys != [] && Fit64(xs) && Fit64(ys)
    ensures Newer(Version(xs), Version(ys)) <==> exists n: nat :: Ahead(xs, ys, n)
  {
    SegmentsOfVersion(xs);
    SegmentsOfVersion(ys);
    var a, b := Segments(Version(xs)), Segments(Version(ys));
    forall n: nat ensures DecidedAt(a, b, n) <==> Ahead(xs, ys, n) {
      DecidedMeansAhead(xs, ys, a, b, n);
    }
  }

  lemma DecidedMeansAhead(xs: seq<nat>, ys: seq<nat>, a: seq<Option<int>>, b: seq<Option<int>>, n: nat)
    requires |a| == |xs| && forall i :: 0 <= i < |xs| ==> a[i] == Some(xs[i])
    requires |b| == |ys| && forall i :: 0 <= i < |ys| ==> b[i] == Some(ys[i])
    ensures DecidedAt(a, b, n) <==> Ahead(xs, ys, n)
  {
  }
}
