/**
 Base-36 rendering of a 64-bit hash at a requested length.
 */
module AlphanumericHash {
  import opened TtlCache

  const BASE36_CHARS := "0123456789abcdefghijklmnopqrstuvwxyz"
  const TWO_64 := 0x1_0000_0000_0000_0000

  function Pow36(n: nat): nat {
    if n == 0 then 1 else 36 * Pow36(n - 1)
  }

  /** What is left of a number after dividing by 36 `n` times. */
  function Shift(hash: nat, n: nat): nat {
    if n == 0 then hash else Shift(hash / 36, n - 1)
  }

  /** The low `length` digits, most significant first. */
  function Render(hash: nat, length: nat): string {
    if length == 0 then "" else Render(hash / 36, length - 1) + [DigitChar(hash % 36)]
  }

  function DigitChar(d: nat): char
    requires d < 36
  {
    if d < 10 then '0' + d as char else 'a' + (d - 10) as char
  }

  /** The alphabet of the source, character by character. */
  lemma AlphabetIsDigitChar(d: nat)
    requires d < 36
    ensures BASE36_CHARS[d] == DigitChar(d)
  {
  }

  /** Value of a base-36 digit. */
  function DigitOf(c: char): nat {
    if '0' <= c <= '9' then c as int - '0' as int
    else if 'a' <= c <= 'z' then c as int - 'a' as int + 10
    else 0
  }

  function Decode(s: string): nat {
    if s == "" then 0 else 36 * Decode(s[..|s| - 1]) + DigitOf(s[|s| - 1])
  }

  // ----- The loop -----

  lemma {:induction false} ShiftOnce(hash: nat, n: nat)
    ensures Shift(hash, n) / 36 == Shift(hash, n + 1)
  {
    if n > 0 {
      ShiftOnce(hash / 36, n - 1);
    }
  }

  lemma {:induction false} RenderFront(hash: nat, n: nat)
    ensures |Render(hash, n)| == n
    ensures Render(hash, n + 1) == [DigitChar(Shift(hash, n) % 36)] + Render(hash, n)
  {
    if n > 0 {
      RenderFront(hash / 36, n - 1);
    }
  }

  /** Fills the buffer from the back while dividing; the hash of the input is a parameter. */
  method GetAlphanumericHash(inputHash: nat, length: int) returns (r: Option<string>)
    ensures r.Some? <==> length > 0
    ensures r.Some? ==> |r.value| == length && r.value == Render(inputHash, length)
    ensures r.Some? ==> forall i :: 0 <= i < length ==>
      Pow36(i) > 0 && r.value[length - 1 - i] == "0123456789abcdefghijklmnopqrstuvwxyz"[inputHash / Pow36(i) % 36]
  {
    if length <= 0 {
      return None;
    }
    var result := new char[length];
    var hash := inputHash;
    for i := 0 to length
      invariant hash == Shift(inputHash, i)
      invariant |Render(inputHash, i)| == i && result[length - i..] == Render(inputHash, i)
    {
      RenderFront(inputHash, i);
      ShiftOnce(inputHash, i);
      AlphabetIsDigitChar(hash % 36);
      result[length - 1 - i] := BASE36_CHARS[hash % 36];
      assert result[length - (i + 1)..] == [DigitChar(hash % 36)] + result[length - i..];
      hash := hash / 36;
      RenderFront(inputHash, i + 1);
    }
    assert result[..] == result[length - length..];
    r := Some(result[..]);
    forall i | 0 <= i < length
      ensures Pow36(i) > 0 && r.value[length - 1 - i] == "0123456789abcdefghijklmnopqrstuvwxyz"[inputHash / Pow36(i) % 36]
    {
      RenderedDigit(inputHash, length, i);
    }
  }

  // ----- What the string says -----

  lemma DigitRoundTrip(d: nat)
    requires d < 36
    ensures DigitOf(DigitChar(d)) == d
  {
  }

  lemma ModUnique(h: nat, n: nat, q: nat, r: nat)
    requires n > 0 && h == n * q + r && r < n
    ensures h % n == r
  {
    var k := h / n - q;
    assert h == n * (h / n) + h % n;
    assert n * k == r - h % n;
    assert 0 - n < n * k < n;
    assert k == 0;
  }

  lemma {:induction false} Pow36Positive(n: nat)
    ensures Pow36(n) > 0
  {
    if n > 0 {
      Pow36Positive(n - 1);
    }
  }

  lemma DecodeSnoc(s: string, c: char)
    ensures Decode(s + [c]) == 36 * Decode(s) + DigitOf(c)
  {
    assert (s + [c])[..|s|] == s;
  }

  lemma SplitStep(h: nat, p: nat, q: nat, d: nat)
    requires h / 36 == p * q + d && d < p
    ensures h == (36 * p) * q + (36 * d + h % 36)
    ensures 36 * d + h % 36 < 36 * p
  {
    assert h == 36 * (h / 36) + h % 36;
    assert 36 * (p * q) == (36 * p) * q;
  }

  /** The digits shown and the part divided away add up to the hash. */
  lemma {:induction false} RenderSplitsHash(hash: nat, length: nat)
    ensures Decode(Render(hash, length)) < Pow36(length)
    ensures hash == Pow36(length) * Shift(hash, length) + Decode(Render(hash, length))
  {
    if length > 0 {
      var rest := Render(hash / 36, length - 1);
      RenderSplitsHash(hash / 36, length - 1);
      assert Decode(Render(hash, length)) == 36 * Decode(rest) + hash % 36 by {
        DecodeSnoc(rest, DigitChar(hash % 36));
        DigitRoundTrip(hash % 36);
      }
      SplitStep(hash, Pow36(length - 1), Shift(hash / 36, length - 1), Decode(rest));
    }
  }

  lemma ShiftIsDivision(hash: nat, n: nat)
    ensures Pow36(n) > 0 && Shift(hash, n) == hash / Pow36(n)
  {
    RenderSplitsHash(hash, n);
    DivUnique(hash, Pow36(n), Shift(hash, n), Decode(Render(hash, n)));
  }

  lemma DivUnique(h: nat, n: nat, q: nat, r: nat)
    requires n > 0 && h == n * q + r && r < n
    ensures h / n == q
  {
    ModUnique(h, n, q, r);
    assert h == n * (h / n) + h % n;
    assert n * (h / n) == n * q;
  }

  lemma {:induction false} RenderAt(hash: nat, length: nat, i: nat)
    requires i < length
    ensures |Render(hash, length)| == length && Render(hash, length)[length - 1 - i] == DigitChar(Shift(hash, i) % 36)
  {
    RenderFront(hash, length - 1);
    if i < length - 1 {
      RenderAt(hash, length - 1, i);
    }
  }

  /** The character `i` places from the right is the source's character for that base-36 digit of the hash. */
  lemma RenderedDigit(hash: nat, length: nat, i: nat)
    requires i < length
    ensures |Render(hash, length)| == length && Pow36(i) > 0
    ensures Render(hash, length)[length - 1 - i] == "0123456789abcdefghijklmnopqrstuvwxyz"[hash / Pow36(i) % 36]
  {
    RenderAt(hash, length, i);
    ShiftIsDivision(hash, i);
    AlphabetIsDigitChar(Shift(hash, i) % 36);
  }

  /** A rendering of length L decodes to the hash modulo 36^L. */
  lemma DecodeOfRender(hash: nat, length: nat)
    ensures Pow36(length) > 0 && Decode(Render(hash, length)) == hash % Pow36(length)
  {
    RenderSplitsHash(hash, length);
    ModUnique(hash, Pow36(length), Shift(hash, length), Decode(Render(hash, length)));
  }

  lemma {:induction false} Pow36Monotone(m: nat, n: nat)
    requires m <= n
    ensures 0 < Pow36(m) <= Pow36(n)
    decreases n
  {
    Pow36Positive(m);
    if m < n {
      Pow36Monotone(m, n - 1);
    }
  }

  lemma ThirteenDigitsSuffice()
    ensures Pow36(12) < TWO_64 <= Pow36(13)
  {
    assert Pow36(4) == 1679616;
    assert Pow36(8) == 2821109907456;
    assert Pow36(12) == 4738381338321616896;
  }

  ghost predicate InjectiveOn64Bits(length: nat) {
    forall a: nat, b: nat :: a < TWO_64 && b < TWO_64 && Render(a, length) == Render(b, length) ==> a == b
  }

  /** No two 64-bit hashes share a rendering exactly from length 13 on. */
  lemma InjectiveFromThirteen(length: nat)
    ensures InjectiveOn64Bits(length) <==> length >= 13
  {
    ThirteenDigitsSuffice();
    if length >= 13 {
      Pow36Monotone(13, length);
      forall a: nat, b: nat | a < TWO_64 && b < TWO_64 && Render(a, length) == Render(b, length) ensures a == b {
        DecodeOfRender(a, length);
        DecodeOfRender(b, length);
        ModUnique(a, Pow36(length), 0, a);
        ModUnique(b, Pow36(length), 0, b);
      }
    } else {
      Pow36Monotone(length, 12);
      Collision(length);
      assert Render(0, length) == Render(Pow36(length), length);
      assert !(Pow36(length) == 0);
    }
  }

  /** 0 and 36^L render alike at length L. */
  lemma {:induction false} Collision(length: nat)
    ensures Render(0, length) == Render(Pow36(length), length)
  {
    if length > 0 {
      Collision(length - 1);
      assert Pow36(length) / 36 == Pow36(length - 1) && Pow36(length) % 36 == 0;
    }
  }

  lemma SmallFactor(x: nat, p: nat)
    requires p * x < p
    ensures x == 0
  {
  }

  function Zeros(n: nat): string {
    seq(n, _ => '0')
  }

  /** Longer renderings add leading zeros and nothing else. */
  lemma {:induction false} LongerIsPadding(hash: nat, length: nat)
    requires hash < TWO_64 && length >= 13
    ensures Render(hash, length) == Zeros(length - 13) + Render(hash, 13)
    decreases length
  {
    if length > 13 {
      LongerIsPadding(hash, length - 1);
      RenderFront(hash, length - 1);
      ThirteenDigitsSuffice();
      Pow36Monotone(13, length - 1);
      RenderSplitsHash(hash, length - 1);
      SmallFactor(Shift(hash, length - 1), Pow36(length - 1));
      assert ['0'] + Zeros(length - 1 - 13) == Zeros(length - 13);
    }
  }
}
