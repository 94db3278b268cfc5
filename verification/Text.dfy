/**
 String helpers shared by the printed keys and identifiers of the provider: ASCII
 lower-casing, splitting on a separator, and joining with one. The facts everything else
 rests on: `Split` and `Join` are inverse to each other, lower-casing commutes with both,
 and a joined prefix can only match at a component boundary.
 */
module Text {

  /** ASCII part of `strings.ToLower`; other characters are left alone. */
  function LowerChar(c: char): (r: char)
    ensures 'A' <= c <= 'Z' ==> 'a' <= r <= 'z' && r as int - 'a' as int == c as int - 'A' as int
    ensures !('A' <= c <= 'Z') ==> r == c
  {
    if 'A' <= c <= 'Z' then c + 32 as char else c
  }

  function ToLower(s: string): string {
    seq(|s|, i requires 0 <= i < |s| => LowerChar(s[i]))
  }

  /** `strings.EqualFold` on ASCII text. */
  predicate EqualFold(s: string, t: string) {
    ToLower(s) == ToLower(t)
  }

  predicate Free(s: string, sep: char) {
    sep !in s
  }

  predicate AllFree(parts: seq<string>, sep: char) {
    forall i :: 0 <= i < |parts| ==> Free(parts[i], sep)
  }

  /** `strings.Split` with a one-character separator. */
  function Split(s: string, sep: char): (r: seq<string>)
    ensures |r| >= 1
    ensures AllFree(r, sep)
  {
    if s == "" then [""]
    else
      var rest := Split(s[1..], sep);
      if s[0] == sep then [""] + rest
      else [[s[0]] + rest[0]] + rest[1..]
  }

  /** The parts with the separator printed between neighbours. */
  function Join(parts: seq<string>, sep: char): string
    requires |parts| >= 1
  {
    if |parts| == 1 then parts[0] else parts[0] + [sep] + Join(parts[1..], sep)
  }

  function LowerAll(parts: seq<string>): seq<string> {
    seq(|parts|, i requires 0 <= i < |parts| => ToLower(parts[i]))
  }

  lemma ToLowerIdempotent(s: string)
    ensures ToLower(ToLower(s)) == ToLower(s)
  {
  }

  lemma ToLowerKeepsFree(s: string, sep: char)
    requires Free(s, sep)
    requires forall c: char :: LowerChar(c) == sep ==> c == sep
    ensures Free(ToLower(s), sep)
  {
  }

  /** Splitting a printed list gives the list back. */
  lemma {:induction false} SplitOfJoin(parts: seq<string>, sep: char)
    requires |parts| >= 1 && AllFree(parts, sep)
    ensures Split(Join(parts, sep), sep) == parts
    decreases |parts|, |parts[0]|
  {
    var s := Join(parts, sep);
    if parts[0] == "" {
      if |parts| > 1 {
        assert s[1..] == Join(parts[1..], sep);
        SplitOfJoin(parts[1..], sep);
      }
    } else {
      var shorter := [parts[0][1..]] + parts[1..];
      assert shorter[1..] == parts[1..];
      assert s[0] == parts[0][0] && s[1..] == Join(shorter, sep);
      assert s[0] in parts[0];
      SplitOfJoin(shorter, sep);
      assert [s[0]] + shorter[0] == parts[0];
    }
  }

  /** Printing a split string gives the string back. */
  lemma {:induction false} JoinOfSplit(s: string, sep: char)
    ensures Join(Split(s, sep), sep) == s
  {
    if s != "" {
      JoinOfSplit(s[1..], sep);
      var rest := Split(s[1..], sep);
      if s[0] == sep {
        assert ([""] + rest)[1..] == rest;
      } else {
        assert ([[s[0]] + rest[0]] + rest[1..])[1..] == rest[1..];
      }
    }
  }

  lemma JoinInjective(p: seq<string>, q: seq<string>, sep: char)
    requires |p| >= 1 && |q| >= 1 && AllFree(p, sep) && AllFree(q, sep)
    requires Join(p, sep) == Join(q, sep)
    ensures p == q
  {
    SplitOfJoin(p, sep);
    SplitOfJoin(q, sep);
  }

  lemma {:induction false} LowerOfJoin(parts: seq<string>, sep: char)
    requires |parts| >= 1 && LowerChar(sep) == sep
    ensures ToLower(Join(parts, sep)) == Join(LowerAll(parts), sep)
  {
    if |parts| > 1 {
      LowerOfJoin(parts[1..], sep);
      assert LowerAll(parts)[1..] == LowerAll(parts[1..]);
    }
  }

  lemma LowerOfSplit(s: string, sep: char)
    requires forall c: char :: LowerChar(c) == sep <==> c == sep
    ensures Split(ToLower(s), sep) == LowerAll(Split(s, sep))
  {
    var parts := Split(s, sep);
    JoinOfSplit(s, sep);
    LowerOfJoin(parts, sep);
    forall i | 0 <= i < |parts| ensures Free(LowerAll(parts)[i], sep) {
      ToLowerKeepsFree(parts[i], sep);
    }
    SplitOfJoin(LowerAll(parts), sep);
  }

  predicate HasPrefix(s: string, prefix: string) {
    |prefix| <= |s| && s[..|prefix|] == prefix
  }

  /** A separator-terminated prefix matches exactly the lists that start with its components. */
  lemma {:induction false} PrefixOfJoin(p: seq<string>, q: seq<string>, sep: char)
    requires |q| >= 1 && AllFree(p, sep) && AllFree(q, sep)
    ensures HasPrefix(Join(q, sep), Join(p + [""], sep)) <==> |p| < |q| && q[..|p|] == p
  {
    var s, pre := Join(q, sep), Join(p + [""], sep);
    if |p| < |q| && q[..|p|] == p {
      JoinAppend(p, q[|p|..], sep);
      assert q == p + q[|p|..];
      JoinAppend(p, [""], sep);
    }
    if HasPrefix(s, pre) {
      var tail := Split(s[|pre|..], sep);
      JoinOfSplit(s[|pre|..], sep);
      JoinAppend(p, tail, sep);
      JoinAppend(p, [""], sep);
      assert s == pre + Join(tail, sep) == Join(p + tail, sep);
      JoinInjective(q, p + tail, sep);
    }
  }

  lemma {:induction false} JoinAppend(p: seq<string>, q: seq<string>, sep: char)
    requires |q| >= 1
    ensures Join(p + q, sep) == (if p == [] then "" else Join(p, sep) + [sep]) + Join(q, sep)
  {
    if p == [] {
      assert p + q == q;
    } else {
      assert (p + q)[1..] == p[1..] + q;
      JoinAppend(p[1..], q, sep);
    }
  }
}
