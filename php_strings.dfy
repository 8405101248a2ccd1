/**
 * The PHP string built-ins the text-to-speech assembler relies on, on
 * `seq<char>`: `explode` with a one-character separator, `implode`,
 * `ltrim`/`rtrim` with one character, `empty()` on a string, decimal
 * conversion of integers, and the integer-key normalisation PHP applies to
 * array keys.
 */
module PhpStrings {
  import Basics

  /** Number of occurrences of `c` in `s`. */
  function Count(c: char, s: string): nat
  {
    if s == [] then 0 else (if s[0] == c then 1 else 0) + Count(c, s[1..])
  }

  /** `implode(glue, parts)`. */
  function Implode(glue: string, parts: seq<string>): string
  {
    if |parts| == 0 then []
    else if |parts| == 1 then parts[0]
    else parts[0] + glue + Implode(glue, parts[1..])
  }

  /**
   * `explode(sep, s)` for a one-character separator: the pieces of `s`
   * between occurrences of `sep`. There is always at least one piece (the
   * empty string yields `[""]`), one more than there are separators.
   */
  function Explode(sep: char, s: string): (parts: seq<string>)
    ensures |parts| == Count(sep, s) + 1
    ensures forall i :: 0 <= i < |parts| ==> sep !in parts[i]
    decreases |s|
  {
    if s == [] then [[]]
    else
      var rest := Explode(sep, s[1..]);
      if s[0] == sep then [[]] + rest
      else [[s[0]] + rest[0]] + rest[1..]
  }

  /** A character occurs no times exactly when it is not in the string. */
  lemma {:induction false} CountZero(c: char, s: string)
    ensures Count(c, s) == 0 <==> c !in s
    decreases |s|
  {
    if s != [] {
      CountZero(c, s[1..]);
      assert s == [s[0]] + s[1..];
    }
  }

  lemma {:induction false} ImplodeCons(glue: string, head: string, rest: seq<string>)
    requires |rest| >= 1
    ensures Implode(glue, [head] + rest) == head + glue + Implode(glue, rest)
  {
    assert ([head] + rest)[1..] == rest;
  }

  /** Joining four pieces puts the glue between each neighbouring pair. */
  lemma ImplodeFour(glue: string, a: string, b: string, c: string, d: string)
    ensures Implode(glue, [a, b, c, d]) == a + glue + b + glue + c + glue + d
  {
    ImplodeCons(glue, a, [b, c, d]);
    ImplodeCons(glue, b, [c, d]);
    ImplodeCons(glue, c, [d]);
    assert [a] + [b, c, d] == [a, b, c, d] && [b] + [c, d] == [b, c, d] && [c] + [d] == [c, d];
  }

  /** Gluing the pieces back together with the separator gives the original string. */
  lemma {:induction false} ImplodeExplode(sep: char, s: string)
    ensures Implode([sep], Explode(sep, s)) == s
    decreases |s|
  {
    if s != [] {
      var rest := Explode(sep, s[1..]);
      ImplodeExplode(sep, s[1..]);
      if s[0] == sep {
        assert Explode(sep, s) == [[]] + rest;
        ImplodeCons([sep], [], rest);
        assert s == [sep] + s[1..];
      } else {
        assert Explode(sep, s) == [[s[0]] + rest[0]] + rest[1..];
        ImplodeExtendFirst([sep], s[0], rest);
        assert s == [s[0]] + s[1..];
      }
    }
  }

  /** Prefixing a character to the first piece prefixes it to the implosion. */
  lemma ImplodeExtendFirst(glue: string, c: char, parts: seq<string>)
    requires |parts| >= 1
    ensures Implode(glue, [[c] + parts[0]] + parts[1..]) == [c] + Implode(glue, parts)
  {
    if |parts| > 1 {
      assert parts == [parts[0]] + parts[1..];
      ImplodeCons(glue, parts[0], parts[1..]);
      ImplodeCons(glue, [c] + parts[0], parts[1..]);
    }
  }

  /** Pieces free of the separator are recovered exactly by exploding their implosion. */
  lemma {:induction false} ExplodeImplode(sep: char, parts: seq<string>)
    requires |parts| >= 1
    requires forall i :: 0 <= i < |parts| ==> sep !in parts[i]
    ensures Explode(sep, Implode([sep], parts)) == parts
    decreases |parts|
  {
    if |parts| == 1 {
      ExplodeNoSeparator(sep, parts[0]);
    } else {
      ImplodeCons([sep], parts[0], parts[1..]);
      assert [parts[0]] + parts[1..] == parts;
      ExplodeImplode(sep, parts[1..]);
      ExplodeAfterPiece(sep, parts[0], Implode([sep], parts[1..]));
    }
  }

  /** A string without the separator explodes into itself alone. */
  lemma {:induction false} ExplodeNoSeparator(sep: char, s: string)
    requires sep !in s
    ensures Explode(sep, s) == [s]
    decreases |s|
  {
    if s != [] {
      assert sep !in s[1..];
      ExplodeNoSeparator(sep, s[1..]);
      assert s == [s[0]] + s[1..];
    }
  }

  /** A separator-free piece followed by the separator becomes the first piece. */
  lemma {:induction false} ExplodeAfterPiece(sep: char, head: string, tail: string)
    requires sep !in head
    ensures Explode(sep, head + [sep] + tail) == [head] + Explode(sep, tail)
    decreases |head|
  {
    var s := head + [sep] + tail;
    if head == [] {
      assert s[1..] == tail;
    } else {
      assert s[1..] == head[1..] + [sep] + tail;
      assert sep !in head[1..];
      ExplodeAfterPiece(sep, head[1..], tail);
      assert [head[0]] + head[1..] == head;
    }
  }

  /** The first piece is everything before the first separator: what follows never matters. */
  lemma {:induction false} ExplodeFirstPiece(sep: char, head: string, tail: string)
    requires sep !in head
    ensures Explode(sep, head + [sep] + tail)[0] == head
    ensures Explode(sep, head)[0] == head
  {
    ExplodeAfterPiece(sep, head, tail);
    ExplodeNoSeparator(sep, head);
  }

  /**
   * `ltrim(s, c)`: `s` without its leading run of `c`. The result is a
   * suffix of `s`, everything removed is `c`, and the result does not start
   * with `c`.
   */
  function LTrim(s: string, c: char): (r: string)
    ensures |r| <= |s| && r == s[|s| - |r|..]
    ensures forall i :: 0 <= i < |s| - |r| ==> s[i] == c
    ensures r == [] || r[0] != c
  {
    if s != [] && s[0] == c then LTrim(s[1..], c) else s
  }

  /**
   * `rtrim(s, c)`: `s` without its trailing run of `c`. The result is a
   * prefix of `s`, everything removed is `c`, and the result does not end
   * with `c`.
   */
  function RTrim(s: string, c: char): (r: string)
    ensures |r| <= |s| && r == s[..|r|]
    ensures forall i :: |r| <= i < |s| ==> s[i] == c
    ensures r == [] || r[|r| - 1] != c
  {
    if s != [] && s[|s| - 1] == c then RTrim(s[..|s| - 1], c) else s
  }

  /** What left-trimming keeps is part of the original, so a character absent from `s` is absent from the result. */
  lemma {:induction false} LTrimKeepsAbsent(s: string, c: char, x: char)
    requires x !in s
    ensures x !in LTrim(s, c)
  {
    if s != [] && s[0] == c {
      assert x !in s[1..];
      LTrimKeepsAbsent(s[1..], c, x);
    }
  }

  /** A string that does not start with `c` is left alone by `ltrim`. */
  lemma LTrimNoop(s: string, c: char)
    requires s == [] || s[0] != c
    ensures LTrim(s, c) == s
  {
  }

  /** A string that does not end with `c` is left alone by `rtrim`. */
  lemma RTrimNoop(s: string, c: char)
    requires s == [] || s[|s| - 1] != c
    ensures RTrim(s, c) == s
  {
  }

  /** `ltrim` stops at the first character that is not `c`, so what follows it passes through. */
  lemma {:induction false} LTrimAppend(a: string, b: string, c: char)
    requires b != [] && b[0] != c
    ensures LTrim(a + b, c) == LTrim(a, c) + b
    decreases |a|
  {
    if a == [] {
      assert a + b == b;
    } else if a[0] == c {
      assert (a + b)[1..] == a[1..] + b;
      LTrimAppend(a[1..], b, c);
    }
  }

  /** `rtrim` only reaches back into `a` when all of `b` is trimmed; a last character of `a` other than `c` stops it. */
  lemma {:induction false} RTrimAppend(a: string, b: string, c: char)
    requires a != [] && a[|a| - 1] != c
    ensures RTrim(a + b, c) == a + RTrim(b, c)
    decreases |b|
  {
    if b == [] {
      assert a + b == a;
    } else if b[|b| - 1] == c {
      assert (a + b)[..|a + b| - 1] == a + b[..|b| - 1];
      RTrimAppend(a, b[..|b| - 1], c);
    }
  }

  /** PHP's `empty()` on a string: true for `""` and for `"0"`. */
  predicate IsEmptyString(s: string)
  {
    s == "" || s == "0"
  }

  predicate IsDigit(c: char)
  {
    '0' <= c <= '9'
  }

  function DigitChar(d: nat): (c: char)
    requires d < 10
    ensures IsDigit(c)
  {
    "0123456789"[d]
  }

  function DigitValue(c: char): (d: nat)
    requires IsDigit(c)
    ensures d < 10
  {
    (c as int - '0' as int) as nat
  }

  /** `(string)$n` for a non-negative integer: its decimal digits, without leading zeros. */
  function NatToString(n: nat): (r: string)
    ensures |r| >= 1 && (r[0] == '0' ==> r == "0")
    ensures forall i :: 0 <= i < |r| ==> IsDigit(r[i])
  {
    if n < 10 then [DigitChar(n)] else NatToString(n / 10) + [DigitChar(n % 10)]
  }

  /** `(string)$i` for any integer: a minus sign, then the digits of the magnitude. */
  function IntToString(i: int): (r: string)
    ensures |r| >= 1
    ensures r == "0" <==> i == 0
  {
    if i < 0 then "-" + NatToString(-i) else NatToString(i)
  }

  /** The value of a string of decimal digits. */
  function DigitsValue(s: string): nat
    requires forall i :: 0 <= i < |s| ==> IsDigit(s[i])
  {
    if s == [] then 0 else 10 * DigitsValue(s[..|s| - 1]) + DigitValue(s[|s| - 1])
  }

  /**
   * A PHP array key written as a string that PHP turns into a non-negative
   * integer key: decimal digits without a sign and without leading zeros.
   */
  predicate IsIndexKey(s: string)
  {
    && |s| >= 1
    && (forall i :: 0 <= i < |s| ==> IsDigit(s[i]))
    && (s[0] == '0' ==> s == "0")
  }

  /** The integer key PHP uses for an index-like string key, if any. */
  function IndexOfKey(s: string): (r: Basics.Option<nat>)
    ensures r.Some? <==> IsIndexKey(s)
  {
    if IsIndexKey(s) then Basics.Some(DigitsValue(s)) else Basics.None
  }

  lemma DigitRoundTrip(d: nat)
    requires d < 10
    ensures DigitValue(DigitChar(d)) == d
  {
  }

  /** Reading back the decimal form of `n` gives `n`: position `n` of a list is addressed by the key `NatToString(n)`. */
  lemma {:induction false} IndexKeyRoundTrip(n: nat)
    ensures IsIndexKey(NatToString(n))
    ensures IndexOfKey(NatToString(n)) == Basics.Some(n)
    decreases n
  {
    var s := NatToString(n);
    if n < 10 {
      DigitRoundTrip(n);
      assert s == [DigitChar(n)];
      assert s[..|s| - 1] == [];
      assert DigitsValue(s) == DigitValue(s[0]);
      assert IsIndexKey(s);
    } else {
      IndexKeyRoundTrip(n / 10);
      var p := NatToString(n / 10);
      assert s == p + [DigitChar(n % 10)];
      assert s[..|s| - 1] == p;
      DigitRoundTrip(n % 10);
    }
  }

  /**
   * `(string)$i` reads back as `i`: a non-negative integer is its decimal
   * digits, a negative one a minus sign before the digits of its magnitude.
   */
  lemma IntToStringValue(i: int)
    ensures i >= 0 ==> IsIndexKey(IntToString(i)) && DigitsValue(IntToString(i)) == i
    ensures i < 0 ==>
      && IntToString(i)[0] == '-'
      && IsIndexKey(IntToString(i)[1..])
      && DigitsValue(IntToString(i)[1..]) == -i
  {
    if i >= 0 {
      IndexKeyRoundTrip(i);
    } else {
      IndexKeyRoundTrip(-i);
      assert IntToString(i)[1..] == NatToString(-i);
    }
  }

  /** PHP's `'Y'` date format: the year with at least four digits, zero-padded on the left. */
  function YearToString(y: nat): (r: string)
    ensures |r| >= 4
    ensures forall i :: 0 <= i < |r| ==> IsDigit(r[i])
  {
    var digits := NatToString(y);
    if |digits| >= 4 then digits else Zeros(4 - |digits|) + digits
  }

  function Zeros(n: nat): (r: string)
    ensures |r| == n && forall i :: 0 <= i < n ==> r[i] == '0'
  {
    if n == 0 then [] else "0" + Zeros(n - 1)
  }

  /** A leading zero does not change the value of a digit string. */
  lemma {:induction false} LeadingZeroValue(s: string)
    requires forall i :: 0 <= i < |s| ==> IsDigit(s[i])
    ensures DigitsValue("0" + s) == DigitsValue(s)
    decreases |s|
  {
    if s == [] {
      assert "0" + s == "0";
      assert "0"[..0] == [];
    } else {
      var init := s[..|s| - 1];
      LeadingZeroValue(init);
      assert ("0" + s)[..|"0" + s| - 1] == "0" + init;
      assert ("0" + s)[|"0" + s| - 1] == s[|s| - 1];
    }
  }

  /** Any number of leading zeros leaves the value of a digit string unchanged. */
  lemma {:induction false} LeadingZerosValue(n: nat, s: string)
    requires forall i :: 0 <= i < |s| ==> IsDigit(s[i])
    ensures forall i :: 0 <= i < |Zeros(n) + s| ==> IsDigit((Zeros(n) + s)[i])
    ensures DigitsValue(Zeros(n) + s) == DigitsValue(s)
    decreases n
  {
    if n > 0 {
      LeadingZerosValue(n - 1, s);
      var t := Zeros(n - 1) + s;
      assert Zeros(n) + s == "0" + t;
      LeadingZeroValue(t);
    } else {
      assert Zeros(n) + s == s;
    }
  }

  /** The `'Y'` format reads back as the year, and pads it to exactly four digits when it has fewer. */
  lemma YearToStringValue(y: nat)
    ensures DigitsValue(YearToString(y)) == y
    ensures |YearToString(y)| == if |NatToString(y)| >= 4 then |NatToString(y)| else 4
  {
    var digits := NatToString(y);
    IndexKeyRoundTrip(y);
    if |digits| < 4 {
      LeadingZerosValue(4 - |digits|, digits);
    }
  }
}
