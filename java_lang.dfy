/**
 * The parts of the Java standard library whose exact behaviour the split
 * command depends on: 32-bit `int`, `Integer.parseInt`, the truncating `/`,
 * `String.split(" ")`, `String.join` and `String.equalsIgnoreCase`.
 */
module JavaLang {
  import opened Wrappers

  const IntMin: int := -0x8000_0000
  const IntMax: int := 0x7fff_ffff

  /** A Java `int`. */
  type Int32 = x: int | IntMin <= x <= IntMax

  function Abs(x: int): nat
  {
    if x < 0 then -x else x
  }

  // ---------------------------------------------------------------------------
  // Integer division
  // ---------------------------------------------------------------------------

  /**
   * Java's `a / b` on `int`: the quotient truncated toward zero, so the
   * remainder `a - q * b` is smaller than `b` in size and never has the
   * opposite sign of `a`; `Integer.MIN_VALUE / -1` wraps to `Integer.MIN_VALUE`.
   * A zero divisor throws in Java; callers model that case themselves.
   */
  function Int32Div(a: Int32, b: Int32): (q: Int32)
    requires b != 0
    ensures a == IntMin && b == -1 ==> q == IntMin
    ensures !(a == IntMin && b == -1) ==>
      (a >= 0 ==> 0 <= a - q * b < Abs(b)) &&
      (a < 0 ==> 0 <= q * b - a < Abs(b))
    ensures 0 <= a && 0 < b ==> q == a / b
  {
    if a == IntMin && b == -1 then IntMin
    else
      QuotientSize(a, b);
      TruncatedQuotient(a, b);
      TruncQuot(a, b)
  }

  /** The quotient of the magnitudes, with the sign of the exact quotient. */
  function TruncQuot(a: int, b: int): int
    requires b != 0
  {
    if (a < 0) == (b < 0) then Abs(a) / Abs(b) else -(Abs(a) / Abs(b))
  }

  /** Truncation toward zero leaves a remainder with the sign of `a`, smaller than `b`. */
  lemma TruncatedQuotient(a: int, b: int)
    requires b != 0
    ensures a >= 0 ==> 0 <= a - TruncQuot(a, b) * b < Abs(b)
    ensures a < 0 ==> 0 <= TruncQuot(a, b) * b - a < Abs(b)
  {
    var x: int, y: int := Abs(a), Abs(b);
    var t: int := x / y;
    NatDivRemainder(x, y);
    var sameSign := (a < 0) == (b < 0);
    QuotientRemainder(a, b, TruncQuot(a, b), x, y, t, sameSign);
  }

  /** The truncated quotient is no larger than `a`, and at most half of it for `|b| >= 2`. */
  lemma QuotientSize(a: int, b: int)
    requires b != 0
    ensures var q := TruncQuot(a, b);
      (q >= 0 ==> q <= Abs(a)) && (q < 0 ==> -q <= Abs(a)) &&
      (Abs(b) >= 2 ==> 2 * q <= Abs(a)) &&
      (q > 0 ==> (a < 0) == (b < 0))
  {
    NatDivSize(Abs(a), Abs(b));
  }

  lemma QuotientRemainder(a: int, b: int, q: int, x: int, y: int, t: int, sameSign: bool)
    requires x == Abs(a) && y == Abs(b) && y > 0
    requires 0 <= x - t * y < y
    requires sameSign == ((a < 0) == (b < 0))
    requires q == if sameSign then t else -t
    ensures a >= 0 ==> 0 <= a - q * b < y
    ensures a < 0 ==> 0 <= q * b - a < y
  {
    SignedProduct(t, y, sameSign, b >= 0);
    assert b == if b < 0 then -y else y;
    var p := t * y;
    assert q * b == if a < 0 then -p else p;
  }

  lemma SignedProduct(t: int, y: int, positive: bool, positiveY: bool)
    ensures (if positive then t else -t) * (if positiveY then y else -y)
      == if positive == positiveY then t * y else -(t * y)
  {
  }

  /** Division of naturals leaves a remainder below the divisor. */
  lemma NatDivRemainder(x: nat, y: nat)
    requires y > 0
    ensures 0 <= x - (x / y) * y < y
  {
    assert x == (x / y) * y + x % y;
  }

  /** The quotient of naturals is at most the dividend, and at most half of it for `y >= 2`. */
  lemma NatDivSize(x: nat, y: nat)
    requires y > 0
    ensures x / y <= x
    ensures y >= 2 ==> 2 * (x / y) <= x
  {
    var t := x / y;
    assert x == t * y + x % y;
    MulMonotone(t, 1, y);
    if y >= 2 {
      MulMonotone(t, 2, y);
    }
  }

  lemma MulMonotone(t: nat, a: nat, b: nat)
    requires a <= b
    ensures t * a <= t * b
  {
    assert t * b == t * a + t * (b - a);
  }

  // ---------------------------------------------------------------------------
  // Integer.parseInt and its inverse Integer.toString
  // ---------------------------------------------------------------------------

  predicate IsDigit(c: char)
  {
    '0' <= c <= '9'
  }

  predicate AllDigits(s: string)
  {
    forall i :: 0 <= i < |s| ==> IsDigit(s[i])
  }

  /** The value of a string of decimal digits, read most significant first. */
  function DigitsValue(s: string): nat
    requires AllDigits(s)
    decreases |s|
  {
    if |s| == 0 then 0
    else 10 * DigitsValue(s[..|s| - 1]) + (s[|s| - 1] as int - '0' as int)
  }

  /**
   * `Integer.parseInt(s)`: an optional `-` or `+` followed by at least one
   * decimal digit, whose value fits in an `int`; `None` where Java throws
   * `NumberFormatException` (the empty string, a lone sign, any other
   * character, a value out of range).
   */
  function ParseInt(s: string): (r: Option<Int32>)
    ensures r.Some? ==> |s| > 0 && ' ' !in s
    ensures r.Some? ==> AllDigits(s[1..]) && (IsDigit(s[0]) || s[0] == '-' || s[0] == '+')
    ensures r.Some? ==> IsDigit(s[|s| - 1])
  {
    if |s| == 0 then None
    else
      var digits := if s[0] == '-' || s[0] == '+' then s[1..] else s;
      if |digits| == 0 || !AllDigits(digits) then None
      else
        var v: int := if s[0] == '-' then -(DigitsValue(digits) as int) else DigitsValue(digits);
        if IntMin <= v <= IntMax then
          assert forall i :: 0 <= i < |s| ==> s[i] != ' ' by {
            forall i | 0 <= i < |s| ensures s[i] != ' ' {
              if s[0] == '-' || s[0] == '+' {
                if i > 0 { assert s[i] == digits[i - 1]; }
              }
            }
          }
          assert s[|s| - 1] == digits[|digits| - 1];
          Some(v)
        else None
  }

  function DigitChar(d: nat): (c: char)
    requires d < 10
    ensures IsDigit(c)
  {
    ('0' as int + d) as char
  }

  /** Decimal digits of a natural number, without sign or leading zeros. */
  function NatToDigits(n: nat): string
    decreases n
  {
    if n < 10 then [DigitChar(n)] else NatToDigits(n / 10) + [DigitChar(n % 10)]
  }

  /** `Integer.toString(n)`, extended to every integer. */
  function IntToString(n: int): string
  {
    if n < 0 then "-" + NatToDigits(-n) else NatToDigits(n)
  }

  lemma {:induction false} NatToDigitsValue(n: nat)
    ensures |NatToDigits(n)| > 0 && AllDigits(NatToDigits(n))
    ensures DigitsValue(NatToDigits(n)) == n
    decreases n
  {
    var s := NatToDigits(n);
    if n >= 10 {
      NatToDigitsValue(n / 10);
      assert s[..|s| - 1] == NatToDigits(n / 10);
    }
  }

  /**
   * `parseInt` reads back exactly the integers `toString` writes whose value
   * fits in an `int`, and rejects the decimal form of every other integer.
   */
  lemma {:induction false} ParseIntToString(n: int)
    ensures ParseInt(IntToString(n)) == if IntMin <= n <= IntMax then Some(n) else None
  {
    var s := IntToString(n);
    if n < 0 {
      NatToDigitsValue(-n);
      assert s[1..] == NatToDigits(-n);
    } else {
      NatToDigitsValue(n);
    }
  }

  /** A leading `+` is accepted and does not change the value. */
  lemma {:induction false} ParseIntPlusSign(n: nat)
    ensures ParseInt("+" + NatToDigits(n)) == if n <= IntMax then Some(n) else None
  {
    NatToDigitsValue(n);
    assert ("+" + NatToDigits(n))[1..] == NatToDigits(n);
  }

  /** A zero written in front of the digits changes nothing about their value. */
  lemma {:induction false} DigitsValueLeadingZero(d: string)
    requires AllDigits(d)
    ensures AllDigits("0" + d) && DigitsValue("0" + d) == DigitsValue(d)
    decreases |d|
  {
    var z := "0" + d;
    assert forall i :: 0 < i < |z| ==> z[i] == d[i - 1];
    if |d| > 0 {
      var init := d[..|d| - 1];
      DigitsValueLeadingZero(init);
      assert z[..|z| - 1] == "0" + init;
      assert z[|z| - 1] == d[|d| - 1];
    } else {
      assert z[..0] == "";
    }
  }

  /**
   * Leading zeros are accepted, after a sign too: `"007"` reads as `"7"`
   * does and `"+05"` as `"+5"`; a zero alone, signed or not (`"-0"`,
   * `"+0"`), reads as `0`.
   */
  lemma {:induction false} ParseIntLeadingZero(sign: string, d: string)
    requires sign == "" || sign == "-" || sign == "+"
    requires AllDigits(d)
    ensures |d| > 0 ==> ParseInt(sign + "0" + d) == ParseInt(sign + d)
    ensures |d| == 0 ==> ParseInt(sign + "0") == Some(0)
  {
    if |d| == 0 {
      ParseIntZero(sign);
    } else {
      ParseIntPaddedDigits(sign, d);
    }
  }

  lemma ParseIntZero(sign: string)
    requires sign == "" || sign == "-" || sign == "+"
    ensures ParseInt(sign + "0") == Some(0)
  {
    var s := sign + "0";
    assert DigitsValue("0") == 0 by {
      assert "0"[..0] == "";
    }
    if sign != "" {
      assert s[0] == sign[0] && s[1..] == "0";
    } else {
      assert s == "0";
    }
  }

  lemma ParseIntPaddedDigits(sign: string, d: string)
    requires sign == "" || sign == "-" || sign == "+"
    requires |d| > 0 && AllDigits(d)
    ensures ParseInt(sign + "0" + d) == ParseInt(sign + d)
  {
    DigitsValueLeadingZero(d);
    var padded, plain := sign + "0" + d, sign + d;
    assert IsDigit(d[0]);
    if sign == "" {
      assert padded == "0" + d && plain == d;
    } else {
      assert padded[0] == sign[0] && padded[1..] == "0" + d;
      assert plain[0] == sign[0] && plain[1..] == d;
    }
  }

  /** `"-0"` is the split size 0, not an error. */
  lemma NegativeZero()
    ensures ParseInt("-0") == Some(0)
  {
    ParseIntLeadingZero("-", "");
    assert "-" + "0" == "-0";
  }

  /** A sign without digits is rejected. */
  lemma LoneSignRejected()
    ensures ParseInt("-") == None && ParseInt("+") == None && ParseInt("") == None
  {
  }

  // ---------------------------------------------------------------------------
  // String.join and String.split(" ")
  // ---------------------------------------------------------------------------

  /** `String.join(sep, parts)`. */
  function JoinWith(sep: string, parts: seq<string>): (r: string)
    ensures |parts| > 0 ==> |parts[0]| <= |r| && r[..|parts[0]|] == parts[0]
    ensures ' ' !in sep && (forall i :: 0 <= i < |parts| ==> ' ' !in parts[i]) ==> ' ' !in r
    decreases |parts|
  {
    if |parts| == 0 then ""
    else if |parts| == 1 then parts[0]
    else JoinWith(sep, parts[..|parts| - 1]) + sep + parts[|parts| - 1]
  }

  /** Every substring between two spaces, the empty ones included. */
  function Fields(s: string): (parts: seq<string>)
    ensures |parts| >= 1
    ensures forall i :: 0 <= i < |parts| ==> ' ' !in parts[i]
    ensures ' ' !in s ==> parts == [s]
    decreases |s|
  {
    if |s| == 0 then [""]
    else
      var init := Fields(s[..|s| - 1]);
      var c := s[|s| - 1];
      if c == ' ' then init + [""]
      else
        assert ' ' !in s ==> init == [s[..|s| - 1]] && s[..|s| - 1] + [c] == s;
        init[..|init| - 1] + [init[|init| - 1] + [c]]
  }

  /** Drops the empty strings at the end of a list. */
  function StripTrailingEmpty(parts: seq<string>): (r: seq<string>)
    ensures |r| <= |parts| && r == parts[..|r|]
    ensures |r| == 0 || r[|r| - 1] != ""
    ensures forall i :: |r| <= i < |parts| ==> parts[i] == ""
    decreases |parts|
  {
    if |parts| > 0 && parts[|parts| - 1] == "" then StripTrailingEmpty(parts[..|parts| - 1])
    else parts
  }

  /**
   * `s.split(" ")`: without a space the whole string (even the empty one);
   * otherwise the fields between spaces with the trailing empty ones removed,
   * so a string of spaces splits into nothing.
   */
  function JavaSplit(s: string): (parts: seq<string>)
    ensures forall i :: 0 <= i < |parts| ==> ' ' !in parts[i]
    ensures ' ' !in s ==> parts == [s]
    ensures ' ' in s ==> |parts| == 0 || parts[|parts| - 1] != ""
  {
    if ' ' !in s then [s] else StripTrailingEmpty(Fields(s))
  }

  function TrimTrailingSpaces(s: string): string
    decreases |s|
  {
    if |s| > 0 && s[|s| - 1] == ' ' then TrimTrailingSpaces(s[..|s| - 1]) else s
  }

  lemma {:induction false} JoinFields(s: string)
    ensures JoinWith(" ", Fields(s)) == s
    decreases |s|
  {
    if |s| > 0 {
      var prefix, c := s[..|s| - 1], s[|s| - 1];
      var init := Fields(prefix);
      assert prefix + [c] == s;
      JoinFields(prefix);
      if c == ' ' {
        assert Fields(s) == init + [""];
        JoinAppend(" ", init, "");
      } else {
        assert Fields(s) == init[..|init| - 1] + [init[|init| - 1] + [c]];
        JoinExtendLast(init, c);
      }
    }
  }

  lemma JoinAppend(sep: string, parts: seq<string>, last: string)
    requires |parts| >= 1
    ensures JoinWith(sep, parts + [last]) == JoinWith(sep, parts) + sep + last
  {
    assert (parts + [last])[..|parts|] == parts;
  }

  /** Appending a character to the last part appends it to the joined string. */
  lemma JoinExtendLast(parts: seq<string>, c: char)
    requires |parts| >= 1
    ensures JoinWith(" ", parts[..|parts| - 1] + [parts[|parts| - 1] + [c]]) == JoinWith(" ", parts) + [c]
  {
    var init := parts[..|parts| - 1];
    if |parts| > 1 {
      JoinAppend(" ", init, parts[|parts| - 1] + [c]);
    }
  }

  lemma {:induction false} JoinStrip(parts: seq<string>)
    requires |parts| >= 1
    requires forall i :: 0 <= i < |parts| ==> ' ' !in parts[i]
    ensures JoinWith(" ", StripTrailingEmpty(parts)) == TrimTrailingSpaces(JoinWith(" ", parts))
    decreases |parts|
  {
    var last := parts[|parts| - 1];
    if last != "" {
      var joined := JoinWith(" ", parts);
      assert joined[|joined| - 1] == last[|last| - 1];
    } else if |parts| > 1 {
      var init := parts[..|parts| - 1];
      JoinStrip(init);
      var joined := JoinWith(" ", parts);
      assert joined == JoinWith(" ", init) + " ";
      assert joined[..|joined| - 1] == JoinWith(" ", init);
    }
  }

  /**
   * `String.join(" ", s.split(" "))` gives back `s` without its trailing
   * spaces: splitting loses nothing but those.
   */
  lemma {:induction false} JavaSplitJoin(s: string)
    ensures JoinWith(" ", JavaSplit(s)) == TrimTrailingSpaces(s)
  {
    if ' ' in s {
      JoinFields(s);
      JoinStrip(Fields(s));
    } else if |s| > 0 {
      assert s[|s| - 1] != ' ';
    }
  }

  // ---------------------------------------------------------------------------
  // String.equalsIgnoreCase
  // ---------------------------------------------------------------------------

  function ToUpperAscii(c: char): char
  {
    if 'a' <= c <= 'z' then (c as int - 32) as char else c
  }

  /** The string with every ASCII letter in upper case. */
  function UpperAscii(s: string): (u: string)
    ensures |u| == |s| && forall i :: 0 <= i < |s| ==> u[i] == ToUpperAscii(s[i])
  {
    seq(|s|, i requires 0 <= i < |s| => ToUpperAscii(s[i]))
  }

  /**
   * Same length and, position by position, the same character or the same
   * character once upper-cased; that is, equal strings once both are
   * upper-cased.
   */
  function EqualsIgnoreCase(a: string, b: string): (r: bool)
    ensures r <==> UpperAscii(a) == UpperAscii(b)
  {
    UpperEquality(a, b);
    |a| == |b| &&
    forall i :: 0 <= i < |a| ==> a[i] == b[i] || ToUpperAscii(a[i]) == ToUpperAscii(b[i])
  }

  lemma UpperEquality(a: string, b: string)
    ensures UpperAscii(a) == UpperAscii(b) <==>
      |a| == |b| && forall i :: 0 <= i < |a| ==> ToUpperAscii(a[i]) == ToUpperAscii(b[i])
  {
    if |a| == |b| && forall i :: 0 <= i < |a| ==> ToUpperAscii(a[i]) == ToUpperAscii(b[i]) {
      assert forall i :: 0 <= i < |a| ==> UpperAscii(a)[i] == UpperAscii(b)[i];
    }
    if UpperAscii(a) == UpperAscii(b) {
      assert forall i :: 0 <= i < |a| ==> UpperAscii(a)[i] == UpperAscii(b)[i];
    }
  }
}
