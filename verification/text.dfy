/** The string handling the path resolver relies on: JavaScript's
    `String.prototype.split('.')`, `parseInt` on plain decimal tokens, and
    the conversion of a scalar to a property key. */
module Text {
  import opened Values

  const DELIMITER: char := '.'

  predicate IsDigit(c: char) {
    '0' <= c <= '9'
  }

  /** A non-empty run of decimal digits: the tokens the model accepts as
      sequence indices. */
  predicate IsDigits(s: string) {
    |s| > 0 && forall i :: 0 <= i < |s| ==> IsDigit(s[i])
  }

  function DigitChar(d: nat): (c: char)
    requires d < 10
    ensures IsDigit(c) && DigitValue(c) == d
  {
    ('0' as int + d) as char
  }

  function DigitValue(c: char): (d: nat)
    requires IsDigit(c)
    ensures d < 10
  {
    c as int - '0' as int
  }

  /** Value of a run of decimal digits, most significant first. */
  function DigitsValue(s: string): nat
    requires forall i :: 0 <= i < |s| ==> IsDigit(s[i])
    decreases |s|
  {
    if s == [] then 0
    else DigitsValue(s[..|s| - 1]) * 10 + DigitValue(s[|s| - 1])
  }

  /** Decimal rendering of a natural number, without leading zeros. */
  function NatToString(n: nat): (s: string)
    ensures IsDigits(s)
    ensures s[0] == '0' ==> n == 0
    decreases n
  {
    if n < 10 then [DigitChar(n)] else NatToString(n / 10) + [DigitChar(n % 10)]
  }

  /** JavaScript's ToString of an integral number. */
  function IntToString(i: int): string {
    if i < 0 then "-" + NatToString(-i) else NatToString(i)
  }

  /** `parseInt(token)` where the token is a plain decimal index; anything
      else (a sign, white space, a trailing non-digit, the empty string) is
      outside the model and yields None. */
  function ParseIndex(token: string): Option<nat> {
    if IsDigits(token) then Some(DigitsValue(token)) else None
  }

  /** Property key of a scalar, as JavaScript's ToString makes it when the
      scalar is used to index an object. */
  function KeyString(k: Scalar): string {
    match k
    case Num(n) => IntToString(n)
    case Str(s) => s
    case Bool(b) => if b then "true" else "false"
    case Null => "null"
  }

  /** Re-joins tokens with the delimiter (the inverse of Split). */
  function Join(parts: seq<string>): string
    decreases |parts|
  {
    if |parts| == 0 then ""
    else if |parts| == 1 then parts[0]
    else parts[0] + [DELIMITER] + Join(parts[1..])
  }

  /** `s.split('.')`: always at least one token, no token holds the
      delimiter, and joining the tokens gives back `s`. */
  function Split(s: string): (parts: seq<string>)
    ensures |parts| >= 1
    ensures forall i :: 0 <= i < |parts| ==> DELIMITER !in parts[i]
    ensures Join(parts) == s
    decreases |s|
  {
    if s == [] then [""]
    else
      var rest := Split(s[1..]);
      if s[0] == DELIMITER then
        assert Join([""] + rest) == "" + [DELIMITER] + Join(rest);
        [""] + rest
      else
        var parts := [[s[0]] + rest[0]] + rest[1..];
        assert Join(parts) == [s[0]] + Join(rest) by {
          if |rest| > 1 {
            assert parts[1..] == rest[1..];
            assert Join(rest) == rest[0] + [DELIMITER] + Join(rest[1..]);
          }
        }
        assert [s[0]] + s[1..] == s;
        parts
  }

  /** A token without the delimiter splits into itself. */
  lemma {:induction false} SplitPlain(t: string)
    requires DELIMITER !in t
    ensures Split(t) == [t]
    decreases |t|
  {
    if t != [] {
      assert DELIMITER !in t[1..] by {
        forall i | 0 <= i < |t[1..]| ensures t[1..][i] != DELIMITER {
          assert t[1..][i] == t[i + 1];
        }
      }
      SplitPlain(t[1..]);
      assert [t[0]] + t[1..] == t;
    }
  }

  /** Splitting `a.b` where `a` holds no delimiter yields `a` followed by
      the split of `b`. */
  lemma {:induction false} SplitAfterToken(a: string, b: string)
    requires DELIMITER !in a
    ensures Split(a + [DELIMITER] + b) == [a] + Split(b)
    decreases |a|
  {
    var s := a + [DELIMITER] + b;
    if a == [] {
      assert s[0] == DELIMITER && s[1..] == b;
    } else {
      assert s[0] == a[0] != DELIMITER;
      assert DELIMITER !in a[1..] by {
        forall i | 0 <= i < |a[1..]| ensures a[1..][i] != DELIMITER {
          assert a[1..][i] == a[i + 1];
        }
      }
      assert s[1..] == a[1..] + [DELIMITER] + b;
      SplitAfterToken(a[1..], b);
      assert [a[0]] + a[1..] == a;
    }
  }

  /** Round trip the other way: tokens without the delimiter survive
      joining and splitting. */
  lemma {:induction false} SplitJoin(parts: seq<string>)
    requires |parts| >= 1
    requires forall i :: 0 <= i < |parts| ==> DELIMITER !in parts[i]
    ensures Split(Join(parts)) == parts
    decreases |parts|
  {
    if |parts| == 1 {
      SplitPlain(parts[0]);
    } else {
      SplitJoin(parts[1..]);
      SplitAfterToken(parts[0], Join(parts[1..]));
      assert [parts[0]] + parts[1..] == parts;
    }
  }

  lemma {:induction false} DigitsValueAppend(s: string, c: char)
    requires forall i :: 0 <= i < |s| ==> IsDigit(s[i])
    requires IsDigit(c)
    ensures DigitsValue(s + [c]) == DigitsValue(s) * 10 + DigitValue(c)
  {
    assert (s + [c])[..|s + [c]| - 1] == s;
  }

  /** `parseInt` reads back the index that ToString rendered. */
  lemma {:induction false} ParseRendered(n: nat)
    ensures ParseIndex(NatToString(n)) == Some(n)
    decreases n
  {
    if n < 10 {
      DigitsValueAppend([], DigitChar(n));
    } else {
      ParseRendered(n / 10);
      DigitsValueAppend(NatToString(n / 10), DigitChar(n % 10));
    }
  }
}
