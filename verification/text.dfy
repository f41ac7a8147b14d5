/** Small text helpers shared by the rest of the model: an Option type,
    prefix and substring tests, and decimal rendering of integers as
    `std::ostream <<` and `std::to_string` print them, together with a
    reader that undoes that rendering. */
module Text {

  datatype Option<T> = None | Some(value: T) {
    predicate IsFailure() {
      None?
    }

    function PropagateFailure<U>(): Option<U>
      requires None?
    {
      None
    }

    function Extract(): T
      requires Some?
    {
      value
    }
  }

  predicate IsDigit(c: char) {
    '0' <= c <= '9'
  }

  predicate AllDigits(s: string) {
    forall i :: 0 <= i < |s| ==> IsDigit(s[i])
  }

  /** `p` is a prefix of `s`. */
  predicate StartsWith(s: string, p: string) {
    |p| <= |s| && s[..|p|] == p
  }

  /** `p` occurs somewhere in `s`: `std::string::find(p) != npos`. */
  predicate Contains(s: string, p: string)
    decreases |s|
  {
    StartsWith(s, p) || (|s| > 0 && Contains(s[1..], p))
  }

  /** `p` occurs in `s` starting at index `i`. */
  predicate OccursAt(s: string, p: string, i: int) {
    0 <= i && i + |p| <= |s| && s[i..i + |p|] == p
  }

  /** `Contains` holds exactly when some window of `s` equals `p`. */
  lemma {:induction false} ContainsAt(s: string, p: string)
    ensures Contains(s, p) <==> exists i :: OccursAt(s, p, i)
    decreases |s|
  {
    if StartsWith(s, p) {
      assert OccursAt(s, p, 0);
    } else if |s| > 0 {
      ContainsAt(s[1..], p);
      if Contains(s[1..], p) {
        var i :| OccursAt(s[1..], p, i);
        assert s[i + 1..i + 1 + |p|] == s[1..][i..i + |p|];
        assert OccursAt(s, p, i + 1);
      }
      if exists i :: OccursAt(s, p, i) {
        var i :| OccursAt(s, p, i);
        assert i != 0;
        assert s[1..][i - 1..i - 1 + |p|] == s[i..i + |p|];
        assert OccursAt(s[1..], p, i - 1);
      }
    }
  }

  /** What a C string reading of `s` sees (a `const char*` turned into a
      `std::string` or `std::string_view`): everything before the first NUL. */
  function CStr(s: string): (c: string)
    ensures |c| <= |s| && c == s[..|c|]
    ensures '\0' !in c
    ensures |c| < |s| ==> s[|c|] == '\0'
    decreases |s|
  {
    if |s| == 0 || s[0] == '\0' then "" else [s[0]] + CStr(s[1..])
  }

  /** A NUL-free prefix is kept whole and the reading goes on behind it. */
  lemma {:induction false} CStrAppend(a: string, b: string)
    requires '\0' !in a
    ensures CStr(a + b) == a + CStr(b)
    decreases |a|
  {
    if |a| > 0 {
      assert a[0] != '\0';
      assert (a + b)[1..] == a[1..] + b;
      assert '\0' !in a[1..] by {
        forall k | 0 <= k < |a[1..]| ensures a[1..][k] != '\0' {
          assert a[1..][k] == a[k + 1];
        }
      }
      CStrAppend(a[1..], b);
      assert [a[0]] + a[1..] == a;
    } else {
      assert a + b == b;
    }
  }

  /** Text without a NUL is read whole; in particular the reading is idempotent. */
  lemma CStrOfPlain(s: string)
    requires '\0' !in s
    ensures CStr(s) == s
  {
    CStrAppend(s, "");
    assert s + "" == s;
  }

  function DigitChar(d: nat): (c: char)
    requires d < 10
    ensures IsDigit(c)
  {
    ('0' as int + d) as char
  }

  function DigitValue(c: char): (d: nat)
    requires IsDigit(c)
    ensures d < 10 && DigitChar(d) == c
  {
    c as int - '0' as int
  }

  /** Decimal digits of `n`, most significant first, without leading zeros. */
  function NatToDecimal(n: nat): (r: string)
    ensures 1 <= |r|
    ensures AllDigits(r)
    ensures r[0] == '0' ==> n == 0
    decreases n
  {
    if n < 10 then [DigitChar(n)] else NatToDecimal(n / 10) + [DigitChar(n % 10)]
  }

  /** Signed decimal: a leading '-' for negative values. */
  function IntToDecimal(i: int): (r: string)
    ensures 1 <= |r|
    ensures i < 0 <==> r[0] == '-'
  {
    if i < 0 then "-" + NatToDecimal(-i) else NatToDecimal(i)
  }

  /** The number a string of digits denotes. */
  function DigitsValue(s: string): nat
    requires AllDigits(s)
    decreases |s|
  {
    if |s| == 0 then 0 else DigitsValue(s[..|s| - 1]) * 10 + DigitValue(s[|s| - 1])
  }

  lemma {:induction false} DigitsValueOfDecimal(n: nat)
    ensures DigitsValue(NatToDecimal(n)) == n
    decreases n
  {
    var r := NatToDecimal(n);
    if n >= 10 {
      DigitsValueOfDecimal(n / 10);
      assert r[..|r| - 1] == NatToDecimal(n / 10);
    }
  }

  /** Length of the run of digits that starts `s`. */
  function DigitRun(s: string): (k: nat)
    ensures k <= |s|
    ensures AllDigits(s[..k])
    ensures k < |s| ==> !IsDigit(s[k])
    decreases |s|
  {
    if |s| == 0 || !IsDigit(s[0]) then 0 else 1 + DigitRun(s[1..])
  }

  /** Reads an unsigned decimal number off the front of `s`. */
  function ReadNat(s: string): Option<(int, string)> {
    var k := DigitRun(s);
    if k == 0 then None else Some((DigitsValue(s[..k]), s[k..]))
  }

  /** Reads an optionally negative decimal number off the front of `s`. */
  function ReadInt(s: string): Option<(int, string)> {
    if |s| > 0 && s[0] == '-' then
      match ReadNat(s[1..])
      case None => None
      case Some(p) => Some((-p.0, p.1))
    else
      ReadNat(s)
  }

  /** A string that does not continue a run of digits. */
  predicate NotDigitStart(t: string) {
    |t| == 0 || !IsDigit(t[0])
  }

  /** A digit run stops exactly where the digits stop. */
  lemma {:induction false} DigitRunOfDigits(d: string, t: string)
    requires AllDigits(d) && NotDigitStart(t)
    ensures DigitRun(d + t) == |d|
    decreases |d|
  {
    if |d| > 0 {
      assert (d + t)[1..] == d[1..] + t;
      DigitRunOfDigits(d[1..], t);
    }
  }

  lemma ReadNatOfDecimal(n: nat, t: string)
    requires NotDigitStart(t)
    ensures ReadNat(NatToDecimal(n) + t) == Some((n, t))
  {
    var d := NatToDecimal(n);
    var s := d + t;
    DigitRunOfDigits(d, t);
    var k := DigitRun(s);
    assert s[..k] == d;
    DigitsValueOfDecimal(n);
    assert s[k..] == t;
  }

  /** `IntToDecimal` is undone by `ReadInt`, whatever non-digit text follows. */
  lemma ReadIntOfDecimal(i: int, t: string)
    requires NotDigitStart(t)
    ensures ReadInt(IntToDecimal(i) + t) == Some((i, t))
  {
    if i < 0 {
      ReadIntOfNegative(-i, t);
    } else {
      ReadIntOfNatural(i, t);
    }
  }

  lemma ReadIntOfNegative(n: nat, t: string)
    requires 0 < n && NotDigitStart(t)
    ensures ReadInt("-" + NatToDecimal(n) + t) == Some((-(n as int), t))
  {
    var s := "-" + NatToDecimal(n) + t;
    assert s[1..] == NatToDecimal(n) + t;
    ReadNatOfDecimal(n, t);
  }

  lemma ReadIntOfNatural(n: nat, t: string)
    requires NotDigitStart(t)
    ensures ReadInt(NatToDecimal(n) + t) == Some((n, t))
  {
    var d := NatToDecimal(n);
    assert (d + t)[0] == d[0];
    ReadNatOfDecimal(n, t);
  }

  /** Consumes the literal `lit` from the front of `s`. */
  function Expect(lit: string, s: string): (r: Option<string>)
    ensures r.Some? <==> StartsWith(s, lit)
  {
    if StartsWith(s, lit) then Some(s[|lit|..]) else None
  }

  lemma ExpectLiteral(lit: string, t: string)
    ensures Expect(lit, lit + t) == Some(t)
  {
    assert (lit + t)[..|lit|] == lit;
    assert (lit + t)[|lit|..] == t;
  }
}
