/** String helpers used to render the validators' messages: decimal rendering
    of integers (Swift string interpolation of `Int`) and `joined(separator:)`. */
module Text {

  /** The decimal digit for `d`. */
  function DigitChar(d: nat): (c: char)
    requires d < 10
    ensures '0' <= c <= '9'
    ensures c as int - '0' as int == d
  {
    "0123456789"[d]
  }

  /** All characters of `s` are decimal digits. */
  predicate AllDigits(s: string)
  {
    forall i :: 0 <= i < |s| ==> '0' <= s[i] <= '9'
  }

  /** The number a string of decimal digits denotes, most significant first. */
  function DigitsValue(s: string): nat
    requires AllDigits(s)
  {
    if |s| == 0 then 0
    else DigitsValue(s[..|s| - 1]) * 10 + (s[|s| - 1] as int - '0' as int)
  }

  /** Decimal rendering of a natural number, most significant digit first;
      reading the digits back gives the number. */
  function NatToString(n: nat): (s: string)
    ensures |s| >= 1
    ensures AllDigits(s)
    ensures DigitsValue(s) == n
    ensures n > 0 ==> s[0] != '0'
    ensures |s| > 1 ==> s[0] != '0'
  {
    if n < 10 then [DigitChar(n)]
    else
      var s := NatToString(n / 10) + [DigitChar(n % 10)];
      assert s[..|s| - 1] == NatToString(n / 10);
      s
  }

  /** Decimal rendering of an integer, with a leading `-` exactly when it is
      negative; the digits after the sign read back as its magnitude. */
  function IntToString(i: int): (s: string)
    ensures |s| >= 1
    ensures (i < 0) <==> (s[0] == '-')
    ensures i >= 0 ==> AllDigits(s) && DigitsValue(s) == i
    ensures i < 0 ==> AllDigits(s[1..]) && DigitsValue(s[1..]) == -i
    ensures i > 0 ==> s[0] != '0'
    ensures i == 0 ==> s == "0"
    ensures i < 0 ==> |s| >= 2 && s[1] != '0'
  {
    if i < 0 then
      var s := "-" + NatToString(-i);
      assert s[1..] == NatToString(-i);
      s
    else NatToString(i)
  }

  /** `items.joined(separator: sep)`. */
  function Join(items: seq<string>, sep: string): string
  {
    if |items| == 0 then ""
    else if |items| == 1 then items[0]
    else items[0] + sep + Join(items[1..], sep)
  }

  /** `a` occurs somewhere inside `b`. */
  predicate IsInfix(a: string, b: string)
  {
    exists k :: 0 <= k <= |b| && a <= b[k..]
  }

  lemma InfixOfSelf(a: string)
    ensures IsInfix(a, a)
  {
    assert a <= a[0..];
  }

  lemma InfixOfLeft(a: string, x: string, y: string)
    requires IsInfix(a, x)
    ensures IsInfix(a, x + y)
  {
    var k :| 0 <= k <= |x| && a <= x[k..];
    assert (x + y)[k..] == x[k..] + y;
  }

  lemma InfixOfRight(a: string, x: string, y: string)
    requires IsInfix(a, y)
    ensures IsInfix(a, x + y)
  {
    var k :| 0 <= k <= |y| && a <= y[k..];
    assert (x + y)[|x| + k..] == y[k..];
  }

  /** Every item of a joined list appears verbatim in the joined text. */
  lemma {:induction false} JoinMentionsEveryItem(items: seq<string>, sep: string)
    ensures forall i :: 0 <= i < |items| ==> IsInfix(items[i], Join(items, sep))
  {
    if |items| == 1 {
      InfixOfSelf(items[0]);
    } else if |items| > 1 {
      JoinMentionsEveryItem(items[1..], sep);
      forall i | 0 <= i < |items|
        ensures IsInfix(items[i], Join(items, sep))
      {
        if i == 0 {
          InfixOfSelf(items[0]);
          InfixOfLeft(items[0], items[0], sep + Join(items[1..], sep));
          assert items[0] + sep + Join(items[1..], sep) == items[0] + (sep + Join(items[1..], sep));
        } else {
          assert items[i] == items[1..][i - 1];
          InfixOfRight(items[i], items[0] + sep, Join(items[1..], sep));
        }
      }
    }
  }
}
