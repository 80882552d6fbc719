/**
 * The few Python string built-ins the client and the service rely on:
 * `str(int)`, `int(str)`, `str.lower()` and `sep.join(xs)`, on ASCII text.
 */
module Strings {
  import opened Wrappers

  predicate IsDigit(c: char) {
    '0' <= c <= '9'
  }

  predicate AllDigits(s: string) {
    forall i | 0 <= i < |s| :: IsDigit(s[i])
  }

  function DigitChar(d: nat): (c: char)
    requires d < 10
    ensures IsDigit(c)
  {
    (('0' as int) + d) as char
  }

  function DigitValue(c: char): (d: nat)
    requires IsDigit(c)
    ensures d < 10 && DigitChar(d) == c
  {
    (c as int) - ('0' as int)
  }

  /** The decimal digits of `n`, most significant first, without leading zeros. */
  function NatToDigits(n: nat): (s: string)
    ensures |s| > 0 && AllDigits(s)
    ensures s[0] == '0' ==> n == 0
  {
    if n < 10 then [DigitChar(n)] else NatToDigits(n / 10) + [DigitChar(n % 10)]
  }

  /** The number a non-empty run of decimal digits denotes. */
  function DigitsValue(s: string): nat
    requires AllDigits(s)
  {
    if s == [] then 0 else DigitsValue(s[..|s| - 1]) * 10 + DigitValue(s[|s| - 1])
  }

  lemma {:induction false} DigitsRoundTrip(n: nat)
    ensures DigitsValue(NatToDigits(n)) == n
  {
    if n >= 10 {
      var s := NatToDigits(n);
      assert s[..|s| - 1] == NatToDigits(n / 10);
      DigitsRoundTrip(n / 10);
    }
  }

  /** Python's `str(i)` for an integer: a minus sign exactly for a negative number, then its digits. */
  function IntToString(i: int): (s: string)
    ensures |s| > 0 && (s[0] == '-' <==> i < 0)
    ensures AllDigits(if i < 0 then s[1..] else s) && (if i < 0 then |s| > 1 else true)
    ensures var d := if i < 0 then s[1..] else s; d[0] == '0' ==> i == 0
  {
    if i < 0 then "-" + NatToDigits(-i) else NatToDigits(i)
  }

  /**
   * The ASCII characters for which Python's `str.isspace()` holds, and which
   * `str.strip()` and `int()` therefore discard: tab, line feed, vertical
   * tab, form feed, carriage return, the four separators 28 to 31, and space.
   */
  predicate IsSpace(c: char) {
    || c == ' ' || c == '\t' || c == '\n' || c == '\r' || c == 11 as char || c == 12 as char
    || c == 28 as char || c == 29 as char || c == 30 as char || c == 31 as char
  }

  function StripLeft(s: string): (r: string)
    ensures |r| <= |s| && r == s[|s| - |r|..]
    ensures r == [] || !IsSpace(r[0])
  {
    if s != [] && IsSpace(s[0]) then StripLeft(s[1..]) else s
  }

  function StripRight(s: string): (r: string)
    ensures |r| <= |s| && r == s[..|r|]
    ensures r == [] || !IsSpace(r[|r| - 1])
  {
    if s != [] && IsSpace(s[|s| - 1]) then StripRight(s[..|s| - 1]) else s
  }

  function Strip(s: string): string {
    StripRight(StripLeft(s))
  }

  /** An optional sign and at least one decimal digit, and nothing else; `None` otherwise. */
  function ParseSigned(t: string): Option<int> {
    if |t| > 1 && (t[0] == '-' || t[0] == '+') && AllDigits(t[1..]) then
      Some(var n: int := DigitsValue(t[1..]); if t[0] == '-' then -n else n)
    else if |t| > 0 && AllDigits(t) then
      Some(DigitsValue(t) as int)
    else
      None
  }

  /**
   * Python's `int(s)` on text: surrounding white space is ignored, then an
   * optional sign and at least one decimal digit; anything else raises
   * `ValueError`, modelled as `None`.
   */
  function ParseInt(s: string): Option<int> {
    ParseSigned(Strip(s))
  }

  lemma {:induction false} StripLeftSpaces(pre: string, x: string)
    requires forall k | 0 <= k < |pre| :: IsSpace(pre[k])
    ensures StripLeft(pre + x) == StripLeft(x)
  {
    if pre != [] {
      assert (pre + x)[1..] == pre[1..] + x;
      StripLeftSpaces(pre[1..], x);
    } else {
      assert pre + x == x;
    }
  }

  lemma {:induction false} StripRightSpaces(x: string, post: string)
    requires forall k | 0 <= k < |post| :: IsSpace(post[k])
    ensures StripRight(x + post) == StripRight(x)
  {
    if post != [] {
      var n := |post| - 1;
      assert (x + post)[..|x| + n] == x + post[..n];
      StripRightSpaces(x, post[..n]);
    } else {
      assert x + post == x;
    }
  }

  /** Stripping the left of `s + y` stops inside `s` unless `s` is all white space. */
  lemma {:induction false} StripLeftAppend(s: string, y: string)
    ensures StripLeft(s + y) == if StripLeft(s) == [] then StripLeft(y) else StripLeft(s) + y
  {
    if s == [] {
      assert s + y == y;
    } else if IsSpace(s[0]) {
      assert (s + y)[1..] == s[1..] + y;
      StripLeftAppend(s[1..], y);
    }
  }

  lemma StripIgnoresSpace(pre: string, s: string, post: string)
    requires forall k | 0 <= k < |pre| :: IsSpace(pre[k])
    requires forall k | 0 <= k < |post| :: IsSpace(post[k])
    ensures Strip(pre + s + post) == Strip(s)
  {
    assert pre + s + post == pre + (s + post);
    StripLeftSpaces(pre, s + post);
    StripLeftAppend(s, post);
    if StripLeft(s) == [] {
      StripLeftSpaces(post, []);
      assert post + [] == post;
    } else {
      StripRightSpaces(StripLeft(s), post);
    }
  }

  /** `int()` ignores white space around the number: padding never changes what parses, or to what. */
  lemma ParseIntIgnoresSpace(pre: string, s: string, post: string)
    requires forall k | 0 <= k < |pre| :: IsSpace(pre[k])
    requires forall k | 0 <= k < |post| :: IsSpace(post[k])
    ensures ParseInt(pre + s + post) == ParseInt(s)
  {
    StripIgnoresSpace(pre, s, post);
  }

  lemma StripDigits(s: string)
    requires |s| > 0 && (AllDigits(s) || (s[0] == '-' && AllDigits(s[1..])))
    ensures Strip(s) == s
  {
    assert !IsSpace(s[0]) && !IsSpace(s[|s| - 1]);
  }

  lemma DigitIsNoSign(c: char)
    requires IsDigit(c)
    ensures c != '-' && c != '+'
  {
  }

  lemma ParseSignedOfDigits(t: string)
    requires |t| > 0 && AllDigits(t)
    ensures ParseSigned(t) == Some(DigitsValue(t) as int)
  {
    DigitIsNoSign(t[0]);
  }

  lemma ParseIntOfDigits(t: string)
    requires |t| > 0 && AllDigits(t)
    ensures ParseInt(t) == Some(DigitsValue(t) as int)
  {
    StripDigits(t);
    ParseSignedOfDigits(t);
  }

  lemma ParseIntOfNegative(t: string)
    requires |t| > 1 && t[0] == '-' && AllDigits(t[1..])
    ensures ParseInt(t) == Some(-(DigitsValue(t[1..]) as int))
  {
    StripDigits(t);
  }

  lemma ParseIntOfNatural(n: nat)
    ensures ParseInt(NatToDigits(n)) == Some(n as int)
  {
    DigitsRoundTrip(n);
    ParseIntOfDigits(NatToDigits(n));
  }

  lemma ParseIntOfNegated(n: nat)
    ensures ParseInt("-" + NatToDigits(n)) == Some(-(n as int))
  {
    var s := "-" + NatToDigits(n);
    assert s[1..] == NatToDigits(n);
    DigitsRoundTrip(n);
    ParseIntOfNegative(s);
  }

  lemma ParseIntRoundTripNegative(i: int)
    requires i < 0
    ensures ParseInt(IntToString(i)) == Some(i)
  {
    var n: nat := -i;
    assert IntToString(i) == "-" + NatToDigits(n);
    ParseIntOfNegated(n);
  }

  lemma ParseIntRoundTripNatural(i: int)
    requires i >= 0
    ensures ParseInt(IntToString(i)) == Some(i)
  {
    assert IntToString(i) == NatToDigits(i);
    ParseIntOfNatural(i);
  }

  /** `int(str(i)) == i`: the decimal rendering of an integer parses back to it. */
  lemma ParseIntRoundTrip(i: int)
    ensures ParseInt(IntToString(i)) == Some(i)
  {
    if i < 0 {
      ParseIntRoundTripNegative(i);
    } else {
      ParseIntRoundTripNatural(i);
    }
  }

  function LowerChar(c: char): (l: char)
    ensures !('A' <= l <= 'Z')
  {
    if 'A' <= c <= 'Z' then (c as int + 32) as char else c
  }

  /** Python's `str.lower()` on ASCII letters: no upper-case letter is left, and nothing else changes. */
  function Lower(s: string): (r: string)
    ensures |r| == |s|
    ensures forall i | 0 <= i < |r| :: !('A' <= r[i] <= 'Z')
    ensures forall i | 0 <= i < |s| :: 'A' <= s[i] <= 'Z' || r[i] == s[i]
    ensures forall i | 0 <= i < |s| && 'A' <= s[i] <= 'Z' :: r[i] as int == s[i] as int + 32
  {
    seq(|s|, i requires 0 <= i < |s| => LowerChar(s[i]))
  }

  /** Text without upper-case letters is already lower case. */
  lemma LowerOfLowerCase(s: string)
    requires forall i | 0 <= i < |s| :: !('A' <= s[i] <= 'Z')
    ensures Lower(s) == s
  {
  }

  lemma LowerIdempotent(s: string)
    ensures Lower(Lower(s)) == Lower(s)
  {
  }

  /** Python's `sep.join(xs)`. */
  function Join(xs: seq<string>, sep: string): (r: string)
    ensures |xs| == 1 ==> r == xs[0]
  {
    if |xs| == 0 then "" else if |xs| == 1 then xs[0] else xs[0] + sep + Join(xs[1..], sep)
  }

  /** Index of the first `c` in `s`, or `|s|` when there is none. */
  function IndexOf(s: string, c: char): (i: nat)
    ensures i <= |s|
    ensures i < |s| ==> s[i] == c
    ensures forall k | 0 <= k < i :: s[k] != c
  {
    if s == [] then 0 else if s[0] == c then 0 else 1 + IndexOf(s[1..], c)
  }

  /**
   * Cuts `s` at every occurrence of the first character of `sep`, dropping
   * `|sep|` characters each time: the inverse of `Join` on items that do not
   * contain that character.
   */
  function SplitOn(s: string, sep: string): (r: seq<string>)
    requires |sep| > 0
    ensures |r| > 0
    decreases |s|
  {
    var i := IndexOf(s, sep[0]);
    if i == |s| then [s]
    else [s[..i]] + SplitOn(s[if i + |sep| <= |s| then i + |sep| else |s|..], sep)
  }

  /** The first `c` in `x + rest` is the one that starts `rest` when `x` holds none. */
  lemma IndexOfAfter(x: string, rest: string, c: char)
    requires c !in x && |rest| > 0 && rest[0] == c
    ensures IndexOf(x + rest, c) == |x|
  {
    var s := x + rest;
    assert s[|x|] == c;
    assert forall k | 0 <= k < |x| :: s[k] == x[k];
  }

  lemma {:induction false} SplitJoin(xs: seq<string>, sep: string)
    requires |sep| > 0 && |xs| > 0
    requires forall k | 0 <= k < |xs| :: sep[0] !in xs[k]
    ensures SplitOn(Join(xs, sep), sep) == xs
  {
    if |xs| == 1 {
      assert IndexOf(xs[0], sep[0]) == |xs[0]|;
    } else {
      var tail := Join(xs[1..], sep);
      var s := xs[0] + (sep + tail);
      assert Join(xs, sep) == s;
      IndexOfAfter(xs[0], sep + tail, sep[0]);
      assert s[..|xs[0]|] == xs[0];
      assert s[|xs[0]| + |sep|..] == tail;
      SplitJoin(xs[1..], sep);
      assert SplitOn(s, sep) == [xs[0]] + xs[1..];
    }
  }
}
