/**
 * Character and string helpers used by the config writer and the log parser:
 * decimal rendering of ids, zero padding, joining with a separator and
 * Rust's `split_whitespace`.
 */
module Text {

  /** Unicode White_Space, the set Rust's `char::is_whitespace` uses. */
  predicate IsWhitespace(c: char) {
    ('\U{9}' <= c <= '\U{D}') || c == ' ' || c == '\U{85}' || c == '\U{A0}'
    || c == '\U{1680}' || ('\U{2000}' <= c <= '\U{200A}') || c == '\U{2028}'
    || c == '\U{2029}' || c == '\U{202F}' || c == '\U{205F}' || c == '\U{3000}'
  }

  predicate IsDigit(c: char) {
    '0' <= c <= '9'
  }

  predicate AllDigits(s: string) {
    forall i :: 0 <= i < |s| ==> IsDigit(s[i])
  }

  /** A token as `split_whitespace` yields it: non-empty, no whitespace inside. */
  predicate IsToken(s: string) {
    |s| > 0 && forall i :: 0 <= i < |s| ==> !IsWhitespace(s[i])
  }

  /** Printable ASCII other than the space. */
  predicate IsVisible(c: char) {
    '!' <= c <= '~'
  }

  /** A non-empty run of visible ASCII characters is a token. */
  lemma VisibleIsToken(s: string)
    requires |s| > 0 && forall i :: 0 <= i < |s| ==> IsVisible(s[i])
    ensures IsToken(s)
  {
  }

  lemma TokensAppend(a: string, b: string)
    requires IsToken(a) && IsToken(b)
    ensures IsToken(a + b)
  {
    assert forall i :: |a| <= i < |a + b| ==> (a + b)[i] == b[i - |a|];
  }

  function DigitChar(d: nat): (c: char)
    requires d < 10
    ensures IsDigit(c)
  {
    ['0', '1', '2', '3', '4', '5', '6', '7', '8', '9'][d]
  }

  function DigitValue(c: char): (d: nat)
    requires IsDigit(c)
    ensures d < 10
    ensures DigitChar(d) == c
  {
    (c as int - '0' as int) as nat
  }

  /** The value of a string of decimal digits (leading zeros allowed). */
  function DigitsValue(s: string): nat
    requires AllDigits(s)
  {
    if |s| == 0 then 0 else DigitsValue(s[..|s| - 1]) * 10 + DigitValue(s[|s| - 1])
  }

  /** Decimal rendering of a natural number, as Rust's `{}` formats it. */
  function Decimal(n: nat): (s: string)
    ensures |s| > 0 && AllDigits(s)
    ensures |s| > 1 ==> s[0] != '0'
  {
    if n < 10 then [DigitChar(n)] else Decimal(n / 10) + [DigitChar(n % 10)]
  }

  lemma {:induction false} DecimalRoundTrip(n: nat)
    ensures DigitsValue(Decimal(n)) == n
  {
    if n >= 10 {
      DecimalRoundTrip(n / 10);
      var s := Decimal(n);
      assert s[..|s| - 1] == Decimal(n / 10);
    }
  }

  /** Leading zeros do not change the value of a digit string. */
  lemma {:induction false} LeadingZeros(z: nat, s: string)
    requires AllDigits(s)
    ensures AllDigits(Repeat('0', z) + s)
    ensures DigitsValue(Repeat('0', z) + s) == DigitsValue(s)
  {
    var t := Repeat('0', z) + s;
    if |s| == 0 {
      assert t == Repeat('0', z);
      ZerosValue(z);
    } else {
      LeadingZeros(z, s[..|s| - 1]);
      assert t[..|t| - 1] == Repeat('0', z) + s[..|s| - 1];
    }
  }

  lemma {:induction false} ZerosValue(z: nat)
    ensures DigitsValue(Repeat('0', z)) == 0
  {
    if z > 0 {
      ZerosValue(z - 1);
      assert Repeat('0', z)[..z - 1] == Repeat('0', z - 1);
    }
  }

  function Repeat(c: char, n: nat): (s: string)
    ensures |s| == n
    ensures forall i :: 0 <= i < n ==> s[i] == c
  {
    if n == 0 then [] else [c] + Repeat(c, n - 1)
  }

  /** Rust's `{:0>w}`: left-pad with '0' up to width `w`; longer strings are kept. */
  function PadZeros(s: string, w: nat): string
  {
    if |s| < w then Repeat('0', w - |s|) + s else s
  }

  /** `items.join(sep)`. */
  function Join(items: seq<string>, sep: string): string
  {
    if |items| == 0 then ""
    else if |items| == 1 then items[0]
    else items[0] + sep + Join(items[1..], sep)
  }

  /** The length of the leading run of non-whitespace characters of `s`. */
  function TokenLength(s: string): (n: nat)
    ensures n <= |s|
    ensures forall i :: 0 <= i < n ==> !IsWhitespace(s[i])
    ensures n < |s| ==> IsWhitespace(s[n])
  {
    if |s| == 0 || IsWhitespace(s[0]) then 0 else 1 + TokenLength(s[1..])
  }

  /** Rust's `str::split_whitespace`: the maximal runs of non-whitespace characters. */
  function SplitWhitespace(s: string): (tokens: seq<string>)
    decreases |s|
  {
    if |s| == 0 then []
    else if IsWhitespace(s[0]) then SplitWhitespace(s[1..])
    else
      var n := TokenLength(s);
      [s[..n]] + SplitWhitespace(s[n..])
  }

  /** The characters of `s` that are not whitespace, in order. */
  function NonWhitespace(s: string): string
  {
    if |s| == 0 then ""
    else if IsWhitespace(s[0]) then NonWhitespace(s[1..])
    else [s[0]] + NonWhitespace(s[1..])
  }

  function Concat(ss: seq<string>): string
  {
    if |ss| == 0 then "" else ss[0] + Concat(ss[1..])
  }

  /**
   * Every token `split_whitespace` yields is a whitespace-free non-empty run,
   * and no character other than whitespace is lost or reordered.
   */
  lemma {:induction false} SplitWhitespaceSound(s: string)
    ensures forall i :: 0 <= i < |SplitWhitespace(s)| ==> IsToken(SplitWhitespace(s)[i])
    ensures Concat(SplitWhitespace(s)) == NonWhitespace(s)
    decreases |s|
  {
    if |s| == 0 {
    } else if IsWhitespace(s[0]) {
      SplitWhitespaceSound(s[1..]);
    } else {
      var n := TokenLength(s);
      SplitWhitespaceSound(s[n..]);
      TokenPrefix(s, n);
      var ts := SplitWhitespace(s);
      assert ts == [s[..n]] + SplitWhitespace(s[n..]);
      assert ts[1..] == SplitWhitespace(s[n..]);
      assert Concat(ts) == s[..n] + Concat(SplitWhitespace(s[n..]));
      NonWhitespaceAppend(s[..n], s[n..]);
      assert s[..n] + s[n..] == s;
      NonWhitespaceOfToken(s[..n]);
    }
  }

  lemma TokenPrefix(s: string, n: nat)
    requires |s| > 0 && !IsWhitespace(s[0]) && n == TokenLength(s)
    ensures IsToken(s[..n])
  {
  }

  lemma {:induction false} NonWhitespaceOfToken(t: string)
    requires forall i :: 0 <= i < |t| ==> !IsWhitespace(t[i])
    ensures NonWhitespace(t) == t
  {
    if |t| > 0 {
      NonWhitespaceOfToken(t[1..]);
    }
  }

  lemma {:induction false} NonWhitespaceAppend(a: string, b: string)
    ensures NonWhitespace(a + b) == NonWhitespace(a) + NonWhitespace(b)
  {
    if |a| > 0 {
      NonWhitespaceAppend(a[1..], b);
      assert (a + b)[1..] == a[1..] + b;
    } else {
      assert a + b == b;
    }
  }

  /** Leading whitespace is skipped. */
  lemma {:induction false} SplitSkipsWhitespace(w: string, s: string)
    requires forall i :: 0 <= i < |w| ==> IsWhitespace(w[i])
    ensures SplitWhitespace(w + s) == SplitWhitespace(s)
    decreases |w|
  {
    if |w| > 0 {
      assert (w + s)[1..] == w[1..] + s;
      SplitSkipsWhitespace(w[1..], s);
    } else {
      assert w + s == s;
    }
  }

  /** A token followed by a whitespace character is split off whole. */
  lemma SplitToken(t: string, sep: char, rest: string)
    requires IsToken(t) && IsWhitespace(sep)
    ensures SplitWhitespace(t + [sep] + rest) == [t] + SplitWhitespace(rest)
  {
    var s := t + [sep] + rest;
    TokenLengthOf(t, [sep] + rest);
    assert s == t + ([sep] + rest);
    assert s[..|t|] == t;
    assert s[|t|..] == [sep] + rest;
    assert ([sep] + rest)[1..] == rest;
  }

  /** A token followed by text that starts with whitespace is split off whole. */
  lemma SplitTokenBefore(t: string, rest: string)
    requires IsToken(t) && |rest| > 0 && IsWhitespace(rest[0])
    ensures SplitWhitespace(t + rest) == [t] + SplitWhitespace(rest)
  {
    var s := t + rest;
    TokenLengthOf(t, rest);
    assert s[0] == t[0];
    assert s[..|t|] == t;
    assert s[|t|..] == rest;
  }

  /** A token followed by a space and more text is split off whole. */
  lemma SplitSpaced(t: string, rest: string)
    requires IsToken(t)
    ensures SplitWhitespace(t + (" " + rest)) == [t] + SplitWhitespace(rest)
  {
    SplitTokenBefore(t, " " + rest);
    SplitSkipsWhitespace(" ", rest);
  }

  /** Concatenation regroups to the right. */
  lemma Assoc<T>(a: seq<T>, b: seq<T>, c: seq<T>)
    ensures a + b + c == a + (b + c)
  {
  }

  lemma {:induction false} TokenLengthOf(t: string, rest: string)
    requires forall i :: 0 <= i < |t| ==> !IsWhitespace(t[i])
    requires |rest| == 0 || IsWhitespace(rest[0])
    ensures TokenLength(t + rest) == |t|
  {
    if |t| > 0 {
      assert (t + rest)[1..] == t[1..] + rest;
      TokenLengthOf(t[1..], rest);
    } else {
      assert t + rest == rest;
    }
  }

  lemma SplitSingleToken(t: string)
    requires IsToken(t)
    ensures SplitWhitespace(t) == [t]
  {
    TokenLengthOf(t, "");
    assert t + "" == t;
    assert t[|t|..] == "";
  }

  /**
   * Joining tokens with a whitespace separator and splitting again gives the
   * tokens back.
   */
  lemma {:induction false} SplitJoinRoundTrip(tokens: seq<string>, sep: char)
    requires forall i :: 0 <= i < |tokens| ==> IsToken(tokens[i])
    requires IsWhitespace(sep)
    ensures SplitWhitespace(Join(tokens, [sep])) == tokens
  {
    if |tokens| == 1 {
      SplitSingleToken(tokens[0]);
    } else if |tokens| > 1 {
      SplitJoinRoundTrip(tokens[1..], sep);
      SplitToken(tokens[0], sep, Join(tokens[1..], [sep]));
      assert Join(tokens, [sep]) == tokens[0] + [sep] + Join(tokens[1..], [sep]);
      assert tokens == [tokens[0]] + tokens[1..];
    }
  }

  lemma {:induction false} TokenLengthAppend(a: string, sep: char, b: string)
    requires IsWhitespace(sep)
    ensures TokenLength(a + [sep] + b) == TokenLength(a)
  {
    if |a| > 0 && !IsWhitespace(a[0]) {
      assert (a + [sep] + b)[1..] == a[1..] + [sep] + b;
      TokenLengthAppend(a[1..], sep, b);
    }
  }

  /** Splitting at a whitespace character splits the two sides independently. */
  lemma {:induction false} SplitAppend(a: string, sep: char, b: string)
    requires IsWhitespace(sep)
    ensures SplitWhitespace(a + [sep] + b) == SplitWhitespace(a) + SplitWhitespace(b)
    decreases |a|
  {
    var s := a + [sep] + b;
    if |a| == 0 {
      assert s == [sep] + b;
      assert s[1..] == b;
    } else if IsWhitespace(a[0]) {
      assert s[1..] == a[1..] + [sep] + b;
      SplitAppend(a[1..], sep, b);
    } else {
      var n := TokenLength(a);
      TokenLengthAppend(a, sep, b);
      assert s[..n] == a[..n];
      assert s[n..] == a[n..] + [sep] + b;
      SplitAppend(a[n..], sep, b);
    }
  }
}
