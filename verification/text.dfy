/**
 * The handful of Python string operations the two loaders rely on, written out
 * over `seq<char>`: `strip()`, ASCII `lower()`, `replace` of one character,
 * `sep.join`, `split(sep)` and `split(sep, maxsplit)`, `str(n)` for a
 * non-negative integer and `int(s)` for a decimal string.
 */
module Text {
  import opened Common

  /** The characters Python 2's `str.strip()` and the `\s` of a non-UNICODE regex treat as whitespace. */
  predicate IsSpace(c: char) {
    c == ' ' || c == '\t' || c == '\n' || c == '\r' || c == '\U{000B}' || c == '\U{000C}'
  }

  /** An ASCII digit, what `\d` matches in a non-UNICODE regex. */
  predicate IsDigit(c: char) {
    '0' <= c <= '9'
  }

  predicate AllDigits(s: string) {
    forall i :: 0 <= i < |s| ==> IsDigit(s[i])
  }

  function DigitValue(c: char): (d: nat)
    requires IsDigit(c)
    ensures d < 10
  {
    c as int - '0' as int
  }

  function DigitChar(d: nat): (c: char)
    requires d < 10
    ensures IsDigit(c) && DigitValue(c) == d
  {
    ('0' as int + d) as char
  }

  /** The number a run of decimal digits denotes (leading zeros allowed, as `int()` allows them). */
  function DigitsValue(s: string): nat
    requires AllDigits(s)
  {
    if |s| == 0 then 0 else DigitsValue(s[..|s| - 1]) * 10 + DigitValue(s[|s| - 1])
  }

  function Pow10(n: nat): (r: nat)
    ensures r >= 1
  {
    if n == 0 then 1 else 10 * Pow10(n - 1)
  }

  /** A run of n digits denotes a number below 10^n. */
  lemma {:induction false} DigitsValueBound(s: string)
    requires AllDigits(s)
    ensures DigitsValue(s) < Pow10(|s|)
  {
    if |s| > 0 {
      DigitsValueBound(s[..|s| - 1]);
    }
  }

  // ---------------------------------------------------------------------------
  // strip()

  function TrimLeft(s: string): (r: string)
    ensures |r| <= |s| && r == s[|s| - |r|..]
    ensures forall i :: 0 <= i < |s| - |r| ==> IsSpace(s[i])
    ensures |r| > 0 ==> !IsSpace(r[0])
  {
    if |s| > 0 && IsSpace(s[0]) then
      var r := TrimLeft(s[1..]);
      assert s[1..][|s| - 1 - |r|..] == s[|s| - |r|..];
      assert forall i :: 1 <= i < |s| - |r| ==> s[i] == s[1..][i - 1];
      r
    else s
  }

  function TrimRight(s: string): (r: string)
    ensures |r| <= |s| && r == s[..|r|]
    ensures forall i :: |r| <= i < |s| ==> IsSpace(s[i])
    ensures |r| > 0 ==> !IsSpace(r[|r| - 1])
  {
    if |s| > 0 && IsSpace(s[|s| - 1]) then
      var r := TrimRight(s[..|s| - 1]);
      assert s[..|s| - 1][..|r|] == s[..|r|];
      assert forall i :: |r| <= i < |s| - 1 ==> s[i] == s[..|s| - 1][i];
      r
    else s
  }

  /** Python's `s.strip()`: the text between the leading and the trailing whitespace. */
  function Strip(s: string): (r: string)
    ensures |r| <= |s|
    ensures |r| > 0 ==> !IsSpace(r[0]) && !IsSpace(r[|r| - 1])
  {
    TrimRight(TrimLeft(s))
  }

  /** What `strip()` keeps is a slice of the text with only whitespace around it. */
  lemma StripIsSlice(s: string)
    ensures exists i, j :: 0 <= i <= j <= |s| && Strip(s) == s[i..j]
                           && (forall k :: 0 <= k < i ==> IsSpace(s[k]))
                           && (forall k :: j <= k < |s| ==> IsSpace(s[k]))
  {
    var t := TrimLeft(s);
    var r := TrimRight(t);
    assert r == s[|s| - |t|..|s| - |t| + |r|];
  }

  lemma StripOfUnpadded(s: string)
    requires |s| > 0 ==> !IsSpace(s[0]) && !IsSpace(s[|s| - 1])
    ensures Strip(s) == s
  {
  }

  // ---------------------------------------------------------------------------
  // lower()

  /**
   * `unicode.lower()` on one character, for the ASCII capitals and for the
   * two letters outside ASCII whose lower case is ASCII: dotted capital I
   * (U+0130) becomes `i` and the Kelvin sign (U+212A) becomes `k`. Every
   * other character is left as it is.
   */
  function LowerChar(c: char): char {
    if 'A' <= c <= 'Z' then (c as int + 32) as char
    else if c == '\U{0130}' then 'i'
    else if c == '\U{212A}' then 'k'
    else c
  }

  /** A lowered character is ASCII exactly when it was, or it is U+0130 or U+212A. */
  lemma LowerCharAscii(c: char)
    ensures LowerChar(c) < '\U{80}' <==> c < '\U{80}' || c == '\U{0130}' || c == '\U{212A}'
  {
  }

  /** Lowered text is ASCII exactly when every character is ASCII, U+0130 or U+212A. */
  lemma LowerAscii(s: string)
    ensures Ascii(Lower(s)) <==> forall i :: 0 <= i < |s| ==> s[i] < '\U{80}' || s[i] == '\U{0130}' || s[i] == '\U{212A}'
  {
    forall i | 0 <= i < |s| {
      LowerCharAscii(s[i]);
    }
  }

  /** `s.lower()`, character by character. */
  function Lower(s: string): (r: string)
    ensures |r| == |s|
    ensures forall i :: 0 <= i < |s| ==> r[i] == LowerChar(s[i])
  {
    seq(|s|, i requires 0 <= i < |s| => LowerChar(s[i]))
  }

  // ---------------------------------------------------------------------------
  // replace(c, by) for a single character c

  function Replace(s: string, c: char, repl: string): string {
    if |s| == 0 then "" else (if s[0] == c then repl else [s[0]]) + Replace(s[1..], c, repl)
  }

  lemma {:induction false} ReplaceAppend(a: string, b: string, c: char, repl: string)
    ensures Replace(a + b, c, repl) == Replace(a, c, repl) + Replace(b, c, repl)
  {
    if |a| > 0 {
      assert (a + b)[1..] == a[1..] + b;
      ReplaceAppend(a[1..], b, c, repl);
    } else {
      assert a + b == b;
    }
  }

  lemma {:induction false} ReplaceAbsent(s: string, c: char, repl: string)
    requires c !in s
    ensures Replace(s, c, repl) == s
  {
    if |s| > 0 {
      ReplaceAbsent(s[1..], c, repl);
    }
  }

  /** Replacing a character by a string that does not contain it leaves none behind. */
  lemma {:induction false} ReplaceRemoves(s: string, c: char, repl: string)
    requires c !in repl
    ensures c !in Replace(s, c, repl)
  {
    if |s| > 0 {
      ReplaceRemoves(s[1..], c, repl);
    }
  }

  // ---------------------------------------------------------------------------
  // sep.join(parts), s.split(sep), s.split(sep, maxsplit)

  function Join(parts: seq<string>, sep: char): string {
    if |parts| == 0 then ""
    else if |parts| == 1 then parts[0]
    else parts[0] + [sep] + Join(parts[1..], sep)
  }

  /** The first position of `c` in `s`; `None` when there is none. */
  function FindChar(s: string, c: char): (r: Option<nat>)
    ensures r.None? ==> c !in s
    ensures r.Some? ==> r.value < |s| && s[r.value] == c && c !in s[..r.value]
  {
    if |s| == 0 then None
    else if s[0] == c then Some(0)
    else match FindChar(s[1..], c)
      case None => None
      case Some(k) => assert s[..k + 1] == [s[0]] + s[1..][..k]; Some(k + 1)
  }

  /**
   * Python's `s.split(sep, maxsplit)`: cut at the first `maxsplit` separators
   * from the left; the last piece keeps whatever separators remain.
   */
  function SplitMax(s: string, sep: char, maxsplit: nat): (r: seq<string>)
    ensures 1 <= |r| <= maxsplit + 1
    decreases |s|
  {
    if maxsplit == 0 then [s]
    else match FindChar(s, sep)
      case None => [s]
      case Some(k) => [s[..k]] + SplitMax(s[k + 1..], sep, maxsplit - 1)
  }

  /** Joining the pieces of `split(sep, maxsplit)` with `sep` gives the text back. */
  lemma {:induction false} SplitMaxJoin(s: string, sep: char, maxsplit: nat)
    ensures Join(SplitMax(s, sep, maxsplit), sep) == s
    decreases |s|
  {
    var k := FindChar(s, sep);
    if maxsplit > 0 && k.Some? {
      var rest := SplitMax(s[k.value + 1..], sep, maxsplit - 1);
      SplitMaxJoin(s[k.value + 1..], sep, maxsplit - 1);
      SplitMaxCut(s, sep, maxsplit, k.value);
      CutJoin(s, sep, k.value, rest);
    } else {
      Uncut(s, sep, maxsplit);
    }
  }

  /** One cut: the piece before the first separator, then the pieces of the rest. */
  lemma SplitMaxCut(s: string, sep: char, maxsplit: nat, k: nat)
    requires maxsplit > 0 && FindChar(s, sep) == Some(k)
    ensures SplitMax(s, sep, maxsplit) == [s[..k]] + SplitMax(s[k + 1..], sep, maxsplit - 1)
  {
  }

  /** One cut, joined: the piece before the separator, the separator, then the rest. */
  lemma CutJoin(s: string, sep: char, k: nat, rest: seq<string>)
    requires k < |s| && s[k] == sep && |rest| >= 1
    requires Join(rest, sep) == s[k + 1..]
    ensures Join([s[..k]] + rest, sep) == s
  {
    JoinCons(s[..k], rest, sep);
    CutAround(s, k);
  }

  /** No cut: the text is the only piece. */
  lemma Uncut(s: string, sep: char, maxsplit: nat)
    requires maxsplit == 0 || FindChar(s, sep).None?
    ensures SplitMax(s, sep, maxsplit) == [s] && Join([s], sep) == s
    ensures maxsplit > 0 ==> sep !in s
  {
  }

  lemma JoinCons(a: string, rest: seq<string>, sep: char)
    requires |rest| >= 1
    ensures Join([a] + rest, sep) == a + [sep] + Join(rest, sep)
  {
    assert ([a] + rest)[1..] == rest;
  }

  lemma CutAround(s: string, k: nat)
    requires k < |s|
    ensures s == s[..k] + [s[k]] + s[k + 1..]
  {
  }

  /**
   * No piece but the last holds `sep`, and the last holds none either when
   * there are fewer than `maxsplit + 1` pieces.
   */
  predicate SeparatorOnlyInLast(r: seq<string>, sep: char, maxsplit: nat) {
    && (forall i :: 0 <= i < |r| - 1 ==> sep !in r[i])
    && (0 < |r| < maxsplit + 1 ==> sep !in r[|r| - 1])
  }

  /**
   * No piece of `split(sep, maxsplit)` but the last holds `sep`, and the last
   * holds none either when fewer than `maxsplit + 1` pieces came out.
   */
  lemma {:induction false} SplitMaxPieces(s: string, sep: char, maxsplit: nat)
    ensures SeparatorOnlyInLast(SplitMax(s, sep, maxsplit), sep, maxsplit)
    decreases |s|
  {
    var k := FindChar(s, sep);
    if maxsplit > 0 && k.Some? {
      var rest := SplitMax(s[k.value + 1..], sep, maxsplit - 1);
      SplitMaxPieces(s[k.value + 1..], sep, maxsplit - 1);
      SplitMaxCut(s, sep, maxsplit, k.value);
      ConsPieces(s[..k.value], rest, sep, maxsplit);
    } else {
      Uncut(s, sep, maxsplit);
    }
  }

  lemma ConsPieces(a: string, rest: seq<string>, sep: char, m: nat)
    requires m >= 1 && sep !in a && |rest| >= 1
    requires SeparatorOnlyInLast(rest, sep, m - 1)
    ensures SeparatorOnlyInLast([a] + rest, sep, m)
  {
    var r := [a] + rest;
    forall i | 0 <= i < |r| - 1
      ensures sep !in r[i]
    {
      if i > 0 {
        assert r[i] == rest[i - 1];
      }
    }
    assert r[|r| - 1] == rest[|rest| - 1];
  }

  /** Python's `s.split(sep)`: cut at every separator. */
  function Split(s: string, sep: char): (r: seq<string>)
    ensures |r| >= 1
    ensures Join(r, sep) == s
    ensures forall i :: 0 <= i < |r| ==> sep !in r[i]
    decreases |s|
  {
    match FindChar(s, sep)
    case None => [s]
    case Some(k) =>
      var rest := Split(s[k + 1..], sep);
      assert s == s[..k] + [sep] + s[k + 1..];
      [s[..k]] + rest
  }

  /** Joining one more piece puts one separator before it. */
  lemma {:induction false} JoinSnoc(parts: seq<string>, x: string, sep: char)
    requires |parts| >= 1
    ensures Join(parts + [x], sep) == Join(parts, sep) + [sep] + x
  {
    if |parts| > 1 {
      assert (parts + [x])[1..] == parts[1..] + [x];
      JoinSnoc(parts[1..], x, sep);
    }
  }

  /** The first separator of `a + [sep] + b` is the one after a separator-free `a`. */
  lemma {:induction false} SplitCons(a: string, b: string, sep: char)
    requires sep !in a
    ensures Split(a + [sep] + b, sep) == [a] + Split(b, sep)
  {
    var s := a + [sep] + b;
    assert s[..|a|] == a;
    assert s[|a|] == sep;
    assert FindChar(s, sep) == Some(|a|);
    assert s[|a| + 1..] == b;
  }

  /** Splitting the join of separator-free pieces gives the pieces back. */
  lemma {:induction false} SplitJoin(parts: seq<string>, sep: char)
    requires |parts| >= 1
    requires forall i :: 0 <= i < |parts| ==> sep !in parts[i]
    ensures Split(Join(parts, sep), sep) == parts
  {
    if |parts| == 1 {
      assert FindChar(parts[0], sep).None?;
    } else {
      SplitCons(parts[0], Join(parts[1..], sep), sep);
      SplitJoin(parts[1..], sep);
      assert parts == [parts[0]] + parts[1..];
    }
  }

  // ---------------------------------------------------------------------------
  // str(n) and int(s)

  /** Python's `str(n)` for a non-negative integer: decimal, no leading zeros. */
  function NatToString(n: nat): (r: string)
    ensures 1 <= |r| && AllDigits(r)
    ensures DigitsValue(r) == n
    ensures |r| > 1 ==> r[0] != '0'
  {
    if n < 10 then [DigitChar(n)]
    else
      var p := NatToString(n / 10);
      var r := p + [DigitChar(n % 10)];
      assert r[..|r| - 1] == p;
      r
  }

  /**
   * Python's `int(s)` on a byte string: surrounding whitespace is ignored, an
   * optional sign may be followed by more whitespace (C's `strtol` skips it
   * again after the sign), then one or more ASCII digits; anything else
   * raises `ValueError`, which is `None` here.
   */
  function ParseInt(s: string): (r: Option<int>)
    ensures r.Some? ==> |AfterSign(Strip(s))| > 0 && AllDigits(AfterSign(Strip(s)))
    ensures r.Some? ==> r.value == DigitsValue(AfterSign(Strip(s))) as int || r.value == -(DigitsValue(AfterSign(Strip(s))) as int)
  {
    SignedDigits(Strip(s))
  }

  /** The stripped text: an optional sign, whitespace after it, then the digits. */
  function SignedDigits(t: string): (r: Option<int>)
    ensures r.Some? ==> |AfterSign(t)| > 0 && AllDigits(AfterSign(t))
    ensures r.Some? ==> r.value == DigitsValue(AfterSign(t)) as int || r.value == -(DigitsValue(AfterSign(t)) as int)
  {
    if |t| > 0 && t[0] == '-' then Negated(Unsigned(TrimLeft(t[1..])))
    else if |t| > 0 && t[0] == '+' then Unsigned(TrimLeft(t[1..]))
    else Unsigned(t)
  }

  /** What follows an optional sign and the whitespace after it. */
  function AfterSign(t: string): string {
    if |t| > 0 && (t[0] == '-' || t[0] == '+') then TrimLeft(t[1..]) else t
  }

  /** One or more ASCII digits and nothing else. */
  function Unsigned(digits: string): (r: Option<int>)
    ensures r.Some? ==> |digits| > 0 && AllDigits(digits) && r.value == DigitsValue(digits) as int
  {
    if |digits| > 0 && AllDigits(digits) then Some(DigitsValue(digits) as int) else None
  }

  function Negated(o: Option<int>): Option<int> {
    if o.None? then None else Some(-o.value)
  }

  lemma NegatedSome(x: int)
    ensures Negated(Some(x)) == Some(-x)
  {
  }

  /** Whitespace in front of text that starts with a non-space is exactly what `TrimLeft` drops. */
  lemma TrimLeftGap(gap: string, d: string)
    requires forall i :: 0 <= i < |gap| ==> IsSpace(gap[i])
    requires |d| > 0 && !IsSpace(d[0])
    ensures TrimLeft(gap + d) == d
  {
    var s := gap + d;
    assert s[|gap|] == d[0];
    assert s[|gap|..] == d;
  }

  /**
   * A minus sign, any whitespace, then digits: `int('- 5') == -5`, as
   * Python 2 reads it.
   */
  lemma ParseIntMinusGap(gap: string, d: string)
    requires forall i :: 0 <= i < |gap| ==> IsSpace(gap[i])
    requires |d| >= 1 && AllDigits(d)
    ensures ParseInt(['-'] + gap + d) == Some(-(DigitsValue(d) as int))
  {
    var s := SignGap('-', gap, d);
    SignedNegative(s);
    NegatedDigits(d);
  }

  /** A plus sign, any whitespace, then digits: `int('+ 2018') == 2018`. */
  lemma ParseIntPlusGap(gap: string, d: string)
    requires forall i :: 0 <= i < |gap| ==> IsSpace(gap[i])
    requires |d| >= 1 && AllDigits(d)
    ensures ParseInt(['+'] + gap + d) == Some(DigitsValue(d) as int)
  {
    var s := SignGap('+', gap, d);
    SignedPositive(s);
    UnsignedOfDigits(d);
  }

  /** The text `sign + gap + d` strips to itself, and after its sign trims to `d`. */
  lemma SignGap(sign: char, gap: string, d: string) returns (s: string)
    requires sign == '-' || sign == '+'
    requires forall i :: 0 <= i < |gap| ==> IsSpace(gap[i])
    requires |d| >= 1 && AllDigits(d)
    ensures s == [sign] + gap + d
    ensures |s| > 0 && s[0] == sign && ParseInt(s) == SignedDigits(s) && TrimLeft(s[1..]) == d
  {
    var rest := gap + d;
    s := [sign] + rest;
    assert s == [sign] + gap + d;
    assert s[1..] == rest;
    assert IsDigit(d[0]) && IsDigit(s[|s| - 1]);
    StripOfUnpadded(s);
    TrimLeftGap(gap, d);
  }

  lemma NegatedDigits(d: string)
    requires |d| >= 1 && AllDigits(d)
    ensures Negated(Unsigned(d)) == Some(-(DigitsValue(d) as int))
  {
    UnsignedOfDigits(d);
    NegatedSome(DigitsValue(d));
  }

  lemma SignedNegative(t: string)
    requires |t| > 0 && t[0] == '-'
    ensures SignedDigits(t) == Negated(Unsigned(TrimLeft(t[1..])))
  {
  }

  lemma SignedPositive(t: string)
    requires |t| > 0 && t[0] == '+'
    ensures SignedDigits(t) == Unsigned(TrimLeft(t[1..]))
  {
  }

  lemma UnsignedOfDigits(d: string)
    requires |d| >= 1 && AllDigits(d)
    ensures Unsigned(d) == Some(DigitsValue(d) as int)
  {
  }

  /** Reading back what `str(n)` wrote gives `n`: the round trip of a table-comment version stamp. */
  lemma ParseIntNatToString(n: nat)
    ensures ParseInt(NatToString(n)) == Some(n)
  {
    ParseIntOfDigits(NatToString(n));
  }

  lemma ParseIntOfDigits(s: string)
    requires |s| >= 1 && AllDigits(s)
    ensures ParseInt(s) == Some(DigitsValue(s) as int)
  {
    assert IsDigit(s[0]) && IsDigit(s[|s| - 1]);
    StripOfUnpadded(s);
    assert s[0] != '-' && s[0] != '+';
  }

  // ---------------------------------------------------------------------------
  // ASCII text

  /** Text a byte-string template can take: every character below U+0080. */
  predicate Ascii(s: string) {
    forall i :: 0 <= i < |s| ==> s[i] < '\U{80}'
  }

  lemma AsciiAppend(a: string, b: string)
    ensures Ascii(a + b) <==> Ascii(a) && Ascii(b)
  {
    if Ascii(a + b) {
      forall i | 0 <= i < |a| ensures a[i] < '\U{80}' { assert a[i] == (a + b)[i]; }
      forall i | 0 <= i < |b| ensures b[i] < '\U{80}' { assert b[i] == (a + b)[|a| + i]; }
    }
  }

  /** Every piece of an ASCII join is ASCII. */
  lemma {:induction false} JoinAscii(parts: seq<string>, sep: char)
    requires Ascii(Join(parts, sep))
    ensures forall i :: 0 <= i < |parts| ==> Ascii(parts[i])
  {
    if |parts| > 1 {
      AsciiAppend(parts[0] + [sep], Join(parts[1..], sep));
      AsciiAppend(parts[0], [sep]);
      JoinAscii(parts[1..], sep);
      forall i | 1 <= i < |parts| ensures Ascii(parts[i]) { assert parts[i] == parts[1..][i - 1]; }
    }
  }

  /** Replacing a character by ASCII text keeps ASCII text ASCII. */
  lemma {:induction false} ReplaceAscii(s: string, c: char, repl: string)
    requires Ascii(s) && Ascii(repl)
    ensures Ascii(Replace(s, c, repl))
  {
    if |s| > 0 {
      assert s[0] < '\U{80}';
      ReplaceAscii(s[1..], c, repl);
      AsciiAppend(if s[0] == c then repl else [s[0]], Replace(s[1..], c, repl));
    }
  }
}
