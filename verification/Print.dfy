/**
 Number printing (print_num and the signed conversion of vprintfmt, lib/print.c), with an
 independent reader of what it prints.
 */
module Print {
  import opened Wrappers

  const U32: nat := 0x1_0000_0000
  const U64: nat := 0x1_0000_0000_0000_0000

  // ---- text ----

  function Digit(t: nat, upcase: bool): (c: char)
    requires t < 16
    ensures c == if upcase then "0123456789ABCDEF"[t] else "0123456789abcdef"[t]
    ensures c != ' ' && c != '-'
  {
    if t <= 9 then '0' + t as char else if upcase then 'A' + (t - 10) as char else 'a' + (t - 10) as char
  }

  /** Digits of a number, the least significant first, as the loop of print_num emits them. */
  function Digits(u: nat, base: nat, upcase: bool): (d: string)
    requires 2 <= base <= 16
    ensures |d| >= 1
    decreases u
  {
    if u < base then [Digit(u, upcase)]
    else
      DivShrinks(u, base);
      [Digit(Mod(u, base), upcase)] + Digits(Quot(u, base), base, upcase)
  }

  function Quot(u: nat, base: nat): nat
    requires base >= 2
  {
    u / base
  }

  function Mod(u: nat, base: nat): (r: nat)
    requires base >= 2
    ensures r < base
  {
    u % base
  }

  lemma DivMod(u: nat, base: nat)
    requires base >= 2
    ensures base * Quot(u, base) + Mod(u, base) == u
  {
  }

  lemma Scale(base: nat, a: nat, b: nat)
    requires a <= b
    ensures base * a <= base * b
  {
  }

  lemma DivShrinks(u: nat, base: nat)
    requires base >= 2 && u > 0
    ensures Quot(u, base) <= u / 2 && Quot(u, base) < u
  {
    hide Quot, Mod;
    DivMod(u, base);
    ScaleLeft(2, base, Quot(u, base));
  }

  lemma ScaleLeft(a: nat, b: nat, q: nat)
    requires a <= b
    ensures a * q <= b * q
  {
  }

  /** The quotient is zero exactly for a single digit. */
  lemma DivZero(u: nat, base: nat)
    requires base >= 2
    ensures u < base <==> Quot(u, base) == 0
    ensures u < base ==> Mod(u, base) == u
  {
  }

  function Rev(s: string): (r: string)
    ensures |r| == |s|
  {
    if s == [] then [] else Rev(s[1..]) + [s[0]]
  }

  function Fill(c: char, n: nat): (s: string)
    ensures |s| == n && forall i :: 0 <= i < n ==> s[i] == c
  {
    seq(n, _ => c)
  }

  function Sign(neg: bool): string { if neg then "-" else "" }

  function Max(a: nat, b: nat): nat { if a < b then b else a }

  /** What print_num hands to the output callback. */
  function Format(u: nat, base: nat, neg: bool, length: nat, ladjust: bool, padc: char, upcase: bool): string
    requires 2 <= base <= 16
  {
    var body := Rev(Digits(u, base, upcase));
    var signed := Sign(neg) + body;
    var pads := Max(length, |signed|) - |signed|;
    if ladjust then signed + Fill(' ', pads)
    else if neg && padc == '0' then "-" + Fill('0', pads) + body
    else Fill(padc, pads) + signed
  }

  // ---- reading a number back ----

  function Value(c: char): nat {
    if '0' <= c <= '9' then c as nat - '0' as nat
    else if 'a' <= c <= 'f' then c as nat - 'a' as nat + 10
    else if 'A' <= c <= 'F' then c as nat - 'A' as nat + 10
    else 16
  }

  function SkipSpaces(s: string): string { if s != [] && s[0] == ' ' then SkipSpaces(s[1..]) else s }

  /** Digits of the base are taken as far as they go; the rest is returned. */
  function ReadDigits(s: string, base: nat, acc: nat): (nat, string) {
    if s != [] && Value(s[0]) < base then ReadDigits(s[1..], base, acc * base + Value(s[0])) else (acc, s)
  }

  /** Spaces, a sign, digits, spaces: the sign and the magnitude, or None for any other text. */
  function Parse(s: string, base: nat): Option<(bool, nat)> {
    var t := SkipSpaces(s);
    var neg := t != [] && t[0] == '-';
    var d := if neg then t[1..] else t;
    if d == [] || Value(d[0]) >= base then None
    else
      var r := ReadDigits(d, base, 0);
      if SkipSpaces(r.1) == [] then Some((neg, r.0)) else None
  }

  // ---- lemmas ----

  lemma {:induction false} RevAppend(a: string, b: string)
    ensures Rev(a + b) == Rev(b) + Rev(a)
  {
    if a == [] {
      assert a + b == b;
    } else {
      assert (a + b)[1..] == a[1..] + b;
      RevAppend(a[1..], b);
    }
  }

  lemma {:induction false} RevFill(c: char, n: nat)
    ensures Rev(Fill(c, n)) == Fill(c, n)
  {
    if n > 0 {
      RevFill(c, n - 1);
      assert Fill(c, n)[1..] == Fill(c, n - 1);
    }
  }

  lemma {:induction false} RevAt(s: string, k: nat)
    requires k < |s|
    ensures Rev(s)[k] == s[|s| - 1 - k]
  {
    if k < |s| - 1 { RevAt(s[1..], k); }
  }

  function Horner(d: string, base: nat, acc: nat): nat {
    if d == [] then acc else Horner(d[1..], base, acc * base + Value(d[0]))
  }

  lemma {:induction false} HornerLast(d: string, c: char, base: nat, acc: nat)
    ensures Horner(d + [c], base, acc) == Horner(d, base, acc) * base + Value(c)
  {
    if d == [] {
      assert d + [c] == [c];
    } else {
      assert (d + [c])[1..] == d[1..] + [c];
      HornerLast(d[1..], c, base, acc * base + Value(d[0]));
    }
  }

  lemma DigitValue(t: nat, upcase: bool)
    requires t < 16
    ensures Value(Digit(t, upcase)) == t
  {
  }

  ghost predicate DigitsOnly(d: string, base: nat) { forall i :: 0 <= i < |d| ==> Value(d[i]) < base }

  /** The digits, most significant first, are digits of the base and their value is the number. */
  lemma {:induction false} NumeralValue(u: nat, base: nat, upcase: bool)
    requires 2 <= base <= 16
    ensures DigitsOnly(Rev(Digits(u, base, upcase)), base)
    ensures Horner(Rev(Digits(u, base, upcase)), base, 0) == u
    decreases u
  {
    hide Digit, Quot, Mod;
    var d := Digits(u, base, upcase);
    if u < base {
      DigitValue(u, upcase);
      assert Rev(d) == [d[0]];
      assert d[1..] == [] && Rev(d)[1..] == [];
      assert Horner(Rev(d), base, 0) == Horner([], base, 0 * base + Value(d[0]));
    } else {
      DivShrinks(u, base);
      DivMod(u, base);
      NumeralValue(Quot(u, base), base, upcase);
      DigitValue(Mod(u, base), upcase);
      assert d[1..] == Digits(Quot(u, base), base, upcase);
      HornerLast(Rev(d[1..]), d[0], base, 0);
    }
  }

  lemma {:induction false} ZerosValue(n: nat, d: string, base: nat)
    requires base >= 2
    ensures Horner(Fill('0', n) + d, base, 0) == Horner(d, base, 0)
  {
    if n == 0 {
      assert Fill('0', 0) + d == d;
    } else {
      assert (Fill('0', n) + d)[1..] == Fill('0', n - 1) + d;
      ZerosValue(n - 1, d, base);
    }
  }

  lemma {:induction false} ReadAll(d: string, rest: string, base: nat, acc: nat)
    requires DigitsOnly(d, base) && (rest == [] || Value(rest[0]) >= base)
    ensures ReadDigits(d + rest, base, acc) == (Horner(d, base, acc), rest)
  {
    if d == [] {
      assert d + rest == rest;
    } else {
      assert (d + rest)[1..] == d[1..] + rest;
      ReadAll(d[1..], rest, base, acc * base + Value(d[0]));
    }
  }

  lemma {:induction false} SkipFill(n: nat, s: string)
    requires s == [] || s[0] != ' '
    ensures SkipSpaces(Fill(' ', n) + s) == s
  {
    if n == 0 {
      assert Fill(' ', 0) + s == s;
    } else {
      assert (Fill(' ', n) + s)[1..] == Fill(' ', n - 1) + s;
      SkipFill(n - 1, s);
    }
  }

  /** Padding, sign, digits and trailing spaces are read as that sign and the value of the digits. */
  lemma ParsePadded(lead: nat, neg: bool, d: string, trail: nat, base: nat)
    requires 2 <= base <= 16 && d != [] && DigitsOnly(d, base)
    ensures Parse(Fill(' ', lead) + (Sign(neg) + (d + Fill(' ', trail))), base) == Some((neg, Horner(d, base, 0)))
  {
    hide Horner, ReadDigits;
    var rest := Fill(' ', trail);
    var t := Sign(neg) + (d + rest);
    assert Value(d[0]) < base;
    assert d[0] != ' ' && d[0] != '-';
    assert t[0] == if neg then '-' else d[0];
    SkipFill(lead, t);
    assert (if neg then t[1..] else t) == d + rest;
    assert (d + rest)[0] == d[0];
    ReadAll(d, rest, base, 0);
    SkipFill(trail, []);
    assert rest + [] == rest;
  }

  // ---- main results ----

  /** The digits are as few as the value allows. */
  lemma {:induction false} DigitCount(u: nat, base: nat, upcase: bool)
    requires 2 <= base <= 16
    ensures var n := |Digits(u, base, upcase)|;
      u < Pow(base, n) && (n > 1 ==> Pow(base, n - 1) <= u)
    decreases u
  {
    if u < base {
      assert Pow(base, 1) == base * Pow(base, 0);
    } else {
      DivShrinks(u, base);
      DivMod(u, base);
      DigitCount(Quot(u, base), base, upcase);
      var n := |Digits(Quot(u, base), base, upcase)|;
      PowStep(u, Quot(u, base), base, Pow(base, n));
      if n > 1 {
        PowBelow(u, Quot(u, base), base, Pow(base, n - 1));
      } else {
        assert Pow(base, 1) == base * Pow(base, 0);
      }
    }
  }

  function Pow(base: nat, n: nat): nat { if n == 0 then 1 else base * Pow(base, n - 1) }

  lemma PowStep(u: nat, q: nat, base: nat, p: nat)
    requires base >= 2 && q == Quot(u, base) && q < p
    ensures u < base * p
  {
    hide Quot, Mod;
    DivMod(u, base);
    Scale(base, q + 1, p);
    Distribute(base, q);
  }

  lemma Distribute(base: nat, q: nat)
    ensures base * (q + 1) == base * q + base
  {
  }

  lemma PowBelow(u: nat, q: nat, base: nat, p: nat)
    requires base >= 2 && q == Quot(u, base) && p <= q
    ensures base * p <= u
  {
    hide Quot, Mod;
    DivMod(u, base);
    Scale(base, p, q);
  }

  /** The output is as long as asked, or as long as the number needs. */
  lemma FormatLength(u: nat, base: nat, neg: bool, length: nat, ladjust: bool, padc: char, upcase: bool)
    requires 2 <= base <= 16
    ensures |Format(u, base, neg, length, ladjust, padc, upcase)| ==
              Max(length, |Digits(u, base, upcase)| + if neg then 1 else 0)
  {
  }

  /** The characters a digit may be. */
  function Alphabet(upcase: bool): string { if upcase then "0123456789ABCDEF" else "0123456789abcdef" }

  lemma {:induction false} DigitChars(u: nat, base: nat, upcase: bool)
    requires 2 <= base <= 16
    ensures forall i :: 0 <= i < |Digits(u, base, upcase)| ==> Digits(u, base, upcase)[i] in Alphabet(upcase)
    decreases u
  {
    if u >= base {
      DivShrinks(u, base);
      hide Quot, Mod;
      DigitChars(Quot(u, base), base, upcase);
    }
  }

  /**
   Where everything stands: left-adjusted, sign and digits come first and spaces follow;
   right-adjusted, the digits come last, with zeros between sign and digits, or the padding
   character in front of both. Letters are in the case asked for.
   */
  lemma FormatLayout(u: nat, base: nat, neg: bool, length: nat, ladjust: bool, padc: char, upcase: bool)
    requires 2 <= base <= 16
    ensures var text := Format(u, base, neg, length, ladjust, padc, upcase);
      var n := |Digits(u, base, upcase)|;
      var sign := if neg then 1 else 0;
      var at := if ladjust then sign else |text| - n;
      && n + sign <= |text| && at >= sign
      && (forall i :: at <= i < at + n ==> text[i] in Alphabet(upcase))
      && (neg ==> text[if ladjust || padc == '0' then 0 else at - 1] == '-')
      && (ladjust ==> forall i :: at + n <= i < |text| ==> text[i] == ' ')
      && (!ladjust && neg && padc == '0' ==> forall i :: 1 <= i < at ==> text[i] == '0')
      && (!ladjust && !(neg && padc == '0') ==> forall i :: 0 <= i < at - sign ==> text[i] == padc)
  {
    var d := Digits(u, base, upcase);
    DigitChars(u, base, upcase);
    forall k | 0 <= k < |d|
      ensures Rev(d)[k] in Alphabet(upcase)
    {
      RevAt(d, k);
    }
    hide Digits, Rev, Alphabet;
    BodyLayout(Rev(d), neg, Max(length, |Sign(neg) + Rev(d)|) - |Sign(neg) + Rev(d)|, ladjust, padc);
  }

  /** Where the number part stands in each of the three layouts. */
  lemma BodyLayout(body: string, neg: bool, pads: nat, ladjust: bool, padc: char)
    ensures var text := if ladjust then Sign(neg) + body + Fill(' ', pads)
                        else if neg && padc == '0' then "-" + Fill('0', pads) + body
                        else Fill(padc, pads) + (Sign(neg) + body);
      var n := |body|;
      var sign := if neg then 1 else 0;
      var at := if ladjust then sign else |text| - n;
      && |text| == n + sign + pads && at >= sign && |Sign(neg) + body| == n + sign
      && (forall i :: at <= i < at + n ==> text[i] == body[i - at])
      && (neg ==> text[if ladjust || padc == '0' then 0 else at - 1] == '-')
      && (ladjust ==> forall i :: at + n <= i < |text| ==> text[i] == ' ')
      && (!ladjust && neg && padc == '0' ==> forall i :: 1 <= i < at ==> text[i] == '0')
      && (!ladjust && !(neg && padc == '0') ==> forall i :: 0 <= i < at - sign ==> text[i] == padc)
  {
  }

  /** Reading the output back gives the sign and the value, whatever the layout. */
  lemma FormatRoundTrip(u: nat, base: nat, neg: bool, length: nat, ladjust: bool, padc: char, upcase: bool)
    requires 2 <= base <= 16 && (padc == ' ' || padc == '0')
    ensures Parse(Format(u, base, neg, length, ladjust, padc, upcase), base) == Some((neg, u))
  {
    hide Parse, Digits, Rev, Horner;
    var out := Format(u, base, neg, length, ladjust, padc, upcase);
    var body := Rev(Digits(u, base, upcase));
    var pads := Max(length, |Sign(neg) + body|) - |Sign(neg) + body|;
    NumeralValue(u, base, upcase);
    if ladjust {
      ParsePadded(0, neg, body, pads, base);
      assert out == Fill(' ', 0) + (Sign(neg) + (body + Fill(' ', pads)));
    } else if padc == '0' {
      var d := Fill('0', pads) + body;
      ZerosValue(pads, body, base);
      ParsePadded(0, neg, d, 0, base);
      assert out == Fill(' ', 0) + (Sign(neg) + (d + Fill(' ', 0)));
    } else {
      ParsePadded(pads, neg, body, 0, base);
      assert out == Fill(' ', pads) + (Sign(neg) + (body + Fill(' ', 0)));
    }
  }

  /** Hence the output tells any two numbers apart. */
  lemma FormatInjective(u: nat, neg: bool, u': nat, neg': bool, base: nat, length: nat, ladjust: bool, padc: char,
                        upcase: bool)
    requires 2 <= base <= 16 && (padc == ' ' || padc == '0')
    requires Format(u, base, neg, length, ladjust, padc, upcase) ==
             Format(u', base, neg', length, ladjust, padc, upcase)
    ensures u == u' && neg == neg'
  {
    FormatRoundTrip(u, base, neg, length, ladjust, padc, upcase);
    FormatRoundTrip(u', base, neg', length, ladjust, padc, upcase);
  }

  // ---- %d ----

  /** Negation in 32-bit two's complement: the least number is its own negative. */
  function Negate(x: int): int
    requires -0x8000_0000 <= x < 0x8000_0000
  {
    if x == -0x8000_0000 then x else -x
  }

  /** A long converted to unsigned long. */
  function ToUnsigned(x: int): nat
    requires -0x8000_0000 <= x < 0x8000_0000
  {
    if x < 0 then x + U32 else x
  }

  /** The sign and the magnitude that the %d case passes to print_num. */
  function SignedArg(x: int): (bool, nat)
    requires -0x8000_0000 <= x < 0x8000_0000
  {
    if x < 0 then (true, ToUnsigned(Negate(x))) else (false, ToUnsigned(x))
  }

  function Signed(r: (bool, nat)): int { if r.0 then 0 - r.1 else r.1 }

  /** Every int, the least one included, is read back from its %d output. */
  lemma SignedRoundTrip(x: int, length: nat, ladjust: bool, padc: char)
    requires -0x8000_0000 <= x < 0x8000_0000 && (padc == ' ' || padc == '0')
    ensures var (neg, u) := SignedArg(x);
      var r := Parse(Format(u, 10, neg, length, ladjust, padc, false), 10);
      r.Some? && Signed(r.value) == x
  {
    var (neg, u) := SignedArg(x);
    FormatRoundTrip(u, 10, neg, length, ladjust, padc, false);
  }

  // ---- print_num as it runs ----

  lemma {:induction false} DigitsFit(u: nat, base: nat, upcase: bool, k: nat)
    requires 2 <= base <= 16 && k >= 1 && u < Pow(2, k)
    ensures |Digits(u, base, upcase)| <= k
    decreases u
  {
    if u >= base {
      DivShrinks(u, base);
      assert k > 1 by {
        assert Pow(2, 1) == 2 * Pow(2, 0);
      }
      DigitsFit(Quot(u, base), base, upcase, k - 1);
    }
  }

  lemma Pow64()
    ensures Pow(2, 64) == U64
  {
    Doubling(8, 8);
    Doubling(16, 16);
    Doubling(32, 32);
    assert Pow(2, 8) == 256;
    assert Pow(2, 16) == 0x1_0000;
    assert Pow(2, 32) == 0x1_0000_0000;
  }

  lemma {:induction false} Doubling(a: nat, b: nat)
    ensures Pow(2, a + b) == Pow(2, a) * Pow(2, b)
  {
    if a > 0 {
      Doubling(a - 1, b);
      assert Pow(2, a + b) == 2 * Pow(2, a - 1 + b);
      assert 2 * (Pow(2, a - 1) * Pow(2, b)) == Pow(2, a) * Pow(2, b);
    }
  }

  /** The do-while loop: at most 64 digits of a 64-bit number. */
  method EmitDigits(buf: array<char>, num: nat, base: nat, upcase: bool) returns (n: nat)
    requires 2 <= base <= 16 && num < U64 && buf.Length >= 70
    modifies buf
    ensures n == |Digits(num, base, upcase)| <= 64 && buf[..n] == Digits(num, base, upcase)
  {
    Pow64();
    DigitsFit(num, base, upcase, 64);
    hide Digit, Pow, Digits, Quot, Mod;
    var u: nat := num;
    FirstDigit(u, base, upcase);
    PutChar(buf, 0, Digit(Mod(u, base), upcase));
    n := 1;
    u := Quot(u, base);
    while u != 0
      invariant 1 <= n && n + |Rest(u, base, upcase)| <= 64
      invariant Digits(num, base, upcase) == buf[..n] + Rest(u, base, upcase)
      decreases u
    {
      DivShrinks(u, base);
      FirstDigit(u, base, upcase);
      Assoc(buf[..n], Digit(Mod(u, base), upcase), Rest(Quot(u, base), base, upcase));
      PutChar(buf, n, Digit(Mod(u, base), upcase));
      n := n + 1;
      u := Quot(u, base);
    }
  }

  method PutChar(buf: array<char>, n: nat, c: char)
    requires n < buf.Length
    modifies buf
    ensures buf[..n + 1] == old(buf[..n]) + [c]
  {
    buf[n] := c;
    assert buf[..n] == old(buf[..n]);
  }

  lemma Assoc(a: string, c: char, b: string)
    ensures a + ([c] + b) == a + [c] + b
  {
  }

  /** The digits still to come when `u` is left. */
  ghost function Rest(u: nat, base: nat, upcase: bool): string
    requires 2 <= base <= 16
  {
    if u == 0 then [] else Digits(u, base, upcase)
  }

  lemma FirstDigit(u: nat, base: nat, upcase: bool)
    requires 2 <= base <= 16
    ensures Digits(u, base, upcase) == [Digit(Mod(u, base), upcase)] + Rest(Quot(u, base), base, upcase)
  {
    DivZero(u, base);
    hide Quot, Mod, Digit;
  }

  /** The swapping loop at the end of print_num, over the first `n` characters. */
  method ReversePrefix(buf: array<char>, n: nat)
    requires n <= buf.Length
    modifies buf
    ensures buf[..n] == Rev(old(buf[..n])) && buf[n..] == old(buf[n..])
  {
    var begin, end := 0, n - 1;
    while end > begin
      invariant 0 <= begin && begin + end == n - 1 && begin <= end + 2
      invariant forall k :: 0 <= k < begin ==> buf[k] == old(buf[n - 1 - k]) && buf[n - 1 - k] == old(buf[k])
      invariant forall k :: begin <= k <= end ==> buf[k] == old(buf[k])
      invariant forall k :: n <= k < buf.Length ==> buf[k] == old(buf[k])
    {
      var tmp := buf[begin];
      buf[begin] := buf[end];
      buf[end] := tmp;
      begin, end := begin + 1, end - 1;
    }
    ghost var was := old(buf[..n]);
    forall k | 0 <= k < n
      ensures buf[..n][k] == Rev(was)[k]
    {
      RevAt(was, k);
    }
  }

  method FillRange(buf: array<char>, lo: nat, hi: nat, c: char)
    requires lo <= hi <= buf.Length
    modifies buf
    ensures buf[..hi] == old(buf[..lo]) + Fill(c, hi - lo) && buf[hi..] == old(buf[hi..])
  {
    var i := lo;
    while i < hi
      invariant lo <= i <= hi
      invariant forall k :: 0 <= k < buf.Length ==> buf[k] == if lo <= k < i then c else old(buf[k])
    {
      buf[i] := c;
      i := i + 1;
    }
  }

  /** The characters before reversal: digits, sign and padding from right to left. */
  ghost function Laid(d: string, neg: bool, pads: nat, ladjust: bool, padc: char): string {
    if neg && !ladjust && padc == '0' then d + Fill('0', pads) + "-"
    else d + Sign(neg) + Fill(if ladjust then ' ' else padc, pads)
  }

  /** The padding of print_num over `n` digits already in the buffer. */
  method LayOut(buf: array<char>, n: nat, neg: bool, width: nat, ladjust: bool, pad: char)
    returns (actual: nat, length: nat)
    requires n <= 64 && buf.Length == width + 70
    modifies buf
    ensures actual == n + (if neg then 1 else 0) && length == Max(width, actual)
    ensures length <= buf.Length && buf[..length] == Laid(old(buf[..n]), neg, length - actual, ladjust, pad)
  {
    ghost var d := buf[..n];
    actual := n;
    if neg {
      buf[n] := '-';
      actual := n + 1;
    }
    assert buf[..n] == d;
    assert buf[..actual] == d + Sign(neg);
    length := if width < actual then actual else width;
    var padc := if ladjust then ' ' else pad;
    if neg && !ladjust && padc == '0' {
      FillRange(buf, actual - 1, length - 1, padc);
      buf[length - 1] := '-';
      assert buf[..length - 1] == d + Fill('0', length - actual);
      assert buf[..length] == d + Fill('0', length - actual) + "-";
    } else {
      FillRange(buf, actual, length, padc);
    }
  }

  lemma LaidLeft(d: string, neg: bool, pads: nat, padc: char, actual: nat)
    requires actual == |d + Sign(neg)|
    ensures var laid := Laid(d, neg, pads, true, padc);
      |laid| == actual + pads && Rev(laid[..actual]) + laid[actual..] == Sign(neg) + Rev(d) + Fill(' ', pads)
  {
    hide Rev, Sign;
    var laid := Laid(d, neg, pads, true, padc);
    ReversedPads(d, neg, ' ', pads);
    assert laid == d + Sign(neg) + Fill(' ', pads);
    assert laid[..actual] == d + Sign(neg) && laid[actual..] == Fill(' ', pads);
  }

  lemma LaidRight(d: string, neg: bool, pads: nat, padc: char)
    ensures var laid := Laid(d, neg, pads, false, padc);
      && |laid| == |d + Sign(neg)| + pads
      && Rev(laid) == if neg && padc == '0' then "-" + Fill('0', pads) + Rev(d)
                      else Fill(padc, pads) + (Sign(neg) + Rev(d))
  {
    hide Rev;
    if neg && padc == '0' {
      ReversedZeros(d, pads);
    } else {
      ReversedPads(d, neg, padc, pads);
    }
  }

  /** Reversing what was laid out, or its number part only, gives the formatted text. */
  lemma LaidIsFormat(u: nat, base: nat, neg: bool, width: nat, ladjust: bool, pad: char, upcase: bool)
    requires 2 <= base <= 16
    ensures var d := Digits(u, base, upcase);
      var actual := |d| + if neg then 1 else 0;
      var laid := Laid(d, neg, Max(width, actual) - actual, ladjust, pad);
      && |laid| == Max(width, actual)
      && Format(u, base, neg, width, ladjust, pad, upcase) ==
           if ladjust then Rev(laid[..actual]) + laid[actual..] else Rev(laid)
  {
    hide Digits, Rev, Laid;
    var d := Digits(u, base, upcase);
    var actual := |d| + if neg then 1 else 0;
    assert |Sign(neg) + Rev(d)| == actual == |d + Sign(neg)|;
    hide Sign;
    if ladjust {
      LaidLeft(d, neg, Max(width, actual) - actual, pad, actual);
    } else {
      LaidRight(d, neg, Max(width, actual) - actual, pad);
    }
  }

  /** print_num: what is passed on, with every write inside the buffer of length + 70. */
  method PrintNum(num: nat, base: nat, neg: bool, width: nat, ladjust: bool, pad: char, upcase: bool)
    returns (out: string)
    requires 2 <= base <= 16 && num < U64
    ensures out == Format(num, base, neg, width, ladjust, pad, upcase)
    ensures |out| == Max(width, |Digits(num, base, upcase)| + if neg then 1 else 0)
    ensures pad == ' ' || pad == '0' ==> Parse(out, base) == Some((neg, num))
  {
    hide Parse, Digits, Rev, Format, Laid;
    FormatLength(num, base, neg, width, ladjust, pad, upcase);
    LaidIsFormat(num, base, neg, width, ladjust, pad, upcase);
    if pad == ' ' || pad == '0' { FormatRoundTrip(num, base, neg, width, ladjust, pad, upcase); }
    var buf := new char[width + 70];
    var n := EmitDigits(buf, num, base, upcase);
    var actual, length := LayOut(buf, n, neg, width, ladjust, pad);
    Flip(buf, actual, length, ladjust);
    out := buf[..length];
  }

  /** The final reversal: the number part alone when left-adjusted, else everything. */
  method Flip(buf: array<char>, actual: nat, length: nat, ladjust: bool)
    requires actual <= length <= buf.Length
    modifies buf
    ensures var was := old(buf[..length]);
      buf[..length] == if ladjust then Rev(was[..actual]) + was[actual..] else Rev(was)
  {
    hide Rev;
    if ladjust {
      ghost var was, tail := buf[..length], buf[actual..];
      assert was[..actual] == buf[..actual] && was[actual..] == tail[..length - actual];
      ReversePrefix(buf, actual);
      assert buf[..length] == buf[..actual] + buf[actual..][..length - actual];
    } else {
      ReversePrefix(buf, length);
    }
  }

  lemma ReversedZeros(d: string, pads: nat)
    ensures Rev(d + Fill('0', pads) + "-") == "-" + Fill('0', pads) + Rev(d)
  {
    RevAppend(d + Fill('0', pads), "-");
    RevAppend(d, Fill('0', pads));
    RevFill('0', pads);
    assert Rev("-") == "-";
    assert "-" + (Fill('0', pads) + Rev(d)) == "-" + Fill('0', pads) + Rev(d);
  }

  lemma ReversedPads(d: string, neg: bool, c: char, pads: nat)
    ensures Rev(d + Sign(neg)) == Sign(neg) + Rev(d)
    ensures Rev(d + Sign(neg) + Fill(c, pads)) == Fill(c, pads) + (Sign(neg) + Rev(d))
  {
    RevAppend(d, Sign(neg));
    RevAppend(d + Sign(neg), Fill(c, pads));
    RevFill(c, pads);
    assert Rev(Sign(neg)) == Sign(neg);
  }

  /** The %d case of vprintfmt: the int comes back from the text. */
  method PrintSigned(x: int, width: nat, ladjust: bool, pad: char) returns (out: string)
    requires -0x8000_0000 <= x < 0x8000_0000 && (pad == ' ' || pad == '0')
    ensures Parse(out, 10).Some? && Signed(Parse(out, 10).value) == x
    ensures |out| >= width
    ensures out == Format(if x < 0 then -x else x, 10, x < 0, width, ladjust, pad, false)
  {
    var num, neg := x, false;
    if num < 0 {
      neg := true;
      num := Negate(num);
    }
    out := PrintNum(ToUnsigned(num), 10, neg, width, ladjust, pad, false);
  }
}
