// printf's unsigned decimal fields and the strtoul/atoi that reads them back.
module Decimal {
  import opened Wrappers

  function Pow10(k: nat): nat {
    if k == 0 then 1 else 10 * Pow10(k - 1)
  }

  function Digit(d: nat): char
    requires d < 10
  {
    "0123456789"[d]
  }

  predicate IsDigit(ch: char) {
    '0' <= ch <= '9'
  }

  function DigitValue(ch: char): nat
    requires IsDigit(ch)
  {
    ch as nat - '0' as nat
  }

  // isspace in the C locale.
  predicate IsSpace(ch: char) {
    ch == ' ' || ('\t' <= ch <= '\r')
  }

  lemma SpaceCodes(ch: char)
    ensures IsSpace(ch) <==> ch as int == 32 || 9 <= ch as int <= 13
  {
  }

  // %u, %d of a non-negative number, %zu.
  function Digits(n: nat): (s: string)
    ensures |s| > 0 && forall i :: 0 <= i < |s| ==> IsDigit(s[i])
  {
    if n < 10 then [Digit(n)] else Digits(n / 10) + [Digit(n % 10)]
  }

  function Fill(ch: char, k: nat): (s: string)
    ensures |s| == k && forall i :: 0 <= i < k ==> s[i] == ch
  {
    if k == 0 then [] else [ch] + Fill(ch, k - 1)
  }

  function PadLeft(s: string, w: nat, ch: char): string {
    if |s| < w then Fill(ch, w - |s|) + s else s
  }

  function PadRight(s: string, w: nat): string {
    if |s| < w then s + Fill(' ', w - |s|) else s
  }

  // snprintf into a buffer with room for w characters and the terminator: a longer text
  // loses its end.
  function Field(n: nat, w: nat, pad: char): (s: string)
    ensures |s| == w
  {
    PadLeft(Digits(n), w, pad)[..w]
  }

  // The number that the digits at the front of s spell, after acc.
  function ParseFrom(s: string, acc: nat): nat {
    if s != [] && IsDigit(s[0]) then ParseFrom(s[1..], 10 * acc + DigitValue(s[0])) else acc
  }

  // strtoul(s, NULL, 10) and atoi on texts without a sign.
  function Parse(s: string): nat {
    if s != [] && IsSpace(s[0]) then Parse(s[1..]) else ParseFrom(s, 0)
  }

  // ----- scanf's conversions -----

  function SkipSpace(s: string): string {
    if s != [] && IsSpace(s[0]) then SkipSpace(s[1..]) else s
  }

  function LeadingDigits(s: string): (d: string)
    ensures d <= s
  {
    if s != [] && IsDigit(s[0]) then [s[0]] + LeadingDigits(s[1..]) else []
  }

  lemma {:induction false} DigitsThen(d: string, t: string)
    requires forall i :: 0 <= i < |d| ==> IsDigit(d[i])
    requires t == [] || !IsDigit(t[0])
    ensures LeadingDigits(d + t) == d
  {
    if d == [] {
      assert d + t == t;
    } else {
      assert (d + t)[1..] == d[1..] + t;
      DigitsThen(d[1..], t);
    }
  }

  // %u or %d of a number without a sign: the number and what follows it.
  function ScanDigits(s: string): Option<(nat, string)> {
    var t := SkipSpace(s);
    var d := LeadingDigits(t);
    if d == [] then None else Some((ParseFrom(d, 0), t[|d|..]))
  }

  lemma ScansDigits(n: nat, t: string)
    requires t == [] || !IsDigit(t[0])
    ensures ScanDigits(Digits(n) + t) == Some((n, t))
  {
    hide Digits;
    var d := Digits(n);
    assert SkipSpace(d + t) == d + t;
    DigitsThen(d, t);
    ParseDigits(n, []);
    assert d + [] == d && (d + t)[|d|..] == t;
  }

  lemma {:induction false} ParseFromAppend(s: string, t: string, acc: nat)
    requires forall i :: 0 <= i < |s| ==> IsDigit(s[i])
    ensures ParseFrom(s + t, acc) == ParseFrom(t, ParseFrom(s, acc))
  {
    if s == [] {
      assert s + t == t;
    } else {
      assert (s + t)[1..] == s[1..] + t;
      ParseFromAppend(s[1..], t, 10 * acc + DigitValue(s[0]));
    }
  }

  lemma ParseOneDigit(d: nat, t: string, acc: nat)
    requires d < 10 && (t == [] || !IsDigit(t[0]))
    ensures ParseFrom([Digit(d)] + t, acc) == 10 * acc + d
  {
    assert ([Digit(d)] + t)[1..] == t;
  }

  lemma {:induction false} ParseDigits(n: nat, t: string)
    requires t == [] || !IsDigit(t[0])
    ensures ParseFrom(Digits(n) + t, 0) == n
  {
    hide ParseFrom;
    if n < 10 {
      ParseOneDigit(n, t, 0);
    } else {
      var d := Digit(n % 10);
      ParseDigits(n / 10, []);
      assert Digits(n / 10) + [] == Digits(n / 10);
      assert Digits(n) + t == Digits(n / 10) + ([d] + t);
      ParseFromAppend(Digits(n / 10), [d] + t, 0);
      ParseOneDigit(n % 10, t, n / 10);
    }
  }

  lemma {:induction false} DigitsLength(n: nat, w: nat)
    requires w > 0
    ensures |Digits(n)| <= w <==> n < Pow10(w)
  {
    if n >= 10 {
      if w > 1 {
        DigitsLength(n / 10, w - 1);
      }
    } else {
      assert Pow10(w) == 10 * Pow10(w - 1);
      Pow10Positive(w - 1);
    }
  }

  lemma {:induction false} Pow10Positive(k: nat)
    ensures Pow10(k) > 0
  {
    if k > 0 { Pow10Positive(k - 1); }
  }

  // Cutting digits off the end makes the number smaller.
  lemma {:induction false} CutDigits(n: nat, w: nat)
    requires w < |Digits(n)|
    ensures ParseFrom(Digits(n)[..w], 0) <= n / 10
  {
    if n >= 10 {
      var s := Digits(n / 10);
      assert Digits(n)[..w] == s[..w];
      if w == |s| {
        ParseDigits(n / 10, []);
        assert s[..w] == s && s + [] == s;
      } else {
        CutDigits(n / 10, w);
      }
    } else {
      assert Digits(n)[..w] == [];
    }
  }

  lemma {:induction false} ParsePadding(pad: char, k: nat, s: string)
    requires pad == ' ' || pad == '0'
    requires s != [] && IsDigit(s[0])
    ensures Parse(Fill(pad, k) + s) == ParseFrom(s, 0)
  {
    if k == 0 {
      assert Fill(pad, 0) + s == s;
    } else {
      var t := Fill(pad, k) + s;
      assert t[1..] == Fill(pad, k - 1) + s;
      ParsePadding(pad, k - 1, s);
      if pad == '0' {
        assert !IsSpace(t[1]);
      }
    }
  }

  // A field of width w is read back as the number printed exactly when the number has at
  // most w digits.
  lemma FieldReadsBack(n: nat, w: nat, pad: char)
    requires w > 0 && (pad == ' ' || pad == '0')
    ensures Parse(Field(n, w, pad)) == n <==> n < Pow10(w)
  {
    var s := Digits(n);
    DigitsLength(n, w);
    if |s| <= w {
      ParsePadding(pad, w - |s|, s);
      ParseDigits(n, []);
      assert s + [] == s;
      assert Field(n, w, pad) == Fill(pad, w - |s|) + s;
    } else {
      assert Field(n, w, pad) == s[..w];
      assert Fill(pad, 0) + s[..w] == s[..w];
      ParsePadding(pad, 0, s[..w]);
      CutDigits(n, w);
    }
  }

  lemma Scale(acc: nat, d: nat, p: nat)
    requires d < 10
    ensures (10 * acc + d + 1) * p <= (acc + 1) * (10 * p)
  {
    var x, y := 10 * acc + d + 1, 10 * acc + 10;
    assert y * p == (acc + 1) * (10 * p);
    assert x * p + (y - x) * p == y * p;
  }

  lemma {:induction false} ParseFromBound(s: string, acc: nat)
    ensures ParseFrom(s, acc) < (acc + 1) * Pow10(|s|)
  {
    var p := Pow10(|s|);
    Pow10Positive(|s|);
    if s != [] && IsDigit(s[0]) {
      var d := DigitValue(s[0]);
      ParseFromBound(s[1..], 10 * acc + d);
      Scale(acc, d, Pow10(|s| - 1));
    } else {
      Scale(acc, 0, p);
      assert (acc + 1) * p == acc * p + p && acc * p >= acc;
    }
  }

  // k characters never spell a number of more than k digits.
  lemma {:induction false} ParseBound(s: string)
    ensures Parse(s) < Pow10(|s|)
  {
    if s != [] && IsSpace(s[0]) {
      ParseBound(s[1..]);
    } else {
      ParseFromBound(s, 0);
    }
  }
}
