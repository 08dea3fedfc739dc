// hash_string: which of the five chains a key belongs to.
module Hashing {
  import opened Words

  const TABLESIZE: nat := 5
  const SEED: nat := 5381

  // A char is one signed byte; it is sign-extended before it is added.
  function Signed(ch: char): int {
    var b := ch as int % 256;
    if b < 128 then b else b - 256
  }

  lemma SignedByte(ch: char)
    ensures -128 <= Signed(ch) < 128 && (Signed(ch) - ch as int) % 256 == 0
    ensures ch as int < 128 ==> Signed(ch) == ch as int
    ensures 128 <= ch as int < 256 ==> Signed(ch) == ch as int - 256
  {
  }

  // (hash << 5) + c in unsigned 32-bit arithmetic.
  function Mix(hash: nat, ch: char): nat {
    (hash * 32 + Signed(ch)) % WORD
  }

  // The hash of s when the accumulator starts at h.
  function HashFrom(s: string, h: nat): nat {
    if s == [] then h else HashFrom(s[1..], Mix(h, s[0]))
  }

  function Bucket(key: string): (b: nat)
    ensures b < TABLESIZE
  {
    HashFrom(key, SEED) % TABLESIZE
  }

  // A C string ends at its NUL, so keys hold none and the loop runs over all of them.
  method HashString(str: string) returns (index: nat)
    ensures index == Bucket(str)
  {
    var hash: nat := SEED;
    for i := 0 to |str|
      invariant HashFrom(str, SEED) == HashFrom(str[i..], hash)
    {
      assert str[i..][1..] == str[i + 1..];
      hash := Mix(hash, str[i]);
    }
    index := hash % TABLESIZE;
  }

  function Pow32(k: nat): nat {
    if k == 0 then 1 else 32 * Pow32(k - 1)
  }

  // The characters weighted by descending powers of 32.
  function Weighted(s: string): int {
    if s == [] then 0 else Signed(s[0]) * Pow32(|s| - 1) + Weighted(s[1..])
  }

  lemma ModMul(a: int, b: int, k: nat)
    requires a % WORD == b % WORD
    ensures (a * k) % WORD == (b * k) % WORD
  {
    var q := a / WORD - b / WORD;
    assert a == b + q * WORD;
    assert a * k == b * k + (q * k) * WORD;
    ModAdd(b * k, q * k);
  }

  lemma ModAdd(a: int, q: int)
    ensures (a + q * WORD) % WORD == a % WORD
  {
  }

  lemma ModShift(a: int, b: int, d: int)
    requires a % WORD == b % WORD
    ensures (a + d) % WORD == (b + d) % WORD
  {
  }

  lemma Distribute(h: nat, d: int, p: nat)
    ensures (h * 32 + d) * p == h * (32 * p) + d * p
  {
  }

  lemma MixThen(h: nat, ch: char, p: nat, w: int)
    ensures (Mix(h, ch) * p + w) % WORD == ((h * 32 + Signed(ch)) * p + w) % WORD
  {
    var a := h * 32 + Signed(ch);
    ModMul(Mix(h, ch), a, p);
    ModShift(Mix(h, ch) * p, a * p, w);
  }

  // Closed form: the seed and every character, weighted, modulo the word.
  lemma {:induction false} HashClosedForm(s: string, h: nat)
    requires h < WORD
    ensures HashFrom(s, h) == (h * Pow32(|s|) + Weighted(s)) % WORD
  {
    if s != [] {
      var p := Pow32(|s| - 1);
      HashClosedForm(s[1..], Mix(h, s[0]));
      Distribute(h, Signed(s[0]), p);
      MixThen(h, s[0], p, Weighted(s[1..]));
    }
  }

  lemma BucketClosedForm(key: string)
    ensures Bucket(key) == (5381 * Pow32(|key|) + Weighted(key)) % 0x1_0000_0000 % 5
  {
    HashClosedForm(key, SEED);
  }

  lemma {:induction false} HashFromAppend(s: string, t: string, h: nat)
    ensures HashFrom(s + t, h) == HashFrom(t, HashFrom(s, h))
  {
    if s == [] {
      assert s + t == t;
    } else {
      assert (s + t)[1..] == s[1..] + t;
      HashFromAppend(s[1..], t, Mix(h, s[0]));
    }
  }

  lemma {:induction false} HashBelowWord(s: string, h: nat)
    requires h < WORD
    ensures HashFrom(s, h) < WORD
  {
    if s != [] { HashBelowWord(s[1..], Mix(h, s[0])); }
  }

  // Seven characters shift everything before them out of the word.
  lemma SevenForget(s: string, h: nat)
    requires h < WORD && |s| == 7
    ensures HashFrom(s, h) == Weighted(s) % WORD
  {
    HashClosedForm(s, h);
    assert Pow32(3) == 0x8000;
    assert Pow32(7) == 8 * WORD;
    ModAdd(Weighted(s), h * 8);
    assert h * (8 * WORD) == (h * 8) * WORD;
  }

  // Keys of at least seven characters with the same last seven share a bucket.
  lemma LastSevenDecide(s: string, t: string)
    requires |s| >= 7 && |t| >= 7 && s[|s| - 7..] == t[|t| - 7..]
    ensures Bucket(s) == Bucket(t)
  {
    var tail := s[|s| - 7..];
    var a, b := s[..|s| - 7], t[..|t| - 7];
    assert s == a + tail && t == b + tail;
    HashFromAppend(a, tail, SEED);
    HashFromAppend(b, tail, SEED);
    HashBelowWord(a, SEED);
    HashBelowWord(b, SEED);
    SevenForget(tail, HashFrom(a, SEED));
    SevenForget(tail, HashFrom(b, SEED));
  }

  lemma HashCons(ch: char, t: string, h: nat)
    ensures HashFrom([ch] + t, h) == HashFrom(t, Mix(h, ch))
  {
    assert ([ch] + t)[1..] == t;
  }

  lemma BucketOfAs()
    ensures Bucket("aaaaaaa") == 4
  {
    hide HashFrom;
    assert "aaaaaaa" == ['a'] + "aaaaaa";
    HashCons('a', "aaaaaa", 5381);
    assert "aaaaaa" == ['a'] + "aaaaa";
    HashCons('a', "aaaaa", 172289);
    assert "aaaaa" == ['a'] + "aaaa";
    HashCons('a', "aaaa", 5513345);
    assert "aaaa" == ['a'] + "aaa";
    HashCons('a', "aaa", 176427137);
    assert "aaa" == ['a'] + "aa";
    HashCons('a', "aa", 1350701185);
    assert "aa" == ['a'] + "a";
    HashCons('a', "a", 272765057);
    assert "a" == ['a'] + "";
    HashCons('a', "", 138547329);
    HashNil(138547329);
  }

  lemma BucketOfB()
    ensures Bucket("baaaaaa") == 3
  {
    hide HashFrom;
    assert "baaaaaa" == ['b'] + "aaaaaa";
    HashCons('b', "aaaaaa", 5381);
    assert "aaaaaa" == ['a'] + "aaaaa";
    HashCons('a', "aaaaa", 172290);
    assert "aaaaa" == ['a'] + "aaaa";
    HashCons('a', "aaaa", 5513377);
    assert "aaaa" == ['a'] + "aaa";
    HashCons('a', "aaa", 176428161);
    assert "aaa" == ['a'] + "aa";
    HashCons('a', "aa", 1350733953);
    assert "aa" == ['a'] + "a";
    HashCons('a', "a", 273813633);
    assert "a" == ['a'] + "";
    HashCons('a', "", 172101761);
    HashNil(1212289153);
  }

  // Six characters do not decide: the seventh from the end still counts.
  lemma SixDoNotDecide()
    ensures "aaaaaaa"[1..] == "baaaaaa"[1..] && Bucket("aaaaaaa") != Bucket("baaaaaa")
  {
    BucketOfAs();
    BucketOfB();
  }

  lemma HashNil(h: nat)
    ensures HashFrom("", h) == h
  {
  }
}
