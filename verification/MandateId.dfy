/** Mandate ids: a 128-bit random value written in base 62, padded to 22 digits. */
module MandateId {

  const DIGITS: string := "0123456789"
  const UPPER: string := "ABCDEFGHIJKLMNOPQRSTUVWXYZ"
  const LOWER: string := "abcdefghijklmnopqrstuvwxyz"

  lemma UpperRow(d: nat)
    requires d < 26
    ensures UPPER[d] == 'A' + d as char
  {
  }

  lemma LowerRow(d: nat)
    requires d < 26
    ensures LOWER[d] == 'a' + d as char
  {
  }

  /** The character at position d of the alphabet DIGITS + UPPER + LOWER. */
  method Base62(d: nat) returns (c: char)
    requires d < 62
    ensures IsDigit(c) && Digit(c) == d
  {
    if d < 10 {
      c := DIGITS[d];
    } else if d < 36 {
      c := UPPER[d - 10];
      UpperRow(d - 10);
    } else {
      c := LOWER[d - 36];
      LowerRow(d - 36);
    }
  }

  const WIDTH: nat := 22
  const TWO_TO_128: nat := 0x1_0000_0000_0000_0000_0000_0000_0000_0000

  predicate IsDigit(c: char) {
    '0' <= c <= '9' || 'A' <= c <= 'Z' || 'a' <= c <= 'z'
  }

  function Digit(c: char): nat {
    if '0' <= c <= '9' then (c - '0') as nat
    else if 'A' <= c <= 'Z' then 10 + (c - 'A') as nat
    else if 'a' <= c <= 'z' then 36 + (c - 'a') as nat
    else 0
  }

  /** The number a digit string names. */
  function Decode(s: string): nat {
    if s == [] then 0 else 62 * Decode(s[..|s| - 1]) + Digit(s[|s| - 1])
  }

  function Pow62(k: nat): (p: nat)
    ensures p > 0
  {
    if k == 0 then 1 else 62 * Pow62(k - 1)
  }

  function Reversed(s: string): (r: string)
    ensures |r| == |s|
    decreases |s|, s
  {
    if s == [] then [] else Reversed(s[1..]) + [s[0]]
  }

  function Zeros(k: nat): string { seq(k, _ => '0') }

  lemma {:induction false} DecodeFrontZeros(k: nat, s: string)
    ensures Decode(Zeros(k) + s) == Decode(s)
    decreases |s|, k
  {
    if s != [] {
      assert (Zeros(k) + s)[..k + |s| - 1] == Zeros(k) + s[..|s| - 1];
      DecodeFrontZeros(k, s[..|s| - 1]);
    } else if k > 0 {
      assert Zeros(k) + s == Zeros(k);
      assert Zeros(k)[..k - 1] == Zeros(k - 1) + [];
      DecodeFrontZeros(k - 1, []);
    }
  }

  lemma DecodeSnoc(s: string, c: char)
    ensures Decode(s + [c]) == 62 * Decode(s) + Digit(c)
  {
  }

  lemma Regroup(d: nat, p: nat, r: nat, e: nat)
    ensures 62 * (d * p + r) + e == d * (62 * p) + (62 * r + e)
  {
  }

  lemma {:induction false} DecodeAppend(s: string, c: char)
    ensures Decode(Reversed(s + [c])) == Digit(c) * Pow62(|s|) + Decode(Reversed(s))
    decreases |s|
  {
    if s == [] {
      assert Reversed([c]) == [] + [c];
      DecodeSnoc([], c);
    } else {
      var t := s[1..];
      assert (s + [c])[1..] == t + [c];
      DecodeAppend(t, c);
      DecodeSnoc(Reversed(t + [c]), s[0]);
      DecodeSnoc(Reversed(t), s[0]);
      Regroup(Digit(c), Pow62(|t|), Decode(Reversed(t)), Digit(s[0]));
    }
  }

  lemma {:induction false} Pow62Add(a: nat, b: nat)
    ensures Pow62(a + b) == Pow62(a) * Pow62(b)
    decreases a
  {
    if a > 0 {
      Pow62Add(a - 1, b);
      assert Pow62(a + b) == 62 * (Pow62(a - 1) * Pow62(b)) == (62 * Pow62(a - 1)) * Pow62(b);
    }
  }

  lemma {:induction false} Pow62Grows(a: nat, b: nat)
    requires a <= b
    ensures Pow62(a) <= Pow62(b)
    decreases b
  {
    if a < b { Pow62Grows(a, b - 1); }
  }

  /** 22 digits are enough: 62^22 > 2^128. */
  lemma Room()
    ensures TWO_TO_128 < Pow62(WIDTH)
  {
    Pow62Add(11, 11);
    assert Pow62(11) == 52036560683837093888;
    assert TWO_TO_128 < 52036560683837093888 * 52036560683837093888;
  }

  lemma {:induction false} ReversedKeeps(s: string)
    ensures forall c :: c in Reversed(s) <==> c in s
    decreases |s|
  {
    if s != [] {
      ReversedKeeps(s[1..]);
      assert s == [s[0]] + s[1..];
    }
  }

  /** The reversed digits, padded on the left. */
  method Padded(chars: string, random: nat) returns (s: string)
    requires random < TWO_TO_128
    requires Decode(Reversed(chars)) == random
    requires chars == [] || Pow62(|chars| - 1) <= random
    requires forall c :: c in chars ==> IsDigit(c)
    ensures |s| == WIDTH && Decode(s) == random
    ensures forall c :: c in s ==> IsDigit(c)
  {
    Room();
    if |chars| > WIDTH { Pow62Grows(WIDTH, |chars| - 1); }
    hide Pow62;
    hide TWO_TO_128;
    ReversedKeeps(chars);
    DecodeFrontZeros(WIDTH - |chars|, Reversed(chars));
    s := Zeros(WIDTH - |chars|) + Reversed(chars);
  }

  /** What the digits collected so far and the rest of the number stand for. */
  function Weight(n: nat, chars: string): nat {
    n * Pow62(|chars|) + Decode(Reversed(chars))
  }

  lemma LoopStep(n: nat, chars: string, c: char)
    requires n > 0 && Digit(c) == n % 62
    ensures Weight(n / 62, chars + [c]) == Weight(n, chars)
    ensures Pow62(|chars|) <= Weight(n, chars)
  {
    DecodeAppend(chars, c);
    assert |chars + [c]| == |chars| + 1;
    Carry(n, n / 62, n % 62, Pow62(|chars|), Decode(Reversed(chars)));
  }

  lemma Carry(n: nat, q: nat, r: nat, p: nat, m: nat)
    requires n > 0 && n == 62 * q + r
    ensures q * (62 * p) + (r * p + m) == n * p + m
    ensures p <= n * p + m
  {
  }

  /** The text of a random value: always 22 digits, and the value can be read
      back from them. */
  method NewId(random: nat) returns (id: string)
    requires random < TWO_TO_128
    ensures |id| == 4 + WIDTH && id[..4] == "amd_"
    ensures forall c :: c in id[4..] ==> IsDigit(c)
    ensures Decode(id[4..]) == random
  {
    var n := random;
    var chars: string := [];
    while n != 0
      invariant forall c :: c in chars ==> IsDigit(c)
      invariant Weight(n, chars) == random
      invariant chars == [] || Pow62(|chars| - 1) <= random
      decreases n
    {
      var c := Base62(n % 62);
      LoopStep(n, chars, c);
      n, chars := n / 62, chars + [c];
    }
    var digits := Padded(chars, random);
    id := "amd_" + digits;
    assert id[4..] == digits;
  }

  /** Digit strings of one length that name the same number are the same, so
      the id is determined by the value and the value by the id. */
  lemma {:induction false} DecodeIsInjective(s: string, t: string)
    requires |s| == |t| && Decode(s) == Decode(t)
    requires (forall c :: c in s ==> IsDigit(c)) && (forall c :: c in t ==> IsDigit(c))
    ensures s == t
    decreases |s|
  {
    if s != [] {
      var n := |s| - 1;
      assert IsDigit(s[n]) && IsDigit(t[n]);
      DigitsApart(s[n], t[n], Decode(s[..n]), Decode(t[..n]));
      hide Decode;
      hide Digit;
      DecodeIsInjective(s[..n], t[..n]);
      assert s == s[..n] + [s[n]] && t == t[..n] + [t[n]];
    }
  }

  lemma DigitsApart(c: char, d: char, x: nat, y: nat)
    requires IsDigit(c) && IsDigit(d) && 62 * x + Digit(c) == 62 * y + Digit(d)
    ensures c == d && x == y
  {
  }
}
