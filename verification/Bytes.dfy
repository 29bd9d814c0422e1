// Little-endian numbers and byte sequences that differ in a few places.
module Bytes {
  lemma NextByte(b: bv8)
    requires b < 255
    ensures (b + 1) as nat == b as nat + 1
  {
  }

  // The byte of a number, counted up from 0.
  function ByteOf(n: nat): (b: bv8)
    requires n < 256
    ensures b as nat == n
  {
    if n == 0 then 0 else NextByte(ByteOf(n - 1)); ByteOf(n - 1) + 1
  }

  function Low(n: nat): (b: bv8)
    ensures b as nat == n % 256
  {
    ByteOf(n % 256)
  }

  // A number in k bytes, the lowest first.
  function Le(n: nat, k: nat): (s: seq<bv8>)
    ensures |s| == k
  {
    if k == 0 then [] else [Low(n)] + Le(n / 256, k - 1)
  }

  // The number that bytes spell, the lowest byte first.
  function Value(s: seq<bv8>): nat {
    if s == [] then 0 else s[0] as nat + 256 * Value(s[1..])
  }

  function Pow256(k: nat): (p: nat)
    ensures p > 0
  {
    if k == 0 then 1 else 256 * Pow256(k - 1)
  }

  lemma LowByte(n: nat, k: nat)
    requires k > 0
    ensures Le(n, k)[0] == Low(n) && Le(n, k)[1..] == Le(n / 256, k - 1)
  {
    hide Low;
  }

  lemma ValueStep(s: seq<bv8>, low: nat)
    requires s != [] && s[0] as nat == low
    ensures Value(s) == low + 256 * Value(s[1..])
  {
  }

  lemma {:induction false} ValueLe(n: nat, k: nat)
    requires n < Pow256(k)
    ensures Value(Le(n, k)) == n
  {
    if k > 0 {
      hide Low, Le, Value;
      LowByte(n, k);
      ValueStep(Le(n, k), n % 256);
      ValueLe(n / 256, k - 1);
    }
  }

  // A known number and its bytes.
  lemma SpellKnown()
    ensures var s := Le(0x1234, 2); s[0] as nat == 0x34 && s[1] as nat == 0x12 && Value(s) == 0x1234
  {
    hide Low, Le, Value;
    LowByte(0x1234, 2);
    LowByte(0x12, 1);
    assert Le(0x1234, 2)[1] == Le(0x1234, 2)[1..][0];
    assert Pow256(2) == 256 * Pow256(1);
    ValueLe(0x1234, 2);
  }

  // Byte i of a number.
  function Digit(n: nat, i: nat): nat {
    if i == 0 then n % 256 else Digit(n / 256, i - 1)
  }

  lemma {:induction false} LeDigit(n: nat, k: nat, i: nat)
    requires i < k
    ensures Le(n, k)[i] as nat == Digit(n, i)
  {
    hide Low, Le;
    LowByte(n, k);
    if i > 0 {
      LeDigit(n / 256, k - 1, i - 1);
    }
  }

  // ---- where bytes lie ----

  predicate Lies(s: seq<bv8>, at: nat, f: seq<bv8>) {
    at + |f| <= |s| && forall i :: at <= i < at + |f| ==> s[i] == f[i - at]
  }

  lemma PartsLie(a: seq<bv8>, b: seq<bv8>, c: seq<bv8>, e: seq<bv8>)
    ensures var s := a + b + c + e; Lies(s, 0, a) && Lies(s, |a|, b) && Lies(s, |a + b|, c) && Lies(s, |a + b + c|, e)
  {
  }

  lemma LiesWithin(s: seq<bv8>, at: nat, f: seq<bv8>, k: nat, g: seq<bv8>)
    requires Lies(s, at, f) && Lies(f, k, g)
    ensures Lies(s, at + k, g)
  {
  }

  lemma LiesValue(s: seq<bv8>, at: nat, n: nat, k: nat)
    requires Lies(s, at, Le(n, k)) && n < Pow256(k)
    ensures Value(s[at..at + k]) == n
  {
    assert s[at..at + k] == Le(n, k);
    ValueLe(n, k);
  }

  // ---- byte sequences that differ in four bytes in a row ----

  // They agree but for four bytes in a row.
  predicate Alike(s: seq<bv8>, t: seq<bv8>, k: nat) {
    |s| == |t| && forall i :: 0 <= i < |s| && !(k <= i < k + 4) ==> s[i] == t[i]
  }

  // Numbers with bytes that differ in four places in a row at most, from byte j on.
  ghost predicate Near(n: nat, m: nat, j: nat) {
    forall i: nat :: !(j <= i < j + 4) ==> Digit(n, i) == Digit(m, i)
  }

  lemma AlikeBehind(a: seq<bv8>, b: seq<bv8>, c: seq<bv8>, k: nat)
    requires Alike(b, c, k)
    ensures Alike(a + b, a + c, |a| + k)
  {
  }

  lemma AlikeBefore(a: seq<bv8>, b: seq<bv8>, c: seq<bv8>, k: nat)
    requires Alike(a, b, k)
    ensures Alike(a + c, b + c, k)
  {
  }

  // The same for one part of four.
  lemma AlikeFirst(a: seq<bv8>, x: seq<bv8>, b: seq<bv8>, c: seq<bv8>, e: seq<bv8>, k: nat)
    requires Alike(a, x, k)
    ensures Alike(a + b + c + e, x + b + c + e, k)
  {
    hide Alike;
    AlikeBefore(a, x, b, k);
    AlikeBefore(a + b, x + b, c, k);
    AlikeBefore(a + b + c, x + b + c, e, k);
  }

  lemma AlikeSecond(a: seq<bv8>, b: seq<bv8>, x: seq<bv8>, c: seq<bv8>, e: seq<bv8>, k: nat)
    requires Alike(b, x, k)
    ensures Alike(a + b + c + e, a + x + c + e, |a| + k)
  {
    hide Alike;
    AlikeBehind(a, b, x, k);
    AlikeBefore(a + b, a + x, c, |a| + k);
    AlikeBefore(a + b + c, a + x + c, e, |a| + k);
  }

  lemma AlikeThird(a: seq<bv8>, b: seq<bv8>, c: seq<bv8>, x: seq<bv8>, e: seq<bv8>, k: nat)
    requires Alike(c, x, k)
    ensures Alike(a + b + c + e, a + b + x + e, |a + b| + k)
  {
    hide Alike;
    AlikeBehind(a + b, c, x, k);
    AlikeBefore(a + b + c, a + b + x, e, |a + b| + k);
  }

  lemma NearBytes(n: nat, m: nat, j: nat, k: nat)
    requires Near(n, m, j)
    ensures Alike(Le(n, k), Le(m, k), j)
  {
    hide Le, Digit;
    forall i: nat | i < k && !(j <= i < j + 4)
      ensures Le(n, k)[i] == Le(m, k)[i]
    {
      LeDigit(n, k, i);
      LeDigit(m, k, i);
      assert Digit(n, i) == Digit(m, i);
    }
  }
}
