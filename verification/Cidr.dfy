/**
 Prefix matching on addresses held as 32-bit words in network byte order, as a
 little-endian host reads them. A word is its 32 bits, most significant first; the
 machine's bit operations act position by position. A prefix length counts leftmost
 bits (section 3.1 of RFC 4632, section 2.3 of RFC 4291).
 */
module Cidr {
  import opened Arithmetic

  type Bits = seq<bool>

  function Repeat(b: bool, n: nat): (r: Bits)
    ensures |r| == n && forall i :: 0 <= i < n ==> r[i] == b
  {
    if n == 0 then [] else Repeat(b, n - 1) + [b]
  }

  type Word = w: Bits | |w| == 32 witness Repeat(false, 32)

  function Xor(a: Word, b: Word): Word {
    seq(32, i requires 0 <= i < 32 => a[i] != b[i])
  }

  function And(a: Word, b: Word): Word {
    seq(32, i requires 0 <= i < 32 => a[i] && b[i])
  }

  const ALL_ONES: Word := Repeat(true, 32)

  function ShiftLeft(a: Word, k: nat): Word
    requires k < 32
  {
    a[k..] + Repeat(false, k)
  }

  predicate IsZero(a: Word) {
    forall i :: 0 <= i < 32 ==> !a[i]
  }

  /** Byte reversal; its own inverse, so it also stands for `ntohl`. */
  function Htonl(a: Word): Word {
    a[24..32] + a[16..24] + a[8..16] + a[0..8]
  }

  // ---------------------------------------------------------------- the matchers

  /** The test on a word that the prefix covers only in part, or just fills. */
  predicate MaskedEqual(a: Word, n: Word, bits: nat)
    requires 0 < bits <= 32
  {
    IsZero(And(Xor(a, n), Htonl(ShiftLeft(ALL_ONES, 32 - bits))))
  }

  predicate CidrMatch(addr: Word, net: Word, bits: nat)
    requires bits <= 32
  {
    bits == 0 || MaskedEqual(addr, net, bits)
  }

  /** An IPv6 address: four stored words. */
  type Address6 = a: seq<Word> | |a| == 4 witness [ALL_ONES, ALL_ONES, ALL_ONES, ALL_ONES]

  predicate Cidr6Match(address: Address6, network: Address6, bits: nat)
    requires bits <= 128
  {
    var whole, incomplete := bits / 32, bits % 32;
    (whole != 0 ==> address[..whole] == network[..whole])
    && (incomplete != 0 ==> MaskedEqual(address[whole], network[whole], incomplete))
  }

  // ---------------------------------------------------------------- addresses as numbers

  function Value(x: Bits): nat {
    if x == [] then 0 else 2 * Value(x[..|x| - 1]) + (if x[|x| - 1] then 1 else 0)
  }

  function Pow2(k: nat): nat
    ensures Pow2(k) > 0
  {
    if k == 0 then 1 else 2 * Pow2(k - 1)
  }

  /** The bits of an address in transmission order. */
  function Bits6(a: Address6): Bits {
    Htonl(a[0]) + Htonl(a[1]) + Htonl(a[2]) + Htonl(a[3])
  }

  lemma DoubleInjective(a: nat, p: bool, b: nat, q: bool)
    ensures 2 * a + (if p then 1 else 0) == 2 * b + (if q then 1 else 0) <==> a == b && p == q
  {
  }

  lemma SnocEqual(f: Bits, p: bool, g: Bits, q: bool)
    requires |f| == |g|
    ensures f + [p] == g + [q] <==> f == g && p == q
  {
    var x, y := f + [p], g + [q];
    assert f == x[..|f|] && g == y[..|f|] && p == x[|f|] && q == y[|f|];
  }

  lemma ValueSnoc(f: Bits, p: bool)
    ensures Value(f + [p]) == 2 * Value(f) + (if p then 1 else 0)
  {
    assert (f + [p])[..|f|] == f;
  }

  lemma {:induction false} ValueInjective(x: Bits, y: Bits)
    requires |x| == |y|
    ensures Value(x) == Value(y) <==> x == y
  {
    if x != [] {
      var f, p := x[..|x| - 1], x[|x| - 1];
      var g, q := y[..|x| - 1], y[|x| - 1];
      ValueInjective(f, g);
      SnocEqual(f, p, g, q);
      ValueSnoc(f, p);
      ValueSnoc(g, q);
      DoubleInjective(Value(f), p, Value(g), q);
      assert x == f + [p] && y == g + [q];
    }
  }

  lemma HalveThenDivide(v: nat, m: nat)
    requires m > 0
    ensures v / (2 * m) == (v / 2) / m
  {
    var q, r := (v / 2) / m, (v / 2) % m;
    assert v == (2 * m) * q + (2 * r + v % 2);
    assert 2 * r + v % 2 < 2 * m;
    DivModUnique(v, 2 * m, q, 2 * r + v % 2);
  }

  /** Dividing by 2^k drops the last k bits. */
  lemma {:induction false} QuotientIsPrefix(x: Bits, k: nat)
    requires k <= |x|
    ensures Value(x) / Pow2(k) == Value(x[..|x| - k])
    decreases k
  {
    if k == 0 {
      assert x[..|x|] == x;
    } else {
      var front := x[..|x| - 1];
      QuotientIsPrefix(front, k - 1);
      assert front[..|front| - (k - 1)] == x[..|x| - k];
      assert Value(x) / 2 == Value(front);
      HalveThenDivide(Value(x), Pow2(k - 1));
    }
  }

  lemma QuotientOf(x: Bits, bits: nat)
    requires bits <= |x|
    ensures Value(x) / Pow2(|x| - bits) == Value(x[..bits])
  {
    QuotientIsPrefix(x, |x| - bits);
  }

  lemma SameQuotientIsSamePrefix(x: Bits, y: Bits, bits: nat)
    requires |x| == |y| && bits <= |x|
    ensures Value(x) / Pow2(|x| - bits) == Value(y) / Pow2(|x| - bits) <==> x[..bits] == y[..bits]
  {
    QuotientOf(x, bits);
    QuotientOf(y, bits);
    ValueInjective(x[..bits], y[..bits]);
  }

  // ---------------------------------------------------------------- octets

  lemma {:induction false} ValueConcat(x: Bits, y: Bits)
    ensures Value(x + y) == Value(x) * Pow2(|y|) + Value(y)
  {
    if y == [] {
      assert x + y == x;
    } else {
      var f, p := y[..|y| - 1], y[|y| - 1];
      ValueConcat(x, f);
      ValueSnoc(x + f, p);
      assert x + y == x + f + [p];
      Doubling(Value(x), Pow2(|f|));
    }
  }

  lemma Doubling(v: nat, m: nat)
    ensures 2 * (v * m) == v * (2 * m)
  {
  }

  lemma AppendOctet(x: Bits, y: Bits)
    requires |y| == 8
    ensures Value(x + y) == Value(x) * 256 + Value(y)
  {
    ValueConcat(x, y);
    assert Pow2(8) == 256;
  }

  lemma AppendWord(x: Bits, y: Bits)
    requires |y| == 32
    ensures Value(x + y) == Value(x) * 0x1_0000_0000 + Value(y)
  {
    ValueConcat(x, y);
    Pow32();
  }

  lemma Pow32()
    ensures Pow2(32) == 0x1_0000_0000
  {
    assert Pow2(8) == 256;
    assert Pow2(16) == 0x1_0000;
    assert Pow2(24) == 0x100_0000;
  }

  lemma ReversedOctets(a: Bits, b: Bits, c: Bits, d: Bits)
    requires |a| == 8 && |b| == 8 && |c| == 8 && |d| == 8
    ensures Htonl(d + c + b + a) == a + b + c + d
  {
    var w := d + c + b + a;
    assert w[24..32] == a && w[16..24] == b && w[8..16] == c && w[0..8] == d;
  }

  lemma QuadValue(a: Bits, b: Bits, c: Bits, d: Bits)
    requires |a| == 8 && |b| == 8 && |c| == 8 && |d| == 8
    ensures Value(a + b + c + d) == ((Value(a) * 256 + Value(b)) * 256 + Value(c)) * 256 + Value(d)
  {
    AppendOctet(a, b);
    AppendOctet(a + b, c);
    AppendOctet(a + b + c, d);
  }

  /** The octets a.b.c.d, in the order they are sent, sit in a little-endian word last octet first. */
  lemma DottedQuad(a: Bits, b: Bits, c: Bits, d: Bits)
    requires |a| == 8 && |b| == 8 && |c| == 8 && |d| == 8
    ensures Value(Htonl(d + c + b + a)) == ((Value(a) * 256 + Value(b)) * 256 + Value(c)) * 256 + Value(d)
  {
    ReversedOctets(a, b, c, d);
    QuadValue(a, b, c, d);
  }

  /** The four words of an IPv6 address in the order they are sent. */
  lemma FourWords(w: Address6)
    ensures Value(Bits6(w))
            == ((Value(Htonl(w[0])) * 0x1_0000_0000 + Value(Htonl(w[1]))) * 0x1_0000_0000 + Value(Htonl(w[2]))) * 0x1_0000_0000
               + Value(Htonl(w[3]))
  {
    var x0: Bits, x1: Bits, x2: Bits, x3: Bits := Htonl(w[0]), Htonl(w[1]), Htonl(w[2]), Htonl(w[3]);
    AppendWord(x0, x1);
    AppendWord(x0 + x1, x2);
    AppendWord(x0 + x1 + x2, x3);
  }

  // ---------------------------------------------------------------- what a match means

  /** Where byte reversal takes bit `i` from. */
  function Origin(i: nat): nat
    requires i < 32
  {
    if i < 8 then i + 24 else if i < 16 then i + 8 else if i < 24 then i - 8 else i - 24
  }

  lemma HtonlBit(a: Word, i: nat)
    requires i < 32
    ensures Origin(i) < 32 && Origin(Origin(i)) == i && Htonl(a)[i] == a[Origin(i)]
  {
  }

  lemma HtonlInjective(a: Word, b: Word)
    ensures Htonl(a) == Htonl(b) <==> a == b
  {
    if Htonl(a) == Htonl(b) {
      forall i | 0 <= i < 32 ensures a[i] == b[i] {
        HtonlBit(a, Origin(i));
        HtonlBit(b, Origin(i));
        HtonlBit(a, i);
      }
    }
  }

  lemma MaskBit(bits: nat, i: nat)
    requires 0 < bits <= 32 && i < 32
    ensures Origin(i) < 32 && Htonl(ShiftLeft(ALL_ONES, 32 - bits))[i] <==> Origin(i) < bits
  {
    HtonlBit(ShiftLeft(ALL_ONES, 32 - bits), i);
  }

  lemma MaskedEqualIsPrefix(a: Word, n: Word, bits: nat)
    requires 0 < bits <= 32
    ensures MaskedEqual(a, n, bits) <==> Htonl(a)[..bits] == Htonl(n)[..bits]
  {
    var mask := Htonl(ShiftLeft(ALL_ONES, 32 - bits));
    if MaskedEqual(a, n, bits) {
      forall j | 0 <= j < bits ensures Htonl(a)[j] == Htonl(n)[j] {
        HtonlBit(a, j);
        HtonlBit(n, j);
        MaskBit(bits, Origin(j));
        assert !And(Xor(a, n), mask)[Origin(j)];
      }
    }
    if Htonl(a)[..bits] == Htonl(n)[..bits] {
      forall i | 0 <= i < 32 ensures !And(Xor(a, n), mask)[i] {
        MaskBit(bits, i);
        if Origin(i) < bits {
          HtonlBit(a, Origin(i));
          HtonlBit(n, Origin(i));
          HtonlBit(a, i);
          assert Htonl(a)[..bits][Origin(i)] == Htonl(n)[..bits][Origin(i)];
        }
      }
    }
  }

  /** IPv4: a match at `bits` is agreement of the two numbers without their low 32-bits bits. */
  lemma CidrMatchIsPrefix(addr: Word, net: Word, bits: nat)
    requires bits <= 32
    ensures CidrMatch(addr, net, bits)
            <==> Value(Htonl(addr)) / Pow2(32 - bits) == Value(Htonl(net)) / Pow2(32 - bits)
  {
    SameQuotientIsSamePrefix(Htonl(addr), Htonl(net), bits);
    if bits > 0 { MaskedEqualIsPrefix(addr, net, bits); }
  }

  lemma Bit6(a: Address6, k: nat, i: nat)
    requires k < 4 && i < 32
    ensures Bits6(a)[32 * k + i] == Htonl(a[k])[i]
  {
  }

  /** The first words in full, and `part` bits of the next. */
  predicate WordsAgree(a: Address6, n: Address6, whole: nat, part: nat)
    requires whole <= 4 && part < 32
  {
    (forall k :: 0 <= k < whole ==> Htonl(a[k]) == Htonl(n[k]))
    && (whole < 4 ==> Htonl(a[whole])[..part] == Htonl(n[whole])[..part])
  }

  lemma PrefixGivesWord(a: Address6, n: Address6, t: nat, k: nat, m: nat)
    requires k < 4 && m <= 32 && 32 * k + m <= t <= 128 && Bits6(a)[..t] == Bits6(n)[..t]
    ensures Htonl(a[k])[..m] == Htonl(n[k])[..m]
  {
    forall i | 0 <= i < m ensures Htonl(a[k])[i] == Htonl(n[k])[i] {
      Bit6(a, k, i);
      Bit6(n, k, i);
      assert Bits6(a)[..t][32 * k + i] == Bits6(n)[..t][32 * k + i];
    }
  }

  lemma WordsGiveBit(a: Address6, n: Address6, whole: nat, part: nat, i: nat)
    requires whole <= 4 && part < 32 && i < 32 * whole + part <= 128 && WordsAgree(a, n, whole, part)
    ensures Bits6(a)[i] == Bits6(n)[i]
  {
    var k, r := i / 32, i % 32;
    Bit6(a, k, r);
    Bit6(n, k, r);
    if k == whole { assert Htonl(a[k])[..part][r] == Htonl(n[k])[..part][r]; }
  }

  lemma PrefixByWords(a: Address6, n: Address6, whole: nat, part: nat)
    requires whole <= 4 && part < 32 && 32 * whole + part <= 128
    ensures Bits6(a)[..32 * whole + part] == Bits6(n)[..32 * whole + part] <==> WordsAgree(a, n, whole, part)
  {
    var t := 32 * whole + part;
    if Bits6(a)[..t] == Bits6(n)[..t] {
      forall k | 0 <= k < whole ensures Htonl(a[k]) == Htonl(n[k]) {
        PrefixGivesWord(a, n, t, k, 32);
        assert Htonl(a[k])[..32] == Htonl(a[k]) && Htonl(n[k])[..32] == Htonl(n[k]);
      }
      if whole < 4 { PrefixGivesWord(a, n, t, whole, part); }
    }
    if WordsAgree(a, n, whole, part) {
      forall i | 0 <= i < t ensures Bits6(a)[i] == Bits6(n)[i] { WordsGiveBit(a, n, whole, part, i); }
    }
  }

  lemma WordsEqual(a: Address6, n: Address6, whole: nat)
    requires whole <= 4
    ensures a[..whole] == n[..whole] <==> forall k :: 0 <= k < whole ==> Htonl(a[k]) == Htonl(n[k])
  {
    forall k | 0 <= k < whole ensures Htonl(a[k]) == Htonl(n[k]) <==> a[..whole][k] == n[..whole][k] {
      HtonlInjective(a[k], n[k]);
    }
  }

  lemma Cidr6MatchIsBitPrefix(a: Address6, n: Address6, bits: nat)
    requires bits <= 128
    ensures Cidr6Match(a, n, bits) <==> Bits6(a)[..bits] == Bits6(n)[..bits]
  {
    var whole, part := bits / 32, bits % 32;
    PrefixByWords(a, n, whole, part);
    WordsEqual(a, n, whole);
    if part > 0 { MaskedEqualIsPrefix(a[whole], n[whole], part); }
  }

  /** IPv6: a match at `bits` is agreement of the 128-bit numbers without their low 128-bits bits. */
  lemma Cidr6MatchIsPrefix(a: Address6, n: Address6, bits: nat)
    requires bits <= 128
    ensures Cidr6Match(a, n, bits)
            <==> Value(Bits6(a)) / Pow2(128 - bits) == Value(Bits6(n)) / Pow2(128 - bits)
  {
    Cidr6MatchIsBitPrefix(a, n, bits);
    SameQuotientIsSamePrefix(Bits6(a), Bits6(n), bits);
  }

  // ---------------------------------------------------------------- consequences

  /** At each length a match is an equivalence, and a longer match implies every shorter one. */
  lemma Cidr6Laws(a: Address6, b: Address6, c: Address6, bits: nat, shorter: nat)
    requires shorter <= bits <= 128
    ensures Cidr6Match(a, a, bits)
    ensures Cidr6Match(a, b, bits) ==> Cidr6Match(b, a, bits)
    ensures Cidr6Match(a, b, bits) && Cidr6Match(b, c, bits) ==> Cidr6Match(a, c, bits)
    ensures Cidr6Match(a, b, bits) ==> Cidr6Match(a, b, shorter)
  {
    Cidr6MatchIsBitPrefix(a, a, bits);
    Cidr6MatchIsBitPrefix(a, b, bits);
    Cidr6MatchIsBitPrefix(b, a, bits);
    Cidr6MatchIsBitPrefix(b, c, bits);
    Cidr6MatchIsBitPrefix(a, c, bits);
    Cidr6MatchIsBitPrefix(a, b, shorter);
    ShorterPrefix(Bits6(a), Bits6(b), bits, shorter);
  }

  lemma CidrLaws(a: Word, b: Word, c: Word, bits: nat, shorter: nat)
    requires shorter <= bits <= 32
    ensures CidrMatch(a, a, bits)
    ensures CidrMatch(a, b, bits) ==> CidrMatch(b, a, bits)
    ensures CidrMatch(a, b, bits) && CidrMatch(b, c, bits) ==> CidrMatch(a, c, bits)
    ensures CidrMatch(a, b, bits) ==> CidrMatch(a, b, shorter)
  {
    if bits > 0 {
      MaskedEqualIsPrefix(a, a, bits);
      MaskedEqualIsPrefix(a, b, bits);
      MaskedEqualIsPrefix(b, a, bits);
      MaskedEqualIsPrefix(b, c, bits);
      MaskedEqualIsPrefix(a, c, bits);
      if shorter > 0 { MaskedEqualIsPrefix(a, b, shorter); }
      ShorterPrefix(Htonl(a), Htonl(b), bits, shorter);
    }
  }

  lemma ShorterPrefix(x: Bits, y: Bits, bits: nat, shorter: nat)
    requires shorter <= bits <= |x| && |x| == |y|
    ensures x[..bits] == y[..bits] ==> x[..shorter] == y[..shorter]
  {
    assert x[..shorter] == x[..bits][..shorter] && y[..shorter] == y[..bits][..shorter];
  }
}
