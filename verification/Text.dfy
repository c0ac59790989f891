/**
 String facts the service relies on: byte-wise ordering as `std::string` compares,
 zero-padded decimal fields, splitting on a separator, and ASCII case folding.
 */
module Text {

  datatype Option<+T> = None | Some(value: T)

  // ---------------------------------------------------------------- ordering

  /** Lexicographic order, as `std::string::operator<` computes it. */
  predicate Less(a: string, b: string) {
    if b == [] then false
    else if a == [] then true
    else a[0] < b[0] || (a[0] == b[0] && Less(a[1..], b[1..]))
  }

  lemma {:induction false} LessIrreflexive(a: string)
    ensures !Less(a, a)
  {
    if a != [] { LessIrreflexive(a[1..]); }
  }

  lemma {:induction false} LessTransitive(a: string, b: string, c: string)
    requires Less(a, b) && Less(b, c)
    ensures Less(a, c)
  {
    if a != [] && a[0] == b[0] && b[0] == c[0] {
      LessTransitive(a[1..], b[1..], c[1..]);
    }
  }

  lemma {:induction false} LessTrichotomy(a: string, b: string)
    ensures Less(a, b) || a == b || Less(b, a)
    ensures !(Less(a, b) && Less(b, a))
  {
    if a != [] && b != [] {
      LessTrichotomy(a[1..], b[1..]);
      assert a == [a[0]] + a[1..] && b == [b[0]] + b[1..];
    }
  }

  /** Equal-width fields compare field by field, most significant first. */
  lemma {:induction false} LessConcat(a: string, b: string, c: string, d: string)
    requires |a| == |b|
    ensures Less(a + c, b + d) <==> Less(a, b) || (a == b && Less(c, d))
  {
    if a == [] {
      assert a + c == c && b + d == d;
    } else {
      LessConcat(a[1..], b[1..], c, d);
      assert (a + c)[1..] == a[1..] + c && (b + d)[1..] == b[1..] + d;
      assert a == [a[0]] + a[1..] && b == [b[0]] + b[1..];
    }
  }

  predicate IsLeast(e: string, s: set<string>) {
    forall x :: x in s && x != e ==> Less(e, x)
  }

  lemma {:induction false} LeastExists(s: set<string>)
    requires s != {}
    ensures exists e :: e in s && IsLeast(e, s)
    decreases |s|
  {
    var x :| x in s;
    var rest := s - {x};
    if rest == {} {
      assert s == rest + {x};
      assert IsLeast(x, s);
    } else {
      LeastExists(rest);
      var e :| e in rest && IsLeast(e, rest);
      LessTrichotomy(e, x);
      if Less(x, e) {
        forall y | y in s && y != x ensures Less(x, y) {
          if y != e { LessTransitive(x, e, y); }
        }
        assert IsLeast(x, s);
      } else {
        assert IsLeast(e, s);
      }
    }
  }

  // ---------------------------------------------------------------- keys in order

  predicate InOrder(a: seq<string>) {
    forall i, j :: 0 <= i < j < |a| ==> Less(a[i], a[j])
  }

  /** The keys of a `std::map` in iteration order. */
  method SortedKeys(s: set<string>) returns (keys: seq<string>)
    ensures InOrder(keys) && forall x :: x in keys <==> x in s
  {
    keys := [];
    var todo := s;
    while todo != {}
      invariant todo <= s && InOrder(keys)
      invariant forall i, x :: 0 <= i < |keys| && x in todo ==> Less(keys[i], x)
      invariant forall x :: x in keys <==> x in s && x !in todo
      decreases |todo|
    {
      LeastExists(todo);
      var e :| e in todo && IsLeast(e, todo);
      todo := todo - {e};
      keys := keys + [e];
    }
  }

  lemma SameLast(a: seq<string>, b: seq<string>)
    requires InOrder(a) && InOrder(b) && a != [] && b != [] && a[|a| - 1] in b && b[|b| - 1] in a
    ensures a[|a| - 1] == b[|b| - 1]
  {
    var x, y := a[|a| - 1], b[|b| - 1];
    var k :| 0 <= k < |b| && b[k] == x;
    var l :| 0 <= l < |a| && a[l] == y;
    LessTrichotomy(x, y);
  }

  lemma FrontMembers(a: seq<string>, x: string)
    requires InOrder(a) && a != []
    ensures x in a[..|a| - 1] <==> x in a && x != a[|a| - 1]
  {
    var n := |a| - 1;
    assert a == a[..n] + [a[n]];
    if x in a[..n] {
      var i :| 0 <= i < n && a[i] == x;
      LessIrreflexive(x);
    }
  }

  /** An ascending list is determined by its members. */
  lemma {:induction false} InOrderUnique(a: seq<string>, b: seq<string>)
    requires InOrder(a) && InOrder(b) && forall x :: x in a <==> x in b
    ensures a == b
  {
    if a != [] { assert a[|a| - 1] in b; }
    if b != [] { assert b[|b| - 1] in a; }
    if a != [] {
      SameLast(a, b);
      var p, q := a[..|a| - 1], b[..|b| - 1];
      forall x ensures x in p <==> x in q {
        FrontMembers(a, x);
        FrontMembers(b, x);
      }
      InOrderUnique(p, q);
      assert a == p + [a[|a| - 1]] && b == q + [b[|b| - 1]];
    }
  }

  // ---------------------------------------------------------------- decimal fields

  function Pow10(w: nat): nat {
    if w == 0 then 1 else 10 * Pow10(w - 1)
  }

  function DigitChar(d: int): char
    requires 0 <= d < 10
  {
    '0' + d as char
  }

  predicate IsDigit(c: char) {
    '0' <= c <= '9'
  }

  predicate AllDigits(s: string) {
    forall i :: 0 <= i < |s| ==> IsDigit(s[i])
  }

  /** The `w` low decimal digits of `n`, zero padded ("%0wd"). */
  function Pad(n: nat, w: nat): string {
    if w == 0 then [] else Pad(n / 10, w - 1) + [DigitChar(n % 10)]
  }

  function Number(s: string): nat
    requires AllDigits(s)
  {
    if s == [] then 0
    else 10 * Number(s[..|s| - 1]) + (s[|s| - 1] as int - '0' as int)
  }

  /** Decimal digits without padding. */
  function Decimal(n: nat): string {
    if n < 10 then [DigitChar(n)] else Decimal(n / 10) + [DigitChar(n % 10)]
  }

  function SignedDecimal(n: int): string {
    if n < 0 then "-" + Decimal(-n) else Decimal(n)
  }

  lemma {:induction false} PadShape(n: nat, w: nat)
    ensures |Pad(n, w)| == w && AllDigits(Pad(n, w))
  {
    if w > 0 { PadShape(n / 10, w - 1); }
  }

  lemma {:induction false} NumberOfPad(n: nat, w: nat)
    requires n < Pow10(w)
    ensures AllDigits(Pad(n, w)) && Number(Pad(n, w)) == n
  {
    PadShape(n, w);
    if w > 0 {
      NumberOfPad(n / 10, w - 1);
      assert Pad(n, w)[..w - 1] == Pad(n / 10, w - 1);
    }
  }

  lemma {:induction false} PadOfNumber(s: string)
    requires AllDigits(s)
    ensures Number(s) < Pow10(|s|) && Pad(Number(s), |s|) == s
  {
    if s != [] {
      var front := s[..|s| - 1];
      PadOfNumber(front);
      var d := s[|s| - 1] as int - '0' as int;
      assert Number(s) / 10 == Number(front) && Number(s) % 10 == d;
      assert s == front + [s[|s| - 1]];
    }
  }

  /** On equal widths, string order is numeric order. */
  lemma {:induction false} PadOrder(m: nat, n: nat, w: nat)
    requires m < Pow10(w) && n < Pow10(w)
    ensures Less(Pad(m, w), Pad(n, w)) <==> m < n
    ensures Pad(m, w) == Pad(n, w) <==> m == n
  {
    NumberOfPad(m, w);
    NumberOfPad(n, w);
    if w > 0 {
      PadOrder(m / 10, n / 10, w - 1);
      PadShape(m / 10, w - 1);
      PadShape(n / 10, w - 1);
      LessConcat(Pad(m / 10, w - 1), Pad(n / 10, w - 1), [DigitChar(m % 10)], [DigitChar(n % 10)]);
    }
  }

  // ---------------------------------------------------------------- ASCII case and trimming

  function LowerChar(c: char): char {
    if 'A' <= c <= 'Z' then c + 32 as char else c
  }

  function UpperChar(c: char): char {
    if 'a' <= c <= 'z' then c - 32 as char else c
  }

  function ToLower(s: string): string {
    seq(|s|, i requires 0 <= i < |s| => LowerChar(s[i]))
  }

  function ToUpper(s: string): string {
    seq(|s|, i requires 0 <= i < |s| => UpperChar(s[i]))
  }

  /** Letters change case, nothing else does. */
  lemma LettersFold(k: nat, c: char)
    requires k < 26
    ensures LowerChar("ABCDEFGHIJKLMNOPQRSTUVWXYZ"[k]) == "abcdefghijklmnopqrstuvwxyz"[k]
    ensures UpperChar("abcdefghijklmnopqrstuvwxyz"[k]) == "ABCDEFGHIJKLMNOPQRSTUVWXYZ"[k]
    ensures !('A' <= c <= 'Z') ==> LowerChar(c) == c
    ensures !('a' <= c <= 'z') ==> UpperChar(c) == c
  {
  }

  predicate IsSpace(c: char) {
    c == ' ' || 9 <= c as int <= 13
  }

  predicate IsHexDigit(c: char) {
    '0' <= c <= '9' || 'a' <= c <= 'f' || 'A' <= c <= 'F'
  }

  function TrimLeft(s: string): string {
    if s != [] && IsSpace(s[0]) then TrimLeft(s[1..]) else s
  }

  function TrimRight(s: string): string {
    if s != [] && IsSpace(s[|s| - 1]) then TrimRight(s[..|s| - 1]) else s
  }

  function Trim(s: string): string {
    TrimRight(TrimLeft(s))
  }

  lemma {:induction false} TrimLeftParts(s: string) returns (blanks: string)
    ensures s == blanks + TrimLeft(s) && forall i :: 0 <= i < |blanks| ==> IsSpace(blanks[i])
    ensures TrimLeft(s) != "" ==> !IsSpace(TrimLeft(s)[0])
  {
    if s != [] && IsSpace(s[0]) {
      var rest := TrimLeftParts(s[1..]);
      blanks := [s[0]] + rest;
      assert TrimLeft(s) == TrimLeft(s[1..]);
      assert s == [s[0]] + (rest + TrimLeft(s));
    } else {
      blanks := "";
    }
  }

  lemma {:induction false} TrimRightParts(s: string) returns (blanks: string)
    ensures s == TrimRight(s) + blanks && forall i :: 0 <= i < |blanks| ==> IsSpace(blanks[i])
    ensures TrimRight(s) != "" ==> !IsSpace(TrimRight(s)[|TrimRight(s)| - 1])
  {
    if s != [] && IsSpace(s[|s| - 1]) {
      var rest := TrimRightParts(s[..|s| - 1]);
      blanks := rest + [s[|s| - 1]];
      assert TrimRight(s) == TrimRight(s[..|s| - 1]);
      assert s == TrimRight(s) + rest + [s[|s| - 1]];
    } else {
      blanks := "";
    }
  }

  /** Trimming takes blanks from both ends and nothing else. */
  lemma TrimParts(s: string) returns (before: string, after: string)
    ensures s == before + Trim(s) + after
    ensures forall i :: 0 <= i < |before| ==> IsSpace(before[i])
    ensures forall i :: 0 <= i < |after| ==> IsSpace(after[i])
    ensures Trim(s) != "" ==> !IsSpace(Trim(s)[0]) && !IsSpace(Trim(s)[|Trim(s)| - 1])
  {
    before := TrimLeftParts(s);
    after := TrimRightParts(TrimLeft(s));
    assert Trim(s) != "" ==> Trim(s)[0] == TrimLeft(s)[0];
  }

  // ---------------------------------------------------------------- splitting

  /** Index of the first `c` at or after `from`, or `|s|`. */
  function Find(s: string, c: char, from: nat): (r: nat)
    requires from <= |s|
    ensures from <= r <= |s|
    ensures r < |s| ==> s[r] == c
    ensures forall i :: from <= i < r ==> s[i] != c
    decreases |s| - from
  {
    if from == |s| || s[from] == c then from else Find(s, c, from + 1)
  }

  /** Tokens between separators, empty ones kept; the empty string has no tokens. */
  function Split(s: string, sep: char): (r: seq<string>)
  {
    if s == [] then [] else SplitFrom(s, sep)
  }

  function SplitFrom(s: string, sep: char): (r: seq<string>)
    ensures |r| >= 1
    decreases |s|
  {
    var k := Find(s, sep, 0);
    if k == |s| then [s] else [s[..k]] + SplitFrom(s[k + 1..], sep)
  }

  function Join(parts: seq<string>, sep: char): string {
    if parts == [] then []
    else if |parts| == 1 then parts[0]
    else parts[0] + [sep] + Join(parts[1..], sep)
  }

  lemma JoinCons(head: string, rest: seq<string>, sep: char)
    requires rest != []
    ensures Join([head] + rest, sep) == head + [sep] + Join(rest, sep)
  {
    assert ([head] + rest)[1..] == rest;
  }

  lemma {:induction false} JoinOfSplitFrom(s: string, sep: char)
    ensures Join(SplitFrom(s, sep), sep) == s
    decreases |s|
  {
    var k := Find(s, sep, 0);
    if k < |s| {
      var rest := SplitFrom(s[k + 1..], sep);
      JoinOfSplitFrom(s[k + 1..], sep);
      JoinCons(s[..k], rest, sep);
      assert s == s[..k] + [sep] + s[k + 1..];
    }
  }

  lemma JoinOfSplit(s: string, sep: char)
    ensures Join(Split(s, sep), sep) == s
  {
    JoinOfSplitFrom(s, sep);
  }

  lemma {:induction false} SplitItems(s: string, sep: char)
    ensures forall i :: 0 <= i < |SplitFrom(s, sep)| ==> sep !in SplitFrom(s, sep)[i]
    decreases |s|
  {
    var k := Find(s, sep, 0);
    assert sep !in s[..k];
    if k < |s| { SplitItems(s[k + 1..], sep); }
  }

  /** The items of a split contain no separator and join to the text; with `JoinOfSplit` this fixes them. */
  lemma SplitHead(item: string, rest: string, sep: char)
    requires sep !in item
    ensures SplitFrom(item, sep) == [item]
    ensures SplitFrom(item + [sep] + rest, sep) == [item] + SplitFrom(rest, sep)
  {
    var s := item + [sep] + rest;
    assert s[|item|] == sep && forall i :: 0 <= i < |item| ==> s[i] == item[i];
    assert Find(s, sep, 0) == |item|;
    assert s[..|item|] == item && s[|item| + 1..] == rest;
  }

  // ---------------------------------------------------------------- unpadded decimals

  lemma {:induction false} DecimalReadsBack(n: nat)
    ensures AllDigits(Decimal(n)) && Number(Decimal(n)) == n
    ensures Decimal(n) != "" && (n > 0 ==> Decimal(n)[0] != '0')
  {
    if n >= 10 {
      DecimalReadsBack(n / 10);
      var d := Decimal(n);
      assert d[..|d| - 1] == Decimal(n / 10);
    } else {
      assert Number(Decimal(n)[..0]) == 0;
    }
  }
}
