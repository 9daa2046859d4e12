/**
 * `pairKeyFromIds` of src/model/scheduling.ts: the string under which the
 * engine counts how often two people have been partners. The key is the two
 * identifiers in ascending order, written in decimal and joined by `+`.
 */
module PairKeys {
  import opened ScheduleModel

  predicate IsDigit(c: char) {
    '0' <= c <= '9'
  }

  function DigitChar(d: nat): (c: char)
    requires d < 10
    ensures IsDigit(c) && c as int - '0' as int == d
  {
    ('0' as int + d) as char
  }

  /** The decimal numeral of `n`, without leading zeros. */
  function NatToString(n: nat): string {
    if n < 10 then [DigitChar(n)] else NatToString(n / 10) + [DigitChar(n % 10)]
  }

  /** The numeral is nonempty, made of digits and free of leading zeros. */
  lemma {:induction false} NatToStringDigits(n: nat)
    ensures var s := NatToString(n);
      |s| > 0 && (forall i :: 0 <= i < |s| ==> IsDigit(s[i])) && (|s| > 1 ==> s[0] != '0')
  {
    if n >= 10 {
      NatToStringDigits(n / 10);
    }
  }

  /** The value of a digit (0 for any other character). */
  function DigitValue(c: char): nat {
    if IsDigit(c) then c as int - '0' as int else 0
  }

  /** The value of a string of decimal digits. */
  function NatOfDigits(s: string): nat {
    if s == [] then 0 else NatOfDigits(s[..|s| - 1]) * 10 + DigitValue(s[|s| - 1])
  }

  /** JavaScript's `String(i)` for an integer `i`: a nonempty numeral without
      `+` that reads back as `i`. */
  function IntToString(i: int): (s: string)
    ensures |s| > 0 && '+' !in s && IntOfString(s) == i
  {
    var n := if i < 0 then -i else i;
    NatToStringDigits(n);
    NatRoundTrip(n);
    if i < 0 then
      var s := "-" + NatToString(n);
      assert s[1..] == NatToString(n);
      s
    else
      NatToString(n)
  }

  /** Reads back what `IntToString` writes. */
  function IntOfString(s: string): int {
    if |s| > 0 && s[0] == '-' then -(NatOfDigits(s[1..]) as int) else NatOfDigits(s)
  }

  lemma {:induction false} NatRoundTrip(n: nat)
    ensures NatOfDigits(NatToString(n)) == n
  {
    NatToStringDigits(n);
    if n >= 10 {
      NatRoundTrip(n / 10);
      var s := NatToString(n / 10) + [DigitChar(n % 10)];
      assert s[..|s| - 1] == NatToString(n / 10);
    }
  }

  /** The decimal numeral of an integer determines the integer. */
  lemma IntToStringInjective(i: int, j: int)
    ensures IntToString(i) == IntToString(j) <==> i == j
  {}

  /** The two identifiers of a pair in ascending order: what its key spells. */
  datatype PairKey = PairKey(lo: int, hi: int)

  function KeyOf(pair: Pair): PairKey {
    if pair.first <= pair.second then PairKey(pair.first, pair.second) else PairKey(pair.second, pair.first)
  }

  /** The spelling of a key: both numerals joined by `+`. It reads back as the key. */
  function KeyString(k: PairKey): (s: string)
    ensures ReadKey(s) == k
  {
    var u, v := IntToString(k.lo), IntToString(k.hi);
    PlusIndexJoin(u, v);
    var s := u + "+" + v;
    assert s[..|u|] == u && s[|u| + 1..] == v;
    s
  }

  /** `pairKeyFromIds(pair)`: it reads back as the pair's two identifiers in
      ascending order. */
  function PairKeyFromIds(pair: Pair): (key: string)
    ensures var k := ReadKey(key);
      k.lo <= k.hi && multiset{k.lo, k.hi} == multiset{pair.first, pair.second}
  {
    KeyString(KeyOf(pair))
  }

  /** The position of the first `+` of `s`, or `|s|` when there is none. */
  function PlusIndex(s: string): (k: nat)
    ensures k <= |s| && '+' !in s[..k] && (k < |s| ==> s[k] == '+')
  {
    if s == [] || s[0] == '+' then 0
    else
      var k := 1 + PlusIndex(s[1..]);
      assert s[..k] == [s[0]] + s[1..][..k - 1];
      k
  }

  /** A key read back: the numerals before and after the first `+`. */
  function ReadKey(s: string): PairKey {
    var k := PlusIndex(s);
    if k < |s| then PairKey(IntOfString(s[..k]), IntOfString(s[k + 1..])) else PairKey(IntOfString(s), 0)
  }

  /** In two strings joined by `+`, the first `+` is the joining one when the
      first string holds none. */
  lemma PlusIndexJoin(u: string, v: string)
    requires '+' !in u
    ensures PlusIndex(u + "+" + v) == |u|
  {
    var s := u + "+" + v;
    assert s[|u|] == '+' && s[..|u|] == u;
  }

  /** Different keys are spelled differently, so a counter keyed by the
      spelling is a counter keyed by `PairKey`. */
  lemma KeyStringInjective(k1: PairKey, k2: PairKey)
    ensures KeyString(k1) == KeyString(k2) <==> k1 == k2
  {}

  /** The key does not depend on the order of the pair. */
  lemma PairKeySymmetric(a: PersonId, b: PersonId)
    ensures KeyOf(Pair(a, b)) == KeyOf(Pair(b, a))
    ensures PairKeyFromIds(Pair(a, b)) == PairKeyFromIds(Pair(b, a))
  {}

  /** Two pairs have the same key exactly when they hold the same two people. */
  lemma KeyOfInjective(p: Pair, q: Pair)
    ensures KeyOf(p) == KeyOf(q) <==> multiset{p.first, p.second} == multiset{q.first, q.second}
  {
    SameTwo(p.first, p.second, q.first, q.second);
  }

  /** Two two-element multisets agree exactly when their elements agree in
      some order. */
  lemma SameTwo(a: int, b: int, c: int, d: int)
    ensures multiset{a, b} == multiset{c, d} <==> (a == c && b == d) || (a == d && b == c)
  {
    if multiset{a, b} == multiset{c, d} {
      assert a in multiset{c, d};
      assert multiset{b} == multiset{a, b} - multiset{a};
      if a == c {
        assert multiset{d} == multiset{c, d} - multiset{c};
      } else {
        assert multiset{c} == multiset{c, d} - multiset{d};
      }
    }
  }

  /** The same holds of the spelled key, `pairKeyFromIds`. */
  lemma PairKeyInjective(p: Pair, q: Pair)
    ensures PairKeyFromIds(p) == PairKeyFromIds(q) <==>
            multiset{p.first, p.second} == multiset{q.first, q.second}
  {
    KeyStringInjective(KeyOf(p), KeyOf(q));
    KeyOfInjective(p, q);
  }
}
