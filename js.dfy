/** The few pieces of JavaScript semantics the extension's core relies on:
    optional values, ToInt32, Number#toString, String#startsWith / #includes,
    `parseInt(v) || d`, and Array#find. */
module Js {

  /** A value that may be missing (`undefined` / `null` in the source). */
  datatype Option<+T> = None | Some(value: T)

  function GetOr<T>(o: Option<T>, default: T): T
  {
    match o
    case Some(v) => v
    case None => default
  }

  // ---------------------------------------------------------------------------
  // ToInt32 (section 7.1.6 of ECMA-262)

  const TwoTo31: int := 0x8000_0000
  const TwoTo32: int := 0x1_0000_0000

  /** A signed 32-bit integer, the result of every bitwise operator. */
  type Int32 = x: int | -TwoTo31 <= x < TwoTo31

  /** ToInt32: the unique signed 32-bit value congruent to `x` modulo 2^32. */
  function Wrap32(x: int): (r: Int32)
    ensures (r - x) % TwoTo32 == 0
  {
    (x + TwoTo31) % TwoTo32 - TwoTo31
  }

  /** Two values congruent modulo 2^32 wrap to the same Int32. */
  lemma Wrap32Congruent(x: int, y: int)
    requires (x - y) % TwoTo32 == 0
    ensures Wrap32(x) == Wrap32(y)
  {
    var q := (x - y) / TwoTo32;
    assert x + TwoTo31 == (y + TwoTo31) + q * TwoTo32;
  }

  /** An Int32 already congruent to `x` is the wrap of `x`. */
  lemma Wrap32Unique(x: int, y: Int32)
    requires (y - x) % TwoTo32 == 0
    ensures y == Wrap32(x)
  {
    Wrap32Congruent(y, x);
  }

  // ---------------------------------------------------------------------------
  // Number#toString for integers

  function DigitChar(d: int): (c: char)
    requires 0 <= d < 10
    ensures '0' <= c <= '9'
  {
    (48 + d) as char
  }

  /** Decimal digits of a natural number, most significant first, no leading zero. */
  function NatDigits(n: nat): (s: string)
    ensures |s| >= 1
    ensures forall i | 0 <= i < |s| :: '0' <= s[i] <= '9'
    ensures |s| == 1 <==> n < 10
    decreases n
  {
    if n < 10 then [DigitChar(n)] else NatDigits(n / 10) + [DigitChar(n % 10)]
  }

  /** `n.toString()`: an optional minus sign followed by the decimal digits. */
  function DecimalString(n: int): (s: string)
    ensures s != ""
    ensures s[0] == '-' <==> n < 0
  {
    if n < 0 then "-" + NatDigits(-n) else NatDigits(n)
  }

  lemma {:induction false} NatDigitsInjective(a: nat, b: nat)
    requires NatDigits(a) == NatDigits(b)
    ensures a == b
    decreases a
  {
    if a >= 10 && b >= 10 {
      var sa, sb := NatDigits(a), NatDigits(b);
      assert sa[..|sa| - 1] == NatDigits(a / 10);
      assert sb[..|sb| - 1] == NatDigits(b / 10);
      NatDigitsInjective(a / 10, b / 10);
      assert DigitChar(a % 10) == sa[|sa| - 1] == sb[|sb| - 1] == DigitChar(b % 10);
    }
  }

  /** Distinct integers print differently: a printed hash determines the hash. */
  lemma DecimalStringInjective(a: int, b: int)
    requires DecimalString(a) == DecimalString(b)
    ensures a == b
  {
    if a < 0 {
      assert DecimalString(a)[1..] == NatDigits(-a);
      assert DecimalString(b)[1..] == NatDigits(-b);
      NatDigitsInjective(-a, -b);
    } else {
      NatDigitsInjective(a, b);
    }
  }

  // ---------------------------------------------------------------------------
  // Strings

  /** `s.startsWith(p)`. */
  predicate IsPrefix<T(==)>(p: seq<T>, s: seq<T>)
  {
    |p| <= |s| && s[..|p|] == p
  }

  /** `s.includes(sub)`: `sub` occurs in `s` at some position. */
  predicate Contains<T(==)>(s: seq<T>, sub: seq<T>)
    decreases |s|
  {
    IsPrefix(sub, s) || (|s| > 0 && Contains(s[1..], sub))
  }

  /** Contains agrees with the positional definition of a substring occurrence. */
  lemma {:induction false} ContainsAt<T>(s: seq<T>, sub: seq<T>, k: nat)
    requires k + |sub| <= |s| && s[k..k + |sub|] == sub
    ensures Contains(s, sub)
    decreases k
  {
    if k > 0 {
      assert s[1..][k - 1..k - 1 + |sub|] == s[k..k + |sub|];
      ContainsAt(s[1..], sub, k - 1);
    }
  }

  lemma {:induction false} ContainsHasPosition<T>(s: seq<T>, sub: seq<T>) returns (k: nat)
    requires Contains(s, sub)
    ensures k + |sub| <= |s| && s[k..k + |sub|] == sub
    decreases |s|
  {
    if IsPrefix(sub, s) {
      k := 0;
    } else {
      var k' := ContainsHasPosition(s[1..], sub);
      k := k' + 1;
      assert s[1..][k'..k' + |sub|] == s[k..k + |sub|];
    }
  }

  /** The elements of a sequence, as a set (`new Set(s)`). */
  function Elems<T>(s: seq<T>): set<T>
  {
    set x | x in s
  }

  lemma ElemsAppend<T>(s: seq<T>, x: T)
    ensures Elems(s + [x]) == Elems(s) + {x}
  {
  }

  /** Removing the keys of `s + [x]` from a map removes those of `s`, then `x`. */
  lemma MapMinusAppend<K, V>(m: map<K, V>, s: seq<K>, x: K)
    ensures m - Elems(s + [x]) == (m - Elems(s)) - {x}
  {
    ElemsAppend(s, x);
  }

  /** JavaScript truthiness of an optional string: present and non-empty. */
  predicate Truthy(s: Option<string>)
  {
    s.Some? && s.value != ""
  }

  // ---------------------------------------------------------------------------
  // parseInt(v) || d

  /** `parseInt(v) || d`, where `parsed` is None when parseInt gives NaN. */
  function OrDefault(parsed: Option<int>, d: int): (r: int)
    ensures parsed.Some? && parsed.value != 0 ==> r == parsed.value
    ensures parsed == None || parsed == Some(0) ==> r == d
  {
    if parsed.Some? && parsed.value != 0 then parsed.value else d
  }

  // ---------------------------------------------------------------------------
  // Array#find, as an index

  function FindFrom<T>(s: seq<T>, p: T -> bool, k: nat): (r: Option<nat>)
    requires k <= |s|
    ensures r.Some? ==> k <= r.value < |s| && p(s[r.value])
    ensures r.Some? ==> forall j | k <= j < r.value :: !p(s[j])
    ensures r.None? ==> forall j | k <= j < |s| :: !p(s[j])
    decreases |s| - k
  {
    if k == |s| then None else if p(s[k]) then Some(k) else FindFrom(s, p, k + 1)
  }

  /** `s.find(p)`: the first position whose element satisfies `p`, if any. */
  function Find<T>(s: seq<T>, p: T -> bool): (r: Option<nat>)
    ensures r.Some? ==> r.value < |s| && p(s[r.value])
    ensures r.Some? ==> forall j | 0 <= j < r.value :: !p(s[j])
    ensures r.None? ==> forall j | 0 <= j < |s| :: !p(s[j])
  {
    FindFrom(s, p, 0)
  }
}
