/**
 * Character and string operations of the Java standard library that the
 * gateway relies on: `String.contains`, the ASCII `\d` class of
 * `java.util.regex`, `String.trim`-based blankness, `String.join` over a
 * `HashSet`, `String.format("%02d", ...)` and `Integer.parseInt` on a digit
 * string.
 */
module Text {

  datatype Option<+T> = None | Some(value: T)

  /** `\d` in a Java regular expression without UNICODE_CHARACTER_CLASS. */
  predicate IsDigit(c: char) {
    '0' <= c <= '9'
  }

  predicate AllDigits(s: string) {
    forall i :: 0 <= i < |s| ==> IsDigit(s[i])
  }

  /** `s.trim().isEmpty()`: `String.trim` strips every char up to U+0020. */
  predicate IsBlank(s: string) {
    forall i :: 0 <= i < |s| ==> s[i] <= ' '
  }

  /** `s.contains(fragment)`: the fragment occurs somewhere in `s`. */
  predicate Contains(s: string, fragment: string)
    decreases |s|
  {
    fragment <= s || (|s| > 0 && Contains(s[1..], fragment))
  }

  /** The fragment occurs in `s` starting at index k. */
  predicate OccursAt(s: string, fragment: string, k: int) {
    0 <= k <= |s| - |fragment| && s[k..k + |fragment|] == fragment
  }

  /** A contained fragment starts at some index. */
  lemma {:induction false} ContainedFragmentOccurs(s: string, fragment: string)
    requires Contains(s, fragment)
    ensures exists k :: OccursAt(s, fragment, k)
    decreases |s|
  {
    if fragment <= s {
      assert s[0..|fragment|] == fragment;
      assert OccursAt(s, fragment, 0);
    } else {
      ContainedFragmentOccurs(s[1..], fragment);
      var k :| OccursAt(s[1..], fragment, k);
      assert s[1..][k..k + |fragment|] == s[k + 1..k + 1 + |fragment|];
      assert OccursAt(s, fragment, k + 1);
    }
  }

  /** A fragment starting at some index is contained. */
  lemma {:induction false} OccurringFragmentIsContained(s: string, fragment: string, k: int)
    requires OccursAt(s, fragment, k)
    ensures Contains(s, fragment)
    decreases k
  {
    if k == 0 {
      assert s[..|fragment|] == fragment;
    } else {
      assert s[1..][k - 1..k - 1 + |fragment|] == s[k..k + |fragment|];
      OccurringFragmentIsContained(s[1..], fragment, k - 1);
    }
  }

  /** `Contains` agrees with the index-based reading: some index where the fragment starts. */
  lemma ContainsIffOccurs(s: string, fragment: string)
    ensures Contains(s, fragment) <==> exists k :: OccursAt(s, fragment, k)
  {
    if Contains(s, fragment) {
      ContainedFragmentOccurs(s, fragment);
    }
    if k :| OccursAt(s, fragment, k) {
      OccurringFragmentIsContained(s, fragment, k);
    }
  }

  lemma {:induction false} ContainsSelf(s: string)
    ensures Contains(s, s)
  {
  }

  /** Every character of a contained fragment occurs in the string. */
  lemma {:induction false} ContainedCharsOccur(s: string, fragment: string, c: char)
    requires Contains(s, fragment)
    requires c in fragment
    ensures c in s
    decreases |s|
  {
    if fragment <= s {
      var k :| 0 <= k < |fragment| && fragment[k] == c;
      assert s[k] == c;
    } else {
      ContainedCharsOccur(s[1..], fragment, c);
      assert c in s[1..];
      var k :| 0 <= k < |s[1..]| && s[1..][k] == c;
      assert s[k + 1] == c;
    }
  }

  /** A fragment with a character that `s` lacks is not contained in `s`. */
  lemma AbsentCharNotContained(s: string, fragment: string, c: char)
    requires c in fragment && c !in s
    ensures !Contains(s, fragment)
  {
    if Contains(s, fragment) {
      ContainedCharsOccur(s, fragment, c);
    }
  }

  lemma {:induction false} ContainsInLeft(a: string, b: string, fragment: string)
    requires Contains(a, fragment)
    ensures Contains(a + b, fragment)
    decreases |a|
  {
    if fragment <= a {
      assert (a + b)[..|fragment|] == a[..|fragment|];
    } else {
      ContainsInLeft(a[1..], b, fragment);
      assert (a + b)[1..] == a[1..] + b;
    }
  }

  lemma {:induction false} ContainsInRight(a: string, b: string, fragment: string)
    requires Contains(b, fragment)
    ensures Contains(a + b, fragment)
    decreases |a|
  {
    if a != [] {
      ContainsInRight(a[1..], b, fragment);
      assert (a + b)[1..] == a[1..] + b;
    } else {
      assert a + b == b;
    }
  }

  /** `String.join(separator, items)` for items in the given order. */
  function Join(separator: string, items: seq<string>): string
    decreases |items|
  {
    if |items| == 0 then ""
    else if |items| == 1 then items[0]
    else Join(separator, items[..|items| - 1]) + separator + items[|items| - 1]
  }

  /** Each joined item occurs in the joined string. */
  lemma {:induction false} JoinContainsItem(separator: string, items: seq<string>, k: nat)
    requires k < |items|
    ensures Contains(Join(separator, items), items[k])
    decreases |items|
  {
    var n := |items|;
    if n == 1 {
      ContainsSelf(items[0]);
    } else if k == n - 1 {
      ContainsSelf(items[k]);
      ContainsInRight(Join(separator, items[..n - 1]) + separator, items[k], items[k]);
    } else {
      JoinContainsItem(separator, items[..n - 1], k);
      ContainsInLeft(Join(separator, items[..n - 1]), separator + items[n - 1], items[k]);
      assert Join(separator, items[..n - 1]) + (separator + items[n - 1])
          == Join(separator, items[..n - 1]) + separator + items[n - 1];
    }
  }

  /** `order` lists every element of `items` exactly once. */
  ghost predicate IsEnumeration<T(!new)>(order: seq<T>, items: set<T>) {
    && |order| == |items|
    && (forall x :: x in order <==> x in items)
  }

  /** The empty set has only the empty enumeration. */
  lemma EnumerationOfEmpty<T(!new)>(order: seq<T>)
    requires IsEnumeration(order, {})
    ensures order == []
  {
  }

  /** A singleton set has only itself as enumeration. */
  lemma EnumerationOfSingleton<T(!new)>(order: seq<T>, x: T)
    requires IsEnumeration(order, {x})
    ensures order == [x]
  {
    assert order[0] in order;
  }

  /**
   * `String.join(separator, set)`: the set is walked in its (unspecified)
   * iteration order; `order` is the order that was used.
   */
  method JoinSet(separator: string, items: set<string>) returns (joined: string, ghost order: seq<string>)
    ensures IsEnumeration(order, items)
    ensures joined == Join(separator, order)
    ensures items == {} ==> joined == ""
    ensures forall x :: x in items ==> Contains(joined, x)
  {
    joined, order := "", [];
    var first := true;
    var remaining := items;
    while remaining != {}
      invariant remaining <= items
      invariant first <==> order == []
      invariant |order| == |items - remaining|
      invariant forall x :: x in order <==> x in items && x !in remaining
      invariant joined == Join(separator, order)
      decreases remaining
    {
      var x :| x in remaining;
      joined := if first then x else joined + separator + x;
      order := order + [x];
      assert items - (remaining - {x}) == (items - remaining) + {x};
      first := false;
      remaining := remaining - {x};
    }
    forall x | x in items
      ensures Contains(joined, x)
    {
      var k :| 0 <= k < |order| && order[k] == x;
      JoinContainsItem(separator, order, k);
    }
  }

  /** The value of a string of ASCII digits, most significant first. */
  function DecimalValue(s: string): nat
    requires AllDigits(s)
    decreases |s|
  {
    if |s| == 0 then 0
    else DecimalValue(s[..|s| - 1]) * 10 + (s[|s| - 1] as int - '0' as int)
  }

  /** `Integer.parseInt(Integer.toString(n)) == n` for a non-negative n. */
  lemma {:induction false} DecimalRoundTrip(n: nat)
    ensures DecimalValue(Decimal(n)) == n
    decreases n
  {
    if n >= 10 {
      DecimalRoundTrip(n / 10);
      var s := Decimal(n / 10) + [DigitChar(n % 10)];
      assert s[..|s| - 1] == Decimal(n / 10);
    }
  }

  function DigitChar(d: nat): (c: char)
    requires d < 10
    ensures IsDigit(c)
  {
    ('0' as int + d) as char
  }

  /** `Integer.toString(n)` for a non-negative n. */
  function Decimal(n: nat): (s: string)
    ensures |s| >= 1 && AllDigits(s)
    decreases n
  {
    if n < 10 then [DigitChar(n)] else Decimal(n / 10) + [DigitChar(n % 10)]
  }

  /** `String.valueOf(n)` for any int: a minus sign and the magnitude. */
  function IntToString(n: int): string {
    if n < 0 then "-" + Decimal(-n) else Decimal(n)
  }

  /**
   * `String.format("%02d", n)` with a boxed argument: "null" for null, zero
   * padding to two characters (only 0..9 are shorter than that).
   */
  function FormatTwoDigits(n: Option<int>): string {
    match n
    case None => "null"
    case Some(v) => if 0 <= v < 10 then ['0', DigitChar(v)] else IntToString(v)
  }

  /** Two-digit formatting of 0..99 yields two digits that read back as n. */
  lemma TwoDigitsRoundTrip(n: int)
    requires 0 <= n <= 99
    ensures var s := FormatTwoDigits(Some(n));
      |s| == 2 && AllDigits(s) && DecimalValue(s) == n
  {
    var s := FormatTwoDigits(Some(n));
    if n >= 10 {
      assert Decimal(n) == Decimal(n / 10) + [DigitChar(n % 10)];
      assert Decimal(n / 10) == [DigitChar(n / 10)];
      assert s[..1] == [DigitChar(n / 10)];
      assert DecimalValue(s[..1]) == n / 10;
    } else {
      assert s[..1] == ['0'] && s[..1][..0] == [];
      assert DecimalValue(s[..1]) == 0;
    }
  }
}
