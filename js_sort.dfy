/**
  The ordering `Array.prototype.sort()` uses when it is given no comparator:
  every element is converted to its string form and the strings are compared
  code unit by code unit. For item indices this is the order of their decimal
  numerals, in which 10 comes before 2.
 */
module JsSort {

  function Digit(d: nat): (c: char)
    requires d < 10
    ensures '0' <= c <= '9'
    ensures DigitValue(c) == d
  {
    "0123456789"[d]
  }

  /** The number a decimal digit stands for. */
  function DigitValue(c: char): int {
    c as int - '0' as int
  }

  predicate AllDigits(s: string) {
    forall j :: 0 <= j < |s| ==> '0' <= s[j] <= '9'
  }

  /** The number a string of decimal digits denotes, read from left to
      right: each digit multiplies what came before by ten. */
  function NumeralValue(s: string): int
    decreases |s|
  {
    if s == [] then 0 else 10 * NumeralValue(s[..|s| - 1]) + DigitValue(s[|s| - 1])
  }

  /** The decimal numeral of `k`, without leading zeros. */
  function DecimalString(k: nat): (r: string)
    ensures 1 <= |r|
    ensures k < 10 <==> |r| == 1
    ensures AllDigits(r)
    ensures 1 <= k ==> r[0] != '0'
    decreases k
  {
    if k < 10 then [Digit(k)] else DecimalString(k / 10) + [Digit(k % 10)]
  }

  /** Reading the numeral of `k` back gives `k`. */
  lemma {:induction false} DecimalStringValue(k: nat)
    ensures NumeralValue(DecimalString(k)) == k
    decreases k
  {
    var r := DecimalString(k);
    if k < 10 {
      assert r[..0] == [];
    } else {
      DecimalStringValue(k / 10);
      assert r[..|r| - 1] == DecimalString(k / 10);
      assert DigitValue(r[|r| - 1]) == k % 10;
    }
  }

  /** `a` comes no later than `b` in code-unit order: a prefix comes first. */
  predicate LexLe(a: string, b: string)
    ensures a <= b ==> LexLe(a, b)
    ensures |a| > 0 && |b| > 0 && a[0] != b[0] ==> (LexLe(a, b) <==> a[0] < b[0])
    decreases |a|
  {
    |a| == 0 || (|b| > 0 && (a[0] < b[0] || (a[0] == b[0] && LexLe(a[1..], b[1..]))))
  }

  /** `x` comes no later than `y` when both are compared as strings. */
  predicate StrLe(x: nat, y: nat)
    ensures x < 10 && y < 10 ==> (StrLe(x, y) <==> x <= y)
  {
    LexLe(DecimalString(x), DecimalString(y))
  }

  predicate StringSorted(s: seq<nat>) {
    forall i, j :: 0 <= i < j < |s| ==> StrLe(s[i], s[j])
  }

  lemma {:induction false} LexLeTotal(a: string, b: string)
    ensures LexLe(a, b) || LexLe(b, a)
    decreases |a|
  {
    if |a| > 0 && |b| > 0 && a[0] == b[0] {
      LexLeTotal(a[1..], b[1..]);
    }
  }

  lemma {:induction false} LexLeTransitive(a: string, b: string, c: string)
    requires LexLe(a, b) && LexLe(b, c)
    ensures LexLe(a, c)
    decreases |a|
  {
    if |a| > 0 && a[0] == b[0] && b[0] == c[0] {
      LexLeTransitive(a[1..], b[1..], c[1..]);
    }
  }

  lemma {:induction false} LexLeAntisymmetric(a: string, b: string)
    requires LexLe(a, b) && LexLe(b, a)
    ensures a == b
    decreases |a|
  {
    if |a| > 0 {
      LexLeAntisymmetric(a[1..], b[1..]);
      assert a == [a[0]] + a[1..] && b == [b[0]] + b[1..];
    }
  }

  /** Distinct numbers have distinct numerals. */
  lemma {:induction false} DecimalStringInjective(x: nat, y: nat)
    requires DecimalString(x) == DecimalString(y)
    ensures x == y
    decreases x
  {
    var sx, sy := DecimalString(x), DecimalString(y);
    if x < 10 && y < 10 {
      assert "0123456789"[x] == sx[0] == sy[0] == "0123456789"[y];
    } else if 10 <= x && 10 <= y {
      var px, py := DecimalString(x / 10), DecimalString(y / 10);
      assert sx == px + [Digit(x % 10)] && sy == py + [Digit(y % 10)];
      assert px == sx[..|sx| - 1] == sy[..|sy| - 1] == py;
      assert "0123456789"[x % 10] == sx[|sx| - 1] == sy[|sy| - 1] == "0123456789"[y % 10];
      DecimalStringInjective(x / 10, y / 10);
    }
  }

  /** The string order on numbers is a total order. */
  lemma StrLeTotalOrder(x: nat, y: nat, z: nat)
    ensures StrLe(x, y) || StrLe(y, x)
    ensures StrLe(x, y) && StrLe(y, z) ==> StrLe(x, z)
    ensures StrLe(x, y) && StrLe(y, x) ==> x == y
  {
    LexLeTotal(DecimalString(x), DecimalString(y));
    if StrLe(x, y) && StrLe(y, z) {
      LexLeTransitive(DecimalString(x), DecimalString(y), DecimalString(z));
    }
    if StrLe(x, y) && StrLe(y, x) {
      LexLeAntisymmetric(DecimalString(x), DecimalString(y));
      DecimalStringInjective(x, y);
    }
  }

  /** The default order is not the numeric one: 10 sorts before 2. */
  lemma TenBeforeTwo()
    ensures StrLe(10, 2) && !StrLe(2, 10)
  {
  }

  /** `x` put into `s` before the first element it does not come after. */
  function Insert(s: seq<nat>, x: nat): (r: seq<nat>)
    ensures multiset(r) == multiset(s) + multiset{x}
    ensures forall y :: y in r <==> y in s || y == x
  {
    if s == [] then
      [x]
    else if StrLe(x, s[0]) then
      [x] + s
    else
      assert s == [s[0]] + s[1..];
      [s[0]] + Insert(s[1..], x)
  }

  /** A sorted sequence stays sorted with an element in front that comes no
      later than any of its elements. */
  lemma SortedCons(x: nat, t: seq<nat>)
    requires StringSorted(t)
    requires forall y :: y in t ==> StrLe(x, y)
    ensures StringSorted([x] + t)
  {
  }

  lemma {:induction false} InsertSorted(s: seq<nat>, x: nat)
    requires StringSorted(s)
    ensures StringSorted(Insert(s, x))
  {
    if s == [] {
    } else {
      assert s == [s[0]] + s[1..];
      var rest := s[1..];
      SortedTail(s);
      assert forall y :: y in rest ==> StrLe(s[0], y) by {
        forall y | y in rest ensures StrLe(s[0], y) {
          var k :| 0 <= k < |rest| && rest[k] == y;
          assert s[k + 1] == y;
        }
      }
      if StrLe(x, s[0]) {
        forall y | y in s ensures StrLe(x, y) {
          StrLeTotalOrder(x, s[0], y);
          if y != s[0] {
            assert y in rest;
          }
        }
        SortedCons(x, s);
      } else {
        StrLeTotalOrder(x, s[0], s[0]);
        InsertSorted(rest, x);
        SortedCons(s[0], Insert(rest, x));
      }
    }
  }

  /** What `sort()` without a comparator returns: the same elements,
      in string order. */
  function DefaultSort(s: seq<nat>): (r: seq<nat>)
    ensures StringSorted(r)
    ensures multiset(r) == multiset(s)
  {
    if s == [] then
      []
    else
      assert s == [s[0]] + s[1..];
      var sortedTail := DefaultSort(s[1..]);
      InsertSorted(sortedTail, s[0]);
      Insert(sortedTail, s[0])
  }

  lemma SortedTail(s: seq<nat>)
    requires StringSorted(s) && s != []
    ensures StringSorted(s[1..])
  {
  }

  /** Two sorted orderings of the same elements start with the same one. */
  lemma SortedSameHead(a: seq<nat>, b: seq<nat>)
    requires StringSorted(a) && StringSorted(b)
    requires multiset(a) == multiset(b) && a != []
    ensures b != [] && a[0] == b[0]
  {
    assert a[0] in multiset(b) && b[0] in multiset(a);
    var i :| 0 <= i < |b| && b[i] == a[0];
    var j :| 0 <= j < |a| && a[j] == b[0];
    StrLeTotalOrder(a[0], a[0], a[0]);
    assert StrLe(b[0], a[0]) by {
      if i > 0 { assert StrLe(b[0], b[i]); }
    }
    assert StrLe(a[0], b[0]) by {
      if j > 0 { assert StrLe(a[0], a[j]); }
    }
    StrLeTotalOrder(a[0], b[0], b[0]);
  }

  /** Sorting in string order leaves no choice: two sorted orderings of the
      same elements are equal, so every correct sort returns what
      `DefaultSort` returns. */
  lemma {:induction false} StringSortedUnique(a: seq<nat>, b: seq<nat>)
    requires StringSorted(a) && StringSorted(b)
    requires multiset(a) == multiset(b)
    ensures a == b
    decreases |a|
  {
    if a == [] {
      assert |b| == |multiset(b)| == 0;
    } else {
      SortedSameHead(a, b);
      assert a == [a[0]] + a[1..] && b == [b[0]] + b[1..];
      assert multiset(a[1..]) == multiset(b[1..]) by {
        assert multiset(a) == multiset{a[0]} + multiset(a[1..]);
        assert multiset(b) == multiset{b[0]} + multiset(b[1..]);
        assert multiset(a[1..]) == multiset(a) - multiset{a[0]};
        assert multiset(b[1..]) == multiset(b) - multiset{b[0]};
      }
      SortedTail(a);
      SortedTail(b);
      StringSortedUnique(a[1..], b[1..]);
    }
  }

  /** The indices 1, 2 and 10 come back as 1, 10, 2. */
  lemma SortOfOneTwoTen()
    ensures DefaultSort([1, 2, 10]) == [1, 10, 2]
  {
    TenBeforeTwo();
    assert DecimalString(1) == "1";
    assert StrLe(1, 10) && StrLe(1, 2);
    var sorted := [1, 10, 2];
    assert StringSorted(sorted);
    assert multiset(sorted) == multiset([1, 2, 10]);
    StringSortedUnique(DefaultSort([1, 2, 10]), sorted);
  }
}
