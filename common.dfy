/** Value types and sequence operations shared by the rest of the model:
    optional and failing results, Python's order-preserving deduplication,
    the filters and sorts that stand for database querysets, and decimal
    rendering of integers (Python's str(int)). */
module Common {

  datatype Option<+T> = None | Some(value: T)

  datatype Result<+T, +E> = Ok(value: T) | Err(error: E)

  /** The Python exceptions the template tags and helpers let escape. */
  datatype Raised = IndexError | ValueError | AttributeError | OverflowError | MissingArgument

  predicate NoDuplicates<T(==)>(s: seq<T>) {
    forall i, j :: 0 <= i < j < |s| ==> s[i] != s[j]
  }

  /** Index of the first occurrence of x in s. */
  function FirstIndex<T(==)>(s: seq<T>, x: T): (k: nat)
    requires x in s
    ensures k < |s| && s[k] == x
    ensures forall j :: 0 <= j < k ==> s[j] != x
  {
    if s[0] == x then 0 else 1 + FirstIndex(s[1..], x)
  }

  /** Python's list(dict.fromkeys(s)): the distinct elements of s, each kept
      at its first occurrence. */
  function Dedup<T(==,!new)>(s: seq<T>): (r: seq<T>)
    ensures NoDuplicates(r)
    ensures forall x :: x in r <==> x in s
    ensures |r| <= |s|
  {
    if |s| == 0 then []
    else
      var p := Dedup(s[..|s| - 1]);
      if s[|s| - 1] in p then p else p + [s[|s| - 1]]
  }

  lemma FirstIndexPrefix<T>(s: seq<T>, n: nat, x: T)
    requires n <= |s| && x in s[..n]
    ensures FirstIndex(s, x) == FirstIndex(s[..n], x)
  {
    var k := FirstIndex(s[..n], x);
    var k' := FirstIndex(s, x);
    assert s[..n][k] == s[k];
    assert k' <= k;
    assert s[..n][k'] == x;
  }

  /** The kept elements appear in the order of their first occurrences. */
  lemma {:induction false} DedupOrder<T(!new)>(s: seq<T>)
    ensures forall i, j :: 0 <= i < j < |Dedup(s)| ==> FirstIndex(s, Dedup(s)[i]) < FirstIndex(s, Dedup(s)[j])
    decreases |s|
  {
    if |s| > 0 {
      var n := |s| - 1;
      var pre := s[..n];
      var p := Dedup(pre);
      DedupOrder(pre);
      forall x | x in p ensures FirstIndex(s, x) == FirstIndex(pre, x) && FirstIndex(s, x) < n {
        FirstIndexPrefix(s, n, x);
      }
      if s[n] !in p {
        FirstIndexNew(s);
      }
    }
  }

  /** An element that does not occur before the last position first occurs there. */
  lemma FirstIndexNew<T>(s: seq<T>)
    requires |s| > 0 && s[|s| - 1] !in s[..|s| - 1]
    ensures FirstIndex(s, s[|s| - 1]) == |s| - 1
  {
    var n := |s| - 1;
    assert forall j :: 0 <= j < n ==> s[..n][j] == s[j];
  }

  /** The elements of s satisfying p, in order (a queryset .filter()). */
  function Filter<T(!new)>(s: seq<T>, p: T -> bool): (r: seq<T>)
    ensures |r| <= |s|
    ensures forall x :: x in r <==> x in s && p(x)
    ensures forall k :: 0 <= k < |r| ==> p(r[k])
  {
    if |s| == 0 then []
    else Filter(s[..|s| - 1], p) + (if p(s[|s| - 1]) then [s[|s| - 1]] else [])
  }

  predicate SortedBy<T>(s: seq<T>, key: T -> int) {
    forall i, j :: 0 <= i < j < |s| ==> key(s[i]) <= key(s[j])
  }

  /** A filter keeps the order of a sorted sequence. */
  lemma {:induction false} FilterSorted<T(!new)>(s: seq<T>, p: T -> bool, key: T -> int)
    requires SortedBy(s, key)
    ensures SortedBy(Filter(s, p), key)
    decreases |s|
  {
    if |s| > 0 {
      var n := |s| - 1;
      assert SortedBy(s[..n], key);
      FilterSorted(s[..n], p, key);
      var f := Filter(s[..n], p);
      forall k | 0 <= k < |f| ensures key(f[k]) <= key(s[n]) {
        assert f[k] in s[..n];
      }
    }
  }

  predicate StrictlySortedBy<T>(s: seq<T>, key: T -> int) {
    forall i, j :: 0 <= i < j < |s| ==> key(s[i]) < key(s[j])
  }

  lemma StrictlySortedSnoc<T>(p: seq<T>, x: T, key: T -> int)
    requires StrictlySortedBy(p, key)
    requires forall k :: 0 <= k < |p| ==> key(p[k]) < key(x)
    ensures StrictlySortedBy(p + [x], key)
  {
    var r := p + [x];
    forall i, j | 0 <= i < j < |r| ensures key(r[i]) < key(r[j]) {
      assert r[i] == p[i];
      if j < |p| {
        assert r[j] == p[j];
      } else {
        assert r[j] == x;
      }
    }
  }

  /** Deduplicating a sorted sequence on whose elements the key is
      one-to-one gives a strictly increasing sequence. */
  lemma {:induction false} DedupStrictlySorted<T(!new)>(s: seq<T>, key: T -> int)
    requires SortedBy(s, key)
    requires forall a, b :: a in s && b in s && key(a) == key(b) ==> a == b
    ensures StrictlySortedBy(Dedup(s), key)
    decreases |s|
  {
    if |s| > 0 {
      var n := |s| - 1;
      var pre := s[..n];
      var p := Dedup(pre);
      assert SortedBy(pre, key);
      assert forall a :: a in pre ==> a in s;
      DedupStrictlySorted(pre, key);
      if s[n] !in p {
        forall k | 0 <= k < |p| ensures key(p[k]) < key(s[n]) {
          assert p[k] in pre;
          var q :| 0 <= q < n && pre[q] == p[k];
          assert key(s[q]) <= key(s[n]);
          assert p[k] != s[n];
        }
        StrictlySortedSnoc(p, s[n], key);
      }
    }
  }

  /** Putting the head of a sorted sequence before a sorted sequence of
      larger elements keeps it sorted. */
  lemma InsertStep<T>(x: T, s: seq<T>, t: seq<T>, key: T -> int)
    requires |s| > 0 && SortedBy(s, key) && key(s[0]) < key(x)
    requires SortedBy(t, key) && multiset(t) == multiset(s[1..]) + multiset{x}
    ensures SortedBy([s[0]] + t, key)
    ensures multiset([s[0]] + t) == multiset(s) + multiset{x}
  {
    assert s == [s[0]] + s[1..];
    forall y | y in t ensures key(s[0]) <= key(y) {
      assert y in multiset(t);
      if y != x {
        assert y in multiset(s[1..]);
      }
    }
    var r := [s[0]] + t;
    forall i, j | 0 <= i < j < |r| ensures key(r[i]) <= key(r[j]) {
      assert r[j] == t[j - 1];
      if i > 0 {
        assert r[i] == t[i - 1];
      }
    }
  }

  function Insert<T>(x: T, s: seq<T>, key: T -> int): (r: seq<T>)
    requires SortedBy(s, key)
    ensures SortedBy(r, key)
    ensures multiset(r) == multiset(s) + multiset{x}
    ensures |r| == |s| + 1
  {
    if |s| == 0 then [x]
    else if key(x) <= key(s[0]) then [x] + s
    else
      var t := Insert(x, s[1..], key);
      InsertStep(x, s, t, key);
      [s[0]] + t
  }

  /** A queryset .order_by() on an integer key: a sorted permutation. */
  function SortBy<T>(s: seq<T>, key: T -> int): (r: seq<T>)
    ensures SortedBy(r, key)
    ensures multiset(r) == multiset(s)
    ensures |r| == |s|
  {
    if |s| == 0 then []
    else
      assert s == [s[0]] + s[1..];
      Insert(s[0], SortBy(s[1..], key), key)
  }

  lemma SortByMembers<T>(s: seq<T>, key: T -> int)
    ensures forall x :: x in SortBy(s, key) <==> x in s
  {
    var r := SortBy(s, key);
    forall x ensures x in r <==> x in s {
      assert x in r <==> x in multiset(r);
      assert x in s <==> x in multiset(s);
    }
  }

  function Min(a: int, b: int): int { if a <= b then a else b }

  // --- Decimal rendering (Python's str(n) for n >= 0) ---

  function Digit(d: nat): char
    requires d < 10
  {
    "0123456789"[d]
  }

  predicate IsDigit(c: char) { '0' <= c <= '9' }

  function DecimalString(n: nat): (s: string)
    ensures |s| >= 1
    ensures forall k :: 0 <= k < |s| ==> IsDigit(s[k])
    ensures n >= 10 ==> |s| >= 2
  {
    if n < 10 then [Digit(n)] else DecimalString(n / 10) + [Digit(n % 10)]
  }

  function DigitValue(c: char): nat
    requires IsDigit(c)
  {
    (c as int - '0' as int) as nat
  }

  /** Python's int(s) on a string of decimal digits. */
  function ParseDecimal(s: string): nat
    requires forall k :: 0 <= k < |s| ==> IsDigit(s[k])
  {
    if |s| == 0 then 0 else 10 * ParseDecimal(s[..|s| - 1]) + DigitValue(s[|s| - 1])
  }

  lemma {:induction false} ParseDecimalString(n: nat)
    ensures ParseDecimal(DecimalString(n)) == n
  {
    var s := DecimalString(n);
    if n >= 10 {
      ParseDecimalString(n / 10);
      assert s[..|s| - 1] == DecimalString(n / 10);
    }
  }

  /** Like Python's str on a non-negative int, the rendering has no leading
      zero: only 0 itself starts with '0'. */
  lemma {:induction false} DecimalStringNoLeadingZero(n: nat)
    ensures DecimalString(n)[0] == '0' <==> n == 0
  {
    if n >= 10 {
      DecimalStringNoLeadingZero(n / 10);
      assert DecimalString(n)[0] == DecimalString(n / 10)[0];
    }
  }

  /** Two numbers with the same decimal rendering are equal. */
  lemma DecimalStringInjective(a: nat, b: nat)
    requires DecimalString(a) == DecimalString(b)
    ensures a == b
  {
    ParseDecimalString(a);
    ParseDecimalString(b);
  }

  lemma ParseLeadingZero(s: string)
    requires forall k :: 0 <= k < |s| ==> IsDigit(s[k])
    ensures ParseDecimal("0" + s) == ParseDecimal(s)
    decreases |s|
  {
    if |s| > 0 {
      var t := "0" + s;
      assert t[..|t| - 1] == "0" + s[..|s| - 1];
      ParseLeadingZero(s[..|s| - 1]);
    } else {
      assert ("0" + s) == "0";
    }
  }

  /** If a + [c] + x == b + [c] + y and c occurs in neither a nor b, then
      a == b and x == y: the first c separates the two parts. */
  lemma SplitAtSeparator<T>(a: seq<T>, b: seq<T>, c: T, x: seq<T>, y: seq<T>)
    requires a + [c] + x == b + [c] + y
    requires c !in a && c !in b
    ensures a == b && x == y
  {
    var s := a + [c] + x;
    assert forall k :: 0 <= k < |a| ==> s[k] == a[k];
    assert forall k :: 0 <= k < |b| ==> s[k] == b[k];
    assert s[|a|] == c && s[|b|] == c;
    assert |a| == |b|;
    assert a == s[..|a|] == b;
    assert x == s[|a| + 1..] == y;
  }

  /** Filters that agree on the elements of s give the same result. */
  lemma {:induction false} FilterCongruent<T(!new)>(s: seq<T>, p: T -> bool, q: T -> bool)
    requires forall x :: x in s ==> p(x) == q(x)
    ensures Filter(s, p) == Filter(s, q)
    decreases |s|
  {
    if |s| > 0 {
      FilterCongruent(s[..|s| - 1], p, q);
    }
  }

  lemma {:induction false} FilterNoDuplicates<T(!new)>(s: seq<T>, p: T -> bool)
    requires NoDuplicates(s)
    ensures NoDuplicates(Filter(s, p))
    decreases |s|
  {
    if |s| > 0 {
      var n := |s| - 1;
      assert NoDuplicates(s[..n]);
      FilterNoDuplicates(s[..n], p);
      var f := Filter(s[..n], p);
      if p(s[n]) {
        assert s[n] !in s[..n];
        var r := f + [s[n]];
        forall i, j | 0 <= i < j < |r| ensures r[i] != r[j] {
          assert r[i] == f[i];
          if j < |f| { assert r[j] == f[j]; }
        }
      }
    }
  }

  /** [f(x) for x in s]. */
  function MapSeq<A, B>(s: seq<A>, f: A --> B): (r: seq<B>)
    requires forall i :: 0 <= i < |s| ==> f.requires(s[i])
    ensures |r| == |s|
    ensures forall i :: 0 <= i < |s| ==> r[i] == f(s[i])
  {
    if |s| == 0 then [] else MapSeq(s[..|s| - 1], f) + [f(s[|s| - 1])]
  }

  /** Mapping one element more extends the mapped prefix by its image. */
  lemma MapSeqStep<A, B>(s: seq<A>, f: A --> B, i: int)
    requires 0 <= i < |s| && forall j :: 0 <= j < |s| ==> f.requires(s[j])
    ensures MapSeq(s[..i + 1], f) == MapSeq(s[..i], f) + [f(s[i])]
  {
    assert s[..i + 1][..i] == s[..i];
  }

  /** Python's list.remove(x): drop the first occurrence of x. */
  function RemoveFirst<T(==)>(s: seq<T>, x: T): (r: seq<T>)
    ensures x in s ==> |r| == |s| - 1
    ensures x !in s ==> r == s
  {
    if |s| == 0 then []
    else if s[0] == x then s[1..]
    else [s[0]] + RemoveFirst(s[1..], x)
  }

  lemma {:induction false} RemoveFirstAppend<T>(a: seq<T>, b: seq<T>, x: T)
    ensures x in a ==> RemoveFirst(a + b, x) == RemoveFirst(a, x) + b
    ensures x !in a ==> RemoveFirst(a + b, x) == a + RemoveFirst(b, x)
    decreases |a|
  {
    if |a| > 0 {
      assert (a + b)[1..] == a[1..] + b;
      RemoveFirstAppend(a[1..], b, x);
    } else {
      assert a + b == b;
    }
  }

  /** On a list without duplicates, removing x from a filtered list is
      filtering x out as well. */
  lemma {:induction false} RemoveFirstFilter<T(!new)>(s: seq<T>, p: T -> bool, q: T -> bool, x: T)
    requires NoDuplicates(s)
    requires forall y :: y in s ==> q(y) == (p(y) && y != x)
    ensures RemoveFirst(Filter(s, p), x) == Filter(s, q)
    decreases |s|
  {
    if |s| > 0 {
      var n := |s| - 1;
      var y := s[n];
      assert NoDuplicates(s[..n]);
      assert forall z :: z in s[..n] ==> z in s;
      RemoveFirstFilter(s[..n], p, q, x);
      var f := Filter(s[..n], p);
      var tail := if p(y) then [y] else [];
      RemoveFirstAppend(f, tail, x);
      assert Filter(s, p) == f + tail;
      assert Filter(s, q) == Filter(s[..n], q) + (if q(y) then [y] else []);
      if x in f {
        assert y != x by { assert y !in s[..n]; }
        assert RemoveFirst(f + tail, x) == RemoveFirst(f, x) + tail;
      } else {
        assert RemoveFirst(f + tail, x) == f + RemoveFirst(tail, x);
        assert RemoveFirst(tail, x) == if q(y) then [y] else [];
      }
    }
  }

  /** A filter every element passes keeps the whole sequence. */
  lemma {:induction false} FilterAll<T(!new)>(s: seq<T>, p: T -> bool)
    requires forall x :: x in s ==> p(x)
    ensures Filter(s, p) == s
    decreases |s|
  {
    if |s| > 0 {
      var n := |s| - 1;
      forall z | z in s[..n]
        ensures p(z)
      {
        assert z in s;
      }
      FilterAll(s[..n], p);
      assert p(s[n]);
      assert s[..n] + [s[n]] == s;
    }
  }

  // --- Zero-padded decimals (strftime's %Y, %m, %d, %H, %M, %S) ---

  function Zeros(k: nat): (s: string)
    ensures |s| == k && forall j :: 0 <= j < k ==> s[j] == '0'
  {
    if k == 0 then [] else Zeros(k - 1) + "0"
  }

  /** str(n) with zeros in front up to the given width. */
  function PadTo(n: nat, width: nat): (s: string)
    ensures |s| >= width
    ensures forall j :: 0 <= j < |s| ==> IsDigit(s[j])
  {
    var d := DecimalString(n);
    if |d| >= width then d else Zeros(width - |d|) + d
  }

  function Pow10(k: nat): nat {
    if k == 0 then 1 else 10 * Pow10(k - 1)
  }

  /** A number below 10^k has at most k digits. */
  lemma {:induction false} DecimalStringLength(n: nat, k: nat)
    requires k >= 1 && n < Pow10(k)
    ensures |DecimalString(n)| <= k
  {
    if n >= 10 {
      DecimalStringLength(n / 10, k - 1);
    }
  }

  lemma {:induction false} ParseZeros(k: nat, s: string)
    requires forall j :: 0 <= j < |s| ==> IsDigit(s[j])
    ensures ParseDecimal(Zeros(k) + s) == ParseDecimal(s)
  {
    if k > 0 {
      var t := "0" + s;
      assert forall j :: 0 <= j < |t| ==> IsDigit(t[j]);
      assert Zeros(k) + s == Zeros(k - 1) + t;
      ParseLeadingZero(s);
      ParseZeros(k - 1, t);
    } else {
      assert Zeros(k) + s == s;
    }
  }

  /** A padded number reads back as itself and, below 10^width, has exactly
      the width. */
  lemma PadToParse(n: nat, width: nat)
    ensures ParseDecimal(PadTo(n, width)) == n
    ensures width >= 1 && n < Pow10(width) ==> |PadTo(n, width)| == width
  {
    var d := DecimalString(n);
    ParseDecimalString(n);
    if |d| < width {
      ParseZeros(width - |d|, d);
    }
    if width >= 1 && n < Pow10(width) {
      DecimalStringLength(n, width);
    }
  }

  /** Two- and four-digit fields read back. */
  lemma PadWidth(n: nat, width: nat)
    requires width == 2 || width == 4
    requires n < if width == 2 then 100 else 10000
    ensures |PadTo(n, width)| == width && ParseDecimal(PadTo(n, width)) == n
  {
    assert Pow10(2) == 100;
    assert Pow10(4) == 10 * 10 * Pow10(2);
    PadToParse(n, width);
  }

  // --- Case (str.lower() on ASCII letters) ---

  function LowerChar(c: char): (r: char)
    ensures !('A' <= r <= 'Z')
    ensures !('A' <= c <= 'Z') ==> r == c
  {
    if 'A' <= c <= 'Z' then (c as int + 32) as char else c
  }

  function LowerAscii(s: string): (r: string)
    ensures |r| == |s|
    ensures forall i :: 0 <= i < |s| ==> r[i] == LowerChar(s[i])
  {
    if |s| == 0 then [] else LowerAscii(s[..|s| - 1]) + [LowerChar(s[|s| - 1])]
  }

  /** Lowering twice is lowering once. */
  lemma LowerAsciiIdempotent(s: string)
    ensures LowerAscii(LowerAscii(s)) == LowerAscii(s)
  {
    assert forall i :: 0 <= i < |s| ==> LowerAscii(LowerAscii(s))[i] == LowerAscii(s)[i];
  }
}
