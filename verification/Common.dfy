/**
 * Values every part of the model shares: results and options, the order of strings by code point, sorted
 * listings of finite sets of names, sequences without repetitions, and what counts as white space. The loops
 * of the other modules visit the names of a map in that order, through the listing defined here.
 */
module Common {

  datatype Option<+T> = None | Some(value: T)

  /** A computed value, or the error a JavaScript throw would carry. */
  datatype Result<+T, +E> = Success(value: T) | Failure(error: E) {
    predicate IsFailure() {
      Failure?
    }

    function PropagateFailure<U>(): Result<U, E>
      requires Failure?
    {
      Failure(error)
    }

    function Extract(): T
      requires Success?
    {
      value
    }
  }

  // ----- The order of strings -----

  newtype Byte = b: int | 0 <= b < 256

  type Bytes = seq<Byte>

  /** Strict lexicographic order, the order records are visited in. */
  predicate Before(a: string, b: string) {
    b != [] && (a == [] || a[0] < b[0] || (a[0] == b[0] && Before(a[1..], b[1..])))
  }

  /** At the first position where they differ the earlier text has the smaller character, or it ends there. */
  ghost predicate DiffersAt(a: string, b: string, i: nat) {
    i <= |a| && i < |b| && a[..i] == b[..i] && (i == |a| || a[i] < b[i])
  }

  lemma {:induction false} BeforeIff(a: string, b: string)
    ensures Before(a, b) <==> exists i: nat :: DiffersAt(a, b, i)
  {
    if a != [] && b != [] && a[0] == b[0] {
      BeforeIff(a[1..], b[1..]);
      if i: nat :| DiffersAt(a[1..], b[1..], i) {
        assert a[..i + 1] == [a[0]] + a[1..][..i] && b[..i + 1] == [b[0]] + b[1..][..i];
        assert DiffersAt(a, b, i + 1);
      }
      if i: nat :| DiffersAt(a, b, i) {
        assert a[1..][..i - 1] == a[..i][1..] && b[1..][..i - 1] == b[..i][1..];
        assert DiffersAt(a[1..], b[1..], i - 1);
      }
    } else {
      if Before(a, b) { assert DiffersAt(a, b, 0); }
      forall i: nat | DiffersAt(a, b, i) ensures i == 0 { SameStart(a, b, i); }
    }
  }

  lemma SameStart(a: string, b: string, i: nat)
    ensures 0 < i <= |a| && i <= |b| && a[..i] == b[..i] ==> a[0] == b[0]
  {
    if 0 < i <= |a| && i <= |b| && a[..i] == b[..i] { assert a[..i][0] == b[..i][0]; }
  }

  lemma {:induction false} BeforeTotal(a: string, b: string)
    ensures Before(a, b) || a == b || Before(b, a)
  {
    if a != [] && b != [] && a[0] == b[0] {
      BeforeTotal(a[1..], b[1..]);
      assert a == [a[0]] + a[1..] && b == [b[0]] + b[1..];
    }
  }

  lemma {:induction false} BeforeTransitive(a: string, b: string, c: string)
    requires Before(a, b) && Before(b, c)
    ensures Before(a, c)
  {
    if a != [] && a[0] == b[0] && b[0] == c[0] {
      BeforeTransitive(a[1..], b[1..], c[1..]);
    }
  }

  lemma {:induction false} BeforeIrreflexive(a: string)
    ensures !Before(a, a)
  {
    if a != [] {
      BeforeIrreflexive(a[1..]);
    }
  }

  ghost predicate Sorted(s: seq<string>) {
    forall i, j | 0 <= i < j < |s| :: Before(s[i], s[j])
  }

  method Least(names: set<string>) returns (least: string)
    requires names != {}
    ensures least in names && forall n | n in names && n != least :: Before(least, n)
  {
    least :| least in names;
    var left := names - {least};
    while left != {}
      invariant least in names && least !in left && left <= names
      invariant forall n | n in names && n !in left && n != least :: Before(least, n)
      decreases |left|
    {
      var n :| n in left;
      left := left - {n};
      BeforeTotal(least, n);
      if Before(n, least) {
        forall m | m in names && m !in left && m != n
          ensures Before(n, m)
        {
          if m != least { BeforeTransitive(n, least, m); }
        }
        least := n;
      }
    }
  }

  /** Sorted listings of the same names are equal. */
  lemma {:induction false} SortedUnique(a: seq<string>, b: seq<string>)
    requires Sorted(a) && Sorted(b) && forall n :: n in a <==> n in b
    ensures a == b
  {
    assert a != [] ==> a[0] in a;
    assert b != [] ==> b[0] in b;
    if a != [] {
      SortedHead(a, b);
      SortedHead(b, a);
      if a[0] != b[0] {
        BeforeTransitive(a[0], b[0], a[0]);
        BeforeIrreflexive(a[0]);
      }
      SortedTail(a, b);
      SortedTail(b, a);
      SortedUnique(a[1..], b[1..]);
      assert a == [a[0]] + a[1..] && b == [b[0]] + b[1..];
    }
  }

  lemma SortedHead(a: seq<string>, b: seq<string>)
    requires Sorted(a) && Sorted(b) && a != [] && b != [] && forall n :: n in a <==> n in b
    ensures a[0] == b[0] || Before(a[0], b[0])
  {
    assert b[0] in a;
  }

  lemma SortedTail(a: seq<string>, b: seq<string>)
    requires Sorted(a) && Sorted(b) && a != [] && b != [] && a[0] == b[0] && forall n :: n in a <==> n in b
    ensures forall n | n in a[1..] :: n in b[1..]
  {
    forall n | n in a[1..]
      ensures n in b[1..]
    {
      var i :| 1 <= i < |a| && a[i] == n;
      BeforeIrreflexive(n);
      assert Before(a[0], n);
      assert a[i] in a;
      var j :| 0 <= j < |b| && b[j] == n;
      assert b[1..][j - 1] == n;
    }
  }

  ghost predicate IsLeast(names: set<string>, least: string) {
    least in names && forall n | n in names :: n == least || Before(least, n)
  }

  lemma {:induction false} LeastExists(names: set<string>)
    requires names != {}
    ensures exists least :: IsLeast(names, least)
    decreases |names|
  {
    var first :| first in names;
    if names == {first} {
      assert IsLeast(names, first);
    } else {
      var rest := names - {first};
      LeastExists(rest);
      var m :| IsLeast(rest, m);
      BeforeTotal(first, m);
      if Before(m, first) {
        assert IsLeast(names, m);
      } else {
        forall n | n in names && n != first
          ensures Before(first, n)
        {
          if n != m { BeforeTransitive(first, m, n); }
        }
        assert IsLeast(names, first);
      }
    }
  }

  /** The names of a record in visit order. */
  ghost function Listing(names: set<string>): (sorted: seq<string>)
    ensures Sorted(sorted) && forall n :: n in sorted <==> n in names
    decreases |names|
  {
    if names == {} then []
    else
      LeastExists(names);
      var least :| IsLeast(names, least);
      var rest := Listing(names - {least});
      assert forall i | 0 <= i < |rest| :: rest[i] in rest;
      [least] + rest
  }

  lemma ListingIs(sorted: seq<string>, names: set<string>)
    requires Sorted(sorted) && forall n :: n in sorted <==> n in names
    ensures sorted == Listing(names)
  {
    SortedUnique(sorted, Listing(names));
  }

  method SortedNames(names: set<string>) returns (sorted: seq<string>)
    ensures Sorted(sorted)
    ensures forall n :: n in sorted <==> n in names
  {
    sorted := [];
    var left := names;
    while left != {}
      invariant Sorted(sorted) && left <= names
      invariant forall n :: n in sorted <==> n in names && n !in left
      invariant forall i, n | 0 <= i < |sorted| && n in left :: Before(sorted[i], n)
      decreases |left|
    {
      var least := Least(left);
      left := left - {least};
      sorted := sorted + [least];
    }
  }

  lemma TakeOneMore<T>(s: seq<T>, i: nat)
    requires i < |s|
    ensures s[..i + 1] == s[..i] + [s[i]] && s[i] in s
  {
  }

  // ----- Lists without repeats, and sorted ones -----

  ghost predicate Distinct<T>(s: seq<T>) {
    forall i, j | 0 <= i < j < |s| :: s[i] != s[j]
  }

  lemma {:induction false} CountedOnce<T>(s: seq<T>, x: T)
    requires Distinct(s)
    ensures multiset(s)[x] == if x in s then 1 else 0
  {
    if s != [] {
      var n := |s| - 1;
      assert s == s[..n] + [s[n]];
      CountedOnce(s[..n], x);
      assert s[n] !in s[..n];
    }
  }

  lemma DistinctPermutation<T>(s: seq<T>, t: seq<T>)
    requires Distinct(s) && multiset(s) == multiset(t)
    ensures Distinct(t)
  {
    forall i, j | 0 <= i < j < |t|
      ensures t[i] != t[j]
    {
      CountedOnce(s, t[i]);
      assert t == t[..j] + [t[j]] + t[j + 1..];
      assert t[..j] == t[..i] + [t[i]] + t[i + 1..j];
    }
  }

  lemma SubsetSize<T>(a: set<T>, b: set<T>)
    requires a <= b
    ensures |a| <= |b|
  {
    assert b == a + (b - a);
  }

  /** Not after: the order sorting leaves equal names in. */
  ghost predicate Ascending(s: seq<string>) {
    forall i, j | 0 <= i < j < |s| :: !Before(s[j], s[i])
  }

  lemma InsertAscending(r: seq<string>, k: nat, x: string)
    requires Ascending(r) && k <= |r|
    requires k > 0 ==> !Before(x, r[k - 1])
    requires forall j | k <= j < |r| :: Before(x, r[j])
    ensures Ascending(r[..k] + [x] + r[k..])
  {
    var t := r[..k] + [x] + r[k..];
    forall i, j | 0 <= i < j < |t|
      ensures !Before(t[j], t[i])
    {
      if j == k {
        if Before(x, r[i]) && i < k - 1 {
          BeforeTotal(r[i], r[k - 1]);
          if r[i] != r[k - 1] { BeforeTransitive(x, r[i], r[k - 1]); }
        }
      } else if i == k {
        NeverBoth(x, r[j - 1]);
      }
    }
  }

  lemma NeverBoth(a: string, b: string)
    requires Before(a, b)
    ensures !Before(b, a)
  {
    BeforeIrreflexive(a);
    if Before(b, a) {
      BeforeTransitive(a, b, a);
    }
  }

  /** A number written in decimal. */
  function Decimal(n: nat): string {
    (if n < 10 then "" else Decimal(n / 10)) + [(n % 10 + '0' as int) as char]
  }

  lemma {:induction false} DecimalDigits(n: nat)
    ensures Decimal(n) != "" && forall c | c in Decimal(n) :: '0' <= c <= '9'
    ensures Decimal(n)[0] == '0' <==> n == 0
  {
    if n >= 10 {
      DecimalDigits(n / 10);
      assert Decimal(n)[0] == Decimal(n / 10)[0];
    }
  }

  /** White space, as JavaScript trims it. */
  predicate IsSpace(c: char) {
    || '\t' <= c <= '\r' || c == ' ' || c == '\U{00A0}' || c == '\U{1680}' || '\U{2000}' <= c <= '\U{200A}'
    || c == '\U{2028}' || c == '\U{2029}' || c == '\U{202F}' || c == '\U{205F}' || c == '\U{3000}' || c == '\U{FEFF}'
  }
}
