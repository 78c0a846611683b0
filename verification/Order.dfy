/** Orders and sorted enumerations: what the source gets from Python's `sorted`. */
module Order {

  ghost predicate StrictTotal<T(!new)>(less: (T, T) -> bool) {
    && (forall x :: !less(x, x))
    && (forall x, y, z :: less(x, y) && less(y, z) ==> less(x, z))
    && (forall x, y :: x == y || less(x, y) || less(y, x))
  }

  ghost predicate Sorted<T>(s: seq<T>, less: (T, T) -> bool) {
    forall i, j | 0 <= i < j < |s| :: less(s[i], s[j])
  }

  function Elements<T>(s: seq<T>): set<T> {
    set x | x in s
  }

  lemma NoElements<T>(s: seq<T>)
    ensures Elements(s) == {} ==> s == []
  {
    if s != [] { assert s[0] in Elements(s); }
  }

  /** Inserts `x` in a sorted sequence; a value already there is not repeated. */
  function Insert<T(==)>(x: T, s: seq<T>, less: (T, T) -> bool): seq<T> {
    if s == [] then [x]
    else if x == s[0] then s
    else if less(x, s[0]) then [x] + s
    else [s[0]] + Insert(x, s[1..], less)
  }

  lemma {:induction false} InsertElements<T(!new)>(x: T, s: seq<T>, less: (T, T) -> bool)
    ensures Elements(Insert(x, s, less)) == Elements(s) + {x}
  {
    if s != [] {
      assert s == [s[0]] + s[1..];
      if x != s[0] && !less(x, s[0]) {
        InsertElements(x, s[1..], less);
        var r := Insert(x, s[1..], less);
        assert forall y :: y in r <==> y in Elements(r);
        assert forall y :: y in s[1..] <==> y in Elements(s[1..]);
      }
    }
  }

  lemma SortedCons<T(!new)>(x: T, s: seq<T>, less: (T, T) -> bool)
    requires Sorted(s, less) && forall y | y in s :: less(x, y)
    ensures Sorted([x] + s, less)
  {
    var r := [x] + s;
    forall i, j | 0 <= i < j < |r| ensures less(r[i], r[j]) {
      assert r[j] == s[j - 1];
    }
  }

  lemma {:induction false} InsertSorted<T(!new)>(x: T, s: seq<T>, less: (T, T) -> bool)
    requires StrictTotal(less) && Sorted(s, less)
    ensures Sorted(Insert(x, s, less), less)
    ensures Elements(Insert(x, s, less)) == Elements(s) + {x}
  {
    InsertElements(x, s, less);
    if s != [] && x != s[0] {
      if less(x, s[0]) {
        forall y | y in s ensures less(x, y) {
          var k :| 0 <= k < |s| && s[k] == y;
          assert k == 0 || less(s[0], s[k]);
        }
        SortedCons(x, s, less);
      } else {
        var rest := s[1..];
        var r := Insert(x, rest, less);
        InsertSorted(x, rest, less);
        forall y | y in r ensures less(s[0], y) {
          assert y in Elements(r);
          assert y == x || y in rest;
        }
        SortedCons(s[0], r, less);
      }
    }
  }

  /** The strictly increasing sequence of the members of a finite set. */
  ghost function Enumerate<T(!new)>(s: set<T>, less: (T, T) -> bool): (r: seq<T>)
    requires StrictTotal(less)
    ensures Sorted(r, less) && Elements(r) == s
  {
    if s == {} then []
    else
      var x :| x in s;
      var rest := Enumerate(s - {x}, less);
      InsertSorted(x, rest, less);
      Insert(x, rest, less)
  }

  /** Two sorted sequences over the same elements are equal. */
  lemma {:induction false} SortedUnique<T(!new)>(a: seq<T>, b: seq<T>, less: (T, T) -> bool)
    requires StrictTotal(less) && Sorted(a, less) && Sorted(b, less)
    requires Elements(a) == Elements(b)
    ensures a == b
  {
    if a == [] {
      NoElements(b);
    } else {
      assert a[0] in Elements(b);
      assert b != [];
      assert b[0] in Elements(a);
      assert a[0] == b[0];
      forall y
        ensures y in Elements(a[1..]) <==> y in Elements(b[1..])
      {
        assert a == [a[0]] + a[1..] && b == [b[0]] + b[1..];
        assert y in Elements(a) <==> y in Elements(b);
        assert y in a[1..] ==> less(a[0], y);
        assert y in b[1..] ==> less(b[0], y);
      }
      SortedUnique(a[1..], b[1..], less);
      assert a == [a[0]] + a[1..] && b == [b[0]] + b[1..];
    }
  }

  lemma SortedIsEnumerate<T(!new)>(a: seq<T>, less: (T, T) -> bool)
    requires StrictTotal(less) && Sorted(a, less)
    ensures a == Enumerate(Elements(a), less)
  {
    SortedUnique(a, Enumerate(Elements(a), less), less);
  }

  /** Code-point order of strings, the order of Python's `str`. */
  predicate Lex(a: string, b: string) {
    b != [] && (a == [] || a[0] < b[0] || (a[0] == b[0] && Lex(a[1..], b[1..])))
  }

  lemma {:induction false} LexTransitive(a: string, b: string, c: string)
    requires Lex(a, b) && Lex(b, c)
    ensures Lex(a, c)
  {
    if a != [] && a[0] == b[0] && b[0] == c[0] {
      LexTransitive(a[1..], b[1..], c[1..]);
    }
  }

  lemma {:induction false} LexTotal(a: string, b: string)
    ensures !Lex(a, a)
    ensures a == b || Lex(a, b) || Lex(b, a)
  {
    if a != [] {
      LexTotal(a[1..], if b == [] then b else b[1..]);
      assert b != [] && a[0] == b[0] && a[1..] == b[1..] ==> a == [a[0]] + a[1..] == [b[0]] + b[1..] == b;
    }
  }

  const StringLess: (string, string) -> bool := (a, b) => Lex(a, b)

  lemma StringLessTotal()
    ensures StrictTotal(StringLess)
  {
    forall a, b { LexTotal(a, b); }
    forall a, b, c | StringLess(a, b) && StringLess(b, c) { LexTransitive(a, b, c); }
  }

  /** `sorted` over a finite set of strings. */
  ghost function SortedStrings(s: set<string>): (r: seq<string>)
    ensures Sorted(r, StringLess) && Elements(r) == s
  {
    StringLessTotal();
    Enumerate(s, StringLess)
  }

  lemma SortedDistinct<T(!new)>(s: seq<T>, less: (T, T) -> bool)
    requires StrictTotal(less) && Sorted(s, less)
    ensures forall i, j | 0 <= i < j < |s| :: s[i] != s[j]
  {
  }

  lemma Associate<T>(a: seq<T>, b: seq<T>, c: seq<T>)
    ensures (a + b) + c == a + (b + c)
  {
  }
}
