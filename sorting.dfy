/**
  Sorting as Python's `sorted` and `list.sort` do it, for the orders the core uses:
  strings compared code point by code point, and (offset, token list) tuples.
*/
module Sorting {

  /** `le` orders every pair of values and is transitive. */
  ghost predicate TotalPreorder<T(!new)>(le: (T, T) -> bool)
  {
    (forall x, y :: le(x, y) || le(y, x)) &&
    (forall x, y, z :: le(x, y) && le(y, z) ==> le(x, z))
  }

  /** Values that `le` puts both ways round are equal. */
  ghost predicate Antisymmetric<T(!new)>(le: (T, T) -> bool)
  {
    forall x, y :: le(x, y) && le(y, x) ==> x == y
  }

  predicate SortedBy<T>(s: seq<T>, le: (T, T) -> bool)
  {
    forall i, j :: 0 <= i < j < |s| ==> le(s[i], s[j])
  }

  /** Inserts `x` before the first element it does not follow. */
  function Insert<T(!new)>(x: T, s: seq<T>, le: (T, T) -> bool): (r: seq<T>)
    ensures multiset(r) == multiset(s) + multiset{x}
    ensures |r| == |s| + 1
    decreases |s|
  {
    if s == [] || le(x, s[0]) then
      [x] + s
    else
      assert s == [s[0]] + s[1..];
      [s[0]] + Insert(x, s[1..], le)
  }

  lemma {:induction false} InsertSorted<T(!new)>(x: T, s: seq<T>, le: (T, T) -> bool)
    requires TotalPreorder(le)
    requires SortedBy(s, le)
    ensures SortedBy(Insert(x, s, le), le)
    decreases |s|
  {
    var r := Insert(x, s, le);
    if s == [] {
    } else if le(x, s[0]) {
      forall i, j | 0 <= i < j < |r| ensures le(r[i], r[j]) {
        if i == 0 && j > 1 {
          assert le(s[0], s[j - 1]);
        }
      }
    } else {
      var rest := Insert(x, s[1..], le);
      InsertSorted(x, s[1..], le);
      assert le(s[0], x);
      forall k | 0 <= k < |rest| ensures le(s[0], rest[k]) {
        assert rest[k] in multiset(rest);
        if rest[k] != x {
          assert rest[k] in multiset(s[1..]);
          var m :| 0 <= m < |s[1..]| && s[1..][m] == rest[k];
          assert rest[k] == s[m + 1];
        }
      }
      assert r == [s[0]] + rest;
    }
  }

  /** The elements of `s` in ascending `le` order, by insertion. The sort is not stable: each element goes
      before the equal ones already placed. */
  function SortBy<T(!new)>(s: seq<T>, le: (T, T) -> bool): (r: seq<T>)
    requires TotalPreorder(le)
    ensures multiset(r) == multiset(s)
    ensures |r| == |s|
    ensures SortedBy(r, le)
    decreases |s|
  {
    if s == [] then []
    else
      assert s == s[..|s| - 1] + [s[|s| - 1]];
      var sorted := SortBy(s[..|s| - 1], le);
      InsertSorted(s[|s| - 1], sorted, le);
      Insert(s[|s| - 1], sorted, le)
  }

  /** Two sorted arrangements of one multiset start with the same element. */
  lemma SortedHeads<T(!new)>(a: seq<T>, b: seq<T>, le: (T, T) -> bool)
    requires Antisymmetric(le)
    requires multiset(a) == multiset(b) && a != []
    requires SortedBy(a, le) && SortedBy(b, le)
    ensures b != [] && a[0] == b[0]
  {
    assert |b| == |multiset(b)| == |multiset(a)| == |a|;
    assert a[0] in multiset(b);
    assert b[0] in multiset(a);
    var i :| 0 <= i < |b| && b[i] == a[0];
    var j :| 0 <= j < |a| && a[j] == b[0];
    assert le(a[0], a[j]) || j == 0;
    assert le(b[0], b[i]) || i == 0;
  }

  /** Removing equal heads leaves equal multisets. */
  lemma MultisetTails<T>(a: seq<T>, b: seq<T>)
    requires a != [] && b != [] && a[0] == b[0]
    requires multiset(a) == multiset(b)
    ensures multiset(a[1..]) == multiset(b[1..])
  {
    assert a == [a[0]] + a[1..];
    assert b == [b[0]] + b[1..];
    assert multiset(a) == multiset{a[0]} + multiset(a[1..]);
    assert multiset(b) == multiset{b[0]} + multiset(b[1..]);
    forall v ensures multiset(a[1..])[v] == multiset(b[1..])[v] {
      assert multiset(a)[v] == multiset(b)[v];
    }
  }

  /** Under an antisymmetric order, a multiset has exactly one sorted arrangement. */
  lemma {:induction false} SortedUnique<T(!new)>(a: seq<T>, b: seq<T>, le: (T, T) -> bool)
    requires TotalPreorder(le) && Antisymmetric(le)
    requires multiset(a) == multiset(b)
    requires SortedBy(a, le) && SortedBy(b, le)
    ensures a == b
    decreases |a|
  {
    if a == [] {
      assert |b| == |multiset(b)| == 0;
    } else {
      SortedHeads(a, b, le);
      MultisetTails(a, b);
      SortedUnique(a[1..], b[1..], le);
      assert a == [a[0]] + a[1..];
      assert b == [b[0]] + b[1..];
    }
  }

  /** Python's `a <= b` on strings: lexicographic by code point, a prefix first. */
  predicate StrLe(a: string, b: string)
    decreases |a|
  {
    a == [] || (b != [] && (if a[0] == b[0] then StrLe(a[1..], b[1..]) else a[0] < b[0]))
  }

  lemma {:induction false} StrLeTotal(a: string, b: string)
    ensures StrLe(a, b) || StrLe(b, a)
    decreases |a|
  {
    if a != [] && b != [] && a[0] == b[0] {
      StrLeTotal(a[1..], b[1..]);
    }
  }

  lemma {:induction false} StrLeTrans(a: string, b: string, c: string)
    requires StrLe(a, b) && StrLe(b, c)
    ensures StrLe(a, c)
    decreases |a|
  {
    if a != [] && a[0] == b[0] && b[0] == c[0] {
      StrLeTrans(a[1..], b[1..], c[1..]);
    }
  }

  lemma {:induction false} StrLeAntisym(a: string, b: string)
    requires StrLe(a, b) && StrLe(b, a)
    ensures a == b
    decreases |a|
  {
    if a != [] {
      StrLeAntisym(a[1..], b[1..]);
      assert a == [a[0]] + a[1..] && b == [b[0]] + b[1..];
    }
  }

  lemma StrLeIsTotalOrder()
    ensures TotalPreorder(StrLe) && Antisymmetric(StrLe)
  {
    forall x, y ensures StrLe(x, y) || StrLe(y, x) { StrLeTotal(x, y); }
    forall x, y, z | StrLe(x, y) && StrLe(y, z) ensures StrLe(x, z) { StrLeTrans(x, y, z); }
    forall x, y | StrLe(x, y) && StrLe(y, x) ensures x == y { StrLeAntisym(x, y); }
  }

  /** Python's `a <= b` on lists of strings. */
  predicate ListLe(a: seq<string>, b: seq<string>)
    decreases |a|
  {
    a == [] || (b != [] && (if a[0] == b[0] then ListLe(a[1..], b[1..]) else StrLe(a[0], b[0])))
  }

  lemma {:induction false} ListLeTotal(a: seq<string>, b: seq<string>)
    ensures ListLe(a, b) || ListLe(b, a)
    decreases |a|
  {
    if a != [] && b != [] {
      if a[0] == b[0] { ListLeTotal(a[1..], b[1..]); } else { StrLeTotal(a[0], b[0]); }
    }
  }

  lemma {:induction false} ListLeTrans(a: seq<string>, b: seq<string>, c: seq<string>)
    requires ListLe(a, b) && ListLe(b, c)
    ensures ListLe(a, c)
    decreases |a|
  {
    if a != [] {
      if a[0] == b[0] && b[0] == c[0] {
        ListLeTrans(a[1..], b[1..], c[1..]);
      } else if a[0] == b[0] {
      } else if b[0] == c[0] {
      } else {
        StrLeTrans(a[0], b[0], c[0]);
        if a[0] == c[0] { StrLeAntisym(a[0], b[0]); }
      }
    }
  }

  lemma {:induction false} ListLeAntisym(a: seq<string>, b: seq<string>)
    requires ListLe(a, b) && ListLe(b, a)
    ensures a == b
    decreases |a|
  {
    if a != [] {
      if a[0] == b[0] {
        ListLeAntisym(a[1..], b[1..]);
        assert a == [a[0]] + a[1..] && b == [b[0]] + b[1..];
      } else {
        StrLeAntisym(a[0], b[0]);
      }
    }
  }

  /** Python's `<=` on `(offset, token list)` tuples: by offset, then by list. */
  predicate ItemLe(x: (int, seq<string>), y: (int, seq<string>))
  {
    x.0 < y.0 || (x.0 == y.0 && ListLe(x.1, y.1))
  }

  lemma ItemLeIsTotalOrder()
    ensures TotalPreorder(ItemLe) && Antisymmetric(ItemLe)
  {
    forall x, y ensures ItemLe(x, y) || ItemLe(y, x) { ListLeTotal(x.1, y.1); }
    forall x, y, z | ItemLe(x, y) && ItemLe(y, z) ensures ItemLe(x, z) {
      if x.0 == y.0 == z.0 { ListLeTrans(x.1, y.1, z.1); }
    }
    forall x, y | ItemLe(x, y) && ItemLe(y, x) ensures x == y { ListLeAntisym(x.1, y.1); }
  }
}
