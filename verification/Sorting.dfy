/** Stable sorting by a total preorder, as Python's `sorted` does, and the lexicographic orders sorted by. */
module Sorting {

  ghost predicate TotalPreorder<T(!new)>(le: (T, T) -> bool) {
    && (forall a, b :: le(a, b) || le(b, a))
    && (forall a, b, c :: le(a, b) && le(b, c) ==> le(a, c))
  }

  predicate Sorted<T>(s: seq<T>, le: (T, T) -> bool) {
    forall i, j :: 0 <= i < j < |s| ==> le(s[i], s[j])
  }

  /** Before the first element that `x` does not have to follow, so equal elements keep their order. */
  function Insert<T>(x: T, s: seq<T>, le: (T, T) -> bool): (r: seq<T>) {
    if s == [] || le(x, s[0]) then [x] + s else [s[0]] + Insert(x, s[1..], le)
  }

  function Sort<T>(s: seq<T>, le: (T, T) -> bool): (r: seq<T>) {
    if s == [] then [] else Insert(s[0], Sort(s[1..], le), le)
  }

  function Filter<T>(s: seq<T>, keep: T -> bool): (r: seq<T>) {
    if s == [] then [] else (if keep(s[0]) then [s[0]] else []) + Filter(s[1..], keep)
  }

  lemma {:induction false} InsertElements<T>(x: T, s: seq<T>, le: (T, T) -> bool)
    ensures multiset(Insert(x, s, le)) == multiset(s) + multiset{x}
    ensures |Insert(x, s, le)| == |s| + 1
    ensures forall y :: y in Insert(x, s, le) <==> y == x || y in s
  {
    if !(s == [] || le(x, s[0])) {
      InsertElements(x, s[1..], le);
      assert s == [s[0]] + s[1..];
    }
  }

  lemma {:induction false} SortElements<T>(s: seq<T>, le: (T, T) -> bool)
    ensures multiset(Sort(s, le)) == multiset(s)
    ensures |Sort(s, le)| == |s|
    ensures forall y :: y in Sort(s, le) <==> y in s
  {
    if s != [] {
      SortElements(s[1..], le);
      InsertElements(s[0], Sort(s[1..], le), le);
      assert s == [s[0]] + s[1..];
    }
  }

  lemma {:induction false} InsertSorts<T(!new)>(x: T, s: seq<T>, le: (T, T) -> bool)
    requires TotalPreorder(le) && Sorted(s, le)
    ensures Sorted(Insert(x, s, le), le)
  {
    if !(s == [] || le(x, s[0])) {
      var rest := Insert(x, s[1..], le);
      InsertSorts(x, s[1..], le);
      InsertElements(x, s[1..], le);
      forall k | 0 <= k < |rest|
        ensures le(s[0], rest[k])
      {
        assert rest[k] in rest;
      }
    }
  }

  lemma {:induction false} SortSorts<T(!new)>(s: seq<T>, le: (T, T) -> bool)
    requires TotalPreorder(le)
    ensures Sorted(Sort(s, le), le)
  {
    if s != [] {
      SortSorts(s[1..], le);
      InsertSorts(s[0], Sort(s[1..], le), le);
    }
  }

  lemma {:induction false} FilterElements<T>(s: seq<T>, keep: T -> bool)
    ensures forall y :: y in Filter(s, keep) <==> y in s && keep(y)
  {
    if s != [] {
      FilterElements(s[1..], keep);
    }
  }

  lemma {:induction false} FilterInsert<T(!new)>(x: T, s: seq<T>, le: (T, T) -> bool, keep: T -> bool)
    requires TotalPreorder(le) && Sorted(s, le)
    ensures Filter(Insert(x, s, le), keep) == if keep(x) then Insert(x, Filter(s, keep), le) else Filter(s, keep)
  {
    if s == [] || le(x, s[0]) {
      assert ([x] + s)[1..] == s;
      FilterElements(s, keep);
      if Filter(s, keep) != [] {
        assert Filter(s, keep)[0] in Filter(s, keep);
        assert forall y :: y in s ==> le(x, y);
      }
    } else {
      FilterInsert(x, s[1..], le, keep);
      assert Insert(x, s, le)[1..] == Insert(x, s[1..], le);
      var rest := Filter(s[1..], keep);
      if keep(s[0]) {
        assert Filter(s, keep) == [s[0]] + rest && Filter(s, keep)[1..] == rest;
      } else {
        assert Filter(s, keep) == rest;
        assert Filter(Insert(x, s, le), keep) == Filter(Insert(x, s[1..], le), keep);
      }
    }
  }

  /** A stable sort commutes with dropping elements. */
  lemma {:induction false} FilterSort<T(!new)>(s: seq<T>, le: (T, T) -> bool, keep: T -> bool)
    requires TotalPreorder(le)
    ensures Filter(Sort(s, le), keep) == Sort(Filter(s, keep), le)
  {
    if s != [] {
      FilterSort(s[1..], le, keep);
      SortSorts(s[1..], le);
      FilterInsert(s[0], Sort(s[1..], le), le, keep);
      var rest := Filter(s[1..], keep);
      if keep(s[0]) {
        assert Filter(s, keep) == [s[0]] + rest && Filter(s, keep)[1..] == rest;
      } else {
        assert Filter(s, keep) == rest;
      }
    }
  }

  /** Sorting what is already in order changes nothing. */
  lemma {:induction false} SortOfSorted<T>(s: seq<T>, le: (T, T) -> bool)
    requires Sorted(s, le)
    ensures Sort(s, le) == s
  {
    if s != [] {
      SortOfSorted(s[1..], le);
      assert s == [s[0]] + s[1..];
    }
  }

  /** Two sorted sequences of the same elements, no two of them equivalent, are equal. */
  lemma {:induction false} SortedUnique<T(!new)>(s: seq<T>, t: seq<T>, le: (T, T) -> bool)
    requires TotalPreorder(le) && Sorted(s, le) && Sorted(t, le)
    requires multiset(s) == multiset(t)
    requires forall a, b :: a in s && b in s && le(a, b) && le(b, a) ==> a == b
    ensures s == t
  {
    if s == [] {
      assert |multiset(t)| == 0;
    } else {
      assert |multiset(s)| == |s| && |multiset(t)| == |t|;
      SameHead(s, t, le);
      TailElements(s);
      TailElements(t);
      SortedTail(s, le);
      SortedTail(t, le);
      SortedUnique(s[1..], t[1..], le);
    }
  }

  lemma SameHead<T(!new)>(s: seq<T>, t: seq<T>, le: (T, T) -> bool)
    requires TotalPreorder(le) && Sorted(s, le) && Sorted(t, le)
    requires multiset(s) == multiset(t) && s != [] && t != []
    requires forall a, b :: a in s && b in s && le(a, b) && le(b, a) ==> a == b
    ensures s[0] == t[0]
  {
    assert s[0] in multiset(t) && t[0] in multiset(s);
    assert le(t[0], s[0]) && le(s[0], t[0]);
  }

  lemma TailElements<T>(s: seq<T>)
    requires s != []
    ensures s == [s[0]] + s[1..]
    ensures multiset(s[1..]) == multiset(s) - multiset{s[0]}
    ensures forall x :: x in s[1..] ==> x in s
  {
    assert s == [s[0]] + s[1..];
  }

  lemma SortedTail<T>(s: seq<T>, le: (T, T) -> bool)
    requires Sorted(s, le) && s != []
    ensures Sorted(s[1..], le)
  {
  }

  // ----- Lexicographic orders

  predicate StringLe(a: string, b: string) {
    a == "" || (b != "" && (a[0] < b[0] || (a[0] == b[0] && StringLe(a[1..], b[1..]))))
  }

  lemma {:induction false} StringLeTotal(a: string, b: string)
    ensures StringLe(a, b) || StringLe(b, a)
  {
    if a != "" && b != "" && a[0] == b[0] {
      StringLeTotal(a[1..], b[1..]);
    }
  }

  lemma {:induction false} StringLeTransitive(a: string, b: string, c: string)
    requires StringLe(a, b) && StringLe(b, c)
    ensures StringLe(a, c)
  {
    if a != "" && a[0] == b[0] == c[0] {
      StringLeTransitive(a[1..], b[1..], c[1..]);
    }
  }

  lemma {:induction false} StringLeAntisymmetric(a: string, b: string)
    requires StringLe(a, b) && StringLe(b, a)
    ensures a == b
  {
    if a != "" {
      StringLeAntisymmetric(a[1..], b[1..]);
      assert a == [a[0]] + a[1..] && b == [b[0]] + b[1..];
    }
  }

  /** Dictionary order: `a` is a prefix of `b`, or smaller at the first difference. */
  ghost predicate DictionaryOrder(a: string, b: string) {
    || (|a| <= |b| && b[..|a|] == a)
    || exists i :: 0 <= i < |a| && i < |b| && a[..i] == b[..i] && a[i] < b[i]
  }

  lemma {:induction false} StringLeMeans(a: string, b: string)
    ensures StringLe(a, b) <==> DictionaryOrder(a, b)
  {
    hide DictionaryOrder;
    if a == "" || b == "" {
      EmptyComesFirst(a, b);
    } else if a[0] == b[0] {
      StringLeMeans(a[1..], b[1..]);
      SameFirst(a, b);
    } else {
      FirstDecides(a, b);
    }
  }

  lemma EmptyComesFirst(a: string, b: string)
    requires a == "" || b == ""
    ensures DictionaryOrder(a, b) <==> a == ""
  {
  }

  lemma FirstDecides(a: string, b: string)
    requires a != "" && b != "" && a[0] != b[0]
    ensures DictionaryOrder(a, b) <==> a[0] < b[0]
  {
    assert a[..0] == b[..0] && a[..|a|] == a;
    forall i | 0 <= i <= |a| && i <= |b| && a[..i] == b[..i]
      ensures i == 0
    {
      if i > 0 {
        HeadOfPrefix(a, i);
        HeadOfPrefix(b, i);
      }
    }
  }

  lemma HeadOfPrefix(s: string, i: nat)
    requires 0 < i <= |s|
    ensures s[..i] != "" && s[..i][0] == s[0]
  {
  }

  /** The first character moves in front of a common prefix. */
  lemma PrefixTail(x: char, s: string, t: string, i: nat)
    requires i <= |s| && i <= |t|
    ensures ([x] + s)[..i + 1] == ([x] + t)[..i + 1] <==> s[..i] == t[..i]
  {
    assert ([x] + s)[..i + 1] == [x] + s[..i] && ([x] + t)[..i + 1] == [x] + t[..i];
    assert ([x] + s[..i])[1..] == s[..i] && ([x] + t[..i])[1..] == t[..i];
  }

  lemma SameFirst(a: string, b: string)
    requires a != "" && b != "" && a[0] == b[0]
    ensures DictionaryOrder(a, b) <==> DictionaryOrder(a[1..], b[1..])
  {
    var x, s, t := a[0], a[1..], b[1..];
    assert a == [x] + s && b == [x] + t;
    if DictionaryOrder(s, t) {
      LongerOrder(x, s, t);
    }
    if DictionaryOrder(a, b) {
      ShorterOrder(x, s, t);
    }
  }

  lemma LongerOrder(x: char, s: string, t: string)
    requires DictionaryOrder(s, t)
    ensures DictionaryOrder([x] + s, [x] + t)
  {
    var a, b := [x] + s, [x] + t;
    if |s| <= |t| && t[..|s|] == s {
      PrefixTail(x, s, t, |s|);
      assert s[..|s|] == s && a[..|a|] == a;
    } else {
      var i :| 0 <= i < |s| && i < |t| && s[..i] == t[..i] && s[i] < t[i];
      PrefixTail(x, s, t, i);
      assert a[i + 1] == s[i] && b[i + 1] == t[i];
    }
  }

  lemma ShorterOrder(x: char, s: string, t: string)
    requires DictionaryOrder([x] + s, [x] + t)
    ensures DictionaryOrder(s, t)
  {
    var a, b := [x] + s, [x] + t;
    if |a| <= |b| && b[..|a|] == a {
      PrefixTail(x, s, t, |s|);
      assert s[..|s|] == s && a[..|a|] == a;
    } else {
      var i :| 0 <= i < |a| && i < |b| && a[..i] == b[..i] && a[i] < b[i];
      PrefixTail(x, s, t, i - 1);
      assert a[i] == s[i - 1] && b[i] == t[i - 1];
    }
  }

  /** The order of tuples of three strings. */
  datatype Key = Key(market: string, symbol: string, date: string)

  predicate KeyLe(a: Key, b: Key) {
    if a.market != b.market then StringLe(a.market, b.market)
    else if a.symbol != b.symbol then StringLe(a.symbol, b.symbol)
    else StringLe(a.date, b.date)
  }

  lemma KeyLeTotal(a: Key, b: Key)
    ensures KeyLe(a, b) || KeyLe(b, a)
  {
    StringLeTotal(a.market, b.market);
    StringLeTotal(a.symbol, b.symbol);
    StringLeTotal(a.date, b.date);
  }

  lemma KeyLeTransitive(a: Key, b: Key, c: Key)
    requires KeyLe(a, b) && KeyLe(b, c)
    ensures KeyLe(a, c)
  {
    if a.market != b.market && b.market != c.market {
      StringLeTransitive(a.market, b.market, c.market);
      if a.market == c.market {
        StringLeAntisymmetric(a.market, b.market);
      }
    } else if a.market == b.market == c.market {
      if a.symbol != b.symbol && b.symbol != c.symbol {
        StringLeTransitive(a.symbol, b.symbol, c.symbol);
        if a.symbol == c.symbol {
          StringLeAntisymmetric(a.symbol, b.symbol);
        }
      } else if a.symbol == b.symbol == c.symbol {
        StringLeTransitive(a.date, b.date, c.date);
      }
    }
  }

  lemma KeyLeAntisymmetric(a: Key, b: Key)
    requires KeyLe(a, b) && KeyLe(b, a)
    ensures a == b
  {
    if a.market != b.market {
      StringLeAntisymmetric(a.market, b.market);
    } else if a.symbol != b.symbol {
      StringLeAntisymmetric(a.symbol, b.symbol);
    } else {
      StringLeAntisymmetric(a.date, b.date);
    }
  }

  /** Sorting by a key is sorting by a total preorder. */
  lemma ByKeyIsPreorder<T(!new)>(le: (T, T) -> bool, key: T -> Key)
    requires forall a, b :: le(a, b) <==> KeyLe(key(a), key(b))
    ensures TotalPreorder(le)
  {
    forall a, b
      ensures le(a, b) || le(b, a)
    {
      KeyLeTotal(key(a), key(b));
    }
    forall a, b, c | le(a, b) && le(b, c)
      ensures le(a, c)
    {
      KeyLeTransitive(key(a), key(b), key(c));
    }
  }
}
