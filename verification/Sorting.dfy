/** `sort_by_key` with lexicographic tuple keys, as the planner and the placement use it. */
module Sorting {

  type Key = seq<nat>

  predicate LexLe(a: Key, b: Key) {
    a == [] || (b != [] && (a[0] < b[0] || (a[0] == b[0] && LexLe(a[1..], b[1..]))))
  }

  lemma {:induction false} LexTotal(a: Key, b: Key)
    ensures LexLe(a, b) || LexLe(b, a)
  {
    if a != [] && b != [] { LexTotal(a[1..], b[1..]); }
  }

  lemma {:induction false} LexTransitive(a: Key, b: Key, c: Key)
    requires LexLe(a, b) && LexLe(b, c)
    ensures LexLe(a, c)
  {
    if a != [] && a[0] == b[0] == c[0] { LexTransitive(a[1..], b[1..], c[1..]); }
  }

  lemma {:induction false} LexAntisymmetric(a: Key, b: Key)
    requires LexLe(a, b) && LexLe(b, a)
    ensures a == b
  {
    if a != [] { LexAntisymmetric(a[1..], b[1..]); }
  }

  ghost predicate Sorted<T>(s: seq<T>, key: T -> Key) {
    forall i, j {:trigger s[i], s[j]} :: 0 <= i < j < |s| ==> LexLe(key(s[i]), key(s[j]))
  }

  /** Puts `x` before the first element whose key is not smaller. */
  function Insert<T>(x: T, s: seq<T>, key: T -> Key): seq<T> {
    if s == [] || LexLe(key(x), key(s[0])) then [x] + s else [s[0]] + Insert(x, s[1..], key)
  }

  /** A stable sort: elements with equal keys keep their order. */
  function StableSort<T>(s: seq<T>, key: T -> Key): seq<T> {
    if s == [] then [] else Insert(s[0], StableSort(s[1..], key), key)
  }

  lemma {:induction false} InsertPermutes<T>(x: T, s: seq<T>, key: T -> Key)
    ensures multiset(Insert(x, s, key)) == multiset{x} + multiset(s)
  {
    if s != [] && !LexLe(key(x), key(s[0])) {
      InsertPermutes(x, s[1..], key);
      assert s == [s[0]] + s[1..];
    }
  }

  lemma {:induction false} SortPermutes<T>(s: seq<T>, key: T -> Key)
    ensures multiset(StableSort(s, key)) == multiset(s)
    ensures |StableSort(s, key)| == |s|
  {
    if s != [] {
      SortPermutes(s[1..], key);
      InsertPermutes(s[0], StableSort(s[1..], key), key);
      assert s == [s[0]] + s[1..];
    }
    assert |multiset(StableSort(s, key))| == |StableSort(s, key)|;
  }

  lemma {:induction false} InsertSorted<T>(x: T, s: seq<T>, key: T -> Key)
    requires Sorted(s, key)
    ensures Sorted(Insert(x, s, key), key)
  {
    if s == [] {
    } else if LexLe(key(x), key(s[0])) {
      PrependSorted(x, s, key);
    } else {
      InsertSorted(x, s[1..], key);
      LexTotal(key(x), key(s[0]));
      var rest := Insert(x, s[1..], key);
      InsertPermutes(x, s[1..], key);
      assert rest[0] in multiset(rest);
      HeadBelow(s);
      assert LexLe(key(s[0]), key(rest[0]));
      PrependSorted(s[0], rest, key);
    }
  }

  lemma HeadBelow<T>(s: seq<T>)
    requires s != []
    ensures forall y :: y in multiset(s[1..]) ==> exists k :: 0 < k < |s| && s[k] == y
  {
    forall y | y in multiset(s[1..]) ensures exists k :: 0 < k < |s| && s[k] == y {
      assert y in s[1..];
      var j :| 0 <= j < |s[1..]| && s[1..][j] == y;
      assert s[j + 1] == y;
    }
  }

  lemma PrependSorted<T>(x: T, s: seq<T>, key: T -> Key)
    requires Sorted(s, key) && s != [] && LexLe(key(x), key(s[0]))
    ensures Sorted([x] + s, key)
  {
    var r := [x] + s;
    forall i, j | 0 <= i < j < |r| ensures LexLe(key(r[i]), key(r[j])) {
      assert r[j] == s[j - 1];
      if i == 0 {
        if j > 1 {
          assert LexLe(key(s[0]), key(s[j - 1]));
          LexTransitive(key(x), key(s[0]), key(s[j - 1]));
        }
      } else {
        assert r[i] == s[i - 1];
      }
    }
  }

  lemma {:induction false} SortSorted<T>(s: seq<T>, key: T -> Key)
    ensures Sorted(StableSort(s, key), key)
  {
    if s != [] {
      SortSorted(s[1..], key);
      InsertSorted(s[0], StableSort(s[1..], key), key);
    }
  }

  /** No two elements share a key. */
  ghost predicate KeysApart<T>(s: seq<T>, key: T -> Key) {
    forall i, j {:trigger s[i], s[j]} :: 0 <= i < j < |s| ==> key(s[i]) != key(s[j])
  }

  /** With distinct keys, the sorted arrangement of given elements is unique. */
  lemma {:induction false} SortedUnique<T>(a: seq<T>, b: seq<T>, key: T -> Key)
    requires multiset(a) == multiset(b) && Sorted(a, key) && Sorted(b, key) && KeysApart(a, key)
    ensures a == b
    decreases |a|
  {
    assert |multiset(a)| == |a| && |multiset(b)| == |b|;
    if a != [] {
      HeadsEqual(a, b, key);
      TailPermutes(a, b);
      SortedUnique(a[1..], b[1..], key);
    }
  }

  lemma TailPermutes<T>(a: seq<T>, b: seq<T>)
    requires a != [] && b != [] && multiset(a) == multiset(b) && a[0] == b[0]
    ensures multiset(a[1..]) == multiset(b[1..])
  {
    assert a == [a[0]] + a[1..] && b == [b[0]] + b[1..];
    assert multiset(a[1..]) == multiset(a) - multiset{a[0]};
  }

  lemma SameMembers<T>(a: seq<T>, b: seq<T>)
    requires multiset(a) == multiset(b)
    ensures forall x :: x in a <==> x in b
  {
    forall x ensures x in a <==> x in b {
      assert x in multiset(a) <==> x in multiset(b);
    }
  }

  lemma HeadsEqual<T>(a: seq<T>, b: seq<T>, key: T -> Key)
    requires a != [] && b != [] && multiset(a) == multiset(b)
    requires Sorted(a, key) && Sorted(b, key) && KeysApart(a, key)
    ensures a[0] == b[0]
  {
    assert a[0] in multiset(b) && b[0] in multiset(a);
    var i :| 0 <= i < |b| && b[i] == a[0];
    var j :| 0 <= j < |a| && a[j] == b[0];
    if j != 0 {
      assert LexLe(key(a[0]), key(a[j]));
      if i != 0 {
        assert LexLe(key(b[0]), key(b[i]));
        LexAntisymmetric(key(a[0]), key(b[0]));
      }
    }
  }

  lemma {:induction false} KeysApartPermutes<T>(a: seq<T>, b: seq<T>, key: T -> Key)
    requires KeysApart(a, key) && multiset(a) == multiset(b)
    ensures KeysApart(b, key)
  {
    forall i, j | 0 <= i < j < |b| ensures key(b[i]) != key(b[j]) {
      if key(b[i]) == key(b[j]) {
        var rest := b[..i] + b[i + 1..j] + b[j + 1..];
        assert b == b[..i] + [b[i]] + b[i + 1..j] + [b[j]] + b[j + 1..];
        assert multiset(b) == multiset{b[i], b[j]} + multiset(rest);
        KeyTwice(a, key, b[i], b[j]);
      }
    }
  }

  lemma KeyTwice<T>(a: seq<T>, key: T -> Key, x: T, y: T)
    requires multiset{x, y} <= multiset(a) && key(x) == key(y)
    ensures !KeysApart(a, key)
  {
    Occurrences(a, x, y);
    var i, j :| 0 <= i < |a| && 0 <= j < |a| && i != j && a[i] == x && a[j] == y;
    assert i < j || j < i;
  }

  /** Two places of a sequence are two of its elements. */
  lemma PairWithin<T>(s: seq<T>, i: nat, j: nat)
    requires i < j < |s|
    ensures multiset{s[i], s[j]} <= multiset(s)
  {
    assert s == s[..i] + [s[i]] + s[i + 1..j] + [s[j]] + s[j + 1..];
  }

  /** Two occurrences, of one value or of two, sit at two positions. */
  lemma Occurrences<T>(a: seq<T>, x: T, y: T)
    requires multiset{x, y} <= multiset(a)
    ensures exists i, j :: 0 <= i < |a| && 0 <= j < |a| && i != j && a[i] == x && a[j] == y
  {
    assert x in multiset(a);
    var i :| 0 <= i < |a| && a[i] == x;
    var before, after := a[..i], a[i + 1..];
    assert a == before + [x] + after;
    assert multiset(a) == multiset(before) + multiset{x} + multiset(after);
    assert y in multiset(before) || y in multiset(after);
    if y in multiset(before) {
      var j :| 0 <= j < |before| && before[j] == y;
      assert a[j] == y;
    } else {
      var j :| 0 <= j < |after| && after[j] == y;
      assert a[i + 1 + j] == y;
    }
  }
}
