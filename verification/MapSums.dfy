/** Totals of a weight over the values of a finite map: what a full scan would count. */
module MapSums {

  ghost predicate Submap<K, V>(a: map<K, V>, b: map<K, V>) {
    forall k :: k in a ==> k in b && a[k] == b[k]
  }

  ghost function Sum<K, V>(m: map<K, V>, f: V -> nat): nat
    decreases |m|
  {
    if m == map[] then 0
    else
      var k :| k in m;
      assert m.Keys == (m - {k}).Keys + {k};
      f(m[k]) + Sum(m - {k}, f)
  }

  lemma {:induction false} SumSplit<K, V>(m: map<K, V>, k: K, f: V -> nat)
    requires k in m
    ensures Sum(m, f) == f(m[k]) + Sum(m - {k}, f)
    decreases |m|
  {
    var c :| c in m && Sum(m, f) == f(m[c]) + Sum(m - {c}, f);
    if c != k {
      assert m.Keys == (m - {c}).Keys + {c};
      assert m.Keys == (m - {k}).Keys + {k};
      SumSplit(m - {c}, k, f);
      SumSplit(m - {k}, c, f);
      assert m - {c} - {k} == m - {k} - {c};
    }
  }

  lemma SumInsert<K, V>(m: map<K, V>, k: K, v: V, f: V -> nat)
    requires k !in m
    ensures Sum(m[k := v], f) == Sum(m, f) + f(v)
  {
    SumSplit(m[k := v], k, f);
    assert m[k := v] - {k} == m;
  }

  lemma SumReplace<K, V>(m: map<K, V>, k: K, v: V, f: V -> nat)
    requires k in m
    ensures Sum(m[k := v], f) + f(m[k]) == Sum(m, f) + f(v)
  {
    SumSplit(m, k, f);
    SumSplit(m[k := v], k, f);
    assert m[k := v] - {k} == m - {k};
  }

  lemma {:induction false} SumSubmap<K, V>(a: map<K, V>, b: map<K, V>, f: V -> nat)
    requires Submap(a, b)
    ensures Sum(a, f) <= Sum(b, f)
    decreases |a|
  {
    if a != map[] {
      var k :| k in a;
      SumSplit(a, k, f);
      SumSplit(b, k, f);
      assert a.Keys == (a - {k}).Keys + {k};
      SumSubmap(a - {k}, b - {k}, f);
    }
  }

  /** A total is positive exactly when some value weighs something. */
  lemma {:induction false} SumPositive<K, V>(m: map<K, V>, f: V -> nat)
    ensures Sum(m, f) > 0 <==> exists k :: k in m && f(m[k]) > 0
    decreases |m|
  {
    if m != map[] {
      var c :| c in m && Sum(m, f) == f(m[c]) + Sum(m - {c}, f);
      assert m.Keys == (m - {c}).Keys + {c};
      SumPositive(m - {c}, f);
      assert forall k :: k in m && k != c ==> k in m - {c} && (m - {c})[k] == m[k];
    }
  }

  /** Weights that add up pointwise add up in total. */
  lemma {:induction false} SumAdd<K, V(!new)>(m: map<K, V>, f: V -> nat, g: V -> nat, h: V -> nat)
    requires forall v :: f(v) == g(v) + h(v)
    ensures Sum(m, f) == Sum(m, g) + Sum(m, h)
    decreases |m|
  {
    if m != map[] {
      var k :| k in m;
      assert m.Keys == (m - {k}).Keys + {k};
      SumSplit(m, k, f);
      SumSplit(m, k, g);
      SumSplit(m, k, h);
      SumAdd(m - {k}, f, g, h);
    }
  }

  lemma {:induction false} SumOnes<K, V(!new)>(m: map<K, V>, f: V -> nat)
    requires forall v :: f(v) == 1
    ensures Sum(m, f) == |m|
    decreases |m|
  {
    if m != map[] {
      var k :| k in m;
      SizeRemove(m, k);
      SumSplit(m, k, f);
      SumOnes(m - {k}, f);
    }
  }

  lemma SizeInsert<K, V>(m: map<K, V>, k: K, v: V)
    ensures |m[k := v]| == if k in m then |m| else |m| + 1
  {
    assert m[k := v].Keys == m.Keys + {k};
  }

  lemma SizeRemove<K, V>(m: map<K, V>, k: K)
    requires k in m
    ensures |m - {k}| == |m| - 1
  {
    assert m.Keys == (m - {k}).Keys + {k};
  }

  lemma SubmapSize<K, V>(a: map<K, V>, b: map<K, V>)
    requires Submap(a, b)
    ensures |a| <= |b|
  {
    SubsetSize(a.Keys, b.Keys);
  }

  lemma SubsetSize<T>(a: set<T>, b: set<T>)
    requires a <= b
    ensures |a| <= |b|
  {
    assert b == a + (b - a);
  }
}
