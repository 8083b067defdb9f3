/** Sums over the rows of a table, whatever order the rows are visited in. */
module MapSum {

  lemma RemoveKey<K, V>(m: map<K, V>, k: K)
    requires k in m
    ensures (m - {k}).Keys == m.Keys - {k} && |m - {k}| == |m| - 1
  {
  }

  lemma SomeKey<K, V>(m: map<K, V>)
    requires |m| != 0
    ensures exists k :: k in m
  {
  }

  /** The sum when the rows are visited in this order. */
  function InOrder<K, V>(order: seq<K>, m: map<K, V>, f: V -> int): int
    requires forall i :: 0 <= i < |order| ==> order[i] in m
  {
    if order == [] then 0 else InOrder(order[..|order| - 1], m, f) + f(m[order[|order| - 1]])
  }

  /** The order visits every row once. */
  ghost predicate Visits<K(!new), V>(order: seq<K>, m: map<K, V>) {
    && (forall i :: 0 <= i < |order| ==> order[i] in m)
    && (forall k :: k in m ==> k in order)
    && (forall i, j :: 0 <= i < j < |order| ==> order[i] != order[j])
  }

  ghost predicate Sums<K(!new), V>(m: map<K, V>, f: V -> int, t: int) {
    exists order: seq<K> :: Visits(order, m) && InOrder(order, m, f) == t
  }

  lemma {:induction false} SomeOrder<K(!new), V>(m: map<K, V>) returns (order: seq<K>)
    ensures Visits(order, m)
    decreases |m|
  {
    if |m| == 0 {
      order := [];
    } else {
      SomeKey(m);
      var k :| k in m;
      RemoveKey(m, k);
      var before := SomeOrder(m - {k});
      order := before + [k];
    }
  }

  lemma SomeSum<K(!new), V>(m: map<K, V>, f: V -> int)
    ensures exists t :: Sums(m, f, t)
  {
    var order := SomeOrder(m);
    assert Sums(m, f, InOrder(order, m, f));
  }

  /** The sum of what the rows count for. */
  ghost function Total<K(!new), V>(m: map<K, V>, f: V -> int): int {
    SomeSum(m, f);
    var t :| Sums(m, f, t);
    t
  }

  // ----- Any order gives the same sum

  /** The sum with some row taken out first. */
  ghost function Fold<K, V>(m: map<K, V>, f: V -> int): int
    decreases |m|
  {
    if |m| == 0 then 0
    else
      SomeKey(m);
      var k :| k in m;
      RemoveKey(m, k);
      f(m[k]) + Fold(m - {k}, f)
  }

  lemma FoldFirst<K, V>(m: map<K, V>, f: V -> int) returns (k: K)
    requires |m| != 0
    ensures k in m && Fold(m, f) == f(m[k]) + Fold(m - {k}, f) && |m - {k}| < |m|
  {
    SomeKey(m);
    k :| k in m && Fold(m, f) == f(m[k]) + Fold(m - {k}, f);
    RemoveKey(m, k);
  }

  lemma {:induction false} FoldRemove<K, V>(m: map<K, V>, f: V -> int, k: K)
    requires k in m
    ensures Fold(m, f) == f(m[k]) + Fold(m - {k}, f)
    decreases |m|
  {
    var first := FoldFirst(m, f);
    hide Fold;
    if first != k {
      RemoveKey(m, k);
      FoldRemove(m - {first}, f, k);
      FoldRemove(m - {k}, f, first);
      assert m - {first} - {k} == m - {k} - {first};
    }
  }

  lemma {:induction false} SameInOrder<K, V>(order: seq<K>, m: map<K, V>, n: map<K, V>, f: V -> int)
    requires forall i :: 0 <= i < |order| ==> order[i] in m && order[i] in n && m[order[i]] == n[order[i]]
    ensures InOrder(order, m, f) == InOrder(order, n, f)
  {
    if order != [] {
      SameInOrder(order[..|order| - 1], m, n, f);
    }
  }

  lemma {:induction false} AnyOrder<K(!new), V>(order: seq<K>, m: map<K, V>, f: V -> int)
    requires Visits(order, m)
    ensures InOrder(order, m, f) == Fold(m, f)
  {
    if order == [] {
      NothingVisited(m, f);
    } else {
      var last := |order| - 1;
      var before, rest := order[..last], m - {order[last]};
      VisitsRest(order, m);
      FoldRemove(m, f, order[last]);
      hide Fold, Visits;
      AnyOrder(before, rest, f);
      SameInOrder(before, m, rest, f);
    }
  }

  lemma NothingVisited<K(!new), V>(m: map<K, V>, f: V -> int)
    requires Visits([], m)
    ensures Fold(m, f) == 0
  {
    assert m == map[] && |m| == 0;
  }

  lemma VisitsRest<K(!new), V>(order: seq<K>, m: map<K, V>)
    requires Visits(order, m) && order != []
    ensures var last := |order| - 1;
            var rest := m - {order[last]};
            && order[last] in m && Visits(order[..last], rest)
            && forall i :: 0 <= i < last ==> order[i] in rest && rest[order[i]] == m[order[i]]
  {
    var last := |order| - 1;
    assert order == order[..last] + [order[last]];
  }

  lemma TotalIsFold<K(!new), V>(m: map<K, V>, f: V -> int)
    ensures Total(m, f) == Fold(m, f)
  {
    assert Sums(m, f, Total(m, f)) by {
      SomeSum(m, f);
    }
    hide Total;
    var order :| Visits(order, m) && InOrder(order, m, f) == Total(m, f);
    AnyOrder(order, m, f);
  }

  /** No rows, no sum. */
  lemma TotalNone<K(!new), V>(m: map<K, V>, f: V -> int)
    requires |m| == 0
    ensures Total(m, f) == 0
  {
    TotalIsFold(m, f);
  }

  /** Any row may be taken out first. */
  lemma TotalRemove<K(!new), V>(m: map<K, V>, f: V -> int, k: K)
    requires k in m
    ensures Total(m, f) == f(m[k]) + Total(m - {k}, f)
  {
    hide Total;
    TotalIsFold(m, f);
    TotalIsFold(m - {k}, f);
    FoldRemove(m, f, k);
  }

  /** Some row, taken out. */
  lemma Unfold<K(!new), V>(m: map<K, V>, f: V -> int) returns (k: K)
    requires |m| != 0
    ensures k in m && Total(m, f) == f(m[k]) + Total(m - {k}, f) && |m - {k}| < |m|
  {
    SomeKey(m);
    k :| k in m;
    RemoveKey(m, k);
    TotalRemove(m, f, k);
  }

  lemma TotalInsert<K(!new), V>(m: map<K, V>, f: V -> int, k: K, v: V)
    requires k !in m
    ensures Total(m[k := v], f) == Total(m, f) + f(v)
  {
    hide Total;
    TotalRemove(m[k := v], f, k);
    assert m[k := v] - {k} == m;
  }

  lemma TotalUpdate<K(!new), V>(m: map<K, V>, f: V -> int, k: K, v: V)
    requires k in m
    ensures Total(m[k := v], f) == Total(m, f) - f(m[k]) + f(v)
  {
    hide Total;
    TotalRemove(m, f, k);
    TotalRemove(m[k := v], f, k);
    assert m[k := v] - {k} == m - {k};
  }

  /** `m` has the rows of `a` and the rows of `b`. */
  ghost predicate Parts<K(!new), V>(m: map<K, V>, a: map<K, V>, b: map<K, V>) {
    && (forall k :: k in m <==> k in a || k in b)
    && (forall k :: k in a ==> k !in b && k in m && m[k] == a[k])
    && (forall k :: k in b ==> k in m && m[k] == b[k])
  }

  lemma PartsEmpty<K(!new), V>(m: map<K, V>, a: map<K, V>, b: map<K, V>)
    requires Parts(m, a, b) && |b| == 0
    ensures m == a
  {
  }

  lemma PartsRemove<K(!new), V>(m: map<K, V>, a: map<K, V>, b: map<K, V>, k: K)
    requires Parts(m, a, b) && k in b
    ensures k in m && m[k] == b[k] && Parts(m - {k}, a, b - {k})
  {
  }

  lemma {:induction false} TotalParts<K(!new), V>(m: map<K, V>, a: map<K, V>, b: map<K, V>, f: V -> int)
    requires Parts(m, a, b)
    ensures Total(m, f) == Total(a, f) + Total(b, f)
    decreases |b|
  {
    hide Parts;
    if |b| == 0 {
      PartsEmpty(m, a, b);
      TotalNone(b, f);
    } else {
      var k := Unfold(b, f);
      hide Total;
      PartsRemove(m, a, b, k);
      TotalRemove(m, f, k);
      TotalParts(m - {k}, a, b - {k}, f);
    }
  }

  /** Tables with rows that count the same under the same keys have the same sum. */
  lemma {:induction false} TotalSame<K(!new), V>(m: map<K, V>, n: map<K, V>, f: V -> int)
    requires m.Keys == n.Keys && forall k :: k in m ==> f(m[k]) == f(n[k])
    ensures Total(m, f) == Total(n, f)
    decreases |m|
  {
    assert |m| == |m.Keys| && |n| == |n.Keys|;
    if |m| != 0 {
      var k := Unfold(m, f);
      hide Total;
      TotalRemove(n, f, k);
      TotalSame(m - {k}, n - {k}, f);
    } else {
      TotalNone(m, f);
      TotalNone(n, f);
    }
  }

  lemma {:induction false} TotalZero<K(!new), V>(m: map<K, V>, f: V -> int)
    requires forall k :: k in m ==> f(m[k]) == 0
    ensures Total(m, f) == 0
    decreases |m|
  {
    if |m| != 0 {
      var k := Unfold(m, f);
      TotalZero(m - {k}, f);
    } else {
      TotalNone(m, f);
    }
  }

  lemma {:induction false} TotalAtMost<K(!new), V>(m: map<K, V>, f: V -> int, g: V -> int)
    requires forall k :: k in m ==> f(m[k]) <= g(m[k])
    ensures Total(m, f) <= Total(m, g)
    decreases |m|
  {
    if |m| != 0 {
      var k := Unfold(m, f);
      TotalRemove(m, g, k);
      TotalAtMost(m - {k}, f, g);
    } else {
      TotalNone(m, f);
      TotalNone(m, g);
    }
  }

  /** Summing two things per row is adding the two sums. */
  lemma {:induction false} TotalPlus<K(!new), V>(m: map<K, V>, f: V -> int, g: V -> int, h: V -> int)
    requires forall k :: k in m ==> h(m[k]) == f(m[k]) + g(m[k])
    ensures Total(m, h) == Total(m, f) + Total(m, g)
    decreases |m|
  {
    hide Total;
    if |m| != 0 {
      var k := Unfold(m, f);
      TotalRemove(m, g, k);
      TotalRemove(m, h, k);
      TotalPlus(m - {k}, f, g, h);
    } else {
      TotalNone(m, f);
      TotalNone(m, g);
      TotalNone(m, h);
    }
  }

  lemma {:induction false} TotalPositive<K(!new), V>(m: map<K, V>, f: V -> int)
    requires forall k :: k in m ==> f(m[k]) >= 0
    ensures Total(m, f) >= 0
    decreases |m|
  {
    if |m| != 0 {
      var k := Unfold(m, f);
      TotalPositive(m - {k}, f);
    } else {
      TotalNone(m, f);
    }
  }
}
