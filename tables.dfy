/** A database table as the sequence of its rows in insertion order, and the few queries the
    routes issue against it: `WHERE column = value` with `.first()` or `.all()`, `DELETE` and
    `UPDATE` on a column. A column is given as a function from a row to its value. */
module Tables {
  import opened Wrappers

  /** Position of the first row whose `key` column equals `v`, or |t| when no row does. */
  function FirstIndex<T, K(==)>(t: seq<T>, key: T -> K, v: K): (r: nat)
    ensures r <= |t|
    ensures forall j :: 0 <= j < r ==> key(t[j]) != v
    ensures r < |t| ==> key(t[r]) == v
    decreases |t|
  {
    if t == [] then 0
    else if key(t[0]) == v then 0
    else 1 + FirstIndex(t[1..], key, v)
  }

  /** `.first()` of `WHERE key = v`: the first matching row in table order, or None. */
  function Find<T, K(==)>(t: seq<T>, key: T -> K, v: K): (r: Option<T>)
    ensures r.None? <==> forall x :: x in t ==> key(x) != v
    ensures r.Some? ==> r.value in t && key(r.value) == v
  {
    var i := FirstIndex(t, key, v);
    if i < |t| then Some(t[i]) else None
  }

  /** The row `.first()` returns comes before every other row with that value. */
  lemma FindFirst<T, K>(t: seq<T>, key: T -> K, v: K)
    requires Find(t, key, v).Some?
    ensures exists i :: 0 <= i < |t| && t[i] == Find(t, key, v).value && forall j :: 0 <= j < i ==> key(t[j]) != v
  {
    var i := FirstIndex(t, key, v);
    assert t[i] == Find(t, key, v).value;
  }

  /** `.all()` of `WHERE key IN vs`: the matching rows, in table order. */
  function Select<T, K(==)>(t: seq<T>, key: T -> K, vs: set<K>): (r: seq<T>)
    ensures forall x :: x in r ==> x in t && key(x) in vs
    ensures forall x :: x in t && key(x) in vs ==> x in r
    ensures |r| <= |t|
    decreases |t|
  {
    if t == [] then []
    else (if key(t[0]) in vs then [t[0]] else []) + Select(t[1..], key, vs)
  }

  /** `DELETE ... WHERE key IN vs`: the rows that remain, in table order. */
  function Drop<T, K(==)>(t: seq<T>, key: T -> K, vs: set<K>): (r: seq<T>)
    ensures forall x :: x in r ==> x in t && key(x) !in vs
    ensures forall x :: x in t && key(x) !in vs ==> x in r
    ensures |r| <= |t|
    decreases |t|
  {
    if t == [] then []
    else (if key(t[0]) in vs then [] else [t[0]]) + Drop(t[1..], key, vs)
  }

  /** `UPDATE ... WHERE key = v`, every matching row overwritten by `row`. */
  function Replace<T, K(==)>(t: seq<T>, key: T -> K, v: K, row: T): (r: seq<T>)
    ensures |r| == |t|
    ensures forall j :: 0 <= j < |t| ==> r[j] == if key(t[j]) == v then row else t[j]
  {
    seq(|t|, j requires 0 <= j < |t| => if key(t[j]) == v then row else t[j])
  }

  /** The values a column holds. */
  function Column<T, K(==)>(t: seq<T>, key: T -> K): (r: set<K>)
    ensures forall x :: x in t ==> key(x) in r
    ensures forall k :: k in r ==> exists x :: x in t && key(x) == k
  {
    set i | 0 <= i < |t| :: key(t[i])
  }

  /** A primary key: no two positions hold the same value in this column. */
  ghost predicate UniqueKeys<T, K>(t: seq<T>, key: T -> K) {
    forall i, j :: 0 <= i < j < |t| ==> key(t[i]) != key(t[j])
  }

  /** When the column is a key, `Find` returns the one row holding `v`. */
  lemma FindKey<T, K>(t: seq<T>, key: T -> K, x: T)
    requires UniqueKeys(t, key)
    requires x in t
    ensures Find(t, key, key(x)) == Some(x)
  {
    var i :| 0 <= i < |t| && t[i] == x;
    var f := FirstIndex(t, key, key(x));
    assert f <= i;
  }

  /** In a column that is a key, a row is determined by its value there. */
  lemma UniqueKeysRows<T, K>(t: seq<T>, key: T -> K)
    requires UniqueKeys(t, key)
    ensures forall x, y :: x in t && y in t && key(x) == key(y) ==> x == y
  {
    forall x, y | x in t && y in t && key(x) == key(y) ensures x == y {
      FindKey(t, key, x);
      FindKey(t, key, y);
    }
  }

  /** Appending a row changes `.first()` only when nothing matched before. */
  lemma FindAppend<T, K>(t: seq<T>, x: T, key: T -> K, v: K)
    ensures Find(t + [x], key, v) ==
      if Find(t, key, v).Some? then Find(t, key, v)
      else if key(x) == v then Some(x) else None
  {
    var u := t + [x];
    var i, f := FirstIndex(t, key, v), FirstIndex(u, key, v);
    assert forall j :: 0 <= j < |t| ==> u[j] == t[j];
    if i < |t| {
      assert f <= i;
      assert !(f < i);
    } else {
      assert f >= |t|;
    }
  }

  lemma {:induction false} SelectAppend<T, K>(t: seq<T>, x: T, key: T -> K, vs: set<K>)
    ensures Select(t + [x], key, vs) == Select(t, key, vs) + if key(x) in vs then [x] else []
    decreases |t|
  {
    if t == [] {
      assert t + [x] == [x];
    } else {
      assert (t + [x])[0] == t[0];
      assert (t + [x])[1..] == t[1..] + [x];
      SelectAppend(t[1..], x, key, vs);
    }
  }

  lemma UniqueKeysAppend<T, K>(t: seq<T>, x: T, key: T -> K)
    requires UniqueKeys(t, key)
    requires forall y :: y in t ==> key(y) != key(x)
    ensures UniqueKeys(t + [x], key)
  {
    var u := t + [x];
    forall i, j | 0 <= i < j < |u| ensures key(u[i]) != key(u[j]) {
      if j == |t| {
        assert u[i] == t[i];
      } else {
        assert u[i] == t[i] && u[j] == t[j];
      }
    }
  }

  lemma UniqueKeysTail<T, K>(t: seq<T>, key: T -> K)
    requires UniqueKeys(t, key) && t != []
    ensures UniqueKeys(t[1..], key)
    ensures forall y :: y in t[1..] ==> key(y) != key(t[0])
  {
    var tail := t[1..];
    forall i, j | 0 <= i < j < |tail| ensures key(tail[i]) != key(tail[j]) {
      assert tail[i] == t[i + 1] && tail[j] == t[j + 1];
    }
    forall y | y in tail ensures key(y) != key(t[0]) {
      var k :| 0 <= k < |tail| && tail[k] == y;
      assert y == t[k + 1];
    }
  }

  lemma UniqueKeysCons<T, K>(x: T, t: seq<T>, key: T -> K)
    requires UniqueKeys(t, key)
    requires forall y :: y in t ==> key(y) != key(x)
    ensures UniqueKeys([x] + t, key)
  {
    var u := [x] + t;
    forall i, j | 0 <= i < j < |u| ensures key(u[i]) != key(u[j]) {
      assert u[j] == t[j - 1];
      if i > 0 {
        assert u[i] == t[i - 1];
      }
    }
  }

  /** Deleting rows keeps a key unique, whatever column the deletion filters on. */
  lemma {:induction false} DropKeepsUniqueKeys<T, K, K2>(t: seq<T>, key: T -> K, filter: T -> K2, vs: set<K2>)
    requires UniqueKeys(t, key)
    ensures UniqueKeys(Drop(t, filter, vs), key)
    decreases |t|
  {
    if t != [] {
      var tail := t[1..];
      UniqueKeysTail(t, key);
      DropKeepsUniqueKeys(tail, key, filter, vs);
      if filter(t[0]) !in vs {
        UniqueKeysCons(t[0], Drop(tail, filter, vs), key);
      }
    }
  }

  lemma ColumnAppend<T, K>(t: seq<T>, x: T, key: T -> K)
    ensures Column(t + [x], key) == Column(t, key) + {key(x)}
  {
    var l, r := Column(t + [x], key), Column(t, key) + {key(x)};
    forall k | k in l ensures k in r {
      var y :| y in t + [x] && key(y) == k;
    }
    forall k | k in r ensures k in l {
      if k != key(x) {
        var y :| y in t && key(y) == k;
        assert y in t + [x];
      } else {
        assert x in t + [x];
      }
    }
  }

  /** Rows drawn from `t` hold no column value that `t` does not. */
  lemma ColumnOfSubset<T, K>(sub: seq<T>, t: seq<T>, key: T -> K)
    requires forall x :: x in sub ==> x in t
    ensures Column(sub, key) <= Column(t, key)
  {
    forall k | k in Column(sub, key) ensures k in Column(t, key) {
      var y :| y in sub && key(y) == k;
    }
  }

  /** Overwriting rows with `row` adds at most `row`'s value to any column. */
  lemma ColumnReplace<T, K, K2>(t: seq<T>, key: T -> K, v: K, row: T, col: T -> K2)
    ensures Column(Replace(t, key, v, row), col) <= Column(t, col) + {col(row)}
  {
    var u := Replace(t, key, v, row);
    forall k | k in Column(u, col) ensures k in Column(t, col) + {col(row)} {
      var y :| y in u && col(y) == k;
      var j :| 0 <= j < |u| && u[j] == y;
    }
  }

  /** Overwriting the rows that hold `v` with a row that holds `v` keeps the key column as it was. */
  lemma ColumnReplaceKey<T, K>(t: seq<T>, key: T -> K, v: K, row: T)
    requires key(row) == v && v in Column(t, key)
    ensures Column(Replace(t, key, v, row), key) == Column(t, key)
  {
    var u := Replace(t, key, v, row);
    ColumnReplace(t, key, v, row, key);
    forall k | k in Column(t, key) ensures k in Column(u, key) {
      var y :| y in t && key(y) == k;
      var j :| 0 <= j < |t| && t[j] == y;
      assert u[j] in u;
    }
  }

  /** A row that keeps its key when overwritten leaves the rows and their keys where they were. */
  lemma ReplaceKeepsUniqueKeys<T, K>(t: seq<T>, key: T -> K, v: K, row: T)
    requires UniqueKeys(t, key)
    requires key(row) == v
    ensures UniqueKeys(Replace(t, key, v, row), key)
  {
    var u := Replace(t, key, v, row);
    forall i, j | 0 <= i < j < |u| ensures key(u[i]) != key(u[j]) {
      assert key(u[i]) == key(t[i]) && key(u[j]) == key(t[j]);
    }
  }

  /** A reference column stays within a key column when rows are removed from both, provided no
      remaining reference names a key in `gone` and every parent row whose key is not in `gone` stays. */
  lemma RefAfterDrop<C, P, K>(child: seq<C>, fk: C -> K, parent: seq<P>, pk: P -> K,
                              child2: seq<C>, parent2: seq<P>, gone: set<K>)
    requires Column(child, fk) <= Column(parent, pk)
    requires forall c :: c in child2 ==> c in child && fk(c) !in gone
    requires forall p :: p in parent && pk(p) !in gone ==> p in parent2
    ensures Column(child2, fk) <= Column(parent2, pk)
  {
    forall k | k in Column(child2, fk) ensures k in Column(parent2, pk) {
      var c :| c in child2 && fk(c) == k;
      assert k in Column(child, fk);
      var p :| p in parent && pk(p) == k;
      assert p in parent2;
    }
  }
}
