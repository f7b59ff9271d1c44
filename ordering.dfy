/** The order in which the database returns rows. `ORDER BY title ASC` and
    `order: { name: 'ASC' }` compare strings; the model compares them
    lexicographically by character code. Rows whose sort keys tie come back in
    an order the source does not fix; the model breaks such ties by id, and the
    contracts below promise only that the keys ascend. */
module Ordering {
  import opened Common

  /** `a` sorts no later than `b`. */
  predicate Below(a: string, b: string)
  {
    a == [] || (b != [] && (a[0] < b[0] || (a[0] == b[0] && Below(a[1..], b[1..]))))
  }

  lemma {:induction false} BelowReflexive(a: string)
    ensures Below(a, a)
  {
    if a != [] {
      BelowReflexive(a[1..]);
    }
  }

  lemma {:induction false} BelowTotal(a: string, b: string)
    ensures Below(a, b) || Below(b, a)
  {
    if a != [] && b != [] && a[0] == b[0] {
      BelowTotal(a[1..], b[1..]);
    }
  }

  lemma {:induction false} BelowAntisymmetric(a: string, b: string)
    requires Below(a, b) && Below(b, a)
    ensures a == b
  {
    if a != [] && b != [] {
      BelowAntisymmetric(a[1..], b[1..]);
      assert a == [a[0]] + a[1..] && b == [b[0]] + b[1..];
    }
  }

  lemma {:induction false} BelowTransitive(a: string, b: string, c: string)
    requires Below(a, b) && Below(b, c)
    ensures Below(a, c)
  {
    if a != [] && b != [] && c != [] && a[0] == b[0] && b[0] == c[0] {
      BelowTransitive(a[1..], b[1..], c[1..]);
    }
  }

  /** Every non-empty finite set of strings has a first element. */
  lemma {:induction false} LeastExists(s: set<string>)
    requires s != {}
    ensures exists m :: m in s && forall x | x in s :: Below(m, x)
  {
    var y :| y in s;
    if s == {y} {
      BelowReflexive(y);
      assert forall x | x in s :: x == y;
    } else {
      LeastExists(s - {y});
      var m :| m in s - {y} && forall x | x in s - {y} :: Below(m, x);
      if Below(y, m) {
        forall x | x in s
          ensures Below(y, x)
        {
          if x == y { BelowReflexive(y); } else { BelowTransitive(y, m, x); }
        }
      } else {
        BelowTotal(y, m);
        assert forall x | x in s :: Below(m, x);
      }
    }
  }

  /** The first string of a non-empty set. */
  function Least(s: set<string>): (m: string)
    requires s != {}
    ensures m in s && forall x | x in s :: Below(m, x)
  {
    LeastExists(s);
    assert forall a, b | Below(a, b) && Below(b, a) :: a == b by {
      forall a, b | Below(a, b) && Below(b, a)
        ensures a == b
      {
        BelowAntisymmetric(a, b);
      }
    }
    var m :| m in s && forall x | x in s :: Below(m, x);
    m
  }

  /** The elements of a set of keys, each once, in ascending order. */
  function Ascending(s: set<string>): (r: seq<string>)
    ensures |r| == |s|
    ensures forall x :: x in r <==> x in s
    ensures forall i, j | 0 <= i < j < |r| :: r[i] != r[j] && Below(r[i], r[j])
    decreases s
  {
    if s == {} then []
    else
      var m := Least(s);
      var rest := Ascending(s - {m});
      assert forall i | 0 <= i < |rest| :: rest[i] in s - {m};
      [m] + rest
  }

  /** The keys of `xs`, taken through `key`, ascend. */
  ghost predicate SortedBy<T>(xs: seq<T>, key: T -> string)
  {
    forall i, j | 0 <= i < j < |xs| :: Below(key(xs[i]), key(xs[j]))
  }

  /** Inserts `x` after every element whose key sorts no later than it. */
  function Insert<T>(x: T, xs: seq<T>, key: T -> string): (r: seq<T>)
    requires SortedBy(xs, key)
    ensures SortedBy(r, key)
    ensures multiset(r) == multiset(xs) + multiset{x}
  {
    if xs == [] then [x]
    else if Below(key(x), key(xs[0])) then
      assert forall j | 0 < j < |xs| :: Below(key(xs[0]), key(xs[j]));
      forall j | 0 < j < |xs| ensures Below(key(x), key(xs[j])) {
        BelowTransitive(key(x), key(xs[0]), key(xs[j]));
      }
      [x] + xs
    else
      var rest := Insert(x, xs[1..], key);
      BelowTotal(key(x), key(xs[0]));
      assert xs == [xs[0]] + xs[1..];
      forall j | 0 <= j < |rest| ensures Below(key(xs[0]), key(rest[j])) {
        assert rest[j] in multiset(rest);
        if rest[j] != x {
          assert rest[j] in multiset(xs[1..]);
          var k :| 0 <= k < |xs[1..]| && xs[1..][k] == rest[j];
          assert xs[k + 1] == rest[j];
        }
      }
      [xs[0]] + rest
  }

  /** A stable sort of `xs` by `key`: the keys ascend and no element is lost
      or added. */
  function SortByKey<T>(xs: seq<T>, key: T -> string): (r: seq<T>)
    ensures SortedBy(r, key)
    ensures multiset(r) == multiset(xs)
  {
    if xs == [] then []
    else
      assert xs == [xs[0]] + xs[1..];
      Insert(xs[0], SortByKey(xs[1..], key), key)
  }

  /** The keys `keys` of the table `m`, each once, ordered by `key` of their
      row: what `SELECT ... WHERE id IN keys ORDER BY key ASC` yields. */
  function OrderedKeys<V>(m: map<Id, V>, keys: set<Id>, key: V -> string): (r: seq<Id>)
    requires keys <= m.Keys
    ensures |r| == |keys|
    ensures forall i | 0 <= i < |r| :: r[i] in keys
    ensures forall k | k in keys :: k in r
    ensures forall i, j | 0 <= i < j < |r| :: r[i] != r[j]
    ensures forall i, j | 0 <= i < j < |r| :: Below(key(m[r[i]]), key(m[r[j]]))
  {
    var ids := Ascending(keys);
    var rowKey := (k: Id) => if k in m then key(m[k]) else [];
    var r := SortByKey(ids, rowKey);
    assert |r| == |multiset(r)| == |multiset(ids)| == |ids|;
    forall i | 0 <= i < |r| ensures r[i] in keys {
      assert r[i] in multiset(r);
    }
    forall k | k in keys ensures k in r {
      assert k in multiset(ids);
    }
    forall i, j | 0 <= i < j < |r| ensures r[i] != r[j] {
      if r[i] == r[j] {
        DistinctCount(ids, r[i]);
        TwiceCount(r, i, j);
        assert false;
      }
    }
    r
  }

  /** An element of a sequence without repeats occurs in it once. */
  lemma {:induction false} DistinctCount(s: seq<string>, x: string)
    requires forall i, j | 0 <= i < j < |s| :: s[i] != s[j]
    ensures multiset(s)[x] <= 1
  {
    if s != [] {
      assert s == [s[0]] + s[1..];
      DistinctCount(s[1..], x);
      if s[0] == x {
        assert x !in s[1..];
      }
    }
  }

  /** An element found at two positions occurs at least twice. */
  lemma {:induction false} TwiceCount(s: seq<string>, i: nat, j: nat)
    requires i < j < |s| && s[i] == s[j]
    ensures multiset(s)[s[i]] >= 2
  {
    assert s == s[..j] + [s[j]] + s[j + 1..];
    assert s[i] in s[..j];
  }
}
