/**
 The dictionary compression of a batch: a table of distinct values in order of first
 appearance, where "distinct" means distinct under a lookup key.
 */
module Dictionary {
  import opened Machine

  /** The first position in `table` whose key is `k`, or |table|. */
  function IndexOf<T, K(==)>(key: T -> K, table: seq<T>, k: K): (i: nat)
    ensures i <= |table|
  {
    if table == [] || key(table[0]) == k then 0 else 1 + IndexOf(key, table[1..], k)
  }

  function Add<T, K(==)>(key: T -> K, table: seq<T>, x: Option<T>): seq<T> {
    if x.None? || IndexOf(key, table, key(x.value)) < |table| then table else table + [x.value]
  }

  /** The table after all of `xs` have been looked up in order; absent values are skipped. */
  function Table<T, K(==)>(key: T -> K, xs: seq<Option<T>>): seq<T> {
    if xs == [] then [] else Add(key, Table(key, xs[..|xs| - 1]), xs[|xs| - 1])
  }

  /** The first present value with key `k`. */
  function FirstWith<T, K(==)>(key: T -> K, xs: seq<Option<T>>, k: K): Option<T> {
    if xs == [] then None
    else if xs[0].Some? && key(xs[0].value) == k then xs[0]
    else FirstWith(key, xs[1..], k)
  }

  function FirstPresent<T>(xs: seq<Option<T>>): Option<T> {
    if xs == [] then None else if xs[0].Some? then xs[0] else FirstPresent(xs[1..])
  }

  /** Values with the same key are the same value. */
  ghost predicate KeysFaithful<T(!new), K>(key: T -> K, xs: seq<Option<T>>) {
    forall x, y :: Some(x) in xs && Some(y) in xs && key(x) == key(y) ==> x == y
  }

  // ---------------------------------------------------------------- positions

  lemma {:induction false} IndexOfHit<T, K>(key: T -> K, table: seq<T>, k: K)
    ensures IndexOf(key, table, k) < |table| ==> key(table[IndexOf(key, table, k)]) == k
    ensures forall i | 0 <= i < |table| && key(table[i]) == k :: IndexOf(key, table, k) <= i
  {
    if table != [] && key(table[0]) != k {
      IndexOfHit(key, table[1..], k);
      forall i | 0 <= i < |table| && key(table[i]) == k
        ensures IndexOf(key, table, k) <= i
      {
        assert table[i] == table[1..][i - 1];
      }
    }
  }

  lemma {:induction false} IndexOfAppend<T, K>(key: T -> K, table: seq<T>, more: seq<T>, k: K)
    ensures IndexOf(key, table, k) < |table| ==> IndexOf(key, table + more, k) == IndexOf(key, table, k)
    ensures IndexOf(key, table, k) == |table| ==> IndexOf(key, table + more, k) == |table| + IndexOf(key, more, k)
  {
    if table == [] {
      assert table + more == more;
    } else {
      assert (table + more)[1..] == table[1..] + more;
      IndexOfAppend(key, table[1..], more, k);
    }
  }

  // ---------------------------------------------------------------- what the table holds

  lemma {:induction false} FirstWithAppend<T, K>(key: T -> K, xs: seq<Option<T>>, x: Option<T>, k: K)
    ensures FirstWith(key, xs + [x], k)
         == if FirstWith(key, xs, k).Some? then FirstWith(key, xs, k)
            else if x.Some? && key(x.value) == k then x else None
    decreases xs
  {
    if xs == [] {
      assert xs + [x] == [x] && [x][1..] == [];
    } else {
      assert (xs + [x])[1..] == xs[1..] + [x];
      FirstWithAppend(key, xs[1..], x, k);
    }
  }

  lemma {:induction false} FirstPresentAppend<T>(xs: seq<Option<T>>, x: Option<T>)
    ensures FirstPresent(xs + [x]) == if FirstPresent(xs).Some? then FirstPresent(xs) else x
    decreases xs
  {
    if xs == [] {
      assert xs + [x] == [x] && [x][1..] == [];
    } else {
      assert (xs + [x])[1..] == xs[1..] + [x];
      FirstPresentAppend(xs[1..], x);
    }
  }

  /** Looking a key up in the table finds the first value that had that key. */
  lemma {:induction false} TableLookup<T, K>(key: T -> K, xs: seq<Option<T>>, k: K)
    ensures var i := IndexOf(key, Table(key, xs), k);
      if i < |Table(key, xs)| then FirstWith(key, xs, k) == Some(Table(key, xs)[i])
      else FirstWith(key, xs, k) == None
    decreases |xs|
  {
    if xs != [] {
      var front, last := xs[..|xs| - 1], xs[|xs| - 1];
      assert xs == front + [last];
      TableLookup(key, front, k);
      FirstWithAppend(key, front, last, k);
      var t := Table(key, front);
      if last.Some? {
        IndexOfAppend(key, t, [last.value], k);
        IndexOfHit(key, t, k);
      }
    }
  }

  /** No key is in the table twice, which is what makes it a compression. */
  lemma {:induction false} TableDistinct<T, K>(key: T -> K, xs: seq<Option<T>>, i: nat, j: nat)
    requires i < j < |Table(key, xs)|
    ensures key(Table(key, xs)[i]) != key(Table(key, xs)[j])
    decreases |xs|
  {
    var (t, last) := (Table(key, xs[..|xs| - 1]), xs[|xs| - 1]);
    if j < |t| {
      TableDistinct(key, xs[..|xs| - 1], i, j);
    } else {
      IndexOfHit(key, t, key(last.value));
    }
  }

  /** The first entry of the table is the first present value. */
  lemma {:induction false} TableFirst<T, K>(key: T -> K, xs: seq<Option<T>>)
    ensures FirstPresent(xs) == if Table(key, xs) == [] then None else Some(Table(key, xs)[0])
    decreases |xs|
  {
    if xs != [] {
      var front, last := xs[..|xs| - 1], xs[|xs| - 1];
      assert xs == front + [last];
      TableFirst(key, front);
      FirstPresentAppend(front, last);
    }
  }

  /** Every value that was looked up is found again, under its key. */
  lemma {:induction false} FirstWithFinds<T, K>(key: T -> K, xs: seq<Option<T>>, i: nat)
    requires i < |xs| && xs[i].Some?
    ensures FirstWith(key, xs, key(xs[i].value)).Some?
    ensures FirstWith(key, xs, key(xs[i].value)) in xs
    ensures key(FirstWith(key, xs, key(xs[i].value)).value) == key(xs[i].value)
    decreases xs
  {
    var k := key(xs[i].value);
    if !(xs[0].Some? && key(xs[0].value) == k) {
      assert xs[i] == xs[1..][i - 1];
      FirstWithFinds(key, xs[1..], i - 1);
    }
  }

  /** A table only grows: what a prefix of the batch put in stays where it is. */
  lemma {:induction false} TablePrefix<T, K>(key: T -> K, xs: seq<Option<T>>, n: nat)
    requires n <= |xs|
    ensures |Table(key, xs[..n])| <= |Table(key, xs)| <= |xs|
    ensures Table(key, xs)[..|Table(key, xs[..n])|] == Table(key, xs[..n])
    decreases |xs|
  {
    if n == |xs| {
      assert xs[..n] == xs;
      if n > 0 {
        assert xs[..n - 1][..n - 1] == xs[..n - 1];
        TablePrefix(key, xs[..n - 1], n - 1);
      }
    } else {
      var front := xs[..|xs| - 1];
      assert front[..n] == xs[..n];
      TablePrefix(key, front, n);
    }
  }

  /** So the index handed out while the batch is read is the index in the final table. */
  lemma {:induction false} TableIndexStable<T, K>(key: T -> K, xs: seq<Option<T>>, n: nat, k: K)
    requires n <= |xs| && IndexOf(key, Table(key, xs[..n]), k) < |Table(key, xs[..n])|
    ensures IndexOf(key, Table(key, xs), k) == IndexOf(key, Table(key, xs[..n]), k)
  {
    TablePrefix(key, xs, n);
    var t, u := Table(key, xs[..n]), Table(key, xs);
    assert u == t + u[|t|..];
    IndexOfAppend(key, t, u[|t|..], k);
  }
}
