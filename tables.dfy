/**
 * The string-keyed dictionaries the statistics handlers fill: insertion-ordered
 * lists of (key, value) pairs with distinct keys, looked up by key, and
 * `sorted(d.items(), key=lambda x: x[0])` over them.
 */
module Tables {
  import opened Wrappers
  import opened Text

  type Table<B> = seq<(string, B)>

  predicate DistinctKeys<B>(t: Table<B>) {
    forall i, j :: 0 <= i < j < |t| ==> t[i].0 != t[j].0
  }

  /** `k in d`, and where. */
  function Find<B>(t: Table<B>, k: string): (r: Option<nat>)
    ensures r.Some? ==> r.value < |t| && t[r.value].0 == k
    ensures r.None? <==> forall i :: 0 <= i < |t| ==> t[i].0 != k
    decreases |t|
  {
    if |t| == 0 then None
    else if t[|t| - 1].0 == k then Some(|t| - 1)
    else Find(t[..|t| - 1], k)
  }

  /** Keys in strictly ascending code-point order. */
  predicate Ascending<B>(t: Table<B>) {
    forall i, j :: 0 <= i < j < |t| ==> StringLess(t[i].0, t[j].0)
  }

  /** `item` placed before the first key greater than its own. */
  function InsertByKey<B>(sorted: Table<B>, item: (string, B)): (r: Table<B>)
    ensures multiset(r) == multiset(sorted) + multiset{item}
    decreases |sorted|
  {
    if |sorted| == 0 then [item]
    else if StringLess(item.0, sorted[0].0) then [item] + sorted
    else
      assert sorted == [sorted[0]] + sorted[1..];
      [sorted[0]] + InsertByKey(sorted[1..], item)
  }

  /** A key below every key of an ascending table can go in front of it. */
  lemma ConsAscending<B>(x: (string, B), rest: Table<B>)
    requires Ascending(rest)
    requires forall i :: 0 <= i < |rest| ==> StringLess(x.0, rest[i].0)
    ensures Ascending([x] + rest)
  {
    var r := [x] + rest;
    forall i, j | 0 <= i < j < |r|
      ensures StringLess(r[i].0, r[j].0)
    {
      assert r[j] == rest[j - 1];
      if i > 0 {
        assert r[i] == rest[i - 1];
      }
    }
  }

  lemma {:induction false} InsertKeepsAscending<B>(sorted: Table<B>, item: (string, B))
    requires Ascending(sorted)
    requires forall i :: 0 <= i < |sorted| ==> sorted[i].0 != item.0
    ensures Ascending(InsertByKey(sorted, item))
    decreases |sorted|
  {
    if |sorted| > 0 && StringLess(item.0, sorted[0].0) {
      forall i | 0 <= i < |sorted|
        ensures StringLess(item.0, sorted[i].0)
      {
        if i > 0 {
          StringLessTransitive(item.0, sorted[0].0, sorted[i].0);
        }
      }
      ConsAscending(item, sorted);
    } else if |sorted| > 0 {
      var tail := sorted[1..];
      var rest := InsertByKey(tail, item);
      InsertKeepsAscending(tail, item);
      StringLessTotal(item.0, sorted[0].0);
      forall i | 0 <= i < |rest|
        ensures StringLess(sorted[0].0, rest[i].0)
      {
        assert rest[i] in multiset(rest);
        if rest[i] != item {
          assert rest[i] in multiset(tail);
          var j :| 0 <= j < |tail| && tail[j] == rest[i];
          assert sorted[j + 1] == rest[i];
        }
      }
      ConsAscending(sorted[0], rest);
    }
  }

  /** `sorted(d.items(), key=lambda x: x[0])`: the same pairs, keys ascending. */
  method SortByKey<B>(t: Table<B>) returns (sorted: Table<B>)
    requires DistinctKeys(t)
    ensures multiset(sorted) == multiset(t)
    ensures Ascending(sorted)
  {
    sorted := [];
    var i := 0;
    while i < |t|
      invariant 0 <= i <= |t|
      invariant Ascending(sorted)
      invariant multiset(sorted) == multiset(t[..i])
    {
      forall j | 0 <= j < |sorted|
        ensures sorted[j].0 != t[i].0
      {
        assert sorted[j] in multiset(t[..i]);
        var m :| 0 <= m < i && t[m] == sorted[j];
      }
      assert t[..i + 1] == t[..i] + [t[i]];
      InsertKeepsAscending(sorted, t[i]);
      sorted := InsertByKey(sorted, t[i]);
      i := i + 1;
    }
    assert t[..i] == t;
  }

  predicate HasKey<B>(t: Table<B>, k: string) {
    exists i :: 0 <= i < |t| && t[i].0 == k
  }

  /** Every key of `t` is still a key of `u`. */
  ghost predicate KeysKept<B>(t: Table<B>, u: Table<B>) {
    forall k: string :: HasKey(t, k) ==> HasKey(u, k)
  }

  lemma KeysKeptUpdate<B>(t: Table<B>, k: nat, item: (string, B))
    requires k < |t| && item.0 == t[k].0
    ensures KeysKept(t, t[k := item])
    ensures DistinctKeys(t) ==> DistinctKeys(t[k := item])
  {
    var u := t[k := item];
    forall key: string | HasKey(t, key)
      ensures HasKey(u, key)
    {
      var j :| 0 <= j < |t| && t[j].0 == key;
      assert u[j].0 == t[j].0;
    }
    assert forall i :: 0 <= i < |u| ==> u[i].0 == t[i].0;
  }

  lemma KeysKeptAppend<B>(t: Table<B>, item: (string, B))
    ensures KeysKept(t, t + [item]) && HasKey(t + [item], item.0)
    ensures DistinctKeys(t) && !HasKey(t, item.0) ==> DistinctKeys(t + [item])
  {
    var u := t + [item];
    forall key: string | HasKey(t, key)
      ensures HasKey(u, key)
    {
      var j :| 0 <= j < |t| && t[j].0 == key;
      assert u[j] == t[j];
    }
    assert u[|t|] == item;
  }
}
