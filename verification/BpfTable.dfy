/** bcc's tables: walking and clearing a kernel hash map, and reading a kernel array. */
module BpfTable {
  import opened Basics

  function IndexOf<T(==)>(s: seq<T>, x: T): (i: nat)
    ensures i <= |s|
    ensures i < |s| ==> s[i] == x
    ensures x in s ==> i < |s|
  {
    if s == [] then 0 else if s[0] == x then 0 else 1 + IndexOf(s[1..], x)
  }

  lemma EveryKeyWalked<K, V>(order: seq<K>, table: map<K, V>, res: seq<(K, V)>)
    requires |res| == |order| && forall i :: 0 <= i < |res| ==> res[i].0 == order[i]
    requires forall k :: k in table ==> k in order
    ensures forall k :: k in table ==> exists i :: 0 <= i < |res| && res[i].0 == k
  {
    forall k | k in table ensures exists i :: 0 <= i < |res| && res[i].0 == k {
      var i :| 0 <= i < |order| && order[i] == k;
      assert res[i].0 == k;
    }
  }

  /** A kernel hash map behind a file descriptor.  `order` is the order in which the kernel walks the
      buckets, which the caller does not know. */
  class HashTable<K(==, !new), V> {
    var table: map<K, V>
    var order: seq<K>

    ghost predicate Valid()
      reads this
    {
      && NoRepeats(order)
      && |order| == |table|
      && (forall k :: k in order <==> k in table)
    }

    /** `first`: a key, unless the map is empty. */
    method First() returns (key: Option<K>)
      requires Valid()
      ensures key == if order == [] then None else Some(order[0])
    {
      key := if order == [] then None else Some(order[0]);
    }

    /** `next`: the key after a given one, unless that was the last; for an absent key, the first. */
    method Next(key: K) returns (next: Option<K>)
      requires Valid()
      ensures key in order ==>
                var i := IndexOf(order, key);
                next == if i + 1 < |order| then Some(order[i + 1]) else None
      ensures key !in order ==> next == if order == [] then None else Some(order[0])
    {
      var i := IndexOf(order, key);
      if i == |order| {
        next := First();
      } else {
        next := if i + 1 < |order| then Some(order[i + 1]) else None;
      }
    }

    method GetValue(key: K) returns (value: Option<V>)
      ensures value == if key in table then Some(table[key]) else None
    {
      value := if key in table then Some(table[key]) else None;
    }

    /** `remove_value`; the kernel refuses an absent key, and may refuse a present one. */
    method RemoveValue(key: K, refused: bool) returns (code: int)
      requires Valid()
      modifies this
      ensures Valid()
      ensures code == if refused || key !in old(table) then -1 else 0
      ensures code != 0 ==> table == old(table) && order == old(order)
      ensures code == 0 ==> table == old(table) - {key} && |table| == |old(table)| - 1
    {
      if refused || key !in table {
        return -1;
      }
      var i := IndexOf(order, key);
      RemoveAt(order, i);
      assert (table - {key}).Keys == table.Keys - {key};
      assert |table - {key}| == |(table - {key}).Keys| && |table| == |table.Keys|;
      table := table - {key};
      order := order[..i] + order[i + 1..];
      code := 0;
    }

    /** `BPFHashTable::get_table_offline` on a map that nobody else changes: every key, once, with its
        value. */
    method GetTableOffline() returns (res: seq<(K, V)>)
      requires Valid()
      ensures |res| == |table|
      ensures forall i :: 0 <= i < |res| ==> res[i].0 in table && res[i].1 == table[res[i].0]
      ensures forall i, j :: 0 <= i < j < |res| ==> res[i].0 != res[j].0
      ensures forall k :: k in table ==> exists i :: 0 <= i < |res| && res[i].0 == k
    {
      hide IndexOf;
      res := [];
      var first := First();
      if first.None? {
        return;
      }
      var cur := first.value;
      ghost var n := 0;
      while true
        invariant 0 <= n < |order| && cur == order[n]
        invariant |res| == n
        invariant forall i :: 0 <= i < n ==> res[i] == (order[i], table[order[i]])
        decreases |order| - n
      {
        var value := GetValue(cur);
        if value.None? {
          break;
        }
        res := res + [(cur, value.value)];
        IndexIs(order, n);
        var next := Next(cur);
        if next.None? {
          n := n + 1;
          break;
        }
        cur := next.value;
        n := n + 1;
      }
      EveryKeyWalked(order, table, res);
    }

    /** `BPFHashTable::clear_table_non_atomic`: it ends, with an empty map if it reports success, and
        otherwise stops at the removal that the kernel refused. */
    method ClearTableNonAtomic(refuse: K -> bool) returns (code: int)
      requires Valid()
      modifies this
      ensures Valid()
      ensures code == 0 <==> table == map[]
      ensures code == 0 <==> forall k :: k in old(table) ==> !refuse(k)
      ensures table.Keys <= old(table).Keys && forall k :: k in table ==> table[k] == old(table)[k]
      ensures forall k :: k in old(table) && k !in table ==> !refuse(k)
    {
      var cur := First();
      while cur.Some?
        invariant Valid() && cur == if order == [] then None else Some(order[0])
        invariant table.Keys <= old(table).Keys && forall k :: k in table ==> table[k] == old(table)[k]
        invariant forall k :: k in old(table) && k !in table ==> !refuse(k)
        decreases |table|
      {
        assert order[0] in table;
        code := RemoveValue(cur.value, refuse(cur.value));
        if code != 0 {
          return;
        }
        cur := First();
      }
      code := 0;
      assert table.Keys == {};
    }
  }

  lemma RemoveAt<T(!new)>(s: seq<T>, i: nat)
    requires NoRepeats(s) && i < |s|
    ensures var r := s[..i] + s[i + 1..];
            NoRepeats(r) && forall x :: x in r <==> x in s && x != s[i]
  {
    var r := s[..i] + s[i + 1..];
    forall x ensures x in r <==> x in s && x != s[i] {
      if x in s && x != s[i] {
        var j :| 0 <= j < |s| && s[j] == x;
        assert x == if j < i then r[j] else r[j - 1];
      }
    }
  }

  lemma IndexIs<T>(s: seq<T>, n: nat)
    requires NoRepeats(s) && n < |s|
    ensures IndexOf(s, s[n]) == n
  {
    var i := IndexOf(s, s[n]);
    assert s[n] in s;
    assert s[i] == s[n];
  }

  /** `BPFArrayTable::get_table_offline`: `res` starts out as so many default values, and the loop
      counts in `int`.  `lookups` are the outcomes of the lookups; one that fails leaves the default. */
  method GetArrayOffline<V>(lookups: seq<Option<V>>, default: V) returns (res: seq<V>)
    requires |lookups| < 0x1_0000_0000
    ensures |res| == |lookups|
    ensures forall i :: 0 <= i < |res| ==>
              res[i] == if |lookups| < 0x8000_0000 && lookups[i].Some? then lookups[i].value else default
  {
    res := seq(|lookups|, i => default);
    var i := 0;
    var bound := ToI32(|lookups|);
    while i < bound
      invariant 0 <= i && (bound > 0 ==> i <= bound == |lookups|) && |res| == |lookups|
      invariant forall j :: 0 <= j < |res| ==> res[j] == if j < i && lookups[j].Some? then lookups[j].value else default
      invariant bound <= 0 ==> i == 0
    {
      if lookups[i].Some? {
        res := res[i := lookups[i].value];
      }
      i := i + 1;
    }
  }
}
