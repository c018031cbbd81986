/**
 * The recency list both reassembly engines keep: a linked list of keys, oldest
 * first, and a table from each key to its position in the list. A list node has
 * an identity that stays with it while other nodes come and go, as a list
 * iterator does.
 */
module LruList {

  datatype Node<K> = Node(id: nat, key: K)

  function Keys<K>(nodes: seq<Node<K>>): (ks: seq<K>)
    ensures |ks| == |nodes|
    ensures forall i :: 0 <= i < |nodes| ==> ks[i] == nodes[i].key
  {
    seq(|nodes|, i requires 0 <= i < |nodes| => nodes[i].key)
  }

  lemma KeysAppend<K>(a: seq<Node<K>>, b: seq<Node<K>>)
    ensures Keys(a + b) == Keys(a) + Keys(b)
  {
  }

  lemma KeysSnoc<K>(a: seq<Node<K>>, n: Node<K>)
    ensures Keys(a + [n]) == Keys(a) + [n.key]
  {
    KeysAppend(a, [n]);
    assert Keys([n]) == [n.key];
  }

  // The sequence without the elements equal to k, the others in order.
  function Without<K(==,!new)>(s: seq<K>, k: K): (r: seq<K>)
    ensures forall x :: x in r <==> x in s && x != k
  {
    if s == [] then []
    else if s[0] == k then Without(s[1..], k)
    else [s[0]] + Without(s[1..], k)
  }

  predicate Distinct<K(==)>(s: seq<K>) {
    forall i, j :: 0 <= i < j < |s| ==> s[i] != s[j]
  }

  lemma {:induction false} WithoutDistinct<K(!new)>(s: seq<K>, k: K)
    requires Distinct(s)
    ensures Distinct(Without(s, k))
  {
    if s != [] {
      WithoutDistinct(s[1..], k);
      if s[0] != k {
        assert s[0] !in s[1..];
      }
    }
  }

  lemma {:induction false} WithoutAbsent<K(!new)>(s: seq<K>, k: K)
    requires k !in s
    ensures Without(s, k) == s
  {
    if s != [] {
      WithoutAbsent(s[1..], k);
    }
  }

  // Dropping the one node that holds k drops exactly k.
  lemma {:induction false} WithoutAt<K(!new)>(s: seq<K>, j: nat)
    requires Distinct(s) && j < |s|
    ensures Without(s, s[j]) == s[..j] + s[j + 1..]
  {
    if j == 0 {
      assert s[0] !in s[1..];
      WithoutAbsent(s[1..], s[0]);
    } else {
      assert s[1..][j - 1] == s[j];
      WithoutAt(s[1..], j - 1);
      assert s[..j] == [s[0]] + s[1..][..j - 1];
    }
  }

  // Sum of the weights of the listed keys.
  ghost function Total<K(!new)>(s: seq<K>, w: K -> nat): nat {
    if s == [] then 0 else w(s[0]) + Total(s[1..], w)
  }

  lemma {:induction false} TotalAppend<K(!new)>(s: seq<K>, t: seq<K>, w: K -> nat)
    ensures Total(s + t, w) == Total(s, w) + Total(t, w)
  {
    if s == [] {
      assert s + t == t;
    } else {
      assert (s + t)[1..] == s[1..] + t;
      TotalAppend(s[1..], t, w);
    }
  }

  lemma {:induction false} TotalCongruent<K(!new)>(s: seq<K>, w: K -> nat, v: K -> nat)
    requires forall k :: k in s ==> w(k) == v(k)
    ensures Total(s, w) == Total(s, v)
  {
    if s != [] {
      TotalCongruent(s[1..], w, v);
    }
  }

  lemma {:induction false} TotalWithout<K(!new)>(s: seq<K>, k: K, w: K -> nat)
    requires Distinct(s)
    ensures Total(s, w) == Total(Without(s, k), w) + if k in s then w(k) else 0
  {
    if k in s {
      var j :| 0 <= j < |s| && s[j] == k;
      WithoutAt(s, j);
      assert s == s[..j] + ([k] + s[j + 1..]);
      TotalAppend(s[..j], [k] + s[j + 1..], w);
      TotalAppend(s[..j], s[j + 1..], w);
    } else {
      WithoutAbsent(s, k);
    }
  }

  // The keys of the order that are in ks, in order.
  function Keep<K(==,!new)>(order: seq<K>, ks: set<K>): (r: seq<K>)
    ensures forall k :: k in r <==> k in order && k in ks
  {
    if order == [] then []
    else if order[0] in ks then [order[0]] + Keep(order[1..], ks)
    else Keep(order[1..], ks)
  }

  lemma {:induction false} KeepAll<K(!new)>(order: seq<K>, ks: set<K>)
    requires forall k :: k in order ==> k in ks
    ensures Keep(order, ks) == order
  {
    if order != [] {
      KeepAll(order[1..], ks);
    }
  }

  lemma {:induction false} KeepWithout<K(!new)>(order: seq<K>, ks: set<K>, k: K)
    ensures Without(Keep(order, ks), k) == Keep(order, ks - {k})
  {
    if order != [] {
      KeepWithout(order[1..], ks, k);
      var rest := Keep(order[1..], ks);
      if order[0] in ks {
        assert ([order[0]] + rest)[1..] == rest;
      }
    }
  }

  lemma {:induction false} KeepFacts<K(!new)>(order: seq<K>, ks: set<K>, w: K -> nat)
    requires Distinct(order)
    ensures Distinct(Keep(order, ks))
    ensures Total(Keep(order, ks), w) <= Total(order, w)
  {
    if order != [] {
      KeepFacts(order[1..], ks, w);
      assert order[0] !in order[1..];
    }
  }

  // ---- a table whose keys the list orders, and what its entries weigh ----

  ghost predicate Names<K(!new), V>(order: seq<K>, table: map<K, V>) {
    Distinct(order) && forall k :: k in table <==> k in order
  }

  ghost function WeightIn<K(!new), V>(table: map<K, V>, w: V -> nat): K -> nat {
    k => if k in table then w(table[k]) else 0
  }

  ghost function Weight<K(!new), V>(order: seq<K>, table: map<K, V>, w: V -> nat): nat {
    Total(order, WeightIn(table, w))
  }

  lemma Sizes<K, V>(a: map<K, V>, b: map<K, V>, k: K)
    ensures b.Keys == a.Keys + {k} ==> |b| == |a| + if k in a then 0 else 1
    ensures b.Keys == a.Keys - {k} ==> |b| == |a| - if k in a then 1 else 0
  {
    assert |a| == |a.Keys| && |b| == |b.Keys|;
  }

  lemma PopNames<K(!new), V>(order: seq<K>, table: map<K, V>, w: V -> nat)
    requires Names(order, table) && order != []
    ensures var k, rest := order[0], table - {order[0]};
            && k in table && Names(order[1..], rest) && |rest| == |table| - 1
            && Weight(order[1..], rest, w) == Weight(order, table, w) - w(table[k])
  {
    var k := order[0];
    assert k in order;
    assert forall j :: 0 < j < |order| ==> order[j] != k;
    TotalCongruent(order[1..], WeightIn(table - {k}, w), WeightIn(table, w));
    Sizes(table, table - {k}, k);
  }

  lemma DropNames<K(!new), V>(order: seq<K>, table: map<K, V>, k: K, w: V -> nat)
    requires Names(order, table) && k in table
    ensures Names(Without(order, k), table - {k}) && |table - {k}| == |table| - 1
    ensures Weight(Without(order, k), table - {k}, w) == Weight(order, table, w) - w(table[k])
  {
    WithoutDistinct(order, k);
    TotalWithout(order, k, WeightIn(table, w));
    TotalCongruent(Without(order, k), WeightIn(table - {k}, w), WeightIn(table, w));
    Sizes(table, table - {k}, k);
  }

  lemma TotalOne<K(!new)>(k: K, w: K -> nat)
    ensures Total([k], w) == w(k)
  {
    assert [k][1..] == [];
  }

  // Storing an entry and moving its key to the recent end.
  lemma TouchNames<K(!new), V>(order: seq<K>, table: map<K, V>, k: K, v: V, w: V -> nat)
    requires Names(order, table)
    ensures Names(Without(order, k) + [k], table[k := v])
    ensures |table[k := v]| == |table| + if k in table then 0 else 1
    ensures Weight(Without(order, k) + [k], table[k := v], w)
         == Weight(order, table, w) + w(v) - if k in table then w(table[k]) else 0
  {
    hide Without, Total;
    WithoutDistinct(order, k);
    TotalOne(k, WeightIn(table[k := v], w));
    TotalWithout(order, k, WeightIn(table, w));
    TotalCongruent(Without(order, k), WeightIn(table[k := v], w), WeightIn(table, w));
    TotalAppend(Without(order, k), [k], WeightIn(table[k := v], w));
    Sizes(table, table[k := v], k);
  }

  lemma PutNames<K(!new), V>(order: seq<K>, table: map<K, V>, k: K, v: V, w: V -> nat)
    requires Names(order, table) && k in table
    ensures Names(order, table[k := v]) && |table[k := v]| == |table|
    ensures Weight(order, table[k := v], w) == Weight(order, table, w) + w(v) - w(table[k])
  {
    TotalWithout(order, k, WeightIn(table, w));
    TotalWithout(order, k, WeightIn(table[k := v], w));
    TotalCongruent(Without(order, k), WeightIn(table[k := v], w), WeightIn(table, w));
    Sizes(table, table[k := v], k);
  }

  function Only<K, V>(table: map<K, V>, ks: set<K>): map<K, V> {
    map k | k in table && k in ks :: table[k]
  }

  lemma {:induction false} SubsetSize<T>(a: set<T>, b: set<T>)
    requires a <= b
    ensures |a| <= |b|
  {
    if a != {} {
      var x :| x in a;
      SubsetSize(a - {x}, b - {x});
    }
  }

  // Dropping some of the keys from both.
  lemma KeepNames<K(!new), V>(order: seq<K>, table: map<K, V>, ks: set<K>, w: V -> nat)
    requires Names(order, table)
    ensures Names(Keep(order, ks), Only(table, ks)) && |Only(table, ks)| <= |table|
    ensures Weight(Keep(order, ks), Only(table, ks), w) <= Weight(order, table, w)
  {
    KeepFacts(order, ks, WeightIn(table, w));
    TotalCongruent(Keep(order, ks), WeightIn(Only(table, ks), w), WeightIn(table, w));
    SubsetSize(Only(table, ks).Keys, table.Keys);
    assert |Only(table, ks)| == |Only(table, ks).Keys| && |table| == |table.Keys|;
  }

  predicate DistinctIds<K>(nodes: seq<Node<K>>) {
    forall i, j :: 0 <= i < j < |nodes| ==> nodes[i].id != nodes[j].id
  }

  lemma RemovedAt<K(!new)>(nodes: seq<Node<K>>, i: nat)
    requires DistinctIds(nodes) && i < |nodes|
    requires forall n :: n in nodes && n.key == nodes[i].key ==> n.id == nodes[i].id
    ensures DistinctIds(nodes[..i] + nodes[i + 1..])
    ensures forall n :: n in nodes[..i] + nodes[i + 1..] <==> n in nodes && n.key != nodes[i].key
    ensures Keys(nodes[..i] + nodes[i + 1..]) == Keys(nodes)[..i] + Keys(nodes)[i + 1..]
  {
    var rest := nodes[..i] + nodes[i + 1..];
    KeysAppend(nodes[..i], nodes[i + 1..]);
    assert Keys(nodes[..i]) == Keys(nodes)[..i];
    assert Keys(nodes[i + 1..]) == Keys(nodes)[i + 1..];
    forall n | n in nodes && n.key != nodes[i].key ensures n in rest {
      var j :| 0 <= j < |nodes| && nodes[j] == n;
      assert rest[if j < i then j else j - 1] == n;
    }
  }

  class Lru<K(==,!new)> {
    var nodes: seq<Node<K>>
    var pos: map<K, nat>
    var nextId: nat

    ghost predicate Valid()
      reads this
    {
      && DistinctIds(nodes)
      && (forall n :: n in nodes ==> n.id < nextId && n.key in pos && pos[n.key] == n.id)
      && (forall k :: k in pos ==> Node(pos[k], k) in nodes)
    }

    ghost function Order(): seq<K>
      reads this
    {
      Keys(nodes)
    }

    constructor ()
      ensures Valid() && Order() == []
    {
      nodes, pos, nextId := [], map[], 0;
    }

    // The list and the index name the same keys, each once.
    lemma IndexAgrees()
      requires Valid()
      ensures Distinct(Order())
      ensures forall k :: k in pos <==> k in Order()
    {
      forall k ensures k in pos <==> k in Order() {
        if k in pos {
          var i :| 0 <= i < |nodes| && nodes[i] == Node(pos[k], k);
          assert Order()[i] == k;
        }
      }
    }

    // Unlink the node that the index has for k.
    method Unlink(k: K)
      requires Valid() && k in pos
      modifies this`nodes
      ensures Order() == Without(old(Order()), k)
      ensures DistinctIds(nodes)
      ensures forall n :: n in nodes <==> n in old(nodes) && n.key != k
    {
      var i := 0;
      while nodes[i].id != pos[k]
        invariant 0 <= i < |nodes|
        invariant Node(pos[k], k) in nodes[i..]
        decreases |nodes| - i
      {
        i := i + 1;
      }
      assert nodes[i] in nodes;
      var j :| 0 <= j < |nodes| && nodes[j] == Node(pos[k], k);
      assert nodes[i].key == k;
      IndexAgrees();
      WithoutAt(Order(), i);
      nodes := nodes[..i] + nodes[i + 1..];
      RemovedAt(old(nodes), i);
    }

    method Touch(k: K)
      requires Valid()
      modifies this
      ensures Valid()
      ensures Order() == Without(old(Order()), k) + [k]
    {
      hide Without, Distinct;
      IndexAgrees();
      if k in pos {
        Unlink(k);
      } else {
        WithoutAbsent(Order(), k);
      }
      KeysSnoc(nodes, Node(nextId, k));
      nodes := nodes + [Node(nextId, k)];
      pos := pos[k := nextId];
      nextId := nextId + 1;
      assert Node(pos[k], k) == nodes[|nodes| - 1];
    }

    method Remove(k: K)
      requires Valid()
      modifies this
      ensures Valid()
      ensures Order() == Without(old(Order()), k)
    {
      hide Without, Distinct, Keys;
      IndexAgrees();
      if k in pos {
        Unlink(k);
        pos := pos - {k};
      } else {
        WithoutAbsent(Order(), k);
      }
    }

    method Empty() returns (e: bool)
      ensures e == (Order() == [])
    {
      e := nodes == [];
    }

    method Front() returns (k: K)
      requires Order() != []
      ensures k == Order()[0]
    {
      k := nodes[0].key;
    }

    method PopFront() returns (k: K)
      requires Valid() && Order() != []
      modifies this
      ensures Valid()
      ensures k == old(Order())[0] && Order() == old(Order())[1..]
    {
      IndexAgrees();
      k := nodes[0].key;
      WithoutAt(Order(), 0);
      assert Order()[..0] + Order()[1..] == Order()[1..];
      Remove(k);
    }
  }
}
