/** What the signature of a configuration bundle fixes, and what applying the bundle writes. */
module ConfigSigning {
  import opened Machine
  import opened CanonicalText
  import opened Base64
  import opened RuleSigning

  // json is the item's canonical text, which holds its value.
  datatype Item = Item(name: string, json: seq<octet>)

  const NAMES: set<string> := {"app_w_list", "process_w_list", "fw_ip_w_list", "fw_ip_b_list",
                               "fw_port_w_list", "fw_port_b_list", "rule_enable"}

  predicate ValidItems(items: seq<Item>) {
    forall it :: it in items ==> it.name in NAMES
  }

  function ItemLine(it: Item): string {
    "item:" + it.name + ":" + Encode(it.json)
  }

  function ItemLines(items: seq<Item>): (lines: seq<string>)
    ensures |lines| == |items|
  {
    seq(|items|, i requires 0 <= i < |items| => ItemLine(items[i]))
  }

  function SignedItems(h: Header, items: seq<Item>): string {
    CanonicalBytes(Configs, h, Sort(ItemLines(items)))
  }

  // An item whose JSON text is "foo".
  lemma ItemText()
    ensures ItemLine(Item("rule_enable", [102, 111, 111])) == "item:rule_enable:Zm9v"
  {
    hide Encode;
    TestVectors();
  }

  // Items are written in bundle order, each to the file of its name.
  function Files(items: seq<Item>): map<string, seq<octet>> {
    if items == [] then map[]
    else Files(items[..|items| - 1])[items[|items| - 1].name := items[|items| - 1].json]
  }

  lemma NamesAreWords(name: string)
    requires name in NAMES
    ensures ':' !in name && OneLine(name)
  {
  }

  lemma ItemBehind(x: Item)
    ensures |ItemLine(x)| >= 5 && ItemLine(x)[5..] == x.name + ":" + Encode(x.json)
  {
    hide Encode;
  }

  lemma ItemLineInjective(x: Item, y: Item)
    requires x.name in NAMES && y.name in NAMES && ItemLine(x) == ItemLine(y)
    ensures x == y
  {
    hide Encode, NAMES;
    ItemBehind(x);
    ItemBehind(y);
    NamesAreWords(x.name);
    NamesAreWords(y.name);
    SplitAtColon(x.name, Encode(x.json), y.name, Encode(y.json));
    EncodeInjective(x.json, y.json);
  }

  lemma ItemLinePayload(it: Item)
    requires it.name in NAMES
    ensures IsPayload(ItemLine(it))
  {
    hide Encode;
    NamesAreWords(it.name);
    EncodeShape(it.json);
    assert ItemLine(it)[..5] == "item:";
  }

  lemma SortedItemsPayload(items: seq<Item>)
    requires ValidItems(items)
    ensures ArePayload(Sort(ItemLines(items)))
  {
    hide Sort, ItemLine, IsPayload;
    var lines := ItemLines(items);
    forall k | 0 <= k < |Sort(lines)| ensures IsPayload(Sort(lines)[k]) {
      assert Sort(lines)[k] in multiset(lines);
      var i :| 0 <= i < |lines| && lines[i] == Sort(lines)[k];
      ItemLinePayload(items[i]);
    }
  }

  lemma {:induction false} ItemCount(items: seq<Item>, it: Item)
    requires ValidItems(items) && it.name in NAMES
    ensures multiset(items)[it] == multiset(ItemLines(items))[ItemLine(it)]
  {
    hide ItemLine, NAMES;
    if items != [] {
      var n := |items| - 1;
      ItemCount(items[..n], it);
      assert items == items[..n] + [items[n]];
      assert ItemLines(items) == ItemLines(items[..n]) + [ItemLine(items[n])];
      if ItemLine(items[n]) == ItemLine(it) {
        ItemLineInjective(items[n], it);
      }
    }
  }

  // Equal signed bytes mean the same header and the same items, but not their order.
  lemma SignedItemsUnique(x: Header, a: seq<Item>, y: Header, b: seq<Item>)
    requires OneLineFields(x) && ValidItems(a) && ValidItems(b)
    ensures SignedItems(x, a) == SignedItems(y, b) <==> x == y && multiset(a) == multiset(b)
  {
    hide Sort, CanonicalBytes, OneLineFields, NAMES, ItemLine;
    SortedItemsPayload(a);
    SortedItemsPayload(b);
    if SignedItems(x, a) == SignedItems(y, b) {
      SignedBytesUnique(Configs, x, Sort(ItemLines(a)), Configs, y, Sort(ItemLines(b)));
      forall it: Item ensures multiset(a)[it] == multiset(b)[it] {
        if it.name in NAMES {
          ItemCount(a, it);
          ItemCount(b, it);
        } else {
          assert it !in a && it !in b;
        }
      }
    }
    if multiset(a) == multiset(b) {
      SameItemsSameLines(a, b);
    }
  }

  lemma {:induction false} SameItemsSameLines(a: seq<Item>, b: seq<Item>)
    requires multiset(a) == multiset(b)
    ensures Sort(ItemLines(a)) == Sort(ItemLines(b))
  {
    hide Sort, Sorted;
    LinesOfItems(a, b);
    SortSorts(ItemLines(a));
    SortSorts(ItemLines(b));
    SortedUnique(Sort(ItemLines(a)), Sort(ItemLines(b)));
  }

  lemma {:induction false} LinesOfItems(a: seq<Item>, b: seq<Item>)
    requires multiset(a) == multiset(b)
    ensures multiset(ItemLines(a)) == multiset(ItemLines(b))
    decreases |a|
  {
    hide ItemLine, ItemLines;
    assert |multiset(a)| == |a| && |multiset(b)| == |b|;
    if a == [] {
      assert b == [];
    } else {
      var n := |a| - 1;
      assert a[n] in multiset(b);
      var j :| 0 <= j < |b| && b[j] == a[n];
      TakenOut(a, n);
      TakenOut(b, j);
      assert multiset(Out(a, n)) == multiset(a) - multiset{a[n]};
      assert multiset(Out(b, j)) == multiset(b) - multiset{b[j]};
      LinesOfItems(Out(a, n), Out(b, j));
    }
  }

  function Out(items: seq<Item>, i: nat): seq<Item>
    requires i < |items|
  {
    items[..i] + items[i + 1..]
  }

  lemma TakenOut(items: seq<Item>, i: nat)
    requires i < |items|
    ensures multiset(items) == multiset(Out(items, i)) + multiset{items[i]}
    ensures multiset(ItemLines(items)) == multiset(ItemLines(Out(items, i))) + multiset{ItemLine(items[i])}
  {
    hide ItemLine;
    var lines, out := ItemLines(items), ItemLines(Out(items, i));
    assert items == items[..i] + [items[i]] + items[i + 1..];
    assert lines == out[..i] + [lines[i]] + out[i..];
    assert out == out[..i] + out[i..];
  }

  // No two items give one name different contents.
  predicate Agree(items: seq<Item>) {
    forall i, j :: 0 <= i < |items| && 0 <= j < |items| && items[i].name == items[j].name ==>
      items[i].json == items[j].json
  }

  lemma {:induction false} FilesNames(items: seq<Item>)
    ensures forall name :: name in Files(items) <==> exists i :: 0 <= i < |items| && items[i].name == name
    ensures forall name :: name in Files(items) ==> Item(name, Files(items)[name]) in items
  {
    if items != [] {
      var n := |items| - 1;
      FilesNames(items[..n]);
      forall name ensures name in Files(items) <==> exists i :: 0 <= i < |items| && items[i].name == name {
        if name in Files(items[..n]) {
          var i :| 0 <= i < n && items[..n][i].name == name;
          assert items[i].name == name;
        }
        if i :| 0 <= i < |items| && items[i].name == name {
          assert i < n ==> items[..n][i].name == name;
        }
      }
      assert Item(items[n].name, items[n].json) == items[n];
    }
  }

  lemma OrderFree(xs: seq<Item>, ys: seq<Item>)
    requires multiset(xs) == multiset(ys) && Agree(xs)
    ensures Files(xs) == Files(ys)
  {
    hide Files;
    FilesNames(xs);
    FilesNames(ys);
    SameNames(xs, ys);
    SameNames(ys, xs);
    forall name | name in Files(xs) ensures Files(xs)[name] == Files(ys)[name] {
      assert Item(name, Files(ys)[name]) in multiset(xs);
    }
  }

  lemma SameNames(xs: seq<Item>, ys: seq<Item>)
    requires multiset(xs) == multiset(ys)
    ensures forall name :: name in Files(xs) ==> name in Files(ys)
  {
    hide Files;
    FilesNames(xs);
    FilesNames(ys);
    forall name | name in Files(xs) ensures name in Files(ys) {
      var it := Item(name, Files(xs)[name]);
      assert it in multiset(ys);
      var i :| 0 <= i < |ys| && ys[i] == it;
    }
  }

  function MovedLast(xs: seq<Item>, i: nat): seq<Item>
    requires i < |xs|
  {
    Out(xs, i) + [xs[i]]
  }

  lemma MovedLastFiles(xs: seq<Item>, i: nat)
    requires i < |xs|
    ensures multiset(MovedLast(xs, i)) == multiset(xs)
    ensures xs[i].name in Files(MovedLast(xs, i)) && Files(MovedLast(xs, i))[xs[i].name] == xs[i].json
  {
    TakenOut(xs, i);
  }

  // The signature fixes what is written exactly when no name is given two contents.
  lemma OutcomeSigned(h: Header, xs: seq<Item>)
    requires OneLineFields(h) && ValidItems(xs)
    ensures Agree(xs) <==>
      forall ys :: ValidItems(ys) && SignedItems(h, ys) == SignedItems(h, xs) ==> Files(ys) == Files(xs)
  {
    hide Files, SignedItems, NAMES, OneLineFields;
    if Agree(xs) {
      forall ys | ValidItems(ys) && SignedItems(h, ys) == SignedItems(h, xs) ensures Files(ys) == Files(xs) {
        SignedItemsUnique(h, xs, h, ys);
        OrderFree(xs, ys);
      }
    } else {
      var i, j :| 0 <= i < |xs| && 0 <= j < |xs| && xs[i].name == xs[j].name && xs[i].json != xs[j].json;
      Rearranged(h, xs, i);
      Rearranged(h, xs, j);
      assert Files(MovedLast(xs, i)) != Files(MovedLast(xs, j));
    }
  }

  lemma Rearranged(h: Header, xs: seq<Item>, i: nat)
    requires OneLineFields(h) && ValidItems(xs) && i < |xs|
    ensures ValidItems(MovedLast(xs, i)) && SignedItems(h, MovedLast(xs, i)) == SignedItems(h, xs)
    ensures xs[i].name in Files(MovedLast(xs, i)) && Files(MovedLast(xs, i))[xs[i].name] == xs[i].json
  {
    hide Files, SignedItems, NAMES, OneLineFields;
    MovedLastFiles(xs, i);
    SignedItemsUnique(h, xs, h, MovedLast(xs, i));
  }
}
