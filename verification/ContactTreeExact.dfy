/** The order of the names letter by letter, the shape of a rebalanced tree, and what exactly a
    deletion keeps (module2/4_3/contacts.c, lines 20-24, 48-68 and 75-100). */
module ContactTreeExact {
  import opened ContactTree

  // ---------- the order ----------

  /** `k` is the length of the common prefix of two names. */
  ghost predicate Parted(a: string, b: string, k: nat) {
    k <= |a| && k <= |b| && a[..k] == b[..k] && (k == |a| || k == |b| || a[k] != b[k])
  }

  /** The smaller of two names is the one with the smaller character behind their common prefix, or
      the one that ends there. */
  lemma {:induction false} StrcmpIsLexicographic(a: string, b: string, k: nat)
    requires Parted(a, b, k)
    ensures Strcmp(a, b) < 0 <==> k < |b| && (k == |a| || a[k] < b[k])
    ensures Strcmp(a, b) == 0 <==> k == |a| == |b|
  {
    if k > 0 {
      assert a[0] == a[..k][0] == b[..k][0] == b[0];
      assert a[1..][..k - 1] == a[..k][1..] == b[..k][1..] == b[1..][..k - 1];
      StrcmpIsLexicographic(a[1..], b[1..], k - 1);
    }
  }

  lemma {:induction false} PartedSomewhere(a: string, b: string) returns (k: nat)
    ensures Parted(a, b, k)
  {
    if a == "" || b == "" || a[0] != b[0] {
      k := 0;
    } else {
      var i := PartedSomewhere(a[1..], b[1..]);
      k := i + 1;
      assert a[..k] == [a[0]] + a[1..][..i] && b[..k] == [b[0]] + b[1..][..i];
    }
  }

  /** The last name decides, and the name between equal last names. */
  lemma {:induction false} LastNameFirst(a: Entry, b: Entry)
    ensures Compare(a, b) < 0 <==>
            Strcmp(a.lastname, b.lastname) < 0 || (a.lastname == b.lastname && Strcmp(a.name, b.name) < 0)
  {
    StrcmpOrder(a.lastname, b.lastname);
  }

  // ---------- rebalancing ----------

  /** At every node the right subtree has as many nodes as the left one, or one more. */
  ghost predicate Even(t: Tree) {
    t.Node? ==> Size(t.left) <= Size(t.right) <= Size(t.left) + 1 && Even(t.left) && Even(t.right)
  }

  lemma {:induction false} BalancedIsEven(s: seq<Item>)
    ensures Even(Balanced(s)) && Size(Balanced(s)) == |s|
  {
    if s != [] {
      var mid := (|s| - 1) / 2;
      BalancedIsEven(s[..mid]);
      BalancedIsEven(s[mid + 1..]);
    }
  }

  /** Rebalancing puts the lower middle at the root, at every level. */
  lemma {:induction false} RebalancedIsEven(t: Tree)
    ensures Even(Rebalanced(t))
  {
    if Size(t) >= 2 {
      BalancedIsEven(InOrder(t));
    }
  }

  /** Which fixes the tree: two trees of this kind with the same listing are equal. */
  lemma {:induction false} EvenIsUnique(t: Tree, u: Tree)
    requires Even(t) && Even(u) && InOrder(t) == InOrder(u)
    ensures t == u
  {
    SizeIsLength(t);
    SizeIsLength(u);
    if t.Node? && u.Node? {
      SizeIsLength(t.left);
      SizeIsLength(u.left);
      var n := Size(t.left);
      assert InOrder(t)[..n] == InOrder(t.left) && InOrder(u)[..n] == InOrder(u.left);
      assert InOrder(t)[n] == t.item && InOrder(u)[n] == u.item;
      assert InOrder(t)[n + 1..] == InOrder(t.right) && InOrder(u)[n + 1..] == InOrder(u.right);
      EvenIsUnique(t.left, u.left);
      EvenIsUnique(t.right, u.right);
    }
  }

  // ---------- deletion ----------

  /** `whole` and `kept` differ between `before` and `after` only. */
  ghost predicate Within(before: seq<Item>, was: seq<Item>, put: seq<Item>, after: seq<Item>, whole: seq<Item>,
                         kept: seq<Item>) {
    whole == before + was + after && kept == before + put + after
  }

  lemma {:induction false} WithinLeft(before: seq<Item>, was: seq<Item>, put: seq<Item>, after: seq<Item>,
                                      whole: seq<Item>, kept: seq<Item>, x: Item, r: seq<Item>)
    requires Within(before, was, put, after, whole, kept)
    ensures Within(before, was, put, after + [x] + r, whole + [x] + r, kept + [x] + r)
  {
  }

  lemma {:induction false} WithinRight(before: seq<Item>, was: seq<Item>, put: seq<Item>, after: seq<Item>,
                                       whole: seq<Item>, kept: seq<Item>, l: seq<Item>, x: Item)
    requires Within(before, was, put, after, whole, kept)
    ensures Within(l + [x] + before, was, put, after, l + [x] + whole, l + [x] + kept)
  {
  }

  /** A matched node with two children: all that stood under it is replaced by its successor, in the
      node's cell, and what the second search leaves of the successor's right subtree; the rest of
      the listing stays. */
  lemma {:induction false} TwoChildrenKeep(t: Tree, key: Entry) returns (before: seq<Item>, after: seq<Item>)
    requires TwoChildren(Found(t, key))
    ensures var f := Found(t, key);
            var next := Leftmost(f.right);
            Within(before, InOrder(f),
                   [Item(f.item.cell, next.item.entry)] + InOrder(Deleted(next.right, next.item.entry)), after,
                   InOrder(t), InOrder(Deleted(t, key)))
  {
    var f := Found(t, key);
    var next := Leftmost(f.right);
    var put := [Item(f.item.cell, next.item.entry)] + InOrder(Deleted(next.right, next.item.entry));
    if Compare(key, t.item.entry) < 0 {
      var a, b := TwoChildrenKeep(t.left, key);
      WithinLeft(a, InOrder(f), put, b, InOrder(t.left), InOrder(Deleted(t.left, key)), t.item, InOrder(t.right));
      before, after := a, b + [t.item] + InOrder(t.right);
    } else if Compare(key, t.item.entry) > 0 {
      var a, b := TwoChildrenKeep(t.right, key);
      WithinRight(a, InOrder(f), put, b, InOrder(t.right), InOrder(Deleted(t.right, key)), InOrder(t.left), t.item);
      before, after := InOrder(t.left) + [t.item] + a, b;
    } else {
      before, after := [], [];
      assert InOrder(next.left) == [];
    }
  }

  /** In a sorted listing without equal keys the second search finds nothing: of the subtree of the
      matched node just the successor and its own right subtree are left. */
  lemma {:induction false} SecondSearchMisses(t: Tree)
    requires t.Node? && Sorted(InOrder(t)) && t.left.Leaf?
    requires forall i :: 0 < i < |InOrder(t)| ==> Compare(InOrder(t)[i].entry, t.item.entry) != 0
    ensures Deleted(t.right, t.item.entry) == t.right
  {
    assert forall i :: 0 <= i < |InOrder(t.right)| ==> InOrder(t)[i + 1] == InOrder(t.right)[i];
    SortedParts(t.left, t.item, t.right);
    SearchIsComplete(t.right, t.item.entry);
    if Found(t.right, t.item.entry).Node? {
      var x :| x in InOrder(t.right) && Compare(t.item.entry, x.entry) == 0;
      var i :| 0 <= i < |InOrder(t.right)| && InOrder(t.right)[i] == x;
      CompareOrder(t.item.entry, x.entry);
      CompareOrder(x.entry, t.item.entry);
    } else {
      DeleteMissing(t.right, t.item.entry);
    }
  }
}
