/** The phone book's search tree as a value: what the pointer code of
    module2/4_3/contacts.c does to the shape and the order of the tree.

    A tree node is an `Item`: the heap cell that holds it and the entry stored there. The cell
    matters, because rebalancing must relink the same cells and because deleting a node with
    two children copies another entry into its cell. */
module ContactTree {
  import opened Sequences

  class Contact {
    var entry: Entry
    var left: Contact?
    var right: Contact?

    constructor (entry: Entry)
      ensures this.entry == entry && left == null && right == null
    {
      this.entry := entry;
      left, right := null, null;
    }
  }

  datatype Entry = Entry(lastname: string, name: string, patronymic: string, workplace: string,
                         position: string, phone: string, email: string, social: string, messenger: string)

  datatype Item = Item(cell: Contact, entry: Entry)

  datatype Tree = Leaf | Node(left: Tree, item: Item, right: Tree)

  // ---------- the order: `compare`, lines 20-24 ----------

  /** `strcmp`: the sign of the first difference, a proper prefix being smaller. */
  function Strcmp(a: string, b: string): int {
    if a == [] && b == [] then 0
    else if a == [] then -1
    else if b == [] then 1
    else if a[0] != b[0] then a[0] as int - b[0] as int
    else Strcmp(a[1..], b[1..])
  }

  function Compare(a: Entry, b: Entry): int {
    var cmp := Strcmp(a.lastname, b.lastname);
    if cmp == 0 then Strcmp(a.name, b.name) else cmp
  }

  lemma {:induction false} StrcmpOrder(a: string, b: string)
    ensures Strcmp(a, b) == 0 <==> a == b
    ensures Strcmp(a, b) < 0 <==> Strcmp(b, a) > 0
  {
    if a != [] && b != [] {
      StrcmpOrder(a[1..], b[1..]);
      assert a == [a[0]] + a[1..] && b == [b[0]] + b[1..];
    }
  }

  lemma {:induction false} StrcmpTransitive(a: string, b: string, c: string)
    requires Strcmp(a, b) <= 0 && Strcmp(b, c) <= 0
    ensures Strcmp(a, c) <= 0
    ensures Strcmp(a, b) < 0 || Strcmp(b, c) < 0 ==> Strcmp(a, c) < 0
  {
    if a != [] && b != [] && c != [] && a[0] == b[0] == c[0] {
      StrcmpTransitive(a[1..], b[1..], c[1..]);
    }
  }

  /** Comparison is a total order whose ties are exactly the entries with the same two names. */
  lemma {:induction false} CompareOrder(a: Entry, b: Entry)
    ensures Compare(a, b) == 0 <==> a.lastname == b.lastname && a.name == b.name
    ensures Compare(a, b) < 0 <==> Compare(b, a) > 0
  {
    StrcmpOrder(a.lastname, b.lastname);
    StrcmpOrder(b.lastname, a.lastname);
    StrcmpOrder(a.name, b.name);
  }

  lemma {:induction false} CompareTransitive(a: Entry, b: Entry, c: Entry)
    requires Compare(a, b) <= 0 && Compare(b, c) <= 0
    ensures Compare(a, c) <= 0
    ensures Compare(a, b) < 0 || Compare(b, c) < 0 ==> Compare(a, c) < 0
  {
    StrcmpOrder(a.lastname, b.lastname);
    StrcmpOrder(b.lastname, c.lastname);
    StrcmpTransitive(a.lastname, b.lastname, c.lastname);
    if a.lastname == b.lastname == c.lastname {
      StrcmpTransitive(a.name, b.name, c.name);
    } else if a.lastname == c.lastname {
      StrcmpOrder(a.lastname, b.lastname);
    }
  }

  // ---------- shape ----------

  ghost function InOrder(t: Tree): seq<Item> {
    match t
    case Leaf => []
    case Node(l, x, r) => InOrder(l) + [x] + InOrder(r)
  }

  function Size(t: Tree): nat {
    match t
    case Leaf => 0
    case Node(l, _, r) => Size(l) + 1 + Size(r)
  }

  function Max(a: nat, b: nat): nat {
    if a < b then b else a
  }

  ghost function Height(t: Tree): nat {
    match t
    case Leaf => 0
    case Node(l, _, r) => 1 + Max(Height(l), Height(r))
  }

  /** The least height that `n` nodes fit in: 0 for none, else floor(log2 n) + 1. */
  ghost function LogHeight(n: nat): nat {
    if n == 0 then 0 else 1 + LogHeight(n / 2)
  }

  ghost function Pow2(n: nat): nat {
    if n == 0 then 1 else 2 * Pow2(n - 1)
  }

  lemma {:induction false} SizeIsLength(t: Tree)
    ensures Size(t) == |InOrder(t)|
  {
    if t.Node? {
      SizeIsLength(t.left);
      SizeIsLength(t.right);
    }
  }

  lemma {:induction false} LogHeightMonotone(a: nat, b: nat)
    requires a <= b
    ensures LogHeight(a) <= LogHeight(b)
  {
    if a > 0 {
      LogHeightMonotone(a / 2, b / 2);
    }
  }

  /** `LogHeight` is floor(log2 n) + 1. */
  lemma {:induction false} LogHeightIsLog(n: nat)
    requires n > 0
    ensures Pow2(LogHeight(n) - 1) <= n < Pow2(LogHeight(n))
  {
    if n > 1 {
      LogHeightIsLog(n / 2);
    }
  }

  /** No binary tree is lower than `LogHeight` of its size. */
  lemma {:induction false} LogHeightIsLeast(t: Tree)
    ensures LogHeight(Size(t)) <= Height(t)
  {
    if t.Node? {
      LogHeightIsLeast(t.left);
      LogHeightIsLeast(t.right);
      LogHeightMonotone(Size(t) / 2, Max(Size(t.left), Size(t.right)));
    }
  }

  // ---------- order ----------

  /** Entries never decrease from left to right; equal keys are allowed on either side. */
  ghost predicate Sorted(s: seq<Item>) {
    forall i, j :: 0 <= i < j < |s| ==> Compare(s[i].entry, s[j].entry) <= 0
  }

  ghost function Entries(s: seq<Item>): seq<Entry> {
    seq(|s|, i requires 0 <= i < |s| => s[i].entry)
  }

  ghost predicate AtMost(s: seq<Item>, key: Entry) {
    forall i :: 0 <= i < |s| ==> Compare(s[i].entry, key) <= 0
  }

  ghost predicate AtLeast(s: seq<Item>, key: Entry) {
    forall i :: 0 <= i < |s| ==> Compare(key, s[i].entry) <= 0
  }

  ghost predicate Above(s: seq<Item>, key: Entry) {
    forall i :: 0 <= i < |s| ==> Compare(key, s[i].entry) < 0
  }

  lemma {:induction false} SortedParts(l: Tree, x: Item, r: Tree)
    requires Sorted(InOrder(Node(l, x, r)))
    ensures Sorted(InOrder(l)) && Sorted(InOrder(r))
    ensures AtMost(InOrder(l), x.entry) && AtLeast(InOrder(r), x.entry)
  {
    var s, n := InOrder(Node(l, x, r)), |InOrder(l)|;
    assert InOrder(l) == s[..n] && s[n] == x && InOrder(r) == s[n + 1..];
  }

  lemma {:induction false} AtMostUp(s: seq<Item>, low: Entry, high: Entry)
    requires AtMost(s, low) && Compare(low, high) <= 0
    ensures AtMost(s, high)
  {
    forall i | 0 <= i < |s| ensures Compare(s[i].entry, high) <= 0 {
      CompareTransitive(s[i].entry, low, high);
    }
  }

  lemma {:induction false} AboveDown(s: seq<Item>, low: Entry, high: Entry)
    requires AtLeast(s, high) && Compare(low, high) < 0
    ensures Above(s, low)
  {
    forall i | 0 <= i < |s| ensures Compare(low, s[i].entry) < 0 {
      CompareTransitive(low, high, s[i].entry);
    }
  }

  // ---------- insert, lines 26-33 ----------

  ghost function Inserted(t: Tree, x: Item): Tree {
    match t
    case Leaf => Node(Leaf, x, Leaf)
    case Node(l, y, r) =>
      if Compare(x.entry, y.entry) < 0 then Node(Inserted(l, x), y, r) else Node(l, y, Inserted(r, x))
  }

  /** `s'` is `s` with `x` put after every entry with a key up to its own and before every
      larger one. */
  ghost predicate InsertedAt(s: seq<Item>, x: Item, k: nat, s': seq<Item>) {
    && k <= |s|
    && s' == s[..k] + [x] + s[k..]
    && AtMost(s[..k], x.entry)
    && Above(s[k..], x.entry)
  }

  lemma {:induction false} InsertPosition(t: Tree, x: Item) returns (k: nat)
    requires Sorted(InOrder(t))
    ensures InsertedAt(InOrder(t), x, k, InOrder(Inserted(t, x)))
  {
    match t
    case Leaf =>
      k := 0;
    case Node(l, y, r) =>
      SortedParts(l, y, r);
      if Compare(x.entry, y.entry) < 0 {
        k := InsertPosition(l, x);
        InsertBefore(InOrder(l), y, InOrder(r), x, k, InOrder(Inserted(l, x)));
      } else {
        var k' := InsertPosition(r, x);
        k := InsertAfter(InOrder(l), y, InOrder(r), x, k', InOrder(Inserted(r, x)));
      }
  }

  lemma {:induction false} InsertBefore(l: seq<Item>, y: Item, r: seq<Item>, x: Item, k: nat, l': seq<Item>)
    requires InsertedAt(l, x, k, l') && Compare(x.entry, y.entry) < 0 && AtLeast(r, y.entry)
    ensures InsertedAt(l + [y] + r, x, k, l' + [y] + r)
  {
    AboveDown(r, x.entry, y.entry);
    assert (l + [y] + r)[..k] == l[..k];
    assert (l + [y] + r)[k..] == l[k..] + [y] + r;
  }

  lemma {:induction false} InsertAfter(l: seq<Item>, y: Item, r: seq<Item>, x: Item, k: nat, r': seq<Item>)
    returns (k': nat)
    requires InsertedAt(r, x, k, r') && Compare(x.entry, y.entry) >= 0 && AtMost(l, y.entry)
    ensures InsertedAt(l + [y] + r, x, k', l + [y] + r')
  {
    CompareOrder(x.entry, y.entry);
    CompareOrder(y.entry, x.entry);
    AtMostUp(l, y.entry, x.entry);
    k' := |l| + 1 + k;
    assert (l + [y] + r)[..k'] == l + [y] + r[..k];
    assert (l + [y] + r)[k'..] == r[k..];
  }

  lemma {:induction false} InsertSorted(t: Tree, x: Item)
    requires Sorted(InOrder(t))
    ensures Sorted(InOrder(Inserted(t, x)))
  {
    var k := InsertPosition(t, x);
    var s, s' := InOrder(t), InOrder(Inserted(t, x));
    forall i, j | 0 <= i < j < |s'|
      ensures Compare(s'[i].entry, s'[j].entry) <= 0
    {
      assert i < k ==> s'[i] == s[..k][i];
      assert j > k ==> s'[j] == s[k..][j - k - 1];
    }
  }

  lemma {:induction false} InsertHeight(t: Tree, x: Item)
    ensures Height(t) <= Height(Inserted(t, x)) <= Height(t) + 1
  {
    if t.Node? {
      InsertHeight(t.left, x);
      InsertHeight(t.right, x);
    }
  }

  // ---------- rebalancing, lines 48-68 ----------

  /** `buildBalanced` on the nodes array[left..right]; its `mid` is the lower middle. */
  ghost function Balanced(s: seq<Item>): Tree {
    if s == [] then Leaf
    else
      var mid := (|s| - 1) / 2;
      Node(Balanced(s[..mid]), s[mid], Balanced(s[mid + 1..]))
  }

  /** `balanceTree`: a tree of fewer than two nodes is left alone. */
  ghost function Rebalanced(t: Tree): Tree {
    if Size(t) < 2 then t else Balanced(InOrder(t))
  }

  lemma {:induction false} BalancedOrder(s: seq<Item>)
    ensures InOrder(Balanced(s)) == s
  {
    if s != [] {
      var mid := (|s| - 1) / 2;
      BalancedOrder(s[..mid]);
      BalancedOrder(s[mid + 1..]);
      assert s == s[..mid] + [s[mid]] + s[mid + 1..];
    }
  }

  lemma {:induction false} BalancedHeight(s: seq<Item>)
    ensures Height(Balanced(s)) == LogHeight(|s|)
  {
    if s != [] {
      var mid := (|s| - 1) / 2;
      BalancedHeight(s[..mid]);
      BalancedHeight(s[mid + 1..]);
      assert |s[mid + 1..]| == |s| / 2;
      LogHeightMonotone(mid, |s| / 2);
    }
  }

  /** Rebalancing keeps every item, cell and all, in its place in the order, and reaches the
      least height any tree of that size can have. */
  lemma {:induction false} RebalanceIsOptimal(t: Tree, other: Tree)
    ensures InOrder(Rebalanced(t)) == InOrder(t)
    ensures Height(Rebalanced(t)) == LogHeight(Size(t))
    ensures Size(other) == Size(t) ==> Height(Rebalanced(t)) <= Height(other)
  {
    SizeIsLength(t);
    LogHeightIsLeast(other);
    if Size(t) < 2 {
      SmallHeight(t);
    } else {
      BalancedOrder(InOrder(t));
      BalancedHeight(InOrder(t));
    }
  }

  lemma {:induction false} SmallHeight(t: Tree)
    requires Size(t) < 2
    ensures Height(t) == LogHeight(Size(t))
  {
    if t.Node? {
      assert t.left.Leaf? && t.right.Leaf?;
      assert LogHeight(1) == 1 + LogHeight(0);
    }
  }

  // ---------- deletion, lines 70-100 ----------

  /** `findMin`: the subtree at the end of the left spine. */
  ghost function Leftmost(t: Tree): (m: Tree)
    requires t.Node?
    ensures m.Node? && m.left.Leaf? && Size(m) <= Size(t)
  {
    if t.left.Leaf? then t else Leftmost(t.left)
  }

  /** The subtree at which the search for a key stops; Leaf when it falls off the tree. */
  ghost function Found(t: Tree, key: Entry): (m: Tree)
    ensures m.Node? ==> Compare(key, m.item.entry) == 0
  {
    match t
    case Leaf => Leaf
    case Node(l, y, r) =>
      if Compare(key, y.entry) < 0 then Found(l, key)
      else if Compare(key, y.entry) > 0 then Found(r, key)
      else t
  }

  /** `deleteNode`. In the two-child case the assignment `*tree = *temp` copies the successor's
      entry and its two links as well, so the left subtree and everything in the right subtree
      outside the successor's own right subtree is cut off. */
  ghost function Deleted(t: Tree, key: Entry): Tree
    decreases Size(t)
  {
    match t
    case Leaf => Leaf
    case Node(l, y, r) =>
      if Compare(key, y.entry) < 0 then Node(Deleted(l, key), y, r)
      else if Compare(key, y.entry) > 0 then Node(l, y, Deleted(r, key))
      else if l.Leaf? then r
      else if r.Leaf? then l
      else
        var temp := Leftmost(r);
        Node(temp.left, Item(y.cell, temp.item.entry), Deleted(temp.right, temp.item.entry))
  }

  /** The cells handed to `free` on the way. */
  ghost function Freed(t: Tree, key: Entry): set<Contact>
    decreases Size(t)
  {
    match t
    case Leaf => {}
    case Node(l, y, r) =>
      if Compare(key, y.entry) < 0 then Freed(l, key)
      else if Compare(key, y.entry) > 0 then Freed(r, key)
      else if l.Leaf? || r.Leaf? then {y.cell}
      else Freed(Leftmost(r).right, Leftmost(r).item.entry)
  }

  ghost predicate TwoChildren(t: Tree) {
    t.Node? && t.left.Node? && t.right.Node?
  }

  // ---------- what deletion does ----------

  /** The entries of `a` are those of `b`, in the same order, with some left out. */
  ghost predicate Thins(a: seq<Item>, b: seq<Item>) {
    Subsequence(Entries(a), Entries(b))
  }

  lemma {:induction false} ThinsSorted(a: seq<Item>, b: seq<Item>)
    requires Thins(a, b) && Sorted(b)
    ensures Sorted(a)
  {
    var at :| Embeds(at, Entries(a), Entries(b));
    assert forall i :: 0 <= i < |a| ==> a[i].entry == Entries(b)[at[i]];
  }

  lemma {:induction false} LeftmostIsPrefix(t: Tree) returns (rest: seq<Item>)
    requires t.Node?
    ensures InOrder(t) == [Leftmost(t).item] + InOrder(Leftmost(t).right) + rest
  {
    if t.left.Leaf? {
      rest := [];
    } else {
      var rest' := LeftmostIsPrefix(t.left);
      rest := rest' + [t.item] + InOrder(t.right);
    }
  }

  lemma {:induction false} ThinsSelf(s: seq<Item>)
    ensures Thins(s, s) && Thins([], s)
  {
    SubsequenceSelf(Entries(s));
    SubsequenceEmpty(Entries(s));
    assert Entries([]) == [];
  }

  lemma {:induction false} ThinsJoin(a: seq<Item>, a': seq<Item>, b: seq<Item>, b': seq<Item>)
    requires Thins(a, a') && Thins(b, b')
    ensures Thins(a + b, a' + b')
  {
    SubsequenceAppend(Entries(a), Entries(a'), Entries(b), Entries(b'));
    assert Entries(a + b) == Entries(a) + Entries(b);
    assert Entries(a' + b') == Entries(a') + Entries(b');
  }

  lemma {:induction false} ThinsNode(l: seq<Item>, l': seq<Item>, x: Item, r: seq<Item>, r': seq<Item>)
    requires Thins(l, l') && Thins(r, r')
    ensures Thins(l + [x] + r, l' + [x] + r')
  {
    ThinsSelf([x]);
    ThinsJoin(l, l', [x], [x]);
    ThinsJoin(l + [x], l' + [x], r, r');
  }

  lemma {:induction false} ThinsRight(l: seq<Item>, r: seq<Item>, r': seq<Item>)
    requires Thins(r, r')
    ensures Thins(r, l + r')
  {
    ThinsSelf(l);
    ThinsJoin([], l, r, r');
    assert [] + r == r;
  }

  /** Deletion never reorders and never invents an entry. */
  lemma {:induction false} DeletedThins(t: Tree, key: Entry)
    ensures Thins(InOrder(Deleted(t, key)), InOrder(t))
    decreases Size(t)
  {
    match t
    case Leaf =>
      ThinsSelf([]);
    case Node(l, y, r) =>
      ThinsSelf(InOrder(l));
      ThinsSelf(InOrder(r));
      if Compare(key, y.entry) < 0 {
        DeletedThins(l, key);
        ThinsNode(InOrder(Deleted(l, key)), InOrder(l), y, InOrder(r), InOrder(r));
      } else if Compare(key, y.entry) > 0 {
        DeletedThins(r, key);
        ThinsNode(InOrder(l), InOrder(l), y, InOrder(Deleted(r, key)), InOrder(r));
      } else if l.Leaf? {
        ThinsRight(InOrder(l) + [y], InOrder(r), InOrder(r));
      } else if r.Leaf? {
        ThinsSelf([y]);
        ThinsJoin(InOrder(l), InOrder(l), [], [y]);
        assert InOrder(l) + [] == InOrder(l) && InOrder(t) == InOrder(l) + [y];
      } else {
        var temp := Leftmost(r);
        DeletedThins(temp.right, temp.item.entry);
        var kept := Deleted(temp.right, temp.item.entry);
        SuccessorThins(InOrder(l), y, r, InOrder(kept));
        var copied := Item(y.cell, temp.item.entry);
        assert Deleted(t, key) == Node(Leaf, copied, kept);
        assert InOrder(Deleted(t, key)) == [] + [copied] + InOrder(kept);
        assert Thins(InOrder(Deleted(t, key)), InOrder(l) + [y] + InOrder(r));
      }
  }

  lemma {:induction false} SuccessorThins(l: seq<Item>, y: Item, r: Tree, kept: seq<Item>)
    requires r.Node? && Thins(kept, InOrder(Leftmost(r).right))
    ensures Thins([] + [Item(y.cell, Leftmost(r).item.entry)] + kept, l + [y] + InOrder(r))
  {
    var temp := Leftmost(r);
    var copied := Item(y.cell, temp.item.entry);
    var rest := LeftmostIsPrefix(r);
    ThinsSelf([temp.item]);
    ThinsSelf(rest);
    assert Entries([copied]) == Entries([temp.item]);
    ThinsJoin([copied], [temp.item], kept, InOrder(temp.right));
    ThinsJoin([copied] + kept, [temp.item] + InOrder(temp.right), [], rest);
    assert [copied] + kept + [] == [] + [copied] + kept;
    ThinsRight(l + [y], [] + [copied] + kept, InOrder(r));
  }

  lemma {:induction false} DeleteSorted(t: Tree, key: Entry)
    requires Sorted(InOrder(t))
    ensures Sorted(InOrder(Deleted(t, key)))
  {
    DeletedThins(t, key);
    ThinsSorted(InOrder(Deleted(t, key)), InOrder(t));
  }

  /** The search finds an equal key whenever there is one, on whichever side rebalancing has
      put the duplicates. */
  lemma {:induction false} SearchIsComplete(t: Tree, key: Entry)
    requires Sorted(InOrder(t))
    ensures Found(t, key).Node? <==> exists x :: x in InOrder(t) && Compare(key, x.entry) == 0
  {
    match t
    case Leaf =>
    case Node(l, y, r) =>
      SortedParts(l, y, r);
      SearchIsComplete(l, key);
      SearchIsComplete(r, key);
      assert y in InOrder(t);
      if Compare(key, y.entry) < 0 {
        AboveDown(InOrder(r), key, y.entry);
        assert forall x :: x in InOrder(t) ==> x in InOrder(l) || x == y || x in InOrder(r);
      } else if Compare(key, y.entry) > 0 {
        forall x | x in InOrder(l) ensures Compare(key, x.entry) != 0 {
          CompareOrder(key, y.entry);
          CompareOrder(key, x.entry);
          CompareOrder(x.entry, key);
          if Compare(key, x.entry) == 0 {
            CompareTransitive(key, x.entry, y.entry);
          }
        }
        assert forall x :: x in InOrder(t) ==> x in InOrder(l) || x == y || x in InOrder(r);
      }
  }

  ghost predicate RemovedAt(s: seq<Item>, i: nat, s': seq<Item>) {
    i < |s| && s' == s[..i] + s[i + 1..]
  }

  lemma {:induction false} DeleteMissing(t: Tree, key: Entry)
    requires Found(t, key).Leaf?
    ensures Deleted(t, key) == t && Freed(t, key) == {}
  {
    if t.Node? {
      if Compare(key, t.item.entry) < 0 {
        DeleteMissing(t.left, key);
      } else if Compare(key, t.item.entry) > 0 {
        DeleteMissing(t.right, key);
      }
    }
  }

  /** A matched node with at most one child is the one item that goes. */
  lemma {:induction false} DeleteOneChild(t: Tree, key: Entry) returns (i: nat)
    requires Found(t, key).Node? && !TwoChildren(Found(t, key))
    ensures RemovedAt(InOrder(t), i, InOrder(Deleted(t, key)))
    ensures InOrder(t)[i] == Found(t, key).item
  {
    var cmp := Compare(key, t.item.entry);
    if cmp < 0 {
      i := DeleteOneChild(t.left, key);
      RemovedLeft(InOrder(t.left), i, InOrder(Deleted(t.left, key)), t.item, InOrder(t.right));
    } else if cmp > 0 {
      var j := DeleteOneChild(t.right, key);
      RemovedRight(InOrder(t.left), t.item, InOrder(t.right), j, InOrder(Deleted(t.right, key)));
      i := |InOrder(t.left)| + 1 + j;
    } else {
      i := |InOrder(t.left)|;
      RemovedRoot(InOrder(t.left), t.item, InOrder(t.right));
    }
  }

  lemma {:induction false} RemovedRoot(l: seq<Item>, x: Item, r: seq<Item>)
    ensures RemovedAt(l + [x] + r, |l|, l + r)
    ensures l == [] ==> l + r == r
    ensures r == [] ==> l + r == l
  {
    assert (l + [x] + r)[..|l|] == l && (l + [x] + r)[|l| + 1..] == r;
  }

  /** Its cell is the one that is freed. */
  lemma {:induction false} FreesOneChild(t: Tree, key: Entry)
    requires Found(t, key).Node? && !TwoChildren(Found(t, key))
    ensures Freed(t, key) == {Found(t, key).item.cell}
  {
    var cmp := Compare(key, t.item.entry);
    if cmp < 0 {
      FreesOneChild(t.left, key);
    } else if cmp > 0 {
      FreesOneChild(t.right, key);
    }
  }

  lemma {:induction false} RemovedLeft(l: seq<Item>, i: nat, l': seq<Item>, x: Item, r: seq<Item>)
    requires RemovedAt(l, i, l')
    ensures RemovedAt(l + [x] + r, i, l' + [x] + r) && (l + [x] + r)[i] == l[i]
  {
    assert (l + [x] + r)[i + 1..] == l[i + 1..] + [x] + r;
  }

  lemma {:induction false} RemovedRight(l: seq<Item>, x: Item, r: seq<Item>, i: nat, r': seq<Item>)
    requires RemovedAt(r, i, r')
    ensures RemovedAt(l + [x] + r, |l| + 1 + i, l + [x] + r') && (l + [x] + r)[|l| + 1 + i] == r[i]
  {
    assert (l + [x] + r)[..|l| + 1 + i] == l + [x] + r[..i];
    assert (l + [x] + r)[|l| + 1 + i + 1..] == r[i + 1..];
  }

  lemma {:induction false} DeleteTwoChildren(t: Tree, key: Entry)
    requires TwoChildren(Found(t, key))
    ensures Size(Deleted(t, key)) + 2 <= Size(t)
  {
    if Compare(key, t.item.entry) < 0 {
      DeleteTwoChildren(t.left, key);
    } else if Compare(key, t.item.entry) > 0 {
      DeleteTwoChildren(t.right, key);
    } else {
      var temp := Leftmost(t.right);
      DeletedThins(temp.right, temp.item.entry);
      SubsequenceElements(Entries(InOrder(Deleted(temp.right, temp.item.entry))), Entries(InOrder(temp.right)));
      SizeIsLength(temp.right);
      SizeIsLength(Deleted(temp.right, temp.item.entry));
    }
  }

  /** `deleteNode` removes exactly one entry if and only if the node its search stops at exists
      and has at most one child. */
  lemma {:induction false} RemovesExactlyOne(t: Tree, key: Entry)
    ensures (exists i :: RemovedAt(InOrder(t), i, InOrder(Deleted(t, key))))
            <==> Found(t, key).Node? && !TwoChildren(Found(t, key))
  {
    SizeIsLength(t);
    SizeIsLength(Deleted(t, key));
    if Found(t, key).Leaf? {
      DeleteMissing(t, key);
    } else if TwoChildren(Found(t, key)) {
      DeleteTwoChildren(t, key);
    } else {
      var i := DeleteOneChild(t, key);
    }
  }

  lemma {:induction false} LeftmostHeight(t: Tree)
    requires t.Node?
    ensures Height(Leftmost(t)) <= Height(t)
  {
    if t.left.Node? {
      LeftmostHeight(t.left);
    }
  }

  lemma {:induction false} DeleteHeight(t: Tree, key: Entry)
    ensures Height(Deleted(t, key)) <= Height(t)
    decreases Size(t)
  {
    if t.Node? {
      DeleteHeight(t.left, key);
      DeleteHeight(t.right, key);
      if t.right.Node? {
        var temp := Leftmost(t.right);
        LeftmostHeight(t.right);
        DeleteHeight(temp.right, temp.item.entry);
      }
    }
  }

  // ---------- cells ----------

  ghost function Cells(t: Tree): set<Contact> {
    match t
    case Leaf => {}
    case Node(l, x, r) => Cells(l) + {x.cell} + Cells(r)
  }

  /** No cell is linked twice: the links form a tree. */
  ghost predicate Distinct(t: Tree) {
    match t
    case Leaf => true
    case Node(l, x, r) =>
      && Distinct(l) && Distinct(r)
      && Cells(l) !! Cells(r)
      && x.cell !in Cells(l) && x.cell !in Cells(r)
  }

  lemma {:induction false} InsertCells(t: Tree, x: Item)
    ensures Cells(Inserted(t, x)) == Cells(t) + {x.cell}
    ensures Distinct(t) && x.cell !in Cells(t) ==> Distinct(Inserted(t, x))
  {
    if t.Node? {
      InsertCells(t.left, x);
      InsertCells(t.right, x);
    }
  }

  lemma {:induction false} LeftmostCells(t: Tree)
    requires t.Node?
    ensures Cells(Leftmost(t)) <= Cells(t)
    ensures Distinct(t) ==> Distinct(Leftmost(t))
  {
    if t.left.Node? {
      LeftmostCells(t.left);
    }
  }

  /** Deletion links and frees only cells of the tree, never frees a cell it keeps linked, and
      loses cells (neither linked nor freed) exactly when the matched node has two children. */
  lemma {:induction false} DeleteCells(t: Tree, key: Entry)
    requires Distinct(t)
    ensures Cells(Deleted(t, key)) <= Cells(t) && Freed(t, key) <= Cells(t)
    ensures Distinct(Deleted(t, key)) && Cells(Deleted(t, key)) !! Freed(t, key)
    ensures Cells(Deleted(t, key)) + Freed(t, key) == Cells(t) <==> !TwoChildren(Found(t, key))
    decreases Size(t)
  {
    match t
    case Leaf =>
    case Node(l, y, r) =>
      if Compare(key, y.entry) < 0 {
        DeleteCells(l, key);
        assert Freed(t, key) == Freed(l, key) && Found(t, key) == Found(l, key);
        SplitCells(Cells(Deleted(l, key)), Freed(l, key), Cells(l), {y.cell} + Cells(r));
      } else if Compare(key, y.entry) > 0 {
        DeleteCells(r, key);
        assert Freed(t, key) == Freed(r, key) && Found(t, key) == Found(r, key);
        SplitCells(Cells(Deleted(r, key)), Freed(r, key), Cells(r), {y.cell} + Cells(l));
      } else if l.Node? && r.Node? {
        var temp := Leftmost(r);
        LeftmostCells(r);
        DeleteCells(temp.right, temp.item.entry);
        assert temp.item.cell in Cells(t);
        assert temp.item.cell !in Cells(Deleted(t, key)) + Freed(t, key);
      }
  }

  lemma {:induction false} SplitCells(kept: set<Contact>, freed: set<Contact>, all: set<Contact>, others: set<Contact>)
    requires kept <= all && freed <= all && all !! others
    ensures kept + others + freed == all + others <==> kept + freed == all
  {
    if kept + others + freed == all + others {
      forall c | c in all ensures c in kept + freed {
        assert c in kept + others + freed;
      }
    }
  }

  ghost function CellSet(s: seq<Item>): set<Contact> {
    set i | 0 <= i < |s| :: s[i].cell
  }

  ghost predicate NoRepeats(s: seq<Item>) {
    forall i, j :: 0 <= i < j < |s| ==> s[i].cell != s[j].cell
  }

  /** Which cells a tree has, and whether it shares one, can be read off its in-order list;
      so rebalancing, which keeps that list, reuses exactly the same cells. */
  lemma {:induction false} CellsOfList(t: Tree)
    ensures Cells(t) == CellSet(InOrder(t))
    ensures Distinct(t) <==> NoRepeats(InOrder(t))
  {
    if t.Node? {
      CellsOfList(t.left);
      CellsOfList(t.right);
      var l, x, r := InOrder(t.left), t.item, InOrder(t.right);
      CellSetJoin(l, [x]);
      CellSetJoin(l + [x], r);
      NoRepeatsJoin(l, [x]);
      NoRepeatsJoin(l + [x], r);
      assert CellSet([x]) == {x.cell} by { assert [x][0] == x; }
    }
  }

  lemma {:induction false} CellSetJoin(a: seq<Item>, b: seq<Item>)
    ensures CellSet(a + b) == CellSet(a) + CellSet(b)
  {
    forall c | c in CellSet(a) + CellSet(b) ensures c in CellSet(a + b) {
      if c in CellSet(a) {
        var i :| 0 <= i < |a| && a[i].cell == c;
        assert (a + b)[i].cell == c;
      } else {
        var i :| 0 <= i < |b| && b[i].cell == c;
        assert (a + b)[|a| + i].cell == c;
      }
    }
  }

  lemma {:induction false} NoRepeatsJoin(a: seq<Item>, b: seq<Item>)
    ensures NoRepeats(a + b) <==> NoRepeats(a) && NoRepeats(b) && CellSet(a) !! CellSet(b)
  {
    var s := a + b;
    assert forall i :: 0 <= i < |a| ==> a[i] == s[i] && s[i].cell in CellSet(a);
    assert forall i :: |a| <= i < |s| ==> s[i] == b[i - |a|] && s[i].cell in CellSet(b);
    if NoRepeats(s) {
      assert forall i :: 0 <= i < |b| ==> b[i] == s[|a| + i];
    }
  }

  lemma {:induction false} RebalanceCells(t: Tree)
    ensures Cells(Rebalanced(t)) == Cells(t)
    ensures Distinct(Rebalanced(t)) == Distinct(t)
  {
    RebalanceIsOptimal(t, t);
    CellsOfList(t);
    CellsOfList(Rebalanced(t));
  }
}
