/** The pointer routines of module2/4_3/contacts.c on the heap of linked contacts, each proved
    to realise the tree function of the same purpose, and the program state on top of them. */
module ContactHeap {
  import opened ContactTree
  import opened PhoneBook

  /** The links below `c` spell out the tree `t`. */
  ghost predicate Reps(c: Contact?, t: Tree)
    reads Cells(t)
  {
    match t
    case Leaf => c == null
    case Node(l, x, r) => c == x.cell && x.cell.entry == x.entry && Reps(x.cell.left, l) && Reps(x.cell.right, r)
  }

  lemma {:induction false} AllAllocated(t: Tree)
    ensures forall c :: c in Cells(t) ==> allocated(c)
    ensures t.Node? ==> forall c :: c in Cells(t.left) ==> allocated(c)
    ensures t.Node? ==> forall c :: c in Cells(t.right) ==> allocated(c)
  {
    if t.Node? {
      AllAllocated(t.left);
      AllAllocated(t.right);
    }
  }

  /** `tree->left = l`: the node stands over another left subtree. */
  method LinkLeft(tree: Contact, l: Contact?, ghost lt: Tree, ghost x: Item, ghost rt: Tree)
    requires tree == x.cell && tree.entry == x.entry && Reps(l, lt) && Reps(tree.right, rt)
    requires tree !in Cells(lt) && tree !in Cells(rt)
    modifies tree`left
    ensures Reps(tree, Node(lt, x, rt))
  {
    tree.left := l;
  }

  /** `tree->right = r`. */
  method LinkRight(tree: Contact, r: Contact?, ghost lt: Tree, ghost x: Item, ghost rt: Tree)
    requires tree == x.cell && tree.entry == x.entry && Reps(tree.left, lt) && Reps(r, rt)
    requires tree !in Cells(lt) && tree !in Cells(rt)
    modifies tree`right
    ensures Reps(tree, Node(lt, x, rt))
  {
    tree.right := r;
  }

  /** Lines 26-33. */
  method Insert(tree: Contact?, node: Contact, ghost t: Tree) returns (result: Contact)
    requires Reps(tree, t) && Distinct(t)
    requires node !in Cells(t) && node.left == null && node.right == null
    modifies Cells(t)`left, Cells(t)`right
    ensures Reps(result, Inserted(t, Item(node, node.entry)))
    decreases t
  {
    if tree == null {
      return node;
    }
    AllAllocated(t);
    assert Reps(tree.left, t.left) && Reps(tree.right, t.right);
    if Compare(node.entry, tree.entry) < 0 {
      var l := Insert(tree.left, node, t.left);
      InsertCells(t.left, Item(node, node.entry));
      LinkLeft(tree, l, Inserted(t.left, Item(node, node.entry)), t.item, t.right);
    } else {
      var r := Insert(tree.right, node, t.right);
      InsertCells(t.right, Item(node, node.entry));
      LinkRight(tree, r, t.left, t.item, Inserted(t.right, Item(node, node.entry)));
    }
    return tree;
  }

  /** Lines 35-38. */
  method CountNodes(tree: Contact?, ghost t: Tree) returns (n: nat)
    requires Reps(tree, t)
    ensures n == Size(t)
    decreases t
  {
    if tree == null {
      return 0;
    }
    AllAllocated(t);
    assert Reps(tree.left, t.left) && Reps(tree.right, t.right);
    var l := CountNodes(tree.left, t.left);
    var r := CountNodes(tree.right, t.right);
    return 1 + l + r;
  }

  /** Lines 40-46; the index pointer is returned as the new index. */
  method StoreInOrder(tree: Contact?, a: array<Contact?>, index: nat, ghost t: Tree) returns (next: nat)
    requires Reps(tree, t) && index + Size(t) <= a.Length
    modifies a
    ensures next == index + Size(t) && Size(t) == |InOrder(t)|
    ensures forall i :: 0 <= i < Size(t) ==> a[index + i] == InOrder(t)[i].cell
    ensures forall i :: 0 <= i < index || next <= i < a.Length ==> a[i] == old(a[i])
    decreases t
  {
    if tree == null {
      return index;
    }
    AllAllocated(t);
    assert Reps(tree.left, t.left) && Reps(tree.right, t.right);
    var mid := StoreInOrder(tree.left, a, index, t.left);
    a[mid] := tree;
    next := StoreInOrder(tree.right, a, mid + 1, t.right);
  }

  /** array[left..right] holds the cells of `t`, each subtree around its middle. */
  ghost predicate Stored(a: array<Contact?>, left: int, right: int, t: Tree)
    reads a, Cells(t)
    decreases t
  {
    match t
    case Leaf => left == right + 1
    case Node(l, x, r) =>
      var mid := (left + right) / 2;
      && 0 <= left <= mid <= right < a.Length
      && a[mid] == x.cell && x.cell.entry == x.entry
      && Stored(a, left, mid - 1, l) && Stored(a, mid + 1, right, r)
  }

  /** Lines 48-55. */
  method BuildBalanced(a: array<Contact?>, left: int, right: int, ghost t: Tree) returns (node: Contact?)
    requires Stored(a, left, right, t) && Distinct(t)
    modifies Cells(t)`left, Cells(t)`right
    ensures Reps(node, t)
    decreases t
  {
    if left > right {
      return null;
    }
    var mid := (left + right) / 2;
    AllAllocated(t);
    assert Stored(a, left, mid - 1, t.left) && Stored(a, mid + 1, right, t.right);
    node := a[mid];
    var l := BuildBalanced(a, left, mid - 1, t.left);
    node.left := l;
    assert Reps(l, t.left) && Stored(a, mid + 1, right, t.right);
    var r := BuildBalanced(a, mid + 1, right, t.right);
    node.right := r;
  }

  /** From index `left` on, the array lists the cells of `s`, which hold its entries. */
  ghost predicate Lists(a: array<Contact?>, left: nat, s: seq<Item>)
    reads a, set i | 0 <= i < |s| :: s[i].cell
  {
    && left + |s| <= a.Length
    && forall i :: 0 <= i < |s| ==> a[left + i] == s[i].cell && s[i].cell.entry == s[i].entry
  }

  lemma {:induction false} ListsParts(a: array<Contact?>, left: nat, l: seq<Item>, x: Item, r: seq<Item>)
    requires Lists(a, left, l + [x] + r)
    ensures Lists(a, left, l) && Lists(a, left + |l| + 1, r)
    ensures left + |l| < a.Length && a[left + |l|] == x.cell && x.cell.entry == x.entry
  {
    var s := l + [x] + r;
    assert s[|l|] == x;
    assert forall i :: 0 <= i < |l| ==> s[i] == l[i];
    forall i | 0 <= i < |r| ensures a[left + |l| + 1 + i] == r[i].cell && r[i].cell.entry == r[i].entry {
      assert s[|l| + 1 + i] == r[i];
      assert a[left + (|l| + 1 + i)] == r[i].cell;
    }
  }

  /** Every subtree has its root at the lower middle of its nodes. */
  ghost predicate Centred(t: Tree) {
    t.Node? ==> Size(t.left) <= Size(t.right) <= Size(t.left) + 1 && Centred(t.left) && Centred(t.right)
  }

  lemma {:induction false} BalancedIsCentred(s: seq<Item>)
    ensures Centred(Balanced(s)) && Size(Balanced(s)) == |s|
  {
    if s != [] {
      var m := (|s| - 1) / 2;
      BalancedIsCentred(s[..m]);
      BalancedIsCentred(s[m + 1..]);
    }
  }

  lemma {:induction false} Middle(left: int, right: int, m: int)
    requires 2 * m <= left + right <= 2 * m + 1
    ensures (left + right) / 2 == m
  {
  }

  lemma {:induction false} StoredCentred(a: array<Contact?>, left: int, right: int, t: Tree)
    requires 0 <= left <= right + 1 && Size(t) == right + 1 - left && Centred(t)
    requires Lists(a, left, InOrder(t))
    ensures Stored(a, left, right, t)
    decreases t
  {
    if t.Node? {
      var mid := left + Size(t.left);
      Middle(left, right, mid);
      SizeIsLength(t.left);
      ListsParts(a, left, InOrder(t.left), t.item, InOrder(t.right));
      StoredCentred(a, left, mid - 1, t.left);
      StoredCentred(a, mid + 1, right, t.right);
    }
  }

  /** Lines 57-68, with malloc succeeding. */
  method BalanceTree(root: Contact?, ghost t: Tree) returns (result: Contact?)
    requires Reps(root, t) && Distinct(t)
    modifies Cells(t)`left, Cells(t)`right
    ensures Reps(result, Rebalanced(t))
  {
    AllAllocated(t);
    var count := CountNodes(root, t);
    if count < 2 {
      return root;
    }
    var a := new Contact?[count];
    var index := StoreInOrder(root, a, 0, t);
    StoredTree(a, root, t);
    result := BuildBalanced(a, 0, count - 1, Rebalanced(t));
  }

  lemma {:induction false} StoredTree(a: array<Contact?>, root: Contact?, t: Tree)
    requires Reps(root, t) && Distinct(t) && Size(t) >= 2
    requires a.Length == Size(t) == |InOrder(t)|
    requires forall i :: 0 <= i < Size(t) ==> a[0 + i] == InOrder(t)[i].cell
    ensures Stored(a, 0, Size(t) - 1, Rebalanced(t))
    ensures Distinct(Rebalanced(t)) && Cells(Rebalanced(t)) == Cells(t)
  {
    RepsEntries(root, t);
    RebalanceIsOptimal(t, t);
    BalancedIsCentred(InOrder(t));
    StoredCentred(a, 0, Size(t) - 1, Rebalanced(t));
    RebalanceCells(t);
  }

  lemma {:induction false} RepsEntries(c: Contact?, t: Tree)
    requires Reps(c, t)
    ensures forall x :: x in InOrder(t) ==> x.cell.entry == x.entry
  {
    if t.Node? {
      RepsEntries(c.left, t.left);
      RepsEntries(c.right, t.right);
    }
  }

  /** Lines 70-73. */
  method FindMin(tree: Contact, ghost t: Tree) returns (min: Contact)
    requires Reps(tree, t)
    ensures t.Node? && Reps(min, Leftmost(t))
  {
    min := tree;
    ghost var m := t;
    while min.left != null
      invariant Reps(min, m) && m.Node? && Leftmost(m) == Leftmost(t)
      decreases m
    {
      min, m := min.left, m.left;
    }
  }

  /** Lines 75-100. `freed` collects what is handed to `free`. */
  method DeleteNode(tree: Contact?, node: Contact, ghost t: Tree) returns (result: Contact?, ghost freed: set<Contact>)
    requires Reps(tree, t) && Distinct(t)
    modifies Cells(t)
    ensures Reps(result, Deleted(t, old(node.entry)))
    ensures freed == Freed(t, old(node.entry))
    decreases Size(t), 2
  {
    if tree == null {
      return null, {};
    }
    ghost var key := node.entry;
    AllAllocated(t);
    assert Reps(tree.left, t.left) && Reps(tree.right, t.right);
    var cmp := Compare(node.entry, tree.entry);
    if cmp < 0 {
      DeleteCells(t.left, node.entry);
      var l;
      l, freed := DeleteNode(tree.left, node, t.left);
      LinkLeft(tree, l, Deleted(t.left, key), t.item, t.right);
    } else if cmp > 0 {
      DeleteCells(t.right, node.entry);
      var r;
      r, freed := DeleteNode(tree.right, node, t.right);
      LinkRight(tree, r, t.left, t.item, Deleted(t.right, key));
    } else {
      result, freed := DeleteMatch(tree, node.entry, t);
      return result, freed;
    }
    return tree, freed;
  }

  /** Lines 84-98: the search has stopped at this node. */
  method DeleteMatch(tree: Contact, ghost key: Entry, ghost t: Tree)
    returns (result: Contact?, ghost freed: set<Contact>)
    requires Reps(tree, t) && Distinct(t) && Compare(key, tree.entry) == 0
    modifies Cells(t)
    ensures Reps(result, Deleted(t, key)) && freed == Freed(t, key)
    decreases Size(t), 1
  {
    AllAllocated(t);
    assert Reps(tree.left, t.left) && Reps(tree.right, t.right);
    if tree.left == null {
      return tree.right, {tree};
    }
    if tree.right == null {
      return tree.left, {tree};
    }
    freed := ReplaceBySuccessor(tree, t);
    return tree, freed;
  }

  /** Lines 95-97: the whole successor, links included, is copied over the node. */
  method ReplaceBySuccessor(tree: Contact, ghost t: Tree) returns (ghost freed: set<Contact>)
    requires Reps(tree, t) && Distinct(t) && t.left.Node? && t.right.Node?
    modifies Cells(t)
    ensures var m := Leftmost(t.right);
            && Reps(tree, Node(m.left, Item(tree, m.item.entry), Deleted(m.right, m.item.entry)))
            && freed == Freed(m.right, m.item.entry)
    decreases Size(t), 0
  {
    AllAllocated(t);
    var temp := FindMin(tree.right, t.right);
    ghost var m := SuccessorCells(t);
    tree.entry, tree.left, tree.right := temp.entry, temp.left, temp.right;
    var r;
    r, freed := DeleteNode(tree.right, temp, m.right);
    tree.right := r;
  }

  lemma {:induction false} SuccessorCells(t: Tree) returns (m: Tree)
    requires Distinct(t) && t.Node? && t.right.Node?
    ensures m == Leftmost(t.right) && m.Node? && m.left.Leaf? && Size(m.right) < Size(t)
    ensures Distinct(m.right) && Cells(m.right) <= Cells(t)
    ensures t.item.cell !in Cells(m.right) && m.item.cell in Cells(t) && m.item.cell != t.item.cell
    ensures Cells(Deleted(m.right, m.item.entry)) <= Cells(m.right)
    ensures forall c :: c in Cells(m.right) ==> allocated(c)
  {
    m := Leftmost(t.right);
    LeftmostCells(t.right);
    DeleteCells(m.right, m.item.entry);
    AllAllocated(m.right);
  }

  // ---------- the program state: `root` and `operationCount` ----------

  class Directory {
    var root: Contact?
    var operationCount: int
    ghost var book: Book

    ghost predicate Valid()
      reads this, Cells(book.tree)
    {
      && Reps(root, book.tree)
      && Distinct(book.tree)
      && operationCount == book.operations
      && HeightBounded(book)
    }

    constructor ()
      ensures Valid() && book == EMPTY_BOOK
    {
      root := null;
      operationCount := 0;
      book := EMPTY_BOOK;
    }

    /** The end of both commands: lines 177-183 and 339-345. `t` is the tree now under root. */
    method CountOperation(ghost t: Tree)
      requires Reps(root, t) && Distinct(t)
      requires 0 <= operationCount == book.operations < REBALANCE_AFTER
      modifies this, Cells(t)`left, Cells(t)`right
      ensures book == old(Counted(book, t))
      ensures Reps(root, book.tree) && Distinct(book.tree) && operationCount == book.operations
    {
      book := Counted(book, t);
      operationCount := operationCount + 1;
      if operationCount >= REBALANCE_AFTER {
        root := BalanceTree(root, t);
        RebalanceCells(t);
        operationCount := 0;
      }
    }

    /** `addContact`, lines 120-186, once the entry has been read. */
    method AddContact(entry: Entry) returns (node: Contact)
      requires Valid()
      modifies this, Cells(book.tree)
      ensures Valid() && fresh(node)
      ensures book == Step(old(book), Add(node, entry))
    {
      AllAllocated(book.tree);
      node := new Contact(entry);
      ghost var x := Item(node, entry);
      StepHeight(book, Add(node, entry));
      InsertCells(book.tree, x);
      root := Insert(root, node, book.tree);
      CountOperation(Inserted(book.tree, x));
    }

    /** The listing both commands offer and the choice from it: lines 204-228 and 308-332. */
    method Choose(choice: int) returns (c: Contact?)
      requires Valid()
      ensures c != null <==> Chosen(book.tree, choice)
      ensures c != null ==> c in Cells(book.tree)
      ensures c != null ==> c == InOrder(book.tree)[choice - 1].cell && c.entry == ChosenEntry(book.tree, choice)
    {
      if root == null {
        return null;
      }
      AllAllocated(book.tree);
      var count := CountNodes(root, book.tree);
      var a := new Contact?[count];
      var idx := StoreInOrder(root, a, 0, book.tree);
      if choice < 1 || choice > count {
        return null;
      }
      RepsEntries(root, book.tree);
      CellsOfList(book.tree);
      assert InOrder(book.tree)[choice - 1] in InOrder(book.tree);
      return a[choice - 1];
    }

    /** `deleteContact`, lines 302-352. */
    method DeleteContact(choice: int, confirmed: bool)
      requires Valid()
      modifies this, Cells(book.tree)
      ensures Valid()
      ensures book == Step(old(book), Delete(choice, confirmed))
    {
      AllAllocated(book.tree);
      var c := Choose(choice);
      if c != null && confirmed {
        ghost var key := c.entry;
        StepHeight(book, Delete(choice, confirmed));
        DeleteCells(book.tree, key);
        ghost var freed;
        root, freed := DeleteNode(root, c, book.tree);
        CountOperation(Deleted(book.tree, key));
      }
    }

    /** `editContact`, lines 198-300: one field of the chosen contact is rewritten in place. */
    method EditContact(choice: int, field: int, text: string)
      requires Valid()
      modifies this, Cells(book.tree)
      ensures Valid()
      ensures book == Step(old(book), Edit(choice, field, text))
    {
      AllAllocated(book.tree);
      var c := Choose(choice);
      if c != null {
        SizeIsLength(book.tree);
        StepHeight(book, Edit(choice, field, text));
        Rewrite(c, WithField(c.entry, field, text), root, book.tree, choice - 1);
        book := Step(book, Edit(choice, field, text));
      }
    }
  }

  // ---------- rewriting an entry in place ----------

  /** The part of `Reps` that is about links only. */
  ghost predicate Linked(c: Contact?, t: Tree)
    reads Cells(t)`left, Cells(t)`right
    decreases t
  {
    match t
    case Leaf => c == null
    case Node(l, x, r) => c == x.cell && Linked(x.cell.left, l) && Linked(x.cell.right, r)
  }

  ghost predicate EntriesStored(s: seq<Item>)
    reads set i | 0 <= i < |s| :: s[i].cell
  {
    forall i :: 0 <= i < |s| ==> s[i].cell.entry == s[i].entry
  }

  lemma {:induction false} RepsIsLinked(c: Contact?, t: Tree)
    ensures Reps(c, t) <==> Linked(c, t) && EntriesStored(InOrder(t))
    decreases t
  {
    if t.Node? {
      RepsIsLinked(t.item.cell.left, t.left);
      RepsIsLinked(t.item.cell.right, t.right);
      EntriesJoin(InOrder(t.left), [t.item]);
      EntriesJoin(InOrder(t.left) + [t.item], InOrder(t.right));
      assert EntriesStored([t.item]) <==> t.item.cell.entry == t.item.entry by { assert [t.item][0] == t.item; }
    }
  }

  lemma {:induction false} EntriesJoin(a: seq<Item>, b: seq<Item>)
    ensures EntriesStored(a + b) <==> EntriesStored(a) && EntriesStored(b)
  {
    if EntriesStored(a + b) {
      assert forall i :: 0 <= i < |a| ==> a[i] == (a + b)[i];
      assert forall i :: 0 <= i < |b| ==> b[i] == (a + b)[|a| + i];
    }
  }

  lemma {:induction false} LinkedEdited(c: Contact?, t: Tree, i: nat, e: Entry)
    requires Linked(c, t) && i < Size(t)
    ensures Linked(c, EditedAt(t, i, e))
  {
    var n := Size(t.left);
    if i < n {
      LinkedEdited(c.left, t.left, i, e);
    } else if i > n {
      LinkedEdited(c.right, t.right, i - n - 1, e);
    }
  }

  /** Writing an entry into the cell of item `i` rewrites that one item of the tree. */
  method Rewrite(c: Contact, e: Entry, ghost root: Contact?, ghost t: Tree, ghost i: nat)
    requires Reps(root, t) && Distinct(t) && i < Size(t) == |InOrder(t)| && c == InOrder(t)[i].cell
    modifies c`entry
    ensures Reps(root, EditedAt(t, i, e)) && Distinct(EditedAt(t, i, e))
  {
    RepsIsLinked(root, t);
    CellsOfList(t);
    LinkedEdited(root, t, i, e);
    EditShape(t, i, e);
    c.entry := e;
    RepsIsLinked(root, EditedAt(t, i, e));
  }
}
