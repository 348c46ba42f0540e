/** The phone book of module2/4_3/contacts.c as a value, its menu commands as steps, and what
    every run of commands keeps. The module ContactHeap proves that the program takes these
    steps. */
module PhoneBook {
  import opened ContactTree

  const REBALANCE_AFTER := 10

  // ---------- the book as a value, and its runs ----------

  /** `balancedSize` is the size of the tree when it was last rebalanced (0 at the start). */
  datatype Book = Book(tree: Tree, operations: nat, balancedSize: nat)

  /** The commands of the menu. `Add` carries the cell that malloc returned. */
  datatype Command =
    | Add(cell: Contact, entry: Entry)
    | Delete(choice: int, confirmed: bool)
    | Edit(choice: int, field: int, text: string)

  const EMPTY_BOOK := Book(Leaf, 0, 0)

  /** One answer in the edit menu, lines 239-298. The two names insist on a nonempty text. */
  function WithField(e: Entry, field: int, text: string): Entry {
    if field == 1 then (if text == "" then e else e.(lastname := text))
    else if field == 2 then (if text == "" then e else e.(name := text))
    else if field == 3 then e.(patronymic := text)
    else if field == 4 then e.(workplace := text)
    else if field == 5 then e.(position := text)
    else if field == 6 then e.(phone := text)
    else if field == 7 then e.(email := text)
    else if field == 8 then e.(social := text)
    else if field == 9 then e.(messenger := text)
    else e
  }

  ghost function EditedAt(t: Tree, i: nat, e: Entry): Tree
    requires i < Size(t)
  {
    var n := Size(t.left);
    if i < n then t.(left := EditedAt(t.left, i, e))
    else if i == n then t.(item := t.item.(entry := e))
    else t.(right := EditedAt(t.right, i - n - 1, e))
  }

  /** The counter logic shared by additions and deletions: lines 177-183 and 339-345. */
  ghost function Counted(b: Book, t: Tree): Book {
    if b.operations + 1 >= REBALANCE_AFTER
    then Book(Rebalanced(t), 0, Size(t))
    else Book(t, b.operations + 1, b.balancedSize)
  }

  ghost predicate Chosen(t: Tree, choice: int) {
    1 <= choice <= |InOrder(t)|
  }

  ghost function ChosenEntry(t: Tree, choice: int): Entry
    requires Chosen(t, choice)
  {
    InOrder(t)[choice - 1].entry
  }

  ghost function Step(b: Book, c: Command): Book {
    match c
    case Add(cell, entry) => Counted(b, Inserted(b.tree, Item(cell, entry)))
    case Delete(choice, confirmed) =>
      if !Chosen(b.tree, choice) || !confirmed then b
      else Counted(b, Deleted(b.tree, ChosenEntry(b.tree, choice)))
    case Edit(choice, field, text) =>
      if !Chosen(b.tree, choice) then b
      else
        SizeIsLength(b.tree);
        b.(tree := EditedAt(b.tree, choice - 1, WithField(ChosenEntry(b.tree, choice), field, text)))
  }

  ghost function Run(b: Book, commands: seq<Command>): Book
    decreases commands
  {
    if commands == [] then b else Run(Step(b, commands[0]), commands[1..])
  }

  // ---------- what every run keeps ----------

  ghost predicate HeightBounded(b: Book) {
    && b.operations < REBALANCE_AFTER
    && Height(b.tree) <= LogHeight(b.balancedSize) + b.operations
  }

  lemma {:induction false} EditShape(t: Tree, i: nat, e: Entry)
    requires i < Size(t)
    ensures Height(EditedAt(t, i, e)) == Height(t) && Cells(EditedAt(t, i, e)) == Cells(t)
    ensures Distinct(EditedAt(t, i, e)) == Distinct(t)
    ensures Size(t) == |InOrder(t)|
    ensures InOrder(EditedAt(t, i, e)) == InOrder(t)[i := InOrder(t)[i].(entry := e)]
  {
    SizeIsLength(t);
    SizeIsLength(t.left);
    var n := Size(t.left);
    if i < n {
      EditShape(t.left, i, e);
    } else if i > n {
      EditShape(t.right, i - n - 1, e);
    }
  }

  lemma {:induction false} CountedHeight(b: Book, t: Tree)
    requires b.operations < REBALANCE_AFTER
    requires Height(t) <= LogHeight(b.balancedSize) + b.operations + 1
    ensures HeightBounded(Counted(b, t))
  {
    RebalanceIsOptimal(t, t);
  }

  lemma {:induction false} StepHeight(b: Book, c: Command)
    requires HeightBounded(b)
    ensures HeightBounded(Step(b, c))
  {
    match c
    case Add(cell, entry) =>
      InsertHeight(b.tree, Item(cell, entry));
      CountedHeight(b, Inserted(b.tree, Item(cell, entry)));
    case Delete(choice, confirmed) =>
      if Chosen(b.tree, choice) && confirmed {
        DeleteHeight(b.tree, ChosenEntry(b.tree, choice));
        CountedHeight(b, Deleted(b.tree, ChosenEntry(b.tree, choice)));
      }
    case Edit(choice, field, text) =>
      if Chosen(b.tree, choice) {
        SizeIsLength(b.tree);
        EditShape(b.tree, choice - 1, WithField(ChosenEntry(b.tree, choice), field, text));
      }
  }

  /** Whatever the user does, the tree is at most `operations` levels higher than the lowest
      tree of the size it had when it was last rebalanced, and `operations` stays below 10. */
  lemma {:induction false} HeightOverRuns(b: Book, commands: seq<Command>)
    requires HeightBounded(b)
    ensures HeightBounded(Run(b, commands))
    decreases commands
  {
    if commands != [] {
      StepHeight(b, commands[0]);
      HeightOverRuns(Step(b, commands[0]), commands[1..]);
    }
  }

  /** Whether an entry written at `i` stands right between its neighbours. */
  ghost predicate FitsBetween(s: seq<Item>, i: nat, e: Entry)
    requires i < |s|
  {
    (i > 0 ==> Compare(s[i - 1].entry, e) <= 0) && (i + 1 < |s| ==> Compare(e, s[i + 1].entry) <= 0)
  }

  lemma {:induction false} EditedSorted(s: seq<Item>, i: nat, e: Entry)
    requires Sorted(s) && i < |s|
    ensures Sorted(s[i := s[i].(entry := e)]) <==> FitsBetween(s, i, e)
  {
    var s' := s[i := s[i].(entry := e)];
    if FitsBetween(s, i, e) {
      forall j, k | 0 <= j < k < |s'|
        ensures Compare(s'[j].entry, s'[k].entry) <= 0
      {
        CompareOrder(e, e);
        if k == i && j < i - 1 {
          CompareTransitive(s[j].entry, s[i - 1].entry, e);
        } else if j == i && k > i + 1 {
          CompareTransitive(e, s[i + 1].entry, s[k].entry);
        }
      }
    } else if i > 0 && Compare(s[i - 1].entry, e) > 0 {
      assert Compare(s'[i - 1].entry, s'[i].entry) > 0;
    } else {
      assert Compare(s'[i].entry, s'[i + 1].entry) > 0;
    }
  }

  /** The command is no edit, or the edited entry still stands right between its neighbours. */
  ghost predicate KeepsPlace(b: Book, c: Command) {
    c.Edit? && Chosen(b.tree, c.choice) ==>
      FitsBetween(InOrder(b.tree), c.choice - 1, WithField(ChosenEntry(b.tree, c.choice), c.field, c.text))
  }

  ghost predicate KeepPlace(b: Book, commands: seq<Command>)
    decreases commands
  {
    commands == [] || (KeepsPlace(b, commands[0]) && KeepPlace(Step(b, commands[0]), commands[1..]))
  }

  /** A command leaves the listing sorted exactly when it edits no entry out of its place. */
  lemma {:induction false} StepSorted(b: Book, c: Command)
    requires Sorted(InOrder(b.tree))
    ensures Sorted(InOrder(Step(b, c).tree)) <==> KeepsPlace(b, c)
  {
    match c
    case Add(cell, entry) =>
      InsertSorted(b.tree, Item(cell, entry));
      RebalanceIsOptimal(Inserted(b.tree, Item(cell, entry)), Leaf);
    case Delete(choice, confirmed) =>
      if Chosen(b.tree, choice) && confirmed {
        DeleteSorted(b.tree, ChosenEntry(b.tree, choice));
        RebalanceIsOptimal(Deleted(b.tree, ChosenEntry(b.tree, choice)), Leaf);
      }
    case Edit(choice, field, text) =>
      if Chosen(b.tree, choice) {
        var e := WithField(ChosenEntry(b.tree, choice), field, text);
        SizeIsLength(b.tree);
        EditShape(b.tree, choice - 1, e);
        EditedSorted(InOrder(b.tree), choice - 1, e);
      }
  }

  /** The listing stays in (last name, name) order, duplicates included. */
  lemma {:induction false} SortedOverRuns(b: Book, commands: seq<Command>)
    requires Sorted(InOrder(b.tree)) && KeepPlace(b, commands)
    ensures Sorted(InOrder(Run(b, commands).tree))
    decreases commands
  {
    if commands != [] {
      StepSorted(b, commands[0]);
      SortedOverRuns(Step(b, commands[0]), commands[1..]);
    }
  }

  /** The edits that leave last name and name alone. */
  ghost predicate KeepsKeys(c: Command) {
    c.Edit? ==> c.field != 1 && c.field != 2
  }

  /** Edits of the other fields never move an entry out of its place. */
  lemma {:induction false} KeysKeepPlace(b: Book, commands: seq<Command>)
    requires Sorted(InOrder(b.tree))
    requires forall c :: c in commands ==> KeepsKeys(c)
    ensures KeepPlace(b, commands)
    decreases commands
  {
    if commands != [] {
      SameKeyKeepsPlace(b, commands[0]);
      StepSorted(b, commands[0]);
      KeysKeepPlace(Step(b, commands[0]), commands[1..]);
    }
  }

  lemma {:induction false} SameKeyKeepsPlace(b: Book, c: Command)
    requires Sorted(InOrder(b.tree)) && KeepsKeys(c)
    ensures KeepsPlace(b, c)
  {
    if c.Edit? && Chosen(b.tree, c.choice) {
      var before, after := ChosenEntry(b.tree, c.choice), WithField(ChosenEntry(b.tree, c.choice), c.field, c.text);
      assert forall x :: Compare(x, after) == Compare(x, before) && Compare(after, x) == Compare(before, x);
    }
  }

  // ---------- how many entries a run leaves ----------

  ghost predicate Effective(b: Book, c: Command) {
    c.Delete? && c.confirmed && Chosen(b.tree, c.choice)
  }

  /** The deletion stops at a node with two children. */
  ghost predicate Lossy(b: Book, c: Command) {
    Effective(b, c) && TwoChildren(Found(b.tree, ChosenEntry(b.tree, c.choice)))
  }

  ghost predicate LossFree(b: Book, commands: seq<Command>)
    decreases commands
  {
    commands == [] || (!Lossy(b, commands[0]) && LossFree(Step(b, commands[0]), commands[1..]))
  }

  ghost function NewSize(b: Book, c: Command, size: int): int {
    if c.Add? then size + 1 else if Effective(b, c) then size - 1 else size
  }

  /** One entry more for every addition, one less for every confirmed deletion. */
  ghost function ExpectedSize(b: Book, commands: seq<Command>, size: int): int
    decreases commands
  {
    if commands == [] then size
    else ExpectedSize(Step(b, commands[0]), commands[1..], NewSize(b, commands[0], size))
  }

  lemma {:induction false} StepSize(b: Book, c: Command)
    requires Sorted(InOrder(b.tree))
    ensures Size(Step(b, c).tree) <= NewSize(b, c, Size(b.tree))
    ensures Size(Step(b, c).tree) == NewSize(b, c, Size(b.tree)) <==> !Lossy(b, c)
  {
    SizeIsLength(b.tree);
    SizeIsLength(Step(b, c).tree);
    match c
    case Add(cell, entry) =>
      var k := InsertPosition(b.tree, Item(cell, entry));
      RebalanceIsOptimal(Inserted(b.tree, Item(cell, entry)), Leaf);
    case Delete(choice, confirmed) =>
      if Effective(b, c) {
        var key := ChosenEntry(b.tree, choice);
        CompareOrder(key, key);
        SearchIsComplete(b.tree, key);
        assert InOrder(b.tree)[choice - 1] in InOrder(b.tree);
        RebalanceIsOptimal(Deleted(b.tree, key), Leaf);
        SizeIsLength(Deleted(b.tree, key));
        if Lossy(b, c) {
          DeleteTwoChildren(b.tree, key);
        } else {
          var i := DeleteOneChild(b.tree, key);
        }
      }
    case Edit(choice, field, text) =>
      if Chosen(b.tree, choice) {
        EditShape(b.tree, choice - 1, WithField(ChosenEntry(b.tree, choice), field, text));
      }
  }

  /** Over a whole run the book ends with as many entries as the user added less those deleted
      if and only if no deletion ever stopped at a node with two children; otherwise it has
      fewer. */
  lemma {:induction false} SizeOverRuns(b: Book, commands: seq<Command>, size: int)
    requires Sorted(InOrder(b.tree)) && Size(b.tree) <= size && KeepPlace(b, commands)
    ensures Size(Run(b, commands).tree) <= ExpectedSize(b, commands, size)
    ensures Size(Run(b, commands).tree) == ExpectedSize(b, commands, size)
            <==> Size(b.tree) == size && LossFree(b, commands)
    decreases commands
  {
    if commands != [] {
      var c := commands[0];
      StepSorted(b, c);
      StepSize(b, c);
      SizeOverRuns(Step(b, c), commands[1..], NewSize(b, c, size));
    }
  }

  lemma {:induction false} RunFour(b: Book, c: Command, d: Command, e: Command, f: Command)
    ensures Run(b, [c, d, e, f]) == Step(Step(Step(Step(b, c), d), e), f)
  {
    var b1, b2, b3 := Step(b, c), Step(Step(b, c), d), Step(Step(Step(b, c), d), e);
    assert [c, d, e, f][1..] == [d, e, f] && [d, e, f][1..] == [e, f] && [e, f][1..] == [f] && [f][1..] == [];
    assert Run(b, [c, d, e, f]) == Run(b1, [d, e, f]);
    assert Run(b1, [d, e, f]) == Run(b2, [e, f]);
    assert Run(b2, [e, f]) == Run(b3, [f]);
    assert Run(b3, [f]) == Run(Step(b3, f), []);
  }

  lemma {:induction false} ThreeAdded(l: Item, m: Item, r: Item) returns (b: Book)
    requires Compare(l.entry, m.entry) < 0 && Compare(m.entry, r.entry) < 0
    ensures b == Step(Step(Step(EMPTY_BOOK, Add(m.cell, m.entry)), Add(l.cell, l.entry)), Add(r.cell, r.entry))
    ensures b == Book(Node(Node(Leaf, l, Leaf), m, Node(Leaf, r, Leaf)), 3, 0)
  {
    CompareOrder(m.entry, r.entry);
    assert Inserted(Leaf, m) == Node(Leaf, m, Leaf);
    assert Inserted(Leaf, l) == Node(Leaf, l, Leaf) && Inserted(Leaf, r) == Node(Leaf, r, Leaf);
    assert l == Item(l.cell, l.entry) && m == Item(m.cell, m.entry) && r == Item(r.cell, r.entry);
    var first := Step(EMPTY_BOOK, Add(m.cell, m.entry));
    assert first == Book(Node(Leaf, m, Leaf), 1, 0);
    var second := Step(first, Add(l.cell, l.entry));
    assert second == Book(Node(Node(Leaf, l, Leaf), m, Leaf), 2, 0);
    b := Step(second, Add(r.cell, r.entry));
  }

  lemma {:induction false} DeletedMiddle(l: Item, m: Item, r: Item)
    ensures var t := Deleted(Node(Node(Leaf, l, Leaf), m, Node(Leaf, r, Leaf)), m.entry);
            t == Node(Leaf, Item(m.cell, r.entry), Leaf) && InOrder(t) == [Item(m.cell, r.entry)]
  {
    CompareOrder(m.entry, m.entry);
    assert Leftmost(Node(Leaf, r, Leaf)) == Node(Leaf, r, Leaf) && Deleted(Leaf, r.entry) == Leaf;
  }

  /** Three additions, the middle entry first, and the deletion of that entry lose two entries: the
      first of them is gone from the tree, although nobody deleted it. */
  lemma {:induction false} LossExample(l: Item, m: Item, r: Item)
    requires Compare(l.entry, m.entry) < 0 && Compare(m.entry, r.entry) < 0
    ensures var commands := [Add(m.cell, m.entry), Add(l.cell, l.entry), Add(r.cell, r.entry), Delete(2, true)];
            InOrder(Run(EMPTY_BOOK, commands).tree) == [Item(m.cell, r.entry)]
  {
    var b := ThreeAdded(l, m, r);
    CompareOrder(m.entry, m.entry);
    assert InOrder(Node(Leaf, l, Leaf)) == [l] && InOrder(Node(Leaf, r, Leaf)) == [r];
    assert InOrder(b.tree) == [l, m, r];
    DeletedMiddle(l, m, r);
    RunFour(EMPTY_BOOK, Add(m.cell, m.entry), Add(l.cell, l.entry), Add(r.cell, r.entry), Delete(2, true));
  }

  // ---------- which entry a deletion removes ----------

  /** The chosen entry is the only one with its key. */
  ghost predicate OnlyOfItsKey(t: Tree, choice: int)
    requires Chosen(t, choice)
  {
    forall i :: 0 <= i < |InOrder(t)| && Compare(ChosenEntry(t, choice), InOrder(t)[i].entry) == 0 ==> i == choice - 1
  }

  lemma {:induction false} FoundIsListed(t: Tree, key: Entry) returns (i: nat)
    requires Found(t, key).Node?
    ensures i < |InOrder(t)| && InOrder(t)[i] == Found(t, key).item && Compare(key, InOrder(t)[i].entry) == 0
  {
    var n := |InOrder(t.left)|;
    if Compare(key, t.item.entry) < 0 {
      i := FoundIsListed(t.left, key);
    } else if Compare(key, t.item.entry) > 0 {
      var j := FoundIsListed(t.right, key);
      i := n + 1 + j;
    } else {
      i := n;
    }
  }

  /** With an unshared key the search stops at the chosen contact. */
  lemma {:induction false} ChosenIsFound(t: Tree, choice: int)
    requires Sorted(InOrder(t)) && Chosen(t, choice) && OnlyOfItsKey(t, choice)
    ensures Found(t, ChosenEntry(t, choice)).Node?
    ensures Found(t, ChosenEntry(t, choice)).item == InOrder(t)[choice - 1]
  {
    var key := ChosenEntry(t, choice);
    CompareOrder(key, key);
    assert InOrder(t)[choice - 1] in InOrder(t);
    SearchIsComplete(t, key);
    var i := FoundIsListed(t, key);
  }

  /** When the node at which the search stops has at most one child, the contact that is freed is
      the chosen one exactly when the search stops there; with equal keys it may stop at another. */
  lemma {:induction false} ChosenIsFreed(t: Tree, choice: int)
    requires Sorted(InOrder(t)) && Chosen(t, choice) && !TwoChildren(Found(t, ChosenEntry(t, choice)))
    ensures var key, cell := ChosenEntry(t, choice), InOrder(t)[choice - 1].cell;
            && (Freed(t, key) == {cell} <==> Found(t, key).Node? && Found(t, key).item.cell == cell)
            && (OnlyOfItsKey(t, choice) ==> Freed(t, key) == {cell})
  {
    var key, cell := ChosenEntry(t, choice), InOrder(t)[choice - 1].cell;
    CompareOrder(key, key);
    assert InOrder(t)[choice - 1] in InOrder(t);
    SearchIsComplete(t, key);
    FreesOneChild(t, key);
    assert Found(t, key).item.cell in Freed(t, key);
    if OnlyOfItsKey(t, choice) {
      ChosenIsFound(t, choice);
    }
  }

  lemma {:induction false} FoundCellStays(t: Tree, key: Entry)
    requires TwoChildren(Found(t, key))
    ensures Found(t, key).item.cell in Cells(Deleted(t, key))
  {
    if Compare(key, t.item.entry) < 0 {
      FoundCellStays(t.left, key);
    } else if Compare(key, t.item.entry) > 0 {
      FoundCellStays(t.right, key);
    }
  }

  /** A chosen contact with an unshared key is the one freed if and only if its node has at most
      one child. With two children its cell stays in the tree, with another entry in it. */
  lemma {:induction false} ChosenIsFreedExactlyWhen(t: Tree, choice: int)
    requires Sorted(InOrder(t)) && Distinct(t) && Chosen(t, choice) && OnlyOfItsKey(t, choice)
    ensures var key := ChosenEntry(t, choice);
            Freed(t, key) == {InOrder(t)[choice - 1].cell} <==> !TwoChildren(Found(t, key))
  {
    var key, cell := ChosenEntry(t, choice), InOrder(t)[choice - 1].cell;
    if TwoChildren(Found(t, key)) {
      ChosenIsFound(t, choice);
      FoundCellStays(t, key);
      DeleteCells(t, key);
      assert cell in Cells(Deleted(t, key)) && cell !in Freed(t, key);
      assert cell in {cell};
    } else {
      ChosenIsFreed(t, choice);
    }
  }

  /** Two entries with one key: choosing the second frees the first. */
  lemma {:induction false} Twins(a: Item, b: Item) returns (t: Tree)
    requires a.cell != b.cell && Compare(a.entry, b.entry) == 0
    ensures t == Inserted(Inserted(Leaf, a), b) && InOrder(t) == [a, b]
    ensures Chosen(t, 2) && Freed(t, ChosenEntry(t, 2)) == {a.cell}
  {
    CompareOrder(a.entry, b.entry);
    CompareOrder(b.entry, a.entry);
    t := Node(Leaf, a, Node(Leaf, b, Leaf));
    assert Inserted(Leaf, a) == Node(Leaf, a, Leaf);
    assert Compare(b.entry, a.entry) == 0;
  }
}
