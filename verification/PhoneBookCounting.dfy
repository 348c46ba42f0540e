/** When the phone book counts an operation and rebalances, which field an edit writes, and which
    commands change nothing (module2/4_3/contacts.c, lines 120-352). */
module PhoneBookCounting {
  import opened ContactTree
  import opened PhoneBook

  // ---------- the counter ----------

  lemma {:induction false} RunLast(b: Book, commands: seq<Command>, c: Command)
    ensures Run(b, commands + [c]) == Step(Run(b, commands), c)
    decreases |commands|
  {
    if commands == [] {
      assert [] + [c] == [c] && [c][1..] == [];
      assert Run(b, [c]) == Run(Step(b, c), []);
    } else {
      RunLast(Step(b, commands[0]), commands[1..], c);
      assert (commands + [c])[1..] == commands[1..] + [c];
    }
  }

  /** Additions and confirmed deletions of a listed contact so far. */
  ghost function Done(commands: seq<Command>): nat {
    if commands == [] then 0
    else
      var front, c := commands[..|commands| - 1], commands[|commands| - 1];
      Done(front) + if Counts(Run(EMPTY_BOOK, front), c) then 1 else 0
  }

  ghost predicate Counts(b: Book, c: Command) {
    c.Add? || (c.Delete? && c.confirmed && 1 <= c.choice <= |InOrder(b.tree)|)
  }

  /** `x` hangs at the end of a branch of `t`, and every other node stands where it stood. */
  ghost predicate LeafAdded(t: Tree, x: Item, after: Tree) {
    match t
    case Leaf => after == Node(Leaf, x, Leaf)
    case Node(l, y, r) =>
      after.Node? && after.item == y
      && ((after.right == r && LeafAdded(l, x, after.left)) || (after.left == l && LeafAdded(r, x, after.right)))
  }

  lemma {:induction false} InsertedIsLeaf(t: Tree, x: Item)
    ensures LeafAdded(t, x, Inserted(t, x))
  {
    if t.Node? {
      InsertedIsLeaf(t.left, x);
      InsertedIsLeaf(t.right, x);
    }
  }

  /** What a command that does not rebalance makes of the tree. */
  ghost predicate TreeChanges(b: Book, c: Command, after: Tree) {
    match c
    case Add(cell, entry) => LeafAdded(b.tree, Item(cell, entry), after)
    case Delete(choice, confirmed) =>
      after == if Counts(b, c) then Deleted(b.tree, InOrder(b.tree)[choice - 1].entry) else b.tree
    case Edit(choice, field, text) => Height(after) == Height(b.tree)
  }

  /** Every tenth operation rebalances the tree, and no other command does: `other` is any tree. */
  ghost predicate TenthRebalances(b: Book, c: Command, after: Book, done: nat, other: Tree) {
    if Counts(b, c) && done % 10 == 0
    then after.balancedSize == Size(after.tree)
         && (Size(other) == Size(after.tree) ==> Height(after.tree) <= Height(other))
    else after.balancedSize == b.balancedSize && TreeChanges(b, c, after.tree)
  }

  lemma {:induction false} NextOfTen(done: nat)
    ensures (done + 1) % 10 == if done % 10 == 9 then 0 else done % 10 + 1
  {
  }

  lemma {:induction false} CountedStep(b: Book, t: Tree, done: nat, other: Tree)
    requires b.operations == done % 10
    ensures var r := Counted(b, t);
            && r.operations == (done + 1) % 10
            && (if (done + 1) % 10 == 0
                then r.balancedSize == Size(r.tree) && (Size(other) == Size(r.tree) ==> Height(r.tree) <= Height(other))
                else r.balancedSize == b.balancedSize && r.tree == t)
  {
    NextOfTen(done);
    RebalanceIsOptimal(t, other);
    SizeIsLength(t);
    SizeIsLength(Rebalanced(t));
  }

  lemma {:induction false} StepCounts(b: Book, c: Command, done: nat, other: Tree)
    requires b.operations == done % 10
    ensures Step(b, c).operations == (done + if Counts(b, c) then 1 else 0) % 10
    ensures TenthRebalances(b, c, Step(b, c), done + if Counts(b, c) then 1 else 0, other)
  {
    match c
    case Add(cell, entry) =>
      CountedStep(b, Inserted(b.tree, Item(cell, entry)), done, other);
      InsertedIsLeaf(b.tree, Item(cell, entry));
    case Delete(choice, confirmed) =>
      if Counts(b, c) {
        CountedStep(b, Deleted(b.tree, ChosenEntry(b.tree, choice)), done, other);
      }
    case Edit(choice, field, text) =>
      if Chosen(b.tree, choice) {
        SizeIsLength(b.tree);
        EditShape(b.tree, choice - 1, WithField(ChosenEntry(b.tree, choice), field, text));
      }
  }

  /** Over every run from the empty book the counter is the number of operations done modulo 10, and
      exactly when that number reaches a multiple of 10 the tree is rebalanced to the least height
      of its size. */
  lemma {:induction false} CounterOverRuns(commands: seq<Command>, other: Tree)
    ensures Run(EMPTY_BOOK, commands).operations == Done(commands) % 10
    ensures commands != [] ==>
              var front, c := commands[..|commands| - 1], commands[|commands| - 1];
              TenthRebalances(Run(EMPTY_BOOK, front), c, Run(EMPTY_BOOK, commands), Done(commands), other)
    decreases |commands|
  {
    if commands != [] {
      var front, c := commands[..|commands| - 1], commands[|commands| - 1];
      CounterOverRuns(front, other);
      assert commands == front + [c];
      RunLast(EMPTY_BOOK, front, c);
      StepCounts(Run(EMPTY_BOOK, front), c, Done(front), other);
    }
  }

  /** What a command does to the listing, whether it rebalances or not: an addition puts the entry
      behind all that are not greater, and a deletion leaves what deleting the chosen key
      leaves. */
  lemma {:induction false} StepLists(b: Book, c: Command) returns (k: nat)
    requires Sorted(InOrder(b.tree))
    ensures c.Add? ==> InsertedAt(InOrder(b.tree), Item(c.cell, c.entry), k, InOrder(Step(b, c).tree))
    ensures c.Delete? && Counts(b, c) ==>
              InOrder(Step(b, c).tree) == InOrder(Deleted(b.tree, InOrder(b.tree)[c.choice - 1].entry))
  {
    k := 0;
    if c.Add? {
      k := InsertPosition(b.tree, Item(c.cell, c.entry));
      RebalanceIsOptimal(Inserted(b.tree, Item(c.cell, c.entry)), Leaf);
    } else if c.Delete? && Counts(b, c) {
      RebalanceIsOptimal(Deleted(b.tree, InOrder(b.tree)[c.choice - 1].entry), Leaf);
    }
  }

  // ---------- edits and commands without effect ----------

  /** The fields in the order of the edit menu. */
  function Fields(e: Entry): seq<string> {
    [e.lastname, e.name, e.patronymic, e.workplace, e.position, e.phone, e.email, e.social, e.messenger]
  }

  /** The answer 1 to 9 makes this field alone take the text, but for an empty last name or name;
      any other answer changes nothing. */
  lemma {:induction false} FieldWritten(e: Entry, field: int, text: string)
    ensures Fields(WithField(e, field, text)) ==
            if 1 <= field <= 9 && (text != "" || field >= 3) then Fields(e)[field - 1 := text] else Fields(e)
  {
  }

  lemma {:induction false} FieldsDiffer(a: Entry, b: Entry)
    requires Fields(a) == Fields(b)
    ensures a == b
  {
    var f, g := Fields(a), Fields(b);
    assert f[0] == g[0] && f[1] == g[1] && f[2] == g[2] && f[3] == g[3] && f[4] == g[4];
    assert f[5] == g[5] && f[6] == g[6] && f[7] == g[7] && f[8] == g[8];
  }

  /** An edit of a listed contact writes one field of that contact, in its place and its cell, and
      leaves the counter alone. */
  lemma {:induction false} EditWritesOne(b: Book, choice: int, field: int, text: string)
    requires 1 <= choice <= |InOrder(b.tree)| && 1 <= field <= 9 && text != ""
    ensures var s, r := InOrder(b.tree), Step(b, Edit(choice, field, text));
            && |InOrder(r.tree)| == |s| && (forall i :: 0 <= i < |s| && i != choice - 1 ==> InOrder(r.tree)[i] == s[i])
            && InOrder(r.tree)[choice - 1].cell == s[choice - 1].cell
            && Fields(InOrder(r.tree)[choice - 1].entry) == Fields(s[choice - 1].entry)[field - 1 := text]
            && r.operations == b.operations && r.balancedSize == b.balancedSize
  {
    var e := WithField(InOrder(b.tree)[choice - 1].entry, field, text);
    SizeIsLength(b.tree);
    EditShape(b.tree, choice - 1, e);
    FieldWritten(InOrder(b.tree)[choice - 1].entry, field, text);
  }

  /** A choice out of range, a deletion that is not confirmed, and an answer of the edit menu that
      is no field or an empty name change nothing at all. */
  lemma {:induction false} NoEffect(b: Book, c: Command)
    requires c.Add? ==> false
    requires c.choice < 1 || c.choice > |InOrder(b.tree)| || (c.Delete? && !c.confirmed)
             || (c.Edit? && (c.field < 1 || c.field > 9 || (c.field <= 2 && c.text == "")))
    ensures var r := Step(b, c);
            r.operations == b.operations && r.balancedSize == b.balancedSize && InOrder(r.tree) == InOrder(b.tree)
  {
    if c.Edit? && 1 <= c.choice <= |InOrder(b.tree)| {
      var e := InOrder(b.tree)[c.choice - 1].entry;
      SizeIsLength(b.tree);
      FieldWritten(e, c.field, c.text);
      FieldsDiffer(WithField(e, c.field, c.text), e);
      EditShape(b.tree, c.choice - 1, e);
    }
  }
}
