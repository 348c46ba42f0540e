/** What the producer and its consumers achieve (module3/04), for every interleaving of any
    number of consumers: all consequences of the invariant. */
module BlockQueueTheorems {
  import opened BlockQueue
  import opened BlockQueueInvariant
  import opened BlockQueueSafety

  lemma {:induction false} Reachable(l: Layout, n: nat, events: seq<Event>)
    requires Sound(l)
    ensures Inv(l, Run(l, Initial(l, n), events))
  {
    InitialInv(l, n);
    RunKeeps(l, Initial(l, n), events);
  }

  // ---------- nothing is appended after the finish ----------

  lemma {:induction false} FinishedStep(l: Layout, s: State, e: Event)
    requires Inv(l, s) && s.finished
    ensures Step(l, s, e).finished && Step(l, s, e).blocks == s.blocks
  {
    assert Holds(l, s, TheMaker);
    match e
    case ProducerMoves(random) =>
    case ConsumerMoves(id) =>
      if id < |s.consumers| {
        if s.consumers[id].at.CClaim? || s.consumers[id].at.CScan? {
        } else {
          QuietSteps(l, s, id);
        }
      }
  }

  /** Once `producer_finished` is set, it stays set and no block is ever published again. */
  lemma {:induction false} FinishedIsFinal(l: Layout, s: State, events: seq<Event>)
    requires Sound(l) && Inv(l, s) && s.finished
    ensures Run(l, s, events).finished && Run(l, s, events).blocks == s.blocks
    decreases |events|
  {
    if events != [] {
      FinishedStep(l, s, events[0]);
      StepKeeps(l, s, events[0]);
      FinishedIsFinal(l, Step(l, s, events[0]), events[1..]);
    }
  }

  // ---------- the list ----------

  /** The node reached from `head` by following `k` links. */
  ghost function Follow(l: Layout, mem: Memory, head: int, k: nat): int {
    if k == 0 then head else Read(mem, Follow(l, mem, head, k - 1) + l.nextAt)
  }

  /** Following the links from `head` visits the published blocks in order and then ends;
      `tail` is the last node reached. */
  lemma {:induction false} ListIsPublished(l: Layout, s: State, k: nat)
    requires Inv(l, s) && k <= |s.blocks|
    ensures Follow(l, s.mem, s.head, k) == AddrAt(s.blocks, k)
    ensures s.blocks != [] ==> s.tail == AddrAt(s.blocks, |s.blocks| - 1)
  {
    assert Holds(l, s, TheEnds);
    assert Holds(l, s, TheList);
    if k > 0 {
      ListIsPublished(l, s, k - 1);
      assert BlockStored(l, s.mem, s.blocks, |s.claims|, k - 1);
    }
  }

  /** Published blocks occupy disjoint stretches of memory, in order of publication, and the
      last one ends a header's length behind what the producer accounts as used. */
  lemma {:induction false} BlocksDisjoint(l: Layout, s: State)
    requires Sound(l) && Inv(l, s)
    ensures forall j, k :: 0 <= j < k < |s.blocks| ==> End(l, s.blocks[j]) <= s.blocks[k].addr
    ensures s.producer.used == l.header + Extent(l, s.blocks)
  {
    assert Holds(l, s, TheArena);
  }

  // ---------- claims ----------

  /** Blocks are claimed in the order in which they were published, and none is claimed twice. */
  lemma {:induction false} ClaimedInOrderOnce(l: Layout, n: nat, events: seq<Event>)
    requires Sound(l)
    ensures var s := Run(l, Initial(l, n), events);
            && |s.claims| <= |s.blocks|
            && (forall k :: 0 <= k < |s.claims| ==> s.claims[k] == s.blocks[k].addr)
            && (forall j, k :: 0 <= j < k < |s.claims| ==> s.claims[j] != s.claims[k])
  {
    Reachable(l, n, events);
    var s := Run(l, Initial(l, n), events);
    assert Holds(l, s, TheEnds);
    assert Holds(l, s, TheArena);
    forall j, k | 0 <= j < k < |s.claims|
      ensures s.claims[j] != s.claims[k]
    {
      assert End(l, s.blocks[j]) <= s.blocks[k].addr;
    }
  }

  /** What a consumer prints for a block is the least and the greatest of the numbers that the
      producer wrote into it, whatever the other processes did during the unlocked scan. */
  lemma {:induction false} ReportsAreTrue(l: Layout, n: nat, events: seq<Event>)
    requires Sound(l)
    ensures var s := Run(l, Initial(l, n), events);
            forall r :: 0 <= r < |s.reports| ==>
              && s.reports[r].block < |s.blocks|
              && IsMin(s.blocks[s.reports[r].block].values, s.reports[r].min)
              && IsMax(s.blocks[s.reports[r].block].values, s.reports[r].max)
  {
    Reachable(l, n, events);
    var s := Run(l, Initial(l, n), events);
    assert Holds(l, s, TheReports);
    forall r | 0 <= r < |s.reports|
      ensures s.reports[r].block < |s.blocks|
      ensures IsMin(s.blocks[s.reports[r].block].values, s.reports[r].min)
      ensures IsMax(s.blocks[s.reports[r].block].values, s.reports[r].max)
    {
      assert Truthful(s.blocks, |s.claims|, s.reports[r]);
    }
  }

  // ---------- after all processes have exited ----------

  lemma {:induction false} NobodyBusyAtExit(cs: seq<Consumer>)
    requires forall id :: 0 <= id < |cs| ==> cs[id].at.CExit?
    ensures BusyCount(cs) == 0
  {
    if cs != [] {
      NobodyBusyAtExit(cs[..|cs| - 1]);
    }
  }

  ghost function Upto(n: nat): (all: set<nat>)
    ensures |all| == n && forall k: nat :: k in all <==> k < n
  {
    if n == 0 then {} else Upto(n - 1) + {n - 1}
  }

  ghost function Reporteds(reports: seq<Report>): (all: set<nat>)
    ensures forall r :: 0 <= r < |reports| ==> reports[r].block in all
    ensures forall k :: k in all ==> exists r :: 0 <= r < |reports| && reports[r].block == k
  {
    set r | 0 <= r < |reports| :: reports[r].block
  }

  lemma {:induction false} DistinctReports(reports: seq<Report>)
    requires forall q, r :: 0 <= q < r < |reports| ==> reports[q].block != reports[r].block
    ensures |Reporteds(reports)| == |reports|
  {
    if reports != [] {
      var n := |reports| - 1;
      var front := reports[..n];
      DistinctReports(front);
      assert Reporteds(reports) == Reporteds(front) + {reports[n].block};
      assert reports[n].block !in Reporteds(front);
    }
  }

  /** As many different reports as blocks: every block has its report. */
  lemma {:induction false} EveryBlockReported(reports: seq<Report>, n: nat, k: nat)
    requires |reports| == n && k < n
    requires forall r :: 0 <= r < |reports| ==> reports[r].block < n
    requires forall q, r :: 0 <= q < r < |reports| ==> reports[q].block != reports[r].block
    ensures exists r :: 0 <= r < |reports| && reports[r].block == k
  {
    DistinctReports(reports);
    var all := Reporteds(reports);
    if k !in all {
      SubsetSize(all, Upto(n) - {k});
    }
  }

  lemma {:induction false} SubsetSize(a: set<nat>, b: set<nat>)
    requires a <= b
    ensures |a| <= |b|
  {
    if a != {} {
      var x :| x in a;
      SubsetSize(a - {x}, b - {x});
    }
  }

  /** When every process has exited, the consumers' `processed_blocks` add up to `block_count`,
      and every published block was reported exactly once. */
  lemma {:induction false} AllBlocksProcessed(l: Layout, n: nat, events: seq<Event>, k: nat)
    requires Sound(l) && n > 0 && AllExited(Run(l, Initial(l, n), events))
    ensures var s := Run(l, Initial(l, n), events);
            && TotalProcessed(s.consumers) == s.producer.blockCount == |s.blocks| == |s.claims| == |s.reports|
            && (forall q, r :: 0 <= q < r < |s.reports| ==> s.reports[q].block != s.reports[r].block)
            && (k < |s.blocks| ==> exists r :: 0 <= r < |s.reports| && s.reports[r].block == k)
  {
    var s := Run(l, Initial(l, n), events);
    Reachable(l, n, events);
    RunKeepsCount(l, Initial(l, n), events);
    AccountsAtExit(l, s);
    if k < |s.blocks| {
      assert Holds(l, s, TheReports);
      assert forall r :: 0 <= r < |s.reports| ==> Truthful(s.blocks, |s.claims|, s.reports[r]);
      EveryBlockReported(s.reports, |s.blocks|, k);
    }
  }

  lemma {:induction false} AccountsAtExit(l: Layout, s: State)
    requires Inv(l, s) && AllExited(s) && s.consumers != []
    ensures TotalProcessed(s.consumers) == s.producer.blockCount == |s.blocks| == |s.claims| == |s.reports|
    ensures forall q, r :: 0 <= q < r < |s.reports| ==> s.reports[q].block != s.reports[r].block
  {
    assert Holds(l, s, TheConsumers);
    assert ConsumerOk(l, s.blocks, |s.claims|, s.finished, s.consumers[0]);
    assert Holds(l, s, TheMaker);
    assert Holds(l, s, TheTally);
    assert Holds(l, s, TheReports);
    NobodyBusyAtExit(s.consumers);
  }

  lemma {:induction false} StepKeepsCount(l: Layout, s: State, e: Event)
    ensures |Step(l, s, e).consumers| == |s.consumers|
  {
    match e
    case ProducerMoves(random) =>
      match s.producer.at {
        case PTop =>
        case PNew =>
        case PFill =>
        case PLockAppend =>
        case PAppend =>
        case PUnlockAppend =>
        case PLockCheck =>
        case PWalk =>
        case PUnlockCheck =>
        case PLockFinish =>
        case PFinish =>
        case PUnlockFinish =>
        case PExit =>
      }
    case ConsumerMoves(id) =>
  }

  lemma {:induction false} RunKeepsCount(l: Layout, s: State, events: seq<Event>)
    ensures |Run(l, s, events).consumers| == |s.consumers|
    decreases |events|
  {
    if events != [] {
      StepKeepsCount(l, s, events[0]);
      RunKeepsCount(l, Step(l, s, events[0]), events[1..]);
    }
  }

  // ---------- no deadlock ----------

  /** The process holding the semaphore always moves on: a walk never stands still. */
  lemma {:induction false} WalkMoves(l: Layout, s: State, current: int)
    requires Sound(l) && Inv(l, s) && OnList(s.blocks, |s.claims|, current) && current != NULL
    requires Read(s.mem, current) <= 0
    ensures Read(s.mem, current + l.nextAt) != current
  {
    assert Holds(l, s, TheList);
    assert Holds(l, s, TheArena);
    var k: nat :| k <= |s.blocks| && k <= |s.claims| && current == AddrAt(s.blocks, k);
    assert BlockStored(l, s.mem, s.blocks, |s.claims|, k);
    if k + 1 < |s.blocks| {
      assert End(l, s.blocks[k]) <= s.blocks[k + 1].addr;
    }
  }

  lemma {:induction false} ProducerMovesOn(l: Layout, s: State)
    requires Sound(l) && Inv(l, s) && !s.producer.at.PExit?
    requires s.semaphore == Nobody || s.semaphore == TheProducer
    ensures Step(l, s, ProducerMoves(0)) != s
  {
    assert Holds(l, s, TheMaker);
    assert Holds(l, s, TheLock);
    if s.producer.at.PWalk? && s.producer.current != NULL && Read(s.mem, s.producer.current) <= 0 {
      WalkMoves(l, s, s.producer.current);
      assert ProducerStep(l, s, 0).producer.current != s.producer.current;
    } else if s.producer.at.PFill? && |s.producer.written| < s.producer.count {
      assert |ProducerStep(l, s, 0).producer.written| == |s.producer.written| + 1;
    } else {
      assert ProducerStep(l, s, 0).producer.at != s.producer.at;
    }
  }

  lemma {:induction false} ConsumerMovesOn(l: Layout, s: State, id: nat)
    requires Sound(l) && Inv(l, s) && id < |s.consumers| && !s.consumers[id].at.CExit?
    requires s.semaphore == Nobody || s.semaphore == TheConsumer(id)
    ensures Step(l, s, ConsumerMoves(id)) != s
  {
    assert Holds(l, s, TheLock);
    var c := s.consumers[id];
    assert s.semaphore == TheConsumer(id) <==> ConsumerHolds(c.at);
    var c' := ConsumerStep(l, s, id).consumers[id];
    if (c.at.CWalkLook? || c.at.CWalkClaim?) && c.current != NULL && Read(s.mem, c.current) <= 0 {
      WalkerMovesOn(l, s, id);
    } else if c.at.CScan? && c.i < c.count {
      assert c'.i == c.i + 1;
    } else {
      assert c'.at != c.at;
    }
  }

  lemma {:induction false} WalkerMovesOn(l: Layout, s: State, id: nat)
    requires Sound(l) && Inv(l, s) && id < |s.consumers|
    requires var c := s.consumers[id];
             (c.at.CWalkLook? || c.at.CWalkClaim?) && c.current != NULL && Read(s.mem, c.current) <= 0
    ensures ConsumerStep(l, s, id).consumers[id].current != s.consumers[id].current
  {
    assert Holds(l, s, TheConsumers);
    assert ConsumerOk(l, s.blocks, |s.claims|, s.finished, s.consumers[id]);
    WalkMoves(l, s, s.consumers[id].current);
  }

  /** No reachable state is a deadlock: until all processes have exited, one of them can move. */
  lemma {:induction false} NoDeadlock(l: Layout, s: State)
    requires Sound(l) && Inv(l, s) && !AllExited(s)
    ensures exists e :: Step(l, s, e) != s
  {
    assert Holds(l, s, TheLock);
    if s.semaphore.TheConsumer? {
      var id := s.semaphore.id;
      assert s.semaphore == TheConsumer(id) <==> ConsumerHolds(s.consumers[id].at);
      ConsumerMovesOn(l, s, id);
    } else if !s.producer.at.PExit? {
      ProducerMovesOn(l, s);
    } else {
      var id: nat :| id < |s.consumers| && !s.consumers[id].at.CExit?;
      ConsumerMovesOn(l, s, id);
    }
  }
}
