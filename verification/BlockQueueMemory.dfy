/** How far the producer's arena reaches (module3/04/producer.c): its guards reserve
    `sizeof(int) + sizeof(Node*)` for a block that costs `sizeof(Node)`, `remaining` wraps once
    `used_memory` has passed `total_size`, and blocks are placed behind two headers. */
module BlockQueueMemory {
  import opened BlockQueue
  import opened BlockQueueInvariant
  import opened BlockQueueSafety
  import opened BlockQueueTheorems

  /** The block under construction passed the guards but does not fit. */
  predicate Gap(l: Layout, p: Producer) {
    RemainingBytes(l, p.used) < l.node + Bytes(p.count)
  }

  /** No step of the run publishes a block that does not fit. */
  ghost predicate Roomy(l: Layout, s: State, events: seq<Event>)
    decreases |events|
  {
    events != [] ==>
      && !(events[0].ProducerMoves? && s.producer.at.PAppend? && Gap(l, s.producer))
      && Roomy(l, Step(l, s, events[0]), events[1..])
  }

  lemma {:induction false} StepUsed(l: Layout, s: State, e: Event)
    ensures Step(l, s, e).producer.used ==
            s.producer.used + if e.ProducerMoves? && s.producer.at.PAppend? then l.node + 4 * s.producer.count else 0
  {
    match e
    case ProducerMoves(random) =>
      match s.producer.at {
        case PTop =>
        case PNew =>
        case PFill =>
        case PLockAppend =>
        case PAppend =>
        case PUnlockAppend =>
        case PLockCheck =>
        case PWalk =>
        case PUnlockCheck =>
        case PLockFinish =>
        case PFinish =>
        case PUnlockFinish =>
        case PExit =>
      }
    case ConsumerMoves(id) =>
  }

  lemma {:induction false} UsedGrows(l: Layout, s: State, events: seq<Event>)
    ensures Run(l, s, events).producer.used >= s.producer.used
    decreases |events|
  {
    if events != [] {
      StepUsed(l, s, events[0]);
      UsedGrows(l, Step(l, s, events[0]), events[1..]);
    }
  }

  /** `used_memory` is within `total_size` after a run exactly when no block that was published
      left less than `sizeof(Node)` behind its numbers. */
  lemma {:induction false} WithinExactlyWhenRoomy(l: Layout, s: State, events: seq<Event>)
    requires s.producer.used <= l.total < SIZE_MODULUS
    ensures Run(l, s, events).producer.used <= l.total <==> Roomy(l, s, events)
    decreases |events|
  {
    if events != [] {
      var t := Step(l, s, events[0]);
      StepUsed(l, s, events[0]);
      assert RemainingBytes(l, s.producer.used) == l.total - s.producer.used;
      if t.producer.used <= l.total {
        WithinExactlyWhenRoomy(l, t, events[1..]);
      } else {
        UsedGrows(l, t, events[1..]);
      }
    }
  }

  /** As long as no allocation falls into the gap, at most `(total - header) / (sizeof(Node) + 80)`
      blocks are published. */
  lemma {:induction false} BlocksBounded(l: Layout, n: nat, events: seq<Event>)
    requires Sound(l) && l.header <= l.total < SIZE_MODULUS && Roomy(l, Initial(l, n), events)
    ensures |Run(l, Initial(l, n), events).blocks| * (l.node + 80) <= l.total - l.header
  {
    var s := Run(l, Initial(l, n), events);
    WithinExactlyWhenRoomy(l, Initial(l, n), events);
    Reachable(l, n, events);
    assert Holds(l, s, TheArena);
    ExtentAtLeast(l, s.blocks);
  }

  lemma {:induction false} ExtentAtLeast(l: Layout, blocks: seq<Block>)
    requires forall k :: 0 <= k < |blocks| ==> 20 <= |blocks[k].values|
    ensures Extent(l, blocks) >= |blocks| * (l.node + 80)
  {
    if blocks != [] {
      var n, size := |blocks| - 1, l.node + 80;
      ExtentAtLeast(l, blocks[..n]);
      assert |blocks| * size == n * size + size;
    }
  }

  // ---------- the guards ----------

  predicate Building(at: ProducerAt) {
    at.PNew? || at.PFill? || at.PLockAppend? || at.PAppend?
  }

  /** What the guards established still holds when the block is published. */
  ghost predicate Guarded(l: Layout, p: Producer) {
    Building(p.at) ==> RemainingBytes(l, p.used) >= l.guard + Bytes(p.count)
  }

  lemma {:induction false} StepGuarded(l: Layout, s: State, e: Event)
    requires Guarded(l, s.producer)
    ensures Guarded(l, Step(l, s, e).producer)
  {
    match e
    case ProducerMoves(random) =>
      match s.producer.at {
        case PTop =>
        case PNew =>
        case PFill =>
        case PLockAppend =>
        case PAppend =>
        case PUnlockAppend =>
        case PLockCheck =>
        case PWalk =>
        case PUnlockCheck =>
        case PLockFinish =>
        case PFinish =>
        case PUnlockFinish =>
        case PExit =>
      }
    case ConsumerMoves(id) =>
  }

  lemma {:induction false} GuardMakesRoom(l: Layout, s: State, events: seq<Event>)
    requires l.node <= l.guard && Guarded(l, s.producer)
    ensures Roomy(l, s, events)
    decreases |events|
  {
    if events != [] {
      StepGuarded(l, s, events[0]);
      GuardMakesRoom(l, Step(l, s, events[0]), events[1..]);
    }
  }

  // ---------- a run of the producer alone ----------

  function Alone(k: nat): seq<Event> {
    if k == 0 then [] else [ProducerMoves(0)] + Alone(k - 1)
  }

  lemma {:induction false} RunAlone(l: Layout, s: State, k: nat)
    ensures Run(l, s, Alone(k)) == if k == 0 then s else Run(l, ProducerStep(l, s, 0), Alone(k - 1))
  {
    if k > 0 {
      assert Alone(k)[1..] == Alone(k - 1);
    }
  }

  lemma {:induction false} RunJoin(l: Layout, s: State, a: seq<Event>, b: seq<Event>)
    ensures Run(l, s, a + b) == Run(l, Run(l, s, a), b)
    decreases |a|
  {
    if a == [] {
      assert a + b == b;
    } else {
      assert (a + b)[0] == a[0] && (a + b)[1..] == a[1..] + b;
      RunJoin(l, Step(l, s, a[0]), a[1..], b);
    }
  }

  /** What the publication of a block changes, up to the release of the semaphore. */
  ghost predicate Published(l: Layout, s: State, node: int, count: nat, t: State) {
    && t.producer.used == s.producer.used + l.node + Bytes(count)
    && |t.blocks| == |s.blocks| + 1
    && t.blocks[|s.blocks|].addr == node && |t.blocks[|s.blocks|].values| == count
    && t.claims == s.claims && t.semaphore == Nobody
    && t.producer.sinceCheck == s.producer.sinceCheck + 1
    && t.producer.at == (if s.producer.sinceCheck + 1 >= BATCH_SIZE then PLockCheck else PTop)
  }

  /** From the filling of a block to the end of the critical section. */
  lemma {:induction false} PublishAlone(l: Layout, s: State, k: nat)
    requires s.producer.at.PFill? && |s.producer.written| + k == s.producer.count && s.semaphore == Nobody
    ensures Published(l, s, s.producer.node, s.producer.count, Run(l, s, Alone(k + 4)))
    decreases k
  {
    RunAlone(l, s, k + 4);
    var t := ProducerStep(l, s, 0);
    if k > 0 {
      PublishAlone(l, t, k - 1);
    } else {
      LinkAlone(l, t);
    }
  }

  lemma {:induction false} LinkAlone(l: Layout, s: State)
    requires s.producer.at.PLockAppend? && |s.producer.written| == s.producer.count && s.semaphore == Nobody
    ensures Published(l, s, s.producer.node, s.producer.count, Run(l, s, Alone(3)))
  {
    RunAlone(l, s, 3);
    var t := ProducerStep(l, s, 0);
    RunAlone(l, t, 2);
    var u := ProducerStep(l, t, 0);
    RunAlone(l, u, 1);
    RunAlone(l, ProducerStep(l, u, 0), 0);
  }

  /** The producer alone, from one block to the next: `random` decides the block's size. */
  function Production(random: nat): seq<Event> {
    [ProducerMoves(random)] + Alone(random % 50 + 25)
  }

  lemma {:induction false} ProduceAlone(l: Layout, s: State, random: nat)
    requires s.producer.at.PTop? && s.semaphore == Nobody
    requires RemainingBytes(l, s.producer.used) >= l.guard + Bytes(random % 50 + 20)
    ensures Published(l, s, l.header + s.producer.used, random % 50 + 20, Run(l, s, Production(random)))
  {
    var count := random % 50 + 20;
    assert Production(random)[1..] == Alone(count + 5);
    var t := ProducerStep(l, s, random);
    RunAlone(l, t, count + 5);
    PublishAlone(l, ProducerStep(l, t, 0), count);
  }

  /** A first block of 20 numbers, drawn as soon as the guards allow it. */
  lemma {:induction false} FirstBlock(l: Layout, n: nat)
    requires l.header + l.guard + 80 <= l.total < SIZE_MODULUS
    ensures var s := Run(l, Initial(l, n), Production(0));
            && s.producer.used == l.header + l.node + 80
            && |s.blocks| == 1 && s.blocks[0].addr == l.header + l.header && |s.blocks[0].values| == 20
  {
    assert RemainingBytes(l, l.header) == l.total - l.header;
    ProduceAlone(l, Initial(l, n), 0);
  }

  lemma {:induction false} GuardSuffices(l: Layout, n: nat, events: seq<Event>)
    requires l.header <= l.total < SIZE_MODULUS && l.node <= l.guard
    ensures Run(l, Initial(l, n), events).producer.used <= l.total
  {
    GuardMakesRoom(l, Initial(l, n), events);
    WithinExactlyWhenRoomy(l, Initial(l, n), events);
  }

  /** The guards keep `used_memory` within `total_size`, whatever the segment's size and whatever
      the interleaving, if and only if the sizes they add up cover `sizeof(Node)`. On LP64 they
      do not: 4 + 8 is less than 24. */
  lemma {:induction false} GuardsSufficeExactlyWhen(l: Layout)
    requires l.header + l.guard + 80 < SIZE_MODULUS
    ensures (forall total: nat, n: nat, events: seq<Event>
               {:trigger Run(l.(total := total), Initial(l.(total := total), n), events)} ::
               l.header <= total < SIZE_MODULUS ==>
                 Run(l.(total := total), Initial(l.(total := total), n), events).producer.used <= total)
            <==> l.node <= l.guard
  {
    if l.node <= l.guard {
      forall total: nat, n: nat, events: seq<Event> | l.header <= total < SIZE_MODULUS
        ensures Run(l.(total := total), Initial(l.(total := total), n), events).producer.used <= total
      {
        GuardSuffices(l.(total := total), n, events);
      }
    } else {
      var m := l.(total := l.header + l.guard + 80);
      FirstBlock(m, 1);
      assert Run(m, Initial(m, 1), Production(0)).producer.used > m.total;
    }
  }

  // ---------- after an overrun ----------

  lemma {:induction false} WrappedPasses(l: Layout, p: Producer, random: nat)
    requires l.total < p.used && p.used - l.total + l.guard + Bytes(69) <= SIZE_MODULUS
    ensures Decide(l, p, random).at.PNew?
  {
    assert RemainingBytes(l, p.used) == SIZE_MODULUS - (p.used - l.total);
  }

  /** Once `used_memory` has passed `total_size`, `remaining` has wrapped around: in no later state
      of the run do the guards stop the producer, until the excess has grown to about 2^64. */
  lemma {:induction false} WrappedNeverStops(l: Layout, s: State, events: seq<Event>, i: nat, random: nat)
    requires l.total < s.producer.used && i <= |events|
    requires Run(l, s, events).producer.used - l.total + l.guard + Bytes(69) <= SIZE_MODULUS
    ensures var p := Run(l, s, events[..i]).producer;
            l.total < p.used && (p.at.PTop? ==> Decide(l, p, random).at.PNew?)
  {
    var t := Run(l, s, events[..i]);
    assert events == events[..i] + events[i..];
    RunJoin(l, s, events[..i], events[i..]);
    UsedGrows(l, s, events[..i]);
    UsedGrows(l, t, events[i..]);
    WrappedPasses(l, t.producer, random);
  }

  // ---------- the end of the last block ----------

  ghost predicate LastEnds(l: Layout, s: State) {
    s.blocks != [] ==> End(l, s.blocks[|s.blocks| - 1]) == l.header + s.producer.used
  }

  lemma {:induction false} StepLastEnds(l: Layout, s: State, e: Event)
    requires Inv(l, s) && LastEnds(l, s)
    ensures LastEnds(l, Step(l, s, e))
  {
    assert Holds(l, s, TheMaker);
    StepUsed(l, s, e);
    match e
    case ProducerMoves(random) =>
      if !s.producer.at.PAppend? && !s.producer.at.PFinish? {
        ProducerQuiet(l, s, random);
      }
    case ConsumerMoves(id) =>
      if id < |s.consumers| && Quiet(s.consumers[id]) {
        QuietSteps(l, s, id);
      }
  }

  lemma {:induction false} RunLastEnds(l: Layout, s: State, events: seq<Event>)
    requires Sound(l) && Inv(l, s) && LastEnds(l, s)
    ensures LastEnds(l, Run(l, s, events))
    decreases |events|
  {
    if events != [] {
      StepKeeps(l, s, events[0]);
      StepLastEnds(l, s, events[0]);
      RunLastEnds(l, Step(l, s, events[0]), events[1..]);
    }
  }

  /** The published blocks lie inside the segment exactly when `used_memory` leaves a second
      header's length free: both `memory_start` and `used_memory` already count the header. */
  lemma {:induction false} BlocksInsideExactlyWhen(l: Layout, n: nat, events: seq<Event>)
    requires Sound(l)
    ensures var s := Run(l, Initial(l, n), events);
            s.blocks != [] ==>
              ((forall k :: 0 <= k < |s.blocks| ==> End(l, s.blocks[k]) <= l.total) <==>
               l.header + s.producer.used <= l.total)
  {
    var s := Run(l, Initial(l, n), events);
    InitialInv(l, n);
    RunLastEnds(l, Initial(l, n), events);
    Reachable(l, n, events);
    assert Holds(l, s, TheArena);
  }

  /** Two headers' length stays free behind what is used, once there is a block. */
  ghost predicate LeavesHeader(l: Layout, s: State) {
    s.producer.used <= l.total && (s.blocks != [] ==> l.header + s.producer.used <= l.total)
  }

  lemma {:induction false} StepLeavesHeader(l: Layout, s: State, e: Event)
    requires Inv(l, s) && l.total < SIZE_MODULUS && l.node + l.header <= l.guard
    requires Guarded(l, s.producer) && LeavesHeader(l, s)
    ensures LeavesHeader(l, Step(l, s, e))
  {
    StepUsed(l, s, e);
    assert RemainingBytes(l, s.producer.used) == l.total - s.producer.used;
    if !(e.ProducerMoves? && s.producer.at.PAppend?) {
      SameBlocks(l, s, e);
    }
  }

  lemma {:induction false} SameBlocks(l: Layout, s: State, e: Event)
    requires !(e.ProducerMoves? && s.producer.at.PAppend?)
    ensures Step(l, s, e).blocks == s.blocks
  {
    match e
    case ProducerMoves(random) =>
      if !s.producer.at.PFinish? {
        ProducerQuiet(l, s, random);
      }
    case ConsumerMoves(id) =>
      if id < |s.consumers| && Quiet(s.consumers[id]) {
        QuietSteps(l, s, id);
      }
  }

  lemma {:induction false} RunLeavesHeader(l: Layout, s: State, events: seq<Event>)
    requires Sound(l) && Inv(l, s) && l.total < SIZE_MODULUS && l.node + l.header <= l.guard
    requires Guarded(l, s.producer) && LeavesHeader(l, s)
    ensures LeavesHeader(l, Run(l, s, events))
    decreases |events|
  {
    if events != [] {
      StepLeavesHeader(l, s, events[0]);
      StepGuarded(l, s, events[0]);
      StepKeeps(l, s, events[0]);
      RunLeavesHeader(l, Step(l, s, events[0]), events[1..]);
    }
  }

  ghost predicate AllInside(l: Layout, s: State) {
    forall k :: 0 <= k < |s.blocks| ==> End(l, s.blocks[k]) <= l.total
  }

  lemma {:induction false} GuardContains(l: Layout, n: nat, events: seq<Event>)
    requires Sound(l) && l.header <= l.total < SIZE_MODULUS && l.node + l.header <= l.guard
    ensures AllInside(l, Run(l, Initial(l, n), events))
  {
    InitialInv(l, n);
    RunLeavesHeader(l, Initial(l, n), events);
    BlocksInsideExactlyWhen(l, n, events);
  }

  lemma {:induction false} FirstBlockOutside(l: Layout)
    requires l.total == l.header + l.guard + 80 < SIZE_MODULUS && l.guard < l.node + l.header
    ensures !AllInside(l, Run(l, Initial(l, 1), Production(0)))
  {
    FirstBlock(l, 1);
    var s := Run(l, Initial(l, 1), Production(0));
    assert End(l, s.blocks[0]) > l.total;
  }

  /** The guards keep every published block inside the segment, whatever the segment's size and
      whatever the interleaving, if and only if the sizes they add up cover `sizeof(Node)` and
      the header. */
  lemma {:induction false} GuardsContainExactlyWhen(l: Layout)
    requires Sound(l) && l.header + l.guard + 80 < SIZE_MODULUS
    ensures (forall total: nat, n: nat, events: seq<Event>
               {:trigger Run(l.(total := total), Initial(l.(total := total), n), events)} ::
               l.header <= total < SIZE_MODULUS ==>
                 AllInside(l.(total := total), Run(l.(total := total), Initial(l.(total := total), n), events)))
            <==> l.node + l.header <= l.guard
  {
    if l.node + l.header <= l.guard {
      forall total: nat, n: nat, events: seq<Event> | l.header <= total < SIZE_MODULUS
        ensures AllInside(l.(total := total), Run(l.(total := total), Initial(l.(total := total), n), events))
      {
        GuardContains(l.(total := total), n, events);
      }
    } else {
      var m := l.(total := l.header + l.guard + 80);
      FirstBlockOutside(m);
    }
  }

  // ---------- the segment of the program ----------

  /** The sizes of a 64-bit host and the 2 * 1024 bytes of main.c. */
  ghost predicate SizedAsBuilt(l: Layout) {
    l.total == 2048 && l.header == 48 && l.node == 24 && l.guard == 12 && l.dataAt == 8 && l.nextAt == 16
  }

  /** The producer between two blocks that nobody has claimed. */
  ghost predicate AtTop(l: Layout, s: State, used: nat, since: nat) {
    && Inv(l, s) && s.producer.at.PTop? && s.semaphore == Nobody && s.claims == []
    && s.producer.used == used && s.producer.sinceCheck == since
  }

  /** The check after a batch finds the first block unclaimed, and the producer goes on. */
  lemma {:induction false} CheckAlone(l: Layout, s: State)
    requires Sound(l) && Inv(l, s) && s.producer.at.PLockCheck? && s.semaphore == Nobody
    requires s.claims == [] && s.blocks != []
    ensures AtTop(l, Run(l, s, Alone(3)), s.producer.used, 0) && Run(l, s, Alone(3)).blocks == s.blocks
  {
    HeadUnclaimed(l, s);
    RunAlone(l, s, 3);
    var t := ProducerStep(l, s, 0);
    RunAlone(l, t, 2);
    var u := ProducerStep(l, t, 0);
    RunAlone(l, u, 1);
    RunAlone(l, ProducerStep(l, u, 0), 0);
    RunKeeps(l, s, Alone(3));
  }

  lemma {:induction false} HeadUnclaimed(l: Layout, s: State)
    requires Sound(l) && Inv(l, s) && s.claims == [] && s.blocks != []
    ensures s.head != NULL && Read(s.mem, s.head) > 0
  {
    assert Holds(l, s, TheList) && Holds(l, s, TheEnds) && Holds(l, s, TheArena);
    assert BlockStored(l, s.mem, s.blocks, |s.claims|, 0);
  }

  lemma {:induction false} OneMore(l: Layout, s: State, random: nat, used: nat, since: nat)
    requires Sound(l) && AtTop(l, s, used, since) && since < BATCH_SIZE - 1
    requires RemainingBytes(l, used) >= l.guard + Bytes(random % 50 + 20)
    ensures var t := Run(l, s, Production(random));
            && AtTop(l, t, used + l.node + Bytes(random % 50 + 20), since + 1)
            && Published(l, s, l.header + used, random % 50 + 20, t)
  {
    ProduceAlone(l, s, random);
    RunKeeps(l, s, Production(random));
  }

  lemma {:induction false} OneMoreChecked(l: Layout, s: State, random: nat, used: nat)
    requires Sound(l) && AtTop(l, s, used, BATCH_SIZE - 1)
    requires RemainingBytes(l, used) >= l.guard + Bytes(random % 50 + 20)
    ensures var t := Run(l, s, Production(random) + Alone(3));
            AtTop(l, t, used + l.node + Bytes(random % 50 + 20), 0) && |t.blocks| == |s.blocks| + 1
  {
    ProduceAlone(l, s, random);
    RunKeeps(l, s, Production(random));
    RunJoin(l, s, Production(random), Alone(3));
    CheckAlone(l, Run(l, s, Production(random)));
  }

  /** The producer alone makes `k` blocks, all of the size that `random` draws. */
  function Filling(k: nat, random: nat): seq<Event> {
    if k == 0 then []
    else Filling(k - 1, random) + if k == BATCH_SIZE then Production(random) + Alone(3) else Production(random)
  }

  /** Where the producer stands when it has made `k` such blocks. */
  ghost predicate FilledTo(l: Layout, s: State, k: nat) {
    AtTop(l, s, 48 + 300 * k, if k < BATCH_SIZE then k else k - BATCH_SIZE) && |s.blocks| == k
  }

  lemma {:induction false} FillOne(l: Layout, s: State, k: nat, random: nat)
    requires SizedAsBuilt(l) && 0 < k <= 6 && random % 50 == 49 && FilledTo(l, s, k - 1)
    ensures FilledTo(l, Run(l, s, if k == BATCH_SIZE then Production(random) + Alone(3) else Production(random)), k)
  {
    assert RemainingBytes(l, s.producer.used) == 2048 - s.producer.used;
    if k == BATCH_SIZE {
      OneMoreChecked(l, s, random, s.producer.used);
    } else {
      OneMore(l, s, random, s.producer.used, s.producer.sinceCheck);
    }
  }

  lemma {:induction false} Filled(l: Layout, n: nat, k: nat, random: nat)
    requires SizedAsBuilt(l) && k <= 6 && random % 50 == 49
    ensures FilledTo(l, Run(l, Initial(l, n), Filling(k, random)), k)
  {
    if k == 0 {
      InitialInv(l, n);
    } else {
      Filled(l, n, k - 1, random);
      FillOne(l, Run(l, Initial(l, n), Filling(k - 1, random)), k, random);
      RunJoin(l, Initial(l, n), Filling(k - 1, random),
              if k == BATCH_SIZE then Production(random) + Alone(3) else Production(random));
    }
  }

  /** In the program's own segment six blocks of 69 numbers leave 200 bytes, and the guards accept
      a seventh of up to 47. From 45 numbers on it takes `used_memory` past the segment's size,
      and from 33 numbers on it ends behind the segment. */
  lemma {:induction false} SeventhBlock(l: Layout, n: nat, random: nat, last: nat)
    requires SizedAsBuilt(l) && random % 50 == 49 && last % 50 <= 27
    ensures var s := Run(l, Initial(l, n), Filling(6, random) + Production(last));
            var count := last % 50 + 20;
            && Sound(l) && |s.blocks| == 7 && |s.blocks[6].values| == count
            && (s.producer.used > l.total <==> count >= 45)
            && (End(l, s.blocks[6]) > l.total <==> count >= 33)
  {
    Filled(l, n, 6, random);
    var s := Run(l, Initial(l, n), Filling(6, random));
    assert RemainingBytes(l, s.producer.used) == 200;
    OneMore(l, s, last, 1848, 1);
    RunJoin(l, Initial(l, n), Filling(6, random), Production(last));
  }
}
