/** The producer and its consumers can always come to an end (module3/04): as long as there is a
    consumer, every run can be continued to one in which all processes have exited, and once the
    producer has exited the consumers cannot go on for ever. */
module BlockQueueExit {
  import opened BlockQueue
  import opened BlockQueueInvariant
  import opened BlockQueueSafety
  import opened BlockQueueTheorems
  import opened BlockQueueMemory

  /** How much of the list lies ahead of a walker. */
  function Ahead(l: Layout, used: nat, current: int): nat {
    if current == NULL then 0 else if current < l.header + used then l.header + used + 1 - current else 1
  }

  function Whole(l: Layout, used: nat): nat {
    l.header + used + 2
  }

  lemma {:induction false} AddressesGrow(l: Layout, s: State, current: int)
    requires Sound(l) && Inv(l, s) && OnList(s.blocks, |s.claims|, current)
    ensures Ahead(l, s.producer.used, current) < Whole(l, s.producer.used)
    ensures current != NULL && Read(s.mem, current) <= 0 ==>
              Ahead(l, s.producer.used, Read(s.mem, current + l.nextAt)) < Ahead(l, s.producer.used, current)
  {
    assert Holds(l, s, TheList) && Holds(l, s, TheArena);
    var k: nat :| k <= |s.blocks| && k <= |s.claims| && current == AddrAt(s.blocks, k);
    if k < |s.blocks| {
      assert BlockStored(l, s.mem, s.blocks, |s.claims|, k);
      assert s.blocks[k].addr < End(l, s.blocks[k]) <= l.header + s.producer.used;
      if k + 1 < |s.blocks| {
        assert End(l, s.blocks[k]) <= s.blocks[k + 1].addr < End(l, s.blocks[k + 1]) <= l.header + s.producer.used;
      }
    }
  }

  lemma {:induction false} HeadOnList(l: Layout, s: State)
    requires Inv(l, s)
    ensures OnList(s.blocks, |s.claims|, s.head)
  {
    assert Holds(l, s, TheEnds);
    assert s.head == AddrAt(s.blocks, 0);
  }

  // ---------- a consumer leaves its critical section ----------

  function HolderWork(l: Layout, used: nat, c: Consumer): nat {
    match c.at
    case CLook => Whole(l, used) + 3
    case CWalkLook => Ahead(l, used, c.current) + 2
    case CWalkClaim => Ahead(l, used, c.current) + 3
    case CClaim => 2
    case _ => 1
  }

  /** The walker gets nearer to the end of the list with every node it leaves. */
  ghost predicate Nearing(l: Layout, s: State, current: int) {
    && Ahead(l, s.producer.used, current) < Whole(l, s.producer.used)
    && (current != NULL && Read(s.mem, current) <= 0 ==>
          Ahead(l, s.producer.used, Read(s.mem, current + l.nextAt)) < Ahead(l, s.producer.used, current))
  }

  predicate Walking(at: ConsumerAt) {
    at.CWalkLook? || at.CWalkClaim?
  }

  lemma {:induction false} HolderStep(l: Layout, s: State, id: nat)
    requires id < |s.consumers| && s.semaphore == TheConsumer(id) && ConsumerHolds(s.consumers[id].at)
    requires Nearing(l, s, s.head)
    requires Walking(s.consumers[id].at) ==> Nearing(l, s, s.consumers[id].current)
    ensures var t := ConsumerStep(l, s, id);
            && |t.consumers| == |s.consumers|
            && (t.semaphore == Nobody ||
                (t.semaphore == s.semaphore &&
                 HolderWork(l, s.producer.used, t.consumers[id]) < HolderWork(l, s.producer.used, s.consumers[id])))
  {
    match s.consumers[id].at
    case CLook =>
    case CWalkLook =>
    case CUnlockLook =>
    case CWalkClaim =>
    case CUnlockNone =>
    case CClaim =>
    case CUnlockClaim =>
  }

  lemma {:induction false} WalkersNear(l: Layout, s: State, id: nat)
    requires Sound(l) && Inv(l, s) && id < |s.consumers|
    ensures Nearing(l, s, s.head)
    ensures Walking(s.consumers[id].at) ==> Nearing(l, s, s.consumers[id].current)
  {
    assert Holds(l, s, TheConsumers);
    var c := s.consumers[id];
    assert ConsumerOk(l, s.blocks, |s.claims|, s.finished, c);
    HeadOnList(l, s);
    AddressesGrow(l, s, s.head);
    if Walking(c.at) {
      AddressesGrow(l, s, c.current);
    }
  }

  /** A step of a consumer publishes nothing and takes back no claim. */
  lemma {:induction false} ConsumerFrame(l: Layout, s: State, id: nat)
    requires id < |s.consumers|
    ensures var t := ConsumerStep(l, s, id);
            t.producer == s.producer && t.blocks == s.blocks && |t.claims| >= |s.claims|
    ensures !s.consumers[id].at.CClaim? ==> ConsumerStep(l, s, id).claims == s.claims
  {
    match s.consumers[id].at
    case CLockLook =>
    case CLook =>
    case CWalkLook =>
    case CUnlockLook =>
    case CLockClaim =>
    case CWalkClaim =>
    case CUnlockNone =>
    case CClaim =>
    case CUnlockClaim =>
    case CFirst =>
    case CScan =>
    case CExit =>
  }

  lemma {:induction false} HolderWorks(l: Layout, s: State, id: nat)
    requires Sound(l) && Inv(l, s) && id < |s.consumers| && s.semaphore == TheConsumer(id)
    ensures var t := Step(l, s, ConsumerMoves(id));
            && |t.consumers| == |s.consumers|
            && (t.semaphore == Nobody ||
                (t.semaphore == s.semaphore &&
                 HolderWork(l, s.producer.used, t.consumers[id]) < HolderWork(l, s.producer.used, s.consumers[id])))
  {
    assert Holds(l, s, TheLock);
    assert s.semaphore == TheConsumer(id) <==> ConsumerHolds(s.consumers[id].at);
    WalkersNear(l, s, id);
    HolderStep(l, s, id);
  }

  lemma {:induction false} Release(l: Layout, s: State, id: nat) returns (events: seq<Event>)
    requires Sound(l) && Inv(l, s) && id < |s.consumers| && s.semaphore == TheConsumer(id)
    ensures var t := Run(l, s, events);
            && Inv(l, t) && t.semaphore == Nobody && |t.consumers| == |s.consumers|
            && t.producer == s.producer && t.blocks == s.blocks && |t.claims| >= |s.claims|
    decreases HolderWork(l, s.producer.used, s.consumers[id])
  {
    var t := Step(l, s, ConsumerMoves(id));
    StepKeeps(l, s, ConsumerMoves(id));
    HolderWorks(l, s, id);
    ConsumerFrame(l, s, id);
    var rest := [];
    if t.semaphore != Nobody {
      rest := Release(l, t, id);
    }
    events := [ConsumerMoves(id)] + rest;
    assert events[1..] == rest;
  }

  // ---------- the producer runs to its next check ----------

  function ProducerWork(l: Layout, p: Producer): nat {
    match p.at
    case PExit => 0
    case PUnlockFinish => 1
    case PFinish => 2
    case PLockFinish => 3
    case PAppend => 4
    case PLockAppend => 5
    case PFill => 6 + if |p.written| < p.count then p.count - |p.written| else 0
    case PNew => 77
    case PTop => 78
    case PUnlockCheck => 79
    case PWalk => 80 + Ahead(l, p.used, p.current)
    case PLockCheck => 80 + Whole(l, p.used)
    case PUnlockAppend => 81 + Whole(l, p.used)
  }

  ghost predicate MayMove(l: Layout, s: State) {
    && !s.producer.at.PExit? && (s.semaphore == Nobody || s.semaphore == TheProducer)
    && (s.semaphore == TheProducer <==> ProducerHolds(s.producer.at))
    && (s.producer.at.PNew? ==> s.producer.count <= 69)
    && Nearing(l, s, s.head) && (s.producer.at.PWalk? ==> Nearing(l, s, s.producer.current)) && l.node > 0
  }

  ghost predicate MoreUsed(l: Layout, p: Producer, after: Producer) {
    after.used >= p.used && (after.used == p.used ==> ProducerWork(l, after) < ProducerWork(l, p))
  }

  lemma {:induction false} BuildWorks(l: Layout, s: State)
    requires MayMove(l, s)
    requires var at := s.producer.at; at.PTop? || at.PNew? || at.PFill? || at.PLockAppend? || at.PAppend?
    ensures MoreUsed(l, s.producer, ProducerStep(l, s, 0).producer)
  {
    match s.producer.at
    case PTop =>
    case PNew =>
    case PFill =>
    case PLockAppend =>
    case PAppend =>
  }

  lemma {:induction false} BatchWorks(l: Layout, s: State)
    requires MayMove(l, s)
    requires var at := s.producer.at; at.PUnlockAppend? || at.PLockCheck? || at.PWalk? || at.PUnlockCheck?
    ensures MoreUsed(l, s.producer, ProducerStep(l, s, 0).producer)
  {
    match s.producer.at
    case PUnlockAppend =>
    case PLockCheck =>
    case PWalk =>
    case PUnlockCheck =>
  }

  lemma {:induction false} FinishWorks(l: Layout, s: State)
    requires MayMove(l, s)
    requires var at := s.producer.at; at.PLockFinish? || at.PFinish? || at.PUnlockFinish?
    ensures MoreUsed(l, s.producer, ProducerStep(l, s, 0).producer)
  {
    match s.producer.at
    case PLockFinish =>
    case PFinish =>
    case PUnlockFinish =>
  }

  /** A step of the producer uses up memory, or leaves it less to do with the memory it has. */
  lemma {:induction false} ProducerWorks(l: Layout, s: State)
    requires Sound(l) && Inv(l, s) && !s.producer.at.PExit?
    requires s.semaphore == Nobody || s.semaphore == TheProducer
    ensures MoreUsed(l, s.producer, ProducerStep(l, s, 0).producer)
  {
    assert Holds(l, s, TheMaker) && Holds(l, s, TheLock);
    HeadOnList(l, s);
    AddressesGrow(l, s, s.head);
    if s.producer.at.PWalk? {
      AddressesGrow(l, s, s.producer.current);
    }
    var at := s.producer.at;
    if at.PUnlockAppend? || at.PLockCheck? || at.PWalk? || at.PUnlockCheck? {
      BatchWorks(l, s);
    } else if at.PLockFinish? || at.PFinish? || at.PUnlockFinish? {
      FinishWorks(l, s);
    } else {
      BuildWorks(l, s);
    }
  }

  lemma {:induction false} ProducerStaysFree(l: Layout, s: State)
    requires Inv(l, s) && (s.semaphore == Nobody || s.semaphore == TheProducer)
    ensures var t := ProducerStep(l, s, 0);
            t.consumers == s.consumers && (t.semaphore == Nobody || t.semaphore == TheProducer)
  {
    assert Holds(l, s, TheLock);
    ProducerTakes(l, s, 0);
  }

  lemma {:induction false} FreeUnlessHeld(l: Layout, s: State)
    requires Inv(l, s) && (s.semaphore == Nobody || s.semaphore == TheProducer) && !ProducerHolds(s.producer.at)
    ensures s.semaphore == Nobody
  {
    assert Holds(l, s, TheLock);
  }

  /** The blocks that the producer may still publish before its next check. */
  function Batch(p: Producer): nat {
    match p.at
    case PTop => if p.sinceCheck < BATCH_SIZE then BATCH_SIZE - p.sinceCheck else 1
    case PNew => if p.sinceCheck < BATCH_SIZE then BATCH_SIZE - p.sinceCheck else 1
    case PFill => if p.sinceCheck < BATCH_SIZE then BATCH_SIZE - p.sinceCheck else 1
    case PLockAppend => if p.sinceCheck < BATCH_SIZE then BATCH_SIZE - p.sinceCheck else 1
    case PAppend => if p.sinceCheck < BATCH_SIZE then BATCH_SIZE - p.sinceCheck else 1
    case PUnlockAppend => if p.sinceCheck < BATCH_SIZE then BATCH_SIZE - p.sinceCheck - 1 else 0
    case PLockCheck => BATCH_SIZE
    case PWalk => BATCH_SIZE
    case PUnlockCheck => BATCH_SIZE
    case _ => 0
  }

  lemma {:induction false} BatchSteps(l: Layout, s: State)
    requires !s.producer.at.PLockCheck? && !ProducerStep(l, s, 0).producer.at.PLockCheck?
    ensures var p, after := s.producer, ProducerStep(l, s, 0).producer;
            Batch(after) <= Batch(p) && (if p.at.PAppend? then Batch(after) < Batch(p) else after.used == p.used)
  {
    match s.producer.at
    case PTop =>
    case PNew =>
    case PFill =>
    case PLockAppend =>
    case PAppend =>
    case PUnlockAppend =>
    case PWalk =>
    case PUnlockCheck =>
    case PLockFinish =>
    case PFinish =>
    case PUnlockFinish =>
    case PExit =>
  }

  /** The producer comes to the check after a batch, or to its exit. */
  lemma {:induction false} ProducerToCheck(l: Layout, s: State) returns (events: seq<Event>)
    requires Sound(l) && Inv(l, s) && (s.semaphore == Nobody || s.semaphore == TheProducer)
    ensures var t := Run(l, s, events);
            && Inv(l, t) && (t.producer.at.PLockCheck? || t.producer.at.PExit?)
            && t.semaphore == Nobody && t.consumers == s.consumers
    decreases Batch(s.producer), ProducerWork(l, s.producer)
  {
    if s.producer.at.PLockCheck? || s.producer.at.PExit? {
      FreeUnlessHeld(l, s);
      events := [];
    } else {
      var t := ProducerStep(l, s, 0);
      StepKeeps(l, s, ProducerMoves(0));
      ProducerStaysFree(l, s);
      var rest := [];
      if t.producer.at.PLockCheck? {
        FreeUnlessHeld(l, t);
      } else {
        ProducerWorks(l, s);
        BatchSteps(l, s);
        rest := ProducerToCheck(l, t);
      }
      events := [ProducerMoves(0)] + rest;
      assert events[1..] == rest;
      assert Run(l, s, events) == Run(l, Step(l, s, ProducerMoves(0)), rest);
    }
  }

  // ---------- the steps of a consumer ----------

  /** `all`: every block has been claimed. */
  function ConsumerWork(l: Layout, used: nat, all: bool, c: Consumer): nat {
    var w := Whole(l, used);
    match c.at
    case CExit => 0
    case CScan => 2 * w + 20 + if c.i < c.count then c.count - c.i else 0
    case CFirst => 2 * w + 21 + if c.count > 0 then c.count else 0
    case CUnlockClaim => 2 * w + 22 + if c.count > 0 then c.count else 0
    case CLockLook => if all then w + 4 else 2 * w + 6
    case CLook => if all then w + 3 else 2 * w + 5
    case CWalkLook =>
      Ahead(l, used, c.current) + if !all then w + 4 else if c.producerDone then 2 else 2 * w + 10
    case CUnlockLook =>
      if !all then w + 3 else if c.hasUnprocessed then 2 * w + 9 else if c.producerDone then 1 else w + 5
    case CLockClaim => if all then 2 * w + 8 else w + 2
    case CWalkClaim => Ahead(l, used, c.current) + if all then w + 6 else 1
    case CUnlockNone => if all then w + 5 else 2 * w + 7
    case CClaim => 0
  }

  /** What a consumer knows that decides where its next step leads. */
  ghost predicate Informed(l: Layout, s: State, all: bool, c: Consumer) {
    && (c.at.CUnlockLook? ==> c.hasUnprocessed || all)
    && (c.at.CWalkLook? ==> !c.hasUnprocessed)
    && (Walking(c.at) && c.current == NULL ==> all)
    && (Walking(c.at) && c.current != NULL && Read(s.mem, c.current) > 0 ==> !all)
  }

  /** The consumer is not kept waiting, and not about to claim. */
  ghost predicate Ready(l: Layout, s: State, id: nat, all: bool) {
    && id < |s.consumers| && (all ==> s.finished)
    && (Waiting(s.consumers[id].at) ==> s.semaphore == Nobody)
    && !s.consumers[id].at.CExit? && !s.consumers[id].at.CClaim?
    && Nearing(l, s, s.head) && Informed(l, s, all, s.consumers[id])
    && (Walking(s.consumers[id].at) ==> Nearing(l, s, s.consumers[id].current))
  }

  predicate Waiting(at: ConsumerAt) {
    at.CLockLook? || at.CLockClaim?
  }

  ghost predicate Works(l: Layout, used: nat, all: bool, c: Consumer, after: seq<Consumer>, id: nat) {
    id < |after| && ConsumerWork(l, used, all, after[id]) < ConsumerWork(l, used, all, c)
  }

  lemma {:induction false} LockWorks(l: Layout, s: State, id: nat, all: bool)
    requires Ready(l, s, id, all)
    requires var at := s.consumers[id].at; at.CLockLook? || at.CLockClaim?
    ensures Works(l, s.producer.used, all, s.consumers[id], ConsumerStep(l, s, id).consumers, id)
  {
    match s.consumers[id].at
    case CLockLook =>
    case CLockClaim =>
  }

  lemma {:induction false} LookWorks(l: Layout, s: State, id: nat, all: bool)
    requires Ready(l, s, id, all)
    requires var at := s.consumers[id].at; at.CLook? || at.CUnlockLook?
    ensures Works(l, s.producer.used, all, s.consumers[id], ConsumerStep(l, s, id).consumers, id)
  {
    match s.consumers[id].at
    case CLook =>
    case CUnlockLook =>
  }

  lemma {:induction false} WalkWorks(l: Layout, s: State, id: nat, all: bool)
    requires Ready(l, s, id, all)
    requires var at := s.consumers[id].at; at.CWalkLook? || at.CWalkClaim? || at.CUnlockNone?
    ensures Works(l, s.producer.used, all, s.consumers[id], ConsumerStep(l, s, id).consumers, id)
  {
    match s.consumers[id].at
    case CWalkLook =>
    case CWalkClaim =>
    case CUnlockNone =>
  }

  lemma {:induction false} ScanWorks(l: Layout, s: State, id: nat, all: bool)
    requires Ready(l, s, id, all)
    requires var at := s.consumers[id].at; at.CUnlockClaim? || at.CFirst? || at.CScan?
    ensures Works(l, s.producer.used, all, s.consumers[id], ConsumerStep(l, s, id).consumers, id)
  {
    match s.consumers[id].at
    case CUnlockClaim =>
    case CFirst =>
    case CScan =>
  }

  lemma {:induction false} ConsumerStepWorks(l: Layout, s: State, id: nat, all: bool)
    requires Ready(l, s, id, all)
    ensures Works(l, s.producer.used, all, s.consumers[id], ConsumerStep(l, s, id).consumers, id)
  {
    match s.consumers[id].at
    case CLockLook => LockWorks(l, s, id, all);
    case CLook => LookWorks(l, s, id, all);
    case CWalkLook => WalkWorks(l, s, id, all);
    case CUnlockLook => LookWorks(l, s, id, all);
    case CLockClaim => LockWorks(l, s, id, all);
    case CWalkClaim => WalkWorks(l, s, id, all);
    case CUnlockNone => WalkWorks(l, s, id, all);
    case CUnlockClaim => ScanWorks(l, s, id, all);
    case CFirst => ScanWorks(l, s, id, all);
    case CScan => ScanWorks(l, s, id, all);
  }

  lemma {:induction false} ConsumerInformed(l: Layout, s: State, id: nat)
    requires Sound(l) && Inv(l, s) && id < |s.consumers|
    ensures Informed(l, s, |s.claims| == |s.blocks|, s.consumers[id])
  {
    assert Holds(l, s, TheConsumers) && Holds(l, s, TheEnds) && Holds(l, s, TheList) && Holds(l, s, TheArena);
    var c := s.consumers[id];
    assert ConsumerOk(l, s.blocks, |s.claims|, s.finished, c);
    if Walking(c.at) {
      ArenaSolid(l, s.producer.used, s.blocks);
      WalkStep(l, s.mem, s.blocks, |s.claims|, c.current);
    }
  }

  /** While a block is unclaimed, or once the producer is done, a step of a consumer claims a
      block, or leaves it less to do. */
  lemma {:induction false} ConsumerWorks(l: Layout, s: State, id: nat)
    requires Sound(l) && Inv(l, s) && id < |s.consumers| && (|s.claims| == |s.blocks| ==> s.finished)
    requires !s.consumers[id].at.CExit? && !s.consumers[id].at.CClaim?
    requires Waiting(s.consumers[id].at) ==> s.semaphore == Nobody
    ensures Works(l, s.producer.used, |s.claims| == |s.blocks|, s.consumers[id], ConsumerStep(l, s, id).consumers, id)
  {
    WalkersNear(l, s, id);
    ConsumerInformed(l, s, id);
    ConsumerStepWorks(l, s, id, |s.claims| == |s.blocks|);
  }

  /** The semaphore is free for this consumer. */
  ghost predicate Mine(s: State, id: nat) {
    && !ProducerHolds(s.producer.at) && id < |s.consumers|
    && (s.semaphore == Nobody || s.semaphore == TheConsumer(id))
  }

  lemma {:induction false} MineMoves(l: Layout, s: State, id: nat)
    requires Inv(l, s) && Mine(s, id)
    ensures Waiting(s.consumers[id].at) ==> s.semaphore == Nobody
    ensures s.consumers[id].at.CExit? ==> s.semaphore == Nobody
  {
    assert Holds(l, s, TheLock);
    assert s.semaphore == TheConsumer(id) <==> ConsumerHolds(s.consumers[id].at);
  }

  lemma {:induction false} ConsumerStaysFree(l: Layout, s: State, id: nat)
    requires Inv(l, s) && Mine(s, id)
    ensures var t := ConsumerStep(l, s, id);
            && Mine(t, id) && |t.consumers| == |s.consumers|
            && (forall j :: 0 <= j < |s.consumers| && j != id ==> t.consumers[j] == s.consumers[j])
  {
    assert Holds(l, s, TheLock);
    assert s.semaphore == TheConsumer(id) <==> ConsumerHolds(s.consumers[id].at);
    ConsumerTakes(l, s, id);
  }

  lemma {:induction false} ClaimsOne(l: Layout, s: State, id: nat)
    requires Inv(l, s) && id < |s.consumers| && s.consumers[id].at.CClaim?
    ensures |s.claims| < |s.blocks| && |ConsumerStep(l, s, id).claims| == |s.claims| + 1
  {
    assert Holds(l, s, TheConsumers);
    assert ConsumerOk(l, s.blocks, |s.claims|, s.finished, s.consumers[id]);
  }

  // ---------- a consumer claims all that is there ----------

  /** While the producer waits for its check, one consumer can claim every block. */
  lemma {:induction false} ClaimAll(l: Layout, s: State, id: nat) returns (events: seq<Event>)
    requires Sound(l) && Inv(l, s) && Mine(s, id) && s.producer.at.PLockCheck? && |s.claims| <= |s.blocks|
    ensures var t := Run(l, s, events);
            && Inv(l, t) && t.producer == s.producer && t.semaphore == Nobody && |t.consumers| == |s.consumers|
            && |t.claims| == |t.blocks|
    decreases |s.blocks| - |s.claims|, ConsumerWork(l, s.producer.used, false, s.consumers[id])
  {
    if |s.claims| == |s.blocks| {
      events := [];
      if s.semaphore != Nobody {
        events := Release(l, s, id);
        assert Holds(l, Run(l, s, events), TheEnds);
      }
    } else {
      var t := ConsumerStep(l, s, id);
      StepKeeps(l, s, ConsumerMoves(id));
      ConsumerStaysFree(l, s, id);
      ConsumerFrame(l, s, id);
      if s.consumers[id].at.CClaim? {
        ClaimsOne(l, s, id);
      } else {
        NotExited(l, s, id);
        MineMoves(l, s, id);
        ConsumerWorks(l, s, id);
      }
      var rest := ClaimAll(l, t, id);
      events := [ConsumerMoves(id)] + rest;
      assert events[1..] == rest;
      assert Run(l, s, events) == Run(l, Step(l, s, ConsumerMoves(id)), rest);
    }
  }

  lemma {:induction false} NotExited(l: Layout, s: State, id: nat)
    requires Inv(l, s) && id < |s.consumers| && |s.claims| < |s.blocks|
    ensures !s.consumers[id].at.CExit?
  {
    assert Holds(l, s, TheConsumers);
    assert ConsumerOk(l, s.blocks, |s.claims|, s.finished, s.consumers[id]);
  }

  // ---------- the producer finds everything processed ----------

  predicate Concluding(p: Producer) {
    || p.at.PLockCheck? || p.at.PWalk? || (p.at.PUnlockCheck? && p.allProcessed)
    || p.at.PLockFinish? || p.at.PFinish? || p.at.PUnlockFinish? || p.at.PExit?
  }

  /** With every block claimed, the check after a batch leads to the finish. */
  lemma {:induction false} ConcludingStep(l: Layout, s: State)
    requires Sound(l) && Inv(l, s) && |s.claims| == |s.blocks| && Concluding(s.producer)
    ensures var t := ProducerStep(l, s, 0);
            && Concluding(t.producer) && t.claims == s.claims && t.blocks == s.blocks
            && t.producer.used == s.producer.used
  {
    assert Holds(l, s, TheMaker) && Holds(l, s, TheList) && Holds(l, s, TheArena);
    if s.producer.at.PWalk? {
      ArenaSolid(l, s.producer.used, s.blocks);
      WalkStep(l, s.mem, s.blocks, |s.claims|, s.producer.current);
    }
  }

  lemma {:induction false} ProducerConcludes(l: Layout, s: State) returns (events: seq<Event>)
    requires Sound(l) && Inv(l, s) && (s.semaphore == Nobody || s.semaphore == TheProducer)
    requires |s.claims| == |s.blocks| && Concluding(s.producer)
    ensures var t := Run(l, s, events);
            Inv(l, t) && t.producer.at.PExit? && t.semaphore == Nobody && t.consumers == s.consumers
    decreases ProducerWork(l, s.producer)
  {
    if s.producer.at.PExit? {
      FreeUnlessHeld(l, s);
      events := [];
    } else {
      var t := ProducerStep(l, s, 0);
      StepKeeps(l, s, ProducerMoves(0));
      ProducerWorks(l, s);
      ProducerStaysFree(l, s);
      ConcludingStep(l, s);
      var rest := ProducerConcludes(l, t);
      events := [ProducerMoves(0)] + rest;
      assert events[1..] == rest;
      assert Run(l, s, events) == Run(l, Step(l, s, ProducerMoves(0)), rest);
    }
  }

  /** The producer's exit is within reach: at its next check a consumer has claimed every block. */
  lemma {:induction false} ProducerToExit(l: Layout, s: State) returns (events: seq<Event>)
    requires Sound(l) && Inv(l, s) && s.consumers != [] && (s.semaphore == Nobody || s.semaphore == TheProducer)
    ensures var t := Run(l, s, events);
            Inv(l, t) && t.producer.at.PExit? && t.semaphore == Nobody && |t.consumers| == |s.consumers|
  {
    var first := ProducerToCheck(l, s);
    var t := Run(l, s, first);
    events := first;
    if t.producer.at.PLockCheck? {
      assert Holds(l, t, TheEnds);
      var second := ClaimAll(l, t, 0);
      var third := ProducerConcludes(l, Run(l, t, second));
      events := first + second + third;
      RunJoin(l, s, first, second);
      RunJoin(l, s, first + second, third);
    }
  }

  // ---------- a consumer runs to its end ----------

  lemma {:induction false} ConsumerToExit(l: Layout, s: State, id: nat) returns (events: seq<Event>)
    requires Sound(l) && Inv(l, s) && s.producer.at.PExit? && Mine(s, id) && |s.claims| <= |s.blocks|
    ensures var t := Run(l, s, events);
            && Inv(l, t) && t.producer.at.PExit? && t.semaphore == Nobody && |t.consumers| == |s.consumers|
            && t.consumers[id].at.CExit?
            && (forall j :: 0 <= j < |s.consumers| && j != id ==> t.consumers[j] == s.consumers[j])
    decreases |s.blocks| - |s.claims|, ConsumerWork(l, s.producer.used, |s.claims| == |s.blocks|, s.consumers[id])
  {
    MineMoves(l, s, id);
    if s.consumers[id].at.CExit? {
      events := [];
    } else {
      var t := ConsumerStep(l, s, id);
      StepKeeps(l, s, ConsumerMoves(id));
      ConsumerStaysFree(l, s, id);
      ConsumerFrame(l, s, id);
      if s.consumers[id].at.CClaim? {
        ClaimsOne(l, s, id);
      } else {
        assert Holds(l, s, TheMaker);
        ConsumerWorks(l, s, id);
      }
      var rest := ConsumerToExit(l, t, id);
      events := [ConsumerMoves(id)] + rest;
      assert events[1..] == rest;
      assert Run(l, s, events) == Run(l, Step(l, s, ConsumerMoves(id)), rest);
    }
  }

  // ---------- all of them ----------

  /** The consumers from `id` on, one after the other. */
  lemma {:induction false} ConsumersToExit(l: Layout, s: State, id: nat) returns (events: seq<Event>)
    requires Sound(l) && Inv(l, s) && s.producer.at.PExit? && s.semaphore == Nobody && id <= |s.consumers|
    requires forall j :: 0 <= j < id ==> s.consumers[j].at.CExit?
    ensures AllExited(Run(l, s, events))
    decreases |s.consumers| - id
  {
    if id == |s.consumers| {
      events := [];
    } else {
      assert Holds(l, s, TheEnds);
      var first := ConsumerToExit(l, s, id);
      var rest := ConsumersToExit(l, Run(l, s, first), id + 1);
      events := first + rest;
      RunJoin(l, s, first, rest);
    }
  }

  /** From a state in which some consumer holds the semaphore, or nobody, or the producer. */
  lemma {:induction false} Freed(l: Layout, s: State) returns (events: seq<Event>)
    requires Sound(l) && Inv(l, s)
    ensures var t := Run(l, s, events);
            Inv(l, t) && (t.semaphore == Nobody || t.semaphore == TheProducer) && |t.consumers| == |s.consumers|
  {
    assert Holds(l, s, TheLock);
    events := [];
    if s.semaphore.TheConsumer? {
      events := Release(l, s, s.semaphore.id);
    }
  }

  lemma {:induction false} ToExit(l: Layout, s: State) returns (events: seq<Event>)
    requires Sound(l) && Inv(l, s) && s.consumers != []
    ensures AllExited(Run(l, s, events))
  {
    var first := Freed(l, s);
    var t := Run(l, s, first);
    var second := ProducerToExit(l, t);
    var third := ConsumersToExit(l, Run(l, t, second), 0);
    events := first + second + third;
    RunJoin(l, s, first, second);
    RunJoin(l, s, first + second, third);
  }

  // ---------- without consumers ----------

  ghost predicate Sized(l: Layout) {
    Sound(l) && l.node <= l.guard && l.header <= l.total < SIZE_MODULUS
  }

  ghost predicate Healthy(l: Layout, s: State) {
    Inv(l, s) && Guarded(l, s.producer) && s.producer.used <= l.total
  }

  lemma {:induction false} StepHealthy(l: Layout, s: State, e: Event)
    requires Sized(l) && Healthy(l, s)
    ensures Healthy(l, Step(l, s, e))
  {
    StepKeeps(l, s, e);
    StepGuarded(l, s, e);
    StepUsed(l, s, e);
    assert RemainingBytes(l, s.producer.used) == l.total - s.producer.used;
  }

  lemma {:induction false} RunHealthy(l: Layout, s: State, events: seq<Event>)
    requires Sized(l) && Healthy(l, s)
    ensures Healthy(l, Run(l, s, events))
    decreases |events|
  {
    if events != [] {
      StepHealthy(l, s, events[0]);
      RunHealthy(l, Step(l, s, events[0]), events[1..]);
    }
  }

  /** With guards that cover `sizeof(Node)` the memory runs out, and the producer comes to its
      exit by itself. */
  lemma {:induction false} ProducerAloneToExit(l: Layout, s: State) returns (events: seq<Event>)
    requires Sized(l) && Healthy(l, s) && (s.semaphore == Nobody || s.semaphore == TheProducer)
    ensures var t := Run(l, s, events);
            Inv(l, t) && t.producer.at.PExit? && t.semaphore == Nobody && t.consumers == s.consumers
    decreases l.total - s.producer.used, ProducerWork(l, s.producer)
  {
    if s.producer.at.PExit? {
      FreeUnlessHeld(l, s);
      events := [];
    } else {
      var t := ProducerStep(l, s, 0);
      StepHealthy(l, s, ProducerMoves(0));
      ProducerWorks(l, s);
      ProducerStaysFree(l, s);
      var rest := ProducerAloneToExit(l, t);
      events := [ProducerMoves(0)] + rest;
      assert events[1..] == rest;
      assert Run(l, s, events) == Run(l, Step(l, s, ProducerMoves(0)), rest);
    }
  }

  // ---------- every run can come to its end ----------

  /** Whatever has happened so far, some schedule brings the producer and all consumers to their
      exits, if there is a consumer at all; without one, if the guards cover `sizeof(Node)`. */
  lemma {:induction false} ExitReachable(l: Layout, n: nat, events: seq<Event>) returns (more: seq<Event>)
    requires Sound(l) && (n > 0 || Sized(l))
    ensures AllExited(Run(l, Initial(l, n), events + more))
  {
    InitialInv(l, n);
    RunKeeps(l, Initial(l, n), events);
    RunKeepsCount(l, Initial(l, n), events);
    var s := Run(l, Initial(l, n), events);
    if n > 0 {
      more := ToExit(l, s);
    } else {
      RunHealthy(l, Initial(l, n), events);
      assert Holds(l, s, TheLock);
      more := ProducerAloneToExit(l, s);
    }
    RunJoin(l, Initial(l, n), events, more);
  }

  // ---------- no run goes on for ever once the producer has exited ----------

  /** More than any consumer can have to do. */
  function Ceiling(l: Layout, used: nat): nat {
    3 * Whole(l, used) + 100
  }

  function TotalWork(l: Layout, used: nat, all: bool, cs: seq<Consumer>): nat {
    if cs == [] then 0 else TotalWork(l, used, all, cs[..|cs| - 1]) + ConsumerWork(l, used, all, cs[|cs| - 1])
  }

  /** What the consumers still have to do: after each claim all of them may have to start anew. */
  function WorkLeft(l: Layout, s: State): nat {
    var unclaimed := if |s.claims| <= |s.blocks| then |s.blocks| - |s.claims| else 0;
    unclaimed * (|s.consumers| * Ceiling(l, s.producer.used))
    + TotalWork(l, s.producer.used, unclaimed == 0, s.consumers)
  }

  lemma {:induction false} TotalUpdate(l: Layout, used: nat, all: bool, cs: seq<Consumer>, id: nat, c: Consumer)
    requires id < |cs|
    ensures TotalWork(l, used, all, cs[id := c]) ==
            TotalWork(l, used, all, cs) - ConsumerWork(l, used, all, cs[id]) + ConsumerWork(l, used, all, c)
  {
    var n := |cs| - 1;
    if id == n {
      assert cs[id := c][..n] == cs[..n];
    } else {
      assert cs[id := c][..n] == cs[..n][id := c];
      TotalUpdate(l, used, all, cs[..n], id, c);
    }
  }

  lemma {:induction false} TotalBelow(l: Layout, used: nat, all: bool, cs: seq<Consumer>)
    requires forall j :: 0 <= j < |cs| ==> ConsumerWork(l, used, all, cs[j]) < Ceiling(l, used)
    ensures TotalWork(l, used, all, cs) + |cs| <= |cs| * Ceiling(l, used)
  {
    if cs != [] {
      var n := |cs| - 1;
      TotalBelow(l, used, all, cs[..n]);
      assert |cs| * Ceiling(l, used) == n * Ceiling(l, used) + Ceiling(l, used);
    }
  }

  lemma {:induction false} WorkBelow(l: Layout, s: State, all: bool, id: nat)
    requires Sound(l) && Inv(l, s) && id < |s.consumers|
    ensures ConsumerWork(l, s.producer.used, all, s.consumers[id]) < Ceiling(l, s.producer.used)
  {
    assert Holds(l, s, TheConsumers) && Holds(l, s, TheArena);
    var c := s.consumers[id];
    assert ConsumerOk(l, s.blocks, |s.claims|, s.finished, c);
    WalkersNear(l, s, id);
    if Busy(c.at) {
      assert c.count <= 69;
    }
  }

  lemma {:induction false} AllBelow(l: Layout, s: State, all: bool)
    requires Sound(l) && Inv(l, s) && s.consumers != []
    ensures TotalWork(l, s.producer.used, all, s.consumers) < |s.consumers| * Ceiling(l, s.producer.used)
  {
    forall j | 0 <= j < |s.consumers|
      ensures ConsumerWork(l, s.producer.used, all, s.consumers[j]) < Ceiling(l, s.producer.used)
    {
      WorkBelow(l, s, all, j);
    }
    TotalBelow(l, s.producer.used, all, s.consumers);
  }

  lemma {:induction false} OneFewer(left: nat, each: nat)
    requires left > 0
    ensures left * each == (left - 1) * each + each
  {
  }

  lemma {:induction false} ClaimLeavesLess(l: Layout, s: State, id: nat)
    requires Sound(l) && Inv(l, s) && id < |s.consumers| && s.consumers[id].at.CClaim?
    ensures WorkLeft(l, ConsumerStep(l, s, id)) < WorkLeft(l, s)
  {
    var t := ConsumerStep(l, s, id);
    StepKeeps(l, s, ConsumerMoves(id));
    StepKeepsCount(l, s, ConsumerMoves(id));
    ConsumerFrame(l, s, id);
    ClaimsOne(l, s, id);
    var left := |s.blocks| - |s.claims|;
    AllBelow(l, t, left == 1);
    OneFewer(left, |s.consumers| * Ceiling(l, s.producer.used));
  }

  lemma {:induction false} MoveLeavesLess(l: Layout, s: State, id: nat)
    requires Sound(l) && Inv(l, s) && s.producer.at.PExit? && id < |s.consumers|
    requires !s.consumers[id].at.CExit? && !s.consumers[id].at.CClaim?
    requires Waiting(s.consumers[id].at) ==> s.semaphore == Nobody
    ensures WorkLeft(l, ConsumerStep(l, s, id)) < WorkLeft(l, s)
  {
    assert Holds(l, s, TheEnds) && Holds(l, s, TheMaker) && Holds(l, s, TheLock);
    assert s.semaphore == TheConsumer(id) <==> ConsumerHolds(s.consumers[id].at);
    var t := ConsumerStep(l, s, id);
    ConsumerTakes(l, s, id);
    ConsumerFrame(l, s, id);
    ConsumerWorks(l, s, id);
    TotalUpdate(l, s.producer.used, |s.claims| == |s.blocks|, s.consumers, id, t.consumers[id]);
  }

  lemma {:induction false} StepLeavesLess(l: Layout, s: State, e: Event)
    requires Sound(l) && Inv(l, s) && s.producer.at.PExit? && Step(l, s, e) != s
    ensures Step(l, s, e).producer.at.PExit? && WorkLeft(l, Step(l, s, e)) < WorkLeft(l, s)
  {
    match e
    case ProducerMoves(random) =>
    case ConsumerMoves(id) =>
      if id < |s.consumers| {
        ConsumerFrame(l, s, id);
        if s.consumers[id].at.CClaim? {
          ClaimLeavesLess(l, s, id);
        } else {
          MoveLeavesLess(l, s, id);
        }
      }
  }

  /** Every event of the run changes the state: nobody waits for the semaphore. */
  ghost predicate BusyRun(l: Layout, s: State, events: seq<Event>)
    decreases |events|
  {
    events != [] ==> Step(l, s, events[0]) != s && BusyRun(l, Step(l, s, events[0]), events[1..])
  }

  /** Once the producer has exited, a run in which every event changes the state is no longer than
      `WorkLeft`, whatever the schedule: the consumers cannot poll the list for ever. */
  lemma {:induction false} ConsumersStop(l: Layout, s: State, events: seq<Event>)
    requires Sound(l) && Inv(l, s) && s.producer.at.PExit? && BusyRun(l, s, events)
    ensures |events| <= WorkLeft(l, s)
    decreases |events|
  {
    if events != [] {
      StepLeavesLess(l, s, events[0]);
      StepKeeps(l, s, events[0]);
      ConsumersStop(l, Step(l, s, events[0]), events[1..]);
    }
  }
}
