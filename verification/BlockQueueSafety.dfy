/** Safety of the producer/consumer system of module3/04 over all interleavings and any number
    of consumers. */
module BlockQueueSafety {
  import opened BlockQueue
  import opened BlockQueueInvariant

  lemma {:induction false} InitialInv(l: Layout, n: nat)
    requires Sound(l)
    ensures Inv(l, Initial(l, n))
  {
    NobodyBusy(Initial(l, n).consumers);
  }

  lemma {:induction false} NobodyBusy(cs: seq<Consumer>)
    requires forall i :: 0 <= i < |cs| ==> cs[i] == FRESH_CONSUMER
    ensures TotalProcessed(cs) == 0 && BusyCount(cs) == 0
  {
    if cs != [] {
      NobodyBusy(cs[..|cs| - 1]);
    }
  }

  // ---------- memory ----------

  /** A write outside a block's own bytes leaves the block as it is. */
  lemma {:induction false} StoredElsewhere(l: Layout, mem: Memory, a: int, v: int, addr: int, count: int, next: int,
                                           values: seq<int>)
    requires Sound(l) && Stored(l, mem, addr, count, next, values)
    requires a < addr || addr + l.node + Bytes(|values|) <= a
    ensures Stored(l, mem[a := v], addr, count, next, values)
  {
    forall i | 0 <= i < |values|
      ensures Read(mem[a := v], addr + l.node + Bytes(i)) == values[i]
    {
      assert addr + l.node + Bytes(i) != a;
    }
  }

  /** All blocks end at or before `bound`. */
  ghost predicate Below(l: Layout, blocks: seq<Block>, bound: int) {
    forall k :: 0 <= k < |blocks| ==> End(l, blocks[k]) <= bound
  }

  /** The unlocked writes of the producer touch no published block. */
  lemma {:induction false} WriteAbove(l: Layout, mem: Memory, blocks: seq<Block>, claimed: nat, a: int, v: int)
    requires Sound(l) && Below(l, blocks, a) && ListStored(l, mem, blocks, claimed)
    ensures ListStored(l, mem[a := v], blocks, claimed)
  {
    var mem' := mem[a := v];
    forall k | 0 <= k < |blocks|
      ensures BlockStored(l, mem', blocks, claimed, k)
    {
      assert BlockStored(l, mem, blocks, claimed, k);
      StoredElsewhere(l, mem, a, v, blocks[k].addr, CountAt(blocks, claimed, k), AddrAt(blocks, k + 1),
                      blocks[k].values);
    }
  }

  // ---------- the semaphore ----------

  /** The three ways a step may treat the semaphore. */
  ghost predicate Takes(before: Holder, after: Holder, me: Holder, held: bool, holds: bool) {
    || (after == before && held == holds)
    || (before == Nobody && after == me && !held && holds)
    || (before == me && after == Nobody && held && !holds)
  }

  lemma {:induction false} ProducerTakes(l: Layout, s: State, random: nat)
    requires s.semaphore == TheProducer <==> ProducerHolds(s.producer.at)
    ensures var t := ProducerStep(l, s, random);
            && t.consumers == s.consumers
            && Takes(s.semaphore, t.semaphore, TheProducer, ProducerHolds(s.producer.at), ProducerHolds(t.producer.at))
  {
    match s.producer.at
    case PTop =>
    case PNew =>
    case PFill =>
    case PLockAppend =>
    case PAppend =>
    case PUnlockAppend =>
    case PLockCheck =>
    case PWalk =>
    case PUnlockCheck =>
    case PLockFinish =>
    case PFinish =>
    case PUnlockFinish =>
    case PExit =>
  }

  ghost predicate OnlyMoves(l: Layout, s: State, id: nat)
    requires id < |s.consumers|
  {
    var t := ConsumerStep(l, s, id);
    && t.producer == s.producer && |t.consumers| == |s.consumers|
    && t.consumers == s.consumers[id := t.consumers[id]]
    && Takes(s.semaphore, t.semaphore, TheConsumer(id), ConsumerHolds(s.consumers[id].at),
             ConsumerHolds(t.consumers[id].at))
  }

  lemma {:induction false} LookTakes(l: Layout, s: State, id: nat)
    requires id < |s.consumers| && (s.semaphore == TheConsumer(id) <==> ConsumerHolds(s.consumers[id].at))
    requires var at := s.consumers[id].at; at.CLockLook? || at.CLook? || at.CWalkLook? || at.CUnlockLook?
    ensures OnlyMoves(l, s, id)
  {
    match s.consumers[id].at
    case CLockLook =>
    case CLook =>
    case CWalkLook =>
    case CUnlockLook =>
  }

  lemma {:induction false} ClaimTakes(l: Layout, s: State, id: nat)
    requires id < |s.consumers| && (s.semaphore == TheConsumer(id) <==> ConsumerHolds(s.consumers[id].at))
    requires var at := s.consumers[id].at;
             at.CLockClaim? || at.CWalkClaim? || at.CUnlockNone? || at.CClaim? || at.CUnlockClaim?
    ensures OnlyMoves(l, s, id)
  {
    match s.consumers[id].at
    case CLockClaim =>
    case CWalkClaim =>
    case CUnlockNone =>
    case CClaim =>
    case CUnlockClaim =>
  }

  lemma {:induction false} ScanTakes(l: Layout, s: State, id: nat)
    requires id < |s.consumers|
    requires var at := s.consumers[id].at; at.CFirst? || at.CScan? || at.CExit?
    ensures OnlyMoves(l, s, id)
  {
    match s.consumers[id].at
    case CFirst =>
    case CScan =>
    case CExit =>
  }

  lemma {:induction false} ConsumerTakes(l: Layout, s: State, id: nat)
    requires id < |s.consumers| && (s.semaphore == TheConsumer(id) <==> ConsumerHolds(s.consumers[id].at))
    ensures OnlyMoves(l, s, id)
  {
    var at := s.consumers[id].at;
    if at.CLockLook? || at.CLook? || at.CWalkLook? || at.CUnlockLook? {
      LookTakes(l, s, id);
    } else if at.CFirst? || at.CScan? || at.CExit? {
      ScanTakes(l, s, id);
    } else {
      ClaimTakes(l, s, id);
    }
  }

  lemma {:induction false} ProducerLocking(semaphore: Holder, semaphore': Holder, at: ProducerAt, at': ProducerAt,
                                           cs: seq<Consumer>)
    requires Locking(semaphore, at, cs)
    requires Takes(semaphore, semaphore', TheProducer, ProducerHolds(at), ProducerHolds(at'))
    ensures Locking(semaphore', at', cs)
  {
  }

  lemma {:induction false} ConsumerLocking(semaphore: Holder, semaphore': Holder, at: ProducerAt, cs: seq<Consumer>,
                                           id: nat, c: Consumer)
    requires Locking(semaphore, at, cs) && id < |cs|
    requires Takes(semaphore, semaphore', TheConsumer(id), ConsumerHolds(cs[id].at), ConsumerHolds(c.at))
    ensures Locking(semaphore', at, cs[id := c])
  {
  }

  /** At most one process is inside a critical section. */
  lemma {:induction false} MutualExclusion(l: Layout, s: State, i: nat, j: nat)
    requires Inv(l, s) && i < |s.consumers| && j < |s.consumers|
    ensures !(ProducerHolds(s.producer.at) && ConsumerHolds(s.consumers[i].at))
    ensures i != j ==> !(ConsumerHolds(s.consumers[i].at) && ConsumerHolds(s.consumers[j].at))
  {
    assert Holds(l, s, TheLock);
    assert s.semaphore == TheConsumer(i) <==> ConsumerHolds(s.consumers[i].at);
  }

  // ---------- producer steps ----------

  lemma {:induction false} ArenaBelow(l: Layout, used: nat, blocks: seq<Block>)
    requires Arena(l, used, blocks)
    ensures Below(l, blocks, l.header + used)
  {
  }

  lemma {:induction false} BelowMore(l: Layout, blocks: seq<Block>, a: int, b: int)
    requires Below(l, blocks, a) && a <= b
    ensures Below(l, blocks, b)
  {
  }

  lemma {:induction false} NewKeepsList(l: Layout, s: State)
    requires Sound(l) && Below(l, s.blocks, l.header + s.producer.used)
    requires ListStored(l, s.mem, s.blocks, |s.claims|)
    ensures ListStored(l, NewNode(l, s).mem, s.blocks, |s.claims|)
  {
    var node, claimed := l.header + s.producer.used, |s.claims|;
    var mem1 := s.mem[node := s.producer.count];
    var mem2 := mem1[node + l.dataAt := node + l.node];
    BelowMore(l, s.blocks, node, node + l.dataAt);
    BelowMore(l, s.blocks, node, node + l.nextAt);
    WriteAbove(l, s.mem, s.blocks, claimed, node, s.producer.count);
    WriteAbove(l, mem1, s.blocks, claimed, node + l.dataAt, node + l.node);
    WriteAbove(l, mem2, s.blocks, claimed, node + l.nextAt, NULL);
  }

  lemma {:induction false} NewStartsDraft(l: Layout, s: State)
    requires Sound(l) && 20 <= s.producer.count <= 69
    ensures var t := NewNode(l, s); Draft(l, t.mem, t.producer)
  {
  }

  lemma {:induction false} FillKeepsList(l: Layout, s: State, random: nat)
    requires Sound(l) && Draft(l, s.mem, s.producer) && Below(l, s.blocks, l.header + s.producer.used)
    requires ListStored(l, s.mem, s.blocks, |s.claims|)
    ensures ListStored(l, Fill(l, s, random).mem, s.blocks, |s.claims|)
  {
    var p := s.producer;
    if |p.written| < p.count {
      var a := p.node + l.node + Bytes(|p.written|);
      BelowMore(l, s.blocks, l.header + p.used, a);
      WriteAbove(l, s.mem, s.blocks, |s.claims|, a, random % 100 + 1);
    }
  }

  lemma {:induction false} FillGrowsDraft(l: Layout, s: State, random: nat)
    requires Sound(l) && Draft(l, s.mem, s.producer) && s.producer.at.PFill?
    ensures var t := Fill(l, s, random);
            Draft(l, t.mem, t.producer) && (t.producer.at.PLockAppend? ==> |t.producer.written| == t.producer.count)
  {
    var p := s.producer;
    if |p.written| < p.count {
      var value := random % 100 + 1;
      var a := p.node + l.node + Bytes(|p.written|);
      StoredElsewhere(l, s.mem, a, value, p.node, p.count, NULL, p.written);
      assert Stored(l, s.mem[a := value], p.node, p.count, NULL, p.written + [value]);
    }
  }

  /** Every address is that of a real block: it is not NULL, and the block is not empty. */
  ghost predicate Solid(blocks: seq<Block>) {
    forall k :: 0 <= k < |blocks| ==> blocks[k].addr != NULL && |blocks[k].values| > 0
  }

  /** A step along the list: the walker stands on a claimed block or on the first unclaimed one. */
  lemma {:induction false} WalkStep(l: Layout, mem: Memory, blocks: seq<Block>, claimed: nat, current: int)
    requires Solid(blocks) && ListStored(l, mem, blocks, claimed)
    requires OnList(blocks, claimed, current) && claimed <= |blocks|
    ensures current == NULL ==> claimed == |blocks|
    ensures current != NULL && Read(mem, current) > 0 ==> claimed < |blocks| && current == blocks[claimed].addr
    ensures current != NULL && Read(mem, current) <= 0 ==> OnList(blocks, claimed, Read(mem, current + l.nextAt))
  {
    var k: nat :| k <= |blocks| && k <= claimed && current == AddrAt(blocks, k);
    if k < |blocks| {
      assert BlockStored(l, mem, blocks, claimed, k);
      if k < claimed {
        assert Read(mem, current + l.nextAt) == AddrAt(blocks, k + 1);
      }
    }
  }

  // ---------- the append ----------

  lemma {:induction false} ArenaSolid(l: Layout, used: nat, blocks: seq<Block>)
    requires Sound(l) && Arena(l, used, blocks)
    ensures Solid(blocks)
  {
  }

  lemma {:induction false} AppendArena(l: Layout, used: nat, blocks: seq<Block>, b: Block)
    requires Sound(l) && Arena(l, used, blocks)
    requires b.addr == l.header + used && 20 <= |b.values| <= 69 && Drawn(b.values)
    ensures Arena(l, used + l.node + Bytes(|b.values|), blocks + [b])
  {
    var after := blocks + [b];
    assert after[..|after| - 1] == blocks;
    ArenaBelow(l, used, blocks);
    assert forall k :: 0 <= k < |blocks| ==> after[k] == blocks[k];
    assert forall k {:trigger after[k]} :: 0 <= k < |blocks| ==> End(l, after[k]) <= b.addr;
  }

  /** Linking the new node behind the tail makes it the last of the list. */
  lemma {:induction false} AppendList(l: Layout, mem: Memory, mem': Memory, used: nat, blocks: seq<Block>, claimed: nat,
                                      tail: int, b: Block, after: seq<Block>)
    requires Sound(l) && Arena(l, used, blocks) && ListStored(l, mem, blocks, claimed) && claimed <= |blocks|
    requires b.addr == l.header + used && Stored(l, mem, b.addr, |b.values|, NULL, b.values)
    requires tail == (if blocks == [] then NULL else blocks[|blocks| - 1].addr)
    requires mem' == (if blocks == [] then mem else mem[tail + l.nextAt := b.addr]) && after == blocks + [b]
    ensures ListStored(l, mem', after, claimed)
  {
    forall k | 0 <= k < |after|
      ensures BlockStored(l, mem', after, claimed, k)
    {
      if k == |blocks| {
        AppendNew(l, mem, used, blocks, claimed, tail, b);
      } else {
        AppendOld(l, mem, used, blocks, claimed, tail, b, k);
      }
    }
  }

  lemma {:induction false} AppendNew(l: Layout, mem: Memory, used: nat, blocks: seq<Block>, claimed: nat, tail: int,
                                     b: Block)
    requires Sound(l) && Arena(l, used, blocks) && claimed <= |blocks|
    requires b.addr == l.header + used && Stored(l, mem, b.addr, |b.values|, NULL, b.values)
    requires tail == (if blocks == [] then NULL else blocks[|blocks| - 1].addr)
    ensures var mem' := if blocks == [] then mem else mem[tail + l.nextAt := b.addr];
            BlockStored(l, mem', blocks + [b], claimed, |blocks|)
  {
    if blocks != [] {
      var last := blocks[|blocks| - 1];
      assert End(l, last) <= b.addr;
      StoredElsewhere(l, mem, tail + l.nextAt, b.addr, b.addr, |b.values|, NULL, b.values);
    }
  }

  lemma {:induction false} AppendOld(l: Layout, mem: Memory, used: nat, blocks: seq<Block>, claimed: nat, tail: int,
                                     b: Block, k: nat)
    requires Sound(l) && Arena(l, used, blocks) && ListStored(l, mem, blocks, claimed) && k < |blocks|
    requires tail == blocks[|blocks| - 1].addr
    ensures BlockStored(l, mem[tail + l.nextAt := b.addr], blocks + [b], claimed, k)
  {
    assert BlockStored(l, mem, blocks, claimed, k);
    var last := blocks[|blocks| - 1];
    if k == |blocks| - 1 {
      LinkLast(l, mem, last.addr, CountAt(blocks, claimed, k), last.values, b.addr);
    } else {
      assert End(l, blocks[k]) <= last.addr;
      StoredElsewhere(l, mem, tail + l.nextAt, b.addr, blocks[k].addr, CountAt(blocks, claimed, k),
                      AddrAt(blocks, k + 1), blocks[k].values);
    }
  }

  lemma {:induction false} LinkLast(l: Layout, mem: Memory, addr: int, count: int, values: seq<int>, next: int)
    requires Sound(l) && Stored(l, mem, addr, count, NULL, values)
    ensures Stored(l, mem[addr + l.nextAt := next], addr, count, next, values)
  {
    var mem' := mem[addr + l.nextAt := next];
    forall i | 0 <= i < |values|
      ensures Read(mem', addr + l.node + Bytes(i)) == values[i]
    {
      assert addr + l.node + Bytes(i) != addr + l.nextAt;
    }
  }

  // ---------- the claim ----------

  /** Setting a count to 0 is exactly what the claimed prefix growing by one looks like. */
  lemma {:induction false} ClaimList(l: Layout, mem: Memory, used: nat, blocks: seq<Block>, claimed: nat)
    requires Sound(l) && Arena(l, used, blocks) && ListStored(l, mem, blocks, claimed) && claimed < |blocks|
    ensures ListStored(l, mem[blocks[claimed].addr := 0], blocks, claimed + 1)
    ensures Read(mem, blocks[claimed].addr) == |blocks[claimed].values|
    ensures Read(mem, blocks[claimed].addr + l.dataAt) == blocks[claimed].addr + l.node
  {
    var a := blocks[claimed].addr;
    var mem' := mem[a := 0];
    assert BlockStored(l, mem, blocks, claimed, claimed);
    var more := claimed + 1;
    forall k | 0 <= k < |blocks|
      ensures BlockStored(l, mem', blocks, more, k)
    {
      assert BlockStored(l, mem, blocks, claimed, k);
      if k == claimed {
        ZeroCount(l, mem, a, |blocks[k].values|, AddrAt(blocks, k + 1), blocks[k].values);
      } else {
        assert k < claimed ==> End(l, blocks[k]) <= a;
        assert k > claimed ==> End(l, blocks[claimed]) <= blocks[k].addr;
        StoredElsewhere(l, mem, a, 0, blocks[k].addr, CountAt(blocks, claimed, k), AddrAt(blocks, k + 1),
                        blocks[k].values);
      }
    }
  }

  lemma {:induction false} ZeroCount(l: Layout, mem: Memory, addr: int, count: int, next: int, values: seq<int>)
    requires Sound(l) && Stored(l, mem, addr, count, next, values)
    ensures Stored(l, mem[addr := 0], addr, 0, next, values)
  {
    var mem' := mem[addr := 0];
    forall i | 0 <= i < |values|
      ensures Read(mem', addr + l.node + Bytes(i)) == values[i]
    {
      assert addr + l.node + Bytes(i) != addr;
    }
  }

  // ---------- sums over the consumers ----------

  lemma {:induction false} SumsUpdate(cs: seq<Consumer>, id: nat, c: Consumer)
    requires id < |cs|
    ensures TotalProcessed(cs[id := c]) == TotalProcessed(cs) - cs[id].processed + c.processed
    ensures BusyCount(cs[id := c]) ==
            BusyCount(cs) - (if Busy(cs[id].at) then 1 else 0) + if Busy(c.at) then 1 else 0
  {
    var n := |cs| - 1;
    if id == n {
      assert cs[id := c][..n] == cs[..n];
    } else {
      assert cs[id := c][..n] == cs[..n][id := c];
      SumsUpdate(cs[..n], id, c);
    }
  }

  // ---------- consumer steps ----------

  /** What a consumer knows stays true while it is outside the critical sections. */
  lemma {:induction false} ConsumerOkGrows(l: Layout, blocks: seq<Block>, claimed: nat, finished: bool,
                                           blocks': seq<Block>, claimed': nat, finished': bool, c: Consumer)
    requires ConsumerOk(l, blocks, claimed, finished, c) && !ConsumerHolds(c.at)
    requires blocks <= blocks' && claimed <= claimed' <= |blocks'| && (finished ==> finished')
    requires c.at.CExit? ==> claimed' == |blocks'|
    ensures ConsumerOk(l, blocks', claimed', finished', c)
  {
  }

  lemma {:induction false} LookOk(l: Layout, mem: Memory, blocks: seq<Block>, claimed: nat, finished: bool, c: Consumer)
    requires Solid(blocks) && ListStored(l, mem, blocks, claimed) && claimed <= |blocks|
    requires c.at.CWalkLook? && ConsumerOk(l, blocks, claimed, finished, c)
    ensures ConsumerOk(l, blocks, claimed, finished, Look(l, mem, c))
  {
    WalkStep(l, mem, blocks, claimed, c.current);
  }

  lemma {:induction false} SeekOk(l: Layout, mem: Memory, blocks: seq<Block>, claimed: nat, finished: bool, c: Consumer)
    requires Solid(blocks) && ListStored(l, mem, blocks, claimed) && claimed <= |blocks|
    requires c.at.CWalkClaim? && ConsumerOk(l, blocks, claimed, finished, c)
    ensures ConsumerOk(l, blocks, claimed, finished, Seek(l, mem, c))
  {
    WalkStep(l, mem, blocks, claimed, c.current);
  }

  lemma {:induction false} ScanFirstOk(l: Layout, mem: Memory, blocks: seq<Block>, claimed: nat, finished: bool,
                                       c: Consumer)
    requires Solid(blocks) && ListStored(l, mem, blocks, claimed)
    requires c.at.CFirst? && ConsumerOk(l, blocks, claimed, finished, c)
    ensures ConsumerOk(l, blocks, claimed, finished, ScanFirst(mem, c))
  {
    var values := blocks[c.block].values;
    assert BlockStored(l, mem, blocks, claimed, c.block);
    assert Read(mem, blocks[c.block].addr + l.node + Bytes(0)) == values[0];
    assert values[..1] == [values[0]];
  }

  lemma {:induction false} ScanNextOk(l: Layout, mem: Memory, blocks: seq<Block>, claimed: nat, finished: bool,
                                      c: Consumer)
    requires ListStored(l, mem, blocks, claimed)
    requires c.at.CScan? && c.i < c.count && ConsumerOk(l, blocks, claimed, finished, c)
    ensures ConsumerOk(l, blocks, claimed, finished, ScanNext(mem, c))
  {
    var values := blocks[c.block].values;
    assert BlockStored(l, mem, blocks, claimed, c.block);
    assert Read(mem, blocks[c.block].addr + l.node + Bytes(c.i)) == values[c.i];
    ExtremesGrow(values[..c.i], values[c.i], c.min, c.max);
    assert values[..c.i + 1] == values[..c.i] + [values[c.i]];
  }

  lemma {:induction false} ExtremesGrow(values: seq<int>, x: int, min: int, max: int)
    requires IsMin(values, min) && IsMax(values, max)
    ensures IsMin(values + [x], if x < min then x else min) && IsMax(values + [x], if x > max then x else max)
  {
    assert forall y :: y in values + [x] <==> y in values || y == x;
  }

  predicate Quiet(c: Consumer) {
    !c.at.CClaim? && !(c.at.CScan? && c.i >= c.count)
  }

  /** Steps other than the claim and the report change the consumer and the semaphore only. */
  lemma {:induction false} QuietSteps(l: Layout, s: State, id: nat)
    requires id < |s.consumers| && Quiet(s.consumers[id])
    ensures var t := ConsumerStep(l, s, id);
            && t.mem == s.mem && t.head == s.head && t.tail == s.tail && t.finished == s.finished
            && t.blocks == s.blocks && t.claims == s.claims && t.reports == s.reports
  {
  }

  lemma {:induction false} QuietConsumer(l: Layout, s: State, id: nat)
    requires id < |s.consumers| && Quiet(s.consumers[id])
    ensures var t := ConsumerStep(l, s, id);
            && |t.consumers| == |s.consumers|
            && Busy(t.consumers[id].at) == Busy(s.consumers[id].at)
            && t.consumers[id].block == s.consumers[id].block
            && t.consumers[id].processed == s.consumers[id].processed
  {
    match s.consumers[id].at
    case CLockLook =>
    case CLook =>
    case CWalkLook =>
    case CUnlockLook =>
    case CLockClaim =>
    case CWalkClaim =>
    case CUnlockNone =>
    case CClaim =>
    case CUnlockClaim =>
    case CFirst =>
    case CScan =>
    case CExit =>
  }

  lemma {:induction false} ControlOk(l: Layout, s: State, id: nat)
    requires id < |s.consumers|
    requires var at := s.consumers[id].at;
             at.CLockLook? || at.CLook? || at.CUnlockLook? || at.CLockClaim? || at.CUnlockNone? || at.CUnlockClaim?
             || at.CExit?
    requires OnList(s.blocks, |s.claims|, s.head)
    requires ConsumerOk(l, s.blocks, |s.claims|, s.finished, s.consumers[id])
    ensures |ConsumerStep(l, s, id).consumers| == |s.consumers|
    ensures ConsumerOk(l, s.blocks, |s.claims|, s.finished, ConsumerStep(l, s, id).consumers[id])
  {
  }

  /** What a consumer knows after a step of its own. */
  lemma {:induction false} QuietOk(l: Layout, s: State, id: nat)
    requires Sound(l) && id < |s.consumers| && Quiet(s.consumers[id])
    requires Solid(s.blocks) && ListStored(l, s.mem, s.blocks, |s.claims|)
    requires Ends(s.head, s.tail, s.blocks, s.claims)
    requires ConsumerOk(l, s.blocks, |s.claims|, s.finished, s.consumers[id])
    ensures |ConsumerStep(l, s, id).consumers| == |s.consumers|
    ensures ConsumerOk(l, s.blocks, |s.claims|, s.finished, ConsumerStep(l, s, id).consumers[id])
  {
    var c := s.consumers[id];
    if c.at.CWalkLook? {
      LookOk(l, s.mem, s.blocks, |s.claims|, s.finished, c);
    } else if c.at.CWalkClaim? {
      SeekOk(l, s.mem, s.blocks, |s.claims|, s.finished, c);
    } else if c.at.CFirst? {
      ScanFirstOk(l, s.mem, s.blocks, |s.claims|, s.finished, c);
    } else if c.at.CScan? {
      ScanNextOk(l, s.mem, s.blocks, |s.claims|, s.finished, c);
    } else {
      assert OnList(s.blocks, |s.claims|, s.head) by {
        assert s.head == AddrAt(s.blocks, 0);
      }
      ControlOk(l, s, id);
    }
  }

  // ---------- the invariant over every step ----------

  /** The consumers other than `id` are unaffected by a step outside their critical sections. */
  lemma {:induction false} OthersOk(l: Layout, blocks: seq<Block>, claimed: nat, finished: bool,
                                    blocks': seq<Block>, claimed': nat, finished': bool, cs: seq<Consumer>, id: nat,
                                    c: Consumer)
    requires ConsumersOk(l, blocks, claimed, finished, cs) && id < |cs|
    requires forall j :: 0 <= j < |cs| && j != id ==> !ConsumerHolds(cs[j].at)
    requires blocks <= blocks' && claimed <= claimed' <= |blocks'| && (finished ==> finished')
    requires finished && claimed == |blocks| ==> claimed' == |blocks'|
    requires ConsumerOk(l, blocks', claimed', finished', c)
    ensures ConsumersOk(l, blocks', claimed', finished', cs[id := c])
  {
    var cs' := cs[id := c];
    forall j | 0 <= j < |cs'|
      ensures ConsumerOk(l, blocks', claimed', finished', cs'[j])
    {
      if j != id {
        ConsumerOkGrows(l, blocks, claimed, finished, blocks', claimed', finished', cs[j]);
      }
    }
  }

  /** The same for a producer step, when the producer is in its own critical section. */
  lemma {:induction false} AllOk(l: Layout, blocks: seq<Block>, claimed: nat, finished: bool,
                                 blocks': seq<Block>, claimed': nat, finished': bool, cs: seq<Consumer>)
    requires ConsumersOk(l, blocks, claimed, finished, cs)
    requires forall j :: 0 <= j < |cs| ==> !ConsumerHolds(cs[j].at)
    requires blocks <= blocks' && claimed <= claimed' <= |blocks'| && (finished ==> finished')
    requires finished && claimed == |blocks| ==> claimed' == |blocks'|
    ensures ConsumersOk(l, blocks', claimed', finished', cs)
  {
    forall j | 0 <= j < |cs|
      ensures ConsumerOk(l, blocks', claimed', finished', cs[j])
    {
      ConsumerOkGrows(l, blocks, claimed, finished, blocks', claimed', finished', cs[j]);
    }
  }

  lemma {:induction false} OnlyProducerHolds(s: State, id: nat)
    requires Locking(s.semaphore, s.producer.at, s.consumers) && ProducerHolds(s.producer.at) && id < |s.consumers|
    ensures !ConsumerHolds(s.consumers[id].at)
  {
    assert s.semaphore == TheConsumer(id) <==> ConsumerHolds(s.consumers[id].at);
  }

  lemma {:induction false} OnlyOneHolds(s: State, id: nat, j: nat)
    requires Locking(s.semaphore, s.producer.at, s.consumers)
    requires id < |s.consumers| && ConsumerHolds(s.consumers[id].at) && j < |s.consumers| && j != id
    ensures !ConsumerHolds(s.consumers[j].at) && !ProducerHolds(s.producer.at)
  {
    assert s.semaphore == TheConsumer(id) <==> ConsumerHolds(s.consumers[id].at);
    assert s.semaphore == TheConsumer(j) <==> ConsumerHolds(s.consumers[j].at);
  }

  lemma {:induction false} ReportedGrows(blocks: seq<Block>, blocks': seq<Block>, claimed: nat, reports: seq<Report>,
                                         cs: seq<Consumer>)
    requires Reported(blocks, claimed, reports, cs) && blocks <= blocks'
    ensures Reported(blocks', claimed, reports, cs)
  {
  }

  lemma {:induction false} ReportedMove(blocks: seq<Block>, claimed: nat, reports: seq<Report>, cs: seq<Consumer>,
                                        id: nat, c: Consumer)
    requires Reported(blocks, claimed, reports, cs) && id < |cs|
    requires Busy(c.at) ==> Busy(cs[id].at) && c.block == cs[id].block
    ensures Reported(blocks, claimed, reports, cs[id := c])
  {
    var cs' := cs[id := c];
    forall r, j | 0 <= r < |reports| && 0 <= j < |cs'| && Busy(cs'[j].at)
      ensures reports[r].block != cs'[j].block
    {
      assert Busy(cs[j].at) && cs'[j].block == cs[j].block;
    }
    forall i, j | 0 <= i < j < |cs'| && Busy(cs'[i].at) && Busy(cs'[j].at)
      ensures cs'[i].block != cs'[j].block
    {
      assert Busy(cs[i].at) && cs'[i].block == cs[i].block;
      assert Busy(cs[j].at) && cs'[j].block == cs[j].block;
    }
  }

  lemma {:induction false} ReportedClaim(blocks: seq<Block>, claimed: nat, reports: seq<Report>, cs: seq<Consumer>,
                                         id: nat, c: Consumer)
    requires Reported(blocks, claimed, reports, cs) && id < |cs| && claimed < |blocks| && c.block == claimed
    requires forall j :: 0 <= j < |cs| && Busy(cs[j].at) ==> cs[j].block < claimed
    ensures Reported(blocks, claimed + 1, reports, cs[id := c])
  {
  }

  lemma {:induction false} ReportedAnnounce(blocks: seq<Block>, claimed: nat, reports: seq<Report>, cs: seq<Consumer>,
                                            id: nat, c: Consumer, r: Report)
    requires Reported(blocks, claimed, reports, cs) && id < |cs| && Busy(cs[id].at) && !Busy(c.at)
    requires r.block == cs[id].block < claimed <= |blocks|
    requires IsMin(blocks[r.block].values, r.min) && IsMax(blocks[r.block].values, r.max)
    ensures Reported(blocks, claimed, reports + [r], cs[id := c])
  {
    var reports' := reports + [r];
    assert forall i :: 0 <= i < |reports'| ==> Truthful(blocks, claimed, reports'[i]);
  }

  lemma {:induction false} ProducerQuiet(l: Layout, s: State, random: nat)
    requires !s.producer.at.PAppend? && !s.producer.at.PFinish?
    ensures var t := ProducerStep(l, s, random);
            && t.head == s.head && t.tail == s.tail && t.finished == s.finished && t.consumers == s.consumers
            && t.blocks == s.blocks && t.claims == s.claims && t.reports == s.reports
            && t.producer.used == s.producer.used
            && (!s.producer.at.PNew? && !s.producer.at.PFill? ==> t.mem == s.mem)
  {
    match s.producer.at
    case PTop =>
    case PNew =>
    case PFill =>
    case PLockAppend =>
    case PAppend =>
    case PUnlockAppend =>
    case PLockCheck =>
    case PWalk =>
    case PUnlockCheck =>
    case PLockFinish =>
    case PFinish =>
    case PUnlockFinish =>
    case PExit =>
  }

  /** Producer steps other than the append and the finish. */
  lemma {:induction false} ProducerQuietList(l: Layout, s: State, random: nat)
    requires Sound(l) && !s.producer.at.PAppend? && !s.producer.at.PFinish?
    requires Holds(l, s, TheArena) && Holds(l, s, TheList) && Holds(l, s, TheMaker)
    ensures Holds(l, ProducerStep(l, s, random), TheList)
  {
    ProducerQuiet(l, s, random);
    ArenaBelow(l, s.producer.used, s.blocks);
    if s.producer.at.PNew? {
      NewKeepsList(l, s);
    } else if s.producer.at.PFill? {
      FillKeepsList(l, s, random);
    }
  }

  lemma {:induction false} ProducerWriteOk(l: Layout, s: State, random: nat)
    requires Sound(l) && Holds(l, s, TheMaker) && (s.producer.at.PNew? || s.producer.at.PFill?)
    ensures Holds(l, ProducerStep(l, s, random), TheMaker)
  {
    if s.producer.at.PNew? {
      NewStartsDraft(l, s);
    } else {
      FillGrowsDraft(l, s, random);
    }
  }

  lemma {:induction false} ProducerWalkOk(l: Layout, s: State, random: nat)
    requires Sound(l) && s.producer.at.PWalk?
    requires Holds(l, s, TheArena) && Holds(l, s, TheList) && Holds(l, s, TheEnds) && Holds(l, s, TheMaker)
    ensures Holds(l, ProducerStep(l, s, random), TheMaker)
  {
    ArenaSolid(l, s.producer.used, s.blocks);
    WalkStep(l, s.mem, s.blocks, |s.claims|, s.producer.current);
  }

  lemma {:induction false} ProducerQuietOk(l: Layout, s: State, random: nat)
    requires Sound(l) && !s.producer.at.PAppend? && !s.producer.at.PFinish?
    requires Holds(l, s, TheArena) && Holds(l, s, TheList) && Holds(l, s, TheEnds) && Holds(l, s, TheMaker)
    ensures Holds(l, ProducerStep(l, s, random), TheMaker)
  {
    if s.producer.at.PNew? || s.producer.at.PFill? {
      ProducerWriteOk(l, s, random);
    } else if s.producer.at.PWalk? {
      ProducerWalkOk(l, s, random);
    } else {
      ProducerQuiet(l, s, random);
      assert OnList(s.blocks, |s.claims|, s.head) by {
        assert s.head == AddrAt(s.blocks, 0);
      }
      ProducerControlOk(l, s, random);
    }
  }

  lemma {:induction false} ProducerControlOk(l: Layout, s: State, random: nat)
    requires var at := s.producer.at;
             !at.PAppend? && !at.PFinish? && !at.PNew? && !at.PFill? && !at.PWalk?
    requires OnList(s.blocks, |s.claims|, s.head)
    requires ProducerOk(l, s.mem, s.blocks, |s.claims|, s.finished, s.producer)
    ensures ProducerOk(l, s.mem, s.blocks, |s.claims|, s.finished, ProducerStep(l, s, random).producer)
  {
    match s.producer.at
    case PTop =>
    case PNew =>
    case PFill =>
    case PLockAppend =>
    case PAppend =>
    case PUnlockAppend =>
    case PLockCheck =>
    case PWalk =>
    case PUnlockCheck =>
    case PLockFinish =>
    case PFinish =>
    case PUnlockFinish =>
    case PExit =>
  }

  lemma {:induction false} AppendConsumers(l: Layout, s: State)
    requires Holds(l, s, TheLock) && Holds(l, s, TheConsumers) && Holds(l, s, TheEnds) && s.producer.at.PAppend?
    requires s.finished <==> s.producer.at.PUnlockFinish? || s.producer.at.PExit?
    ensures Holds(l, Append(l, s), TheConsumers)
  {
    forall j | 0 <= j < |s.consumers| ensures !ConsumerHolds(s.consumers[j].at) {
      OnlyProducerHolds(s, j);
    }
    var blocks' := s.blocks + [Block(s.producer.node, s.producer.written)];
    AllOk(l, s.blocks, |s.claims|, s.finished, blocks', |s.claims|, s.finished, s.consumers);
  }

  lemma {:induction false} AppendKeepsArena(l: Layout, s: State)
    requires Sound(l) && Holds(l, s, TheArena) && Draft(l, s.mem, s.producer)
    requires |s.producer.written| == s.producer.count
    ensures Holds(l, Append(l, s), TheArena)
  {
    AppendArena(l, s.producer.used, s.blocks, Block(s.producer.node, s.producer.written));
  }

  lemma {:induction false} AppendMemory(l: Layout, s: State)
    requires Ends(s.head, s.tail, s.blocks, s.claims) && Solid(s.blocks)
    ensures Append(l, s).mem == if s.blocks == [] then s.mem else s.mem[s.tail + l.nextAt := s.producer.node]
  {
    assert s.head == NULL <==> s.blocks == [];
  }

  lemma {:induction false} AppendKeepsList(l: Layout, s: State)
    requires Sound(l) && Holds(l, s, TheArena) && Holds(l, s, TheList) && Holds(l, s, TheEnds)
    requires Draft(l, s.mem, s.producer) && |s.producer.written| == s.producer.count
    ensures Holds(l, Append(l, s), TheList)
  {
    ArenaSolid(l, s.producer.used, s.blocks);
    AppendMemory(l, s);
    var t := Append(l, s);
    AppendList(l, s.mem, t.mem, s.producer.used, s.blocks, |s.claims|, s.tail,
               Block(s.producer.node, s.producer.written), t.blocks);
  }

  lemma {:induction false} AppendKeepsEnds(l: Layout, s: State)
    requires Sound(l) && Holds(l, s, TheArena) && Holds(l, s, TheEnds)
    ensures Holds(l, Append(l, s), TheEnds)
  {
    ArenaSolid(l, s.producer.used, s.blocks);
    assert s.head == NULL <==> s.blocks == [];
  }

  lemma {:induction false} AppendKeepsRest(l: Layout, s: State)
    requires s.producer.at.PAppend? && Holds(l, s, TheMaker) && Holds(l, s, TheLock)
    requires Holds(l, s, TheReports) && Holds(l, s, TheTally)
    ensures Holds(l, Append(l, s), TheMaker) && Holds(l, Append(l, s), TheLock)
    ensures Holds(l, Append(l, s), TheReports) && Holds(l, Append(l, s), TheTally)
  {
    ReportedGrows(s.blocks, Append(l, s).blocks, |s.claims|, s.reports, s.consumers);
  }

  lemma {:induction false} AppendKeeps(l: Layout, s: State)
    requires Sound(l) && Inv(l, s) && s.producer.at.PAppend?
    ensures Inv(l, Append(l, s))
  {
    assert Holds(l, s, TheMaker) && Holds(l, s, TheLock) && Holds(l, s, TheConsumers);
    assert Holds(l, s, TheArena) && Holds(l, s, TheList) && Holds(l, s, TheEnds);
    assert Holds(l, s, TheReports) && Holds(l, s, TheTally);
    AppendConsumers(l, s);
    AppendKeepsArena(l, s);
    AppendKeepsList(l, s);
    AppendKeepsEnds(l, s);
    AppendKeepsRest(l, s);
  }

  lemma {:induction false} FinishKeepsConsumers(l: Layout, s: State, random: nat)
    requires s.producer.at.PFinish?
    requires Holds(l, s, TheLock) && Holds(l, s, TheConsumers) && Holds(l, s, TheEnds) && Holds(l, s, TheMaker)
    ensures Holds(l, ProducerStep(l, s, random), TheConsumers)
    ensures Holds(l, ProducerStep(l, s, random), TheLock) && Holds(l, ProducerStep(l, s, random), TheMaker)
  {
    forall j | 0 <= j < |s.consumers| ensures !ConsumerHolds(s.consumers[j].at) {
      OnlyProducerHolds(s, j);
    }
    AllOk(l, s.blocks, |s.claims|, s.finished, s.blocks, |s.claims|, true, s.consumers);
  }

  lemma {:induction false} FinishKeeps(l: Layout, s: State, random: nat)
    requires Sound(l) && Inv(l, s) && s.producer.at.PFinish?
    ensures Inv(l, ProducerStep(l, s, random))
  {
    assert Holds(l, s, TheMaker) && Holds(l, s, TheLock) && Holds(l, s, TheConsumers);
    assert Holds(l, s, TheArena) && Holds(l, s, TheList) && Holds(l, s, TheEnds);
    assert Holds(l, s, TheReports) && Holds(l, s, TheTally);
    FinishKeepsConsumers(l, s, random);
  }

  lemma {:induction false} ProducerQuietKeeps(l: Layout, s: State, random: nat)
    requires Sound(l) && Inv(l, s) && !s.producer.at.PAppend? && !s.producer.at.PFinish?
    ensures Inv(l, ProducerStep(l, s, random))
  {
    assert Holds(l, s, TheMaker) && Holds(l, s, TheLock) && Holds(l, s, TheConsumers);
    assert Holds(l, s, TheArena) && Holds(l, s, TheList) && Holds(l, s, TheEnds);
    assert Holds(l, s, TheReports) && Holds(l, s, TheTally);
    ProducerQuietList(l, s, random);
    ProducerQuietOk(l, s, random);
    ProducerQuiet(l, s, random);
    ProducerTakes(l, s, random);
    var t := ProducerStep(l, s, random);
    ProducerLocking(s.semaphore, t.semaphore, s.producer.at, t.producer.at, s.consumers);
  }

  lemma {:induction false} ProducerKeeps(l: Layout, s: State, random: nat)
    requires Sound(l) && Inv(l, s)
    ensures Inv(l, ProducerStep(l, s, random))
  {
    if s.producer.at.PAppend? {
      AppendKeeps(l, s);
    } else if s.producer.at.PFinish? {
      FinishKeeps(l, s, random);
    } else {
      ProducerQuietKeeps(l, s, random);
    }
  }

  lemma {:induction false} ClaimKeepsConsumers(l: Layout, s: State, id: nat)
    requires Sound(l) && id < |s.consumers| && s.consumers[id].at.CClaim?
    requires Holds(l, s, TheArena) && Holds(l, s, TheList) && Holds(l, s, TheLock) && Holds(l, s, TheConsumers)
    ensures Holds(l, Claim(l, s, id), TheConsumers) && Holds(l, Claim(l, s, id), TheList)
  {
    var claimed, t := |s.claims|, Claim(l, s, id);
    assert ConsumerOk(l, s.blocks, claimed, s.finished, s.consumers[id]);
    ClaimList(l, s.mem, s.producer.used, s.blocks, claimed);
    forall j | 0 <= j < |s.consumers| && j != id ensures !ConsumerHolds(s.consumers[j].at) {
      OnlyOneHolds(s, id, j);
    }
    OthersOk(l, s.blocks, claimed, s.finished, s.blocks, claimed + 1, s.finished, s.consumers, id, t.consumers[id]);
  }

  lemma {:induction false} ClaimKeepsReports(l: Layout, s: State, id: nat)
    requires id < |s.consumers| && s.consumers[id].at.CClaim?
    requires Holds(l, s, TheConsumers) && Holds(l, s, TheReports) && Holds(l, s, TheTally)
    ensures Holds(l, Claim(l, s, id), TheReports) && Holds(l, Claim(l, s, id), TheTally)
  {
    var claimed, t := |s.claims|, Claim(l, s, id);
    assert ConsumerOk(l, s.blocks, claimed, s.finished, s.consumers[id]);
    forall j | 0 <= j < |s.consumers| && Busy(s.consumers[j].at) ensures s.consumers[j].block < claimed {
      assert ConsumerOk(l, s.blocks, claimed, s.finished, s.consumers[j]);
    }
    ReportedClaim(s.blocks, claimed, s.reports, s.consumers, id, t.consumers[id]);
    SumsUpdate(s.consumers, id, t.consumers[id]);
  }

  lemma {:induction false} ClaimKeepsEnds(l: Layout, s: State, id: nat)
    requires id < |s.consumers| && s.consumers[id].at.CClaim?
    requires Holds(l, s, TheConsumers) && Holds(l, s, TheEnds) && Holds(l, s, TheLock)
    ensures Holds(l, Claim(l, s, id), TheEnds) && Holds(l, Claim(l, s, id), TheLock)
  {
    var t := Claim(l, s, id);
    assert ConsumerOk(l, s.blocks, |s.claims|, s.finished, s.consumers[id]);
    assert s.semaphore == TheConsumer(id) <==> ConsumerHolds(s.consumers[id].at);
    ConsumerLocking(s.semaphore, t.semaphore, s.producer.at, s.consumers, id, t.consumers[id]);
  }

  /** The count that a claim clears is not in the producer's draft, and the producer is not
      walking the list meanwhile. */
  lemma {:induction false} ClaimKeepsProducer(l: Layout, s: State, id: nat)
    requires Sound(l) && Arena(l, s.producer.used, s.blocks)
    requires ProducerOk(l, s.mem, s.blocks, |s.claims|, s.finished, s.producer)
    requires Locking(s.semaphore, s.producer.at, s.consumers)
    requires id < |s.consumers| && s.consumers[id].at.CClaim?
    requires |s.claims| < |s.blocks| && s.consumers[id].current == s.blocks[|s.claims|].addr
    ensures ProducerOk(l, s.mem[s.consumers[id].current := 0], s.blocks, |s.claims| + 1, s.finished, s.producer)
  {
    var p, a := s.producer, s.consumers[id].current;
    assert s.semaphore == TheConsumer(id) <==> ConsumerHolds(s.consumers[id].at);
    assert End(l, s.blocks[|s.claims|]) <= l.header + p.used;
    if p.at.PFill? || p.at.PLockAppend? {
      StoredElsewhere(l, s.mem, a, 0, p.node, p.count, NULL, p.written);
    }
  }

  lemma {:induction false} ClaimKeepsMaker(l: Layout, s: State, id: nat)
    requires Sound(l) && id < |s.consumers| && s.consumers[id].at.CClaim?
    requires Holds(l, s, TheArena) && Holds(l, s, TheMaker) && Holds(l, s, TheLock) && Holds(l, s, TheConsumers)
    ensures Holds(l, Claim(l, s, id), TheArena) && Holds(l, Claim(l, s, id), TheMaker)
  {
    assert ConsumerOk(l, s.blocks, |s.claims|, s.finished, s.consumers[id]);
    ClaimKeepsProducer(l, s, id);
  }

  lemma {:induction false} ClaimKeeps(l: Layout, s: State, id: nat)
    requires Sound(l) && Inv(l, s) && id < |s.consumers| && s.consumers[id].at.CClaim?
    ensures Inv(l, Claim(l, s, id))
  {
    assert Holds(l, s, TheMaker) && Holds(l, s, TheLock) && Holds(l, s, TheConsumers);
    assert Holds(l, s, TheArena) && Holds(l, s, TheList) && Holds(l, s, TheEnds);
    assert Holds(l, s, TheReports) && Holds(l, s, TheTally);
    ClaimKeepsConsumers(l, s, id);
    ClaimKeepsReports(l, s, id);
    ClaimKeepsEnds(l, s, id);
    ClaimKeepsMaker(l, s, id);
  }

  lemma {:induction false} AnnounceKeepsReports(l: Layout, s: State, id: nat)
    requires id < |s.consumers| && s.consumers[id].at.CScan? && s.consumers[id].i >= s.consumers[id].count
    requires Holds(l, s, TheConsumers) && Holds(l, s, TheReports) && Holds(l, s, TheTally)
    ensures Holds(l, Announce(s, id), TheReports) && Holds(l, Announce(s, id), TheTally)
  {
    var c, t := s.consumers[id], Announce(s, id);
    assert ConsumerOk(l, s.blocks, |s.claims|, s.finished, c);
    var values := s.blocks[c.block].values;
    assert values[..c.i] == values;
    ReportedAnnounce(s.blocks, |s.claims|, s.reports, s.consumers, id, t.consumers[id], Report(c.block, c.min, c.max));
    SumsUpdate(s.consumers, id, t.consumers[id]);
  }

  lemma {:induction false} AnnounceKeepsRest(l: Layout, s: State, id: nat)
    requires id < |s.consumers| && s.consumers[id].at.CScan?
    requires Holds(l, s, TheConsumers) && Holds(l, s, TheLock)
    ensures Holds(l, Announce(s, id), TheConsumers) && Holds(l, Announce(s, id), TheLock)
  {
    var t := Announce(s, id);
    ConsumerLocking(s.semaphore, t.semaphore, s.producer.at, s.consumers, id, t.consumers[id]);
  }

  lemma {:induction false} AnnounceKeeps(l: Layout, s: State, id: nat)
    requires Sound(l) && Inv(l, s) && id < |s.consumers|
    requires s.consumers[id].at.CScan? && s.consumers[id].i >= s.consumers[id].count
    ensures Inv(l, Announce(s, id))
  {
    assert Holds(l, s, TheMaker) && Holds(l, s, TheLock) && Holds(l, s, TheConsumers);
    assert Holds(l, s, TheArena) && Holds(l, s, TheList) && Holds(l, s, TheEnds);
    assert Holds(l, s, TheReports) && Holds(l, s, TheTally);
    AnnounceKeepsReports(l, s, id);
    AnnounceKeepsRest(l, s, id);
  }

  lemma {:induction false} QuietKeepsConsumers(l: Layout, s: State, id: nat)
    requires Sound(l) && id < |s.consumers| && Quiet(s.consumers[id]) && Holds(l, s, TheConsumers)
    requires Holds(l, s, TheArena) && Holds(l, s, TheList) && Holds(l, s, TheEnds) && Holds(l, s, TheLock)
    ensures Holds(l, ConsumerStep(l, s, id), TheConsumers) && Holds(l, ConsumerStep(l, s, id), TheLock)
  {
    var t := ConsumerStep(l, s, id);
    assert s.semaphore == TheConsumer(id) <==> ConsumerHolds(s.consumers[id].at);
    assert ConsumerOk(l, s.blocks, |s.claims|, s.finished, s.consumers[id]);
    ArenaSolid(l, s.producer.used, s.blocks);
    ConsumerTakes(l, s, id);
    ConsumerLocking(s.semaphore, t.semaphore, s.producer.at, s.consumers, id, t.consumers[id]);
    QuietSteps(l, s, id);
    QuietOk(l, s, id);
  }

  lemma {:induction false} QuietKeepsReports(l: Layout, s: State, id: nat)
    requires id < |s.consumers| && Quiet(s.consumers[id]) && Holds(l, s, TheReports) && Holds(l, s, TheTally)
    requires ConsumerStep(l, s, id).consumers == s.consumers[id := ConsumerStep(l, s, id).consumers[id]]
    ensures Holds(l, ConsumerStep(l, s, id), TheReports) && Holds(l, ConsumerStep(l, s, id), TheTally)
  {
    var t := ConsumerStep(l, s, id);
    QuietSteps(l, s, id);
    QuietConsumer(l, s, id);
    ReportedMove(s.blocks, |s.claims|, s.reports, s.consumers, id, t.consumers[id]);
    SumsUpdate(s.consumers, id, t.consumers[id]);
  }

  lemma {:induction false} QuietKeeps(l: Layout, s: State, id: nat)
    requires Sound(l) && Inv(l, s) && id < |s.consumers| && Quiet(s.consumers[id])
    ensures Inv(l, ConsumerStep(l, s, id))
  {
    assert Holds(l, s, TheMaker) && Holds(l, s, TheLock) && Holds(l, s, TheConsumers);
    assert Holds(l, s, TheArena) && Holds(l, s, TheList) && Holds(l, s, TheEnds);
    assert Holds(l, s, TheReports) && Holds(l, s, TheTally);
    assert s.semaphore == TheConsumer(id) <==> ConsumerHolds(s.consumers[id].at);
    QuietSteps(l, s, id);
    ConsumerTakes(l, s, id);
    QuietKeepsConsumers(l, s, id);
    QuietKeepsReports(l, s, id);
  }

  /** Every step of every process keeps the invariant. */
  lemma {:induction false} StepKeeps(l: Layout, s: State, e: Event)
    requires Sound(l) && Inv(l, s)
    ensures Inv(l, Step(l, s, e))
  {
    match e
    case ProducerMoves(random) => ProducerKeeps(l, s, random);
    case ConsumerMoves(id) =>
      if id < |s.consumers| {
        if s.consumers[id].at.CClaim? {
          ClaimKeeps(l, s, id);
        } else if s.consumers[id].at.CScan? && s.consumers[id].i >= s.consumers[id].count {
          AnnounceKeeps(l, s, id);
        } else {
          QuietKeeps(l, s, id);
        }
      }
  }

  /** The invariant holds after every interleaving of the producer with any number of consumers. */
  lemma {:induction false} RunKeeps(l: Layout, s: State, events: seq<Event>)
    requires Sound(l) && Inv(l, s)
    ensures Inv(l, Run(l, s, events))
    decreases |events|
  {
    if events != [] {
      StepKeeps(l, s, events[0]);
      RunKeeps(l, Step(l, s, events[0]), events[1..]);
    }
  }
}
