/** What the producer/consumer system of module3/04 keeps over all its runs. */
module BlockQueueInvariant {
  import opened BlockQueue

  // ---------- the invariant ----------

  function End(l: Layout, b: Block): int {
    b.addr + l.node + Bytes(|b.values|)
  }

  function AddrAt(blocks: seq<Block>, k: nat): int {
    if k < |blocks| then blocks[k].addr else NULL
  }

  /** The bytes the producer has accounted for: node sizes and numbers of all blocks. */
  ghost function Extent(l: Layout, blocks: seq<Block>): nat {
    if blocks == [] then 0
    else Extent(l, blocks[..|blocks| - 1]) + l.node + Bytes(|blocks[|blocks| - 1].values|)
  }

  ghost predicate Drawn(values: seq<int>) {
    forall i :: 0 <= i < |values| ==> 1 <= values[i] <= 100
  }

  /** Blocks lie one behind the other, below the address of the next one. */
  ghost predicate Arena(l: Layout, used: nat, blocks: seq<Block>) {
    && used == l.header + Extent(l, blocks)
    && (forall k :: 0 <= k < |blocks| ==>
          && l.header + l.header <= blocks[k].addr && End(l, blocks[k]) <= l.header + used
          && 20 <= |blocks[k].values| <= 69 && Drawn(blocks[k].values))
    && (forall j, k :: 0 <= j < k < |blocks| ==> End(l, blocks[j]) <= blocks[k].addr)
  }

  /** A node at `addr` and the numbers behind it. */
  ghost predicate Stored(l: Layout, mem: Memory, addr: int, count: int, next: int, values: seq<int>) {
    && Read(mem, addr) == count
    && Read(mem, addr + l.dataAt) == addr + l.node
    && Read(mem, addr + l.nextAt) == next
    && forall i :: 0 <= i < |values| ==> Read(mem, addr + l.node + Bytes(i)) == values[i]
  }

  function CountAt(blocks: seq<Block>, claimed: nat, k: nat): int
    requires k < |blocks|
  {
    if k < claimed then 0 else |blocks[k].values|
  }

  ghost predicate BlockStored(l: Layout, mem: Memory, blocks: seq<Block>, claimed: nat, k: nat)
    requires k < |blocks|
  {
    Stored(l, mem, blocks[k].addr, CountAt(blocks, claimed, k), AddrAt(blocks, k + 1), blocks[k].values)
  }

  /** The list in memory is the published blocks in order; exactly the claimed ones count 0. */
  ghost predicate ListStored(l: Layout, mem: Memory, blocks: seq<Block>, claimed: nat) {
    forall k {:trigger BlockStored(l, mem, blocks, claimed, k)} :: 0 <= k < |blocks| ==>
      BlockStored(l, mem, blocks, claimed, k)
  }

  /** The claimed addresses are a prefix of the published ones; head and tail are the two ends. */
  ghost predicate Ends(head: int, tail: int, blocks: seq<Block>, claims: seq<int>) {
    && |claims| <= |blocks|
    && (forall k :: 0 <= k < |claims| ==> claims[k] == blocks[k].addr)
    && head == AddrAt(blocks, 0)
    && tail == (if blocks == [] then NULL else blocks[|blocks| - 1].addr)
  }

  /** A walker has passed claimed blocks only. */
  ghost predicate OnList(blocks: seq<Block>, claimed: nat, current: int) {
    exists k: nat :: k <= |blocks| && k <= claimed && current == AddrAt(blocks, k)
  }

  predicate ProducerHolds(at: ProducerAt) {
    at.PAppend? || at.PUnlockAppend? || at.PWalk? || at.PUnlockCheck? || at.PFinish? || at.PUnlockFinish?
  }

  predicate ConsumerHolds(at: ConsumerAt) {
    at.CLook? || at.CWalkLook? || at.CUnlockLook? || at.CWalkClaim? || at.CUnlockNone? || at.CClaim? || at.CUnlockClaim?
  }

  /** The check after a batch. */
  predicate Checking(at: ProducerAt) {
    at.PLockCheck? || at.PWalk? || at.PUnlockCheck?
  }

  /** A consumer that has claimed a block and not yet reported it. */
  predicate Busy(at: ConsumerAt) {
    at.CUnlockClaim? || at.CFirst? || at.CScan?
  }

  /** The block under construction lies behind all published ones. */
  ghost predicate Draft(l: Layout, mem: Memory, p: Producer) {
    && p.node == l.header + p.used && 20 <= p.count <= 69 && |p.written| <= p.count && Drawn(p.written)
    && Stored(l, mem, p.node, p.count, NULL, p.written)
  }

  ghost predicate ProducerOk(l: Layout, mem: Memory, blocks: seq<Block>, claimed: nat, finished: bool, p: Producer) {
    && |blocks| == p.blockCount + (if p.at.PUnlockAppend? then 1 else 0)
    && (finished <==> p.at.PUnlockFinish? || p.at.PExit?)
    && (p.at.PNew? ==> 20 <= p.count <= 69)
    && (p.at.PFill? ==> Draft(l, mem, p))
    && (p.at.PLockAppend? || p.at.PAppend? ==> Draft(l, mem, p) && |p.written| == p.count)
    && (p.at.PWalk? ==> OnList(blocks, claimed, p.current) && p.allProcessed)
    && (Checking(p.at) ==> p.blockCount > 0)
    && (p.at.PUnlockCheck? && p.allProcessed ==> claimed == |blocks|)
  }

  ghost predicate ConsumerOk(l: Layout, blocks: seq<Block>, claimed: nat, finished: bool, c: Consumer) {
    && (c.at.CWalkLook? || c.at.CUnlockLook? ==> c.producerDone ==> finished)
    && (c.at.CWalkLook? ==> OnList(blocks, claimed, c.current) && !c.hasUnprocessed)
    && (c.at.CUnlockLook? && !c.hasUnprocessed ==> claimed == |blocks|)
    && (c.at.CWalkClaim? ==> OnList(blocks, claimed, c.current))
    && (c.at.CClaim? ==> claimed < |blocks| && c.current == blocks[claimed].addr)
    && (Busy(c.at) ==> c.block < claimed <= |blocks| && c.count == |blocks[c.block].values|
                       && c.data == blocks[c.block].addr + l.node)
    && (c.at.CScan? ==> 1 <= c.i <= c.count
                        && IsMin(blocks[c.block].values[..c.i], c.min) && IsMax(blocks[c.block].values[..c.i], c.max))
    && (c.at.CExit? ==> finished && claimed == |blocks|)
  }

  ghost predicate Locking(semaphore: Holder, at: ProducerAt, cs: seq<Consumer>) {
    && (semaphore == TheProducer <==> ProducerHolds(at))
    && (forall id :: 0 <= id < |cs| ==> (semaphore == TheConsumer(id) <==> ConsumerHolds(cs[id].at)))
    && (semaphore.TheConsumer? ==> semaphore.id < |cs|)
  }

  ghost predicate ConsumersOk(l: Layout, blocks: seq<Block>, claimed: nat, finished: bool, cs: seq<Consumer>) {
    forall id :: 0 <= id < |cs| ==> ConsumerOk(l, blocks, claimed, finished, cs[id])
  }

  ghost function BusyCount(cs: seq<Consumer>): nat {
    if cs == [] then 0 else BusyCount(cs[..|cs| - 1]) + if Busy(cs[|cs| - 1].at) then 1 else 0
  }

  /** A report is about a claimed block and holds the least and the greatest of its numbers. */
  ghost predicate Truthful(blocks: seq<Block>, claimed: nat, r: Report) {
    r.block < claimed <= |blocks| && IsMin(blocks[r.block].values, r.min) && IsMax(blocks[r.block].values, r.max)
  }

  /** The claimed blocks in progress and the reported ones are all different. */
  ghost predicate Reported(blocks: seq<Block>, claimed: nat, reports: seq<Report>, cs: seq<Consumer>) {
    && (forall r :: 0 <= r < |reports| ==> Truthful(blocks, claimed, reports[r]))
    && (forall q, r :: 0 <= q < r < |reports| ==> reports[q].block != reports[r].block)
    && (forall r, id :: 0 <= r < |reports| && 0 <= id < |cs| && Busy(cs[id].at) ==>
          reports[r].block != cs[id].block)
    && (forall i, j :: 0 <= i < j < |cs| && Busy(cs[i].at) && Busy(cs[j].at) ==> cs[i].block != cs[j].block)
  }

  ghost predicate Tallied(claimed: nat, reported: nat, cs: seq<Consumer>) {
    TotalProcessed(cs) + BusyCount(cs) == claimed && TotalProcessed(cs) == reported
  }

  /** The parts of the invariant. */
  datatype Aspect =
    | TheArena | TheList | TheEnds | TheMaker | TheLock | TheConsumers | TheReports | TheTally

  ghost predicate Holds(l: Layout, s: State, aspect: Aspect) {
    match aspect
    case TheArena => Arena(l, s.producer.used, s.blocks)
    case TheList => ListStored(l, s.mem, s.blocks, |s.claims|)
    case TheEnds => Ends(s.head, s.tail, s.blocks, s.claims)
    case TheMaker => ProducerOk(l, s.mem, s.blocks, |s.claims|, s.finished, s.producer)
    case TheLock => Locking(s.semaphore, s.producer.at, s.consumers)
    case TheConsumers => ConsumersOk(l, s.blocks, |s.claims|, s.finished, s.consumers)
    case TheReports => Reported(s.blocks, |s.claims|, s.reports, s.consumers)
    case TheTally => Tallied(|s.claims|, |s.reports|, s.consumers)
  }

  ghost predicate Inv(l: Layout, s: State) {
    forall aspect: Aspect :: Holds(l, s, aspect)
  }
}
