/** The shared-memory producer and its consumers (module3/04): one process appends blocks of
    numbers to a linked list in a bump arena, any number of processes claim blocks under a
    semaphore and scan them outside it.

    The system is a state machine: an event names the process that moves, so a sequence of
    events is an interleaving. The lock is a step of its own, list walks go node by node and
    block data is written and read word by word, the last two without the lock. A process that
    finds the semaphore taken does not move.

    Addresses count from the start of the segment; memory is one map from addresses to words. The
    map has no end: a write behind the segment, which the real one does not survive or which goes
    to its neighbour, succeeds here like any other. */
module BlockQueue {

  const NULL := 0
  const BATCH_SIZE := 5
  const SIZE_MODULUS := 0x1_0000_0000_0000_0000

  /** `sizeof(SharedMemory)`, `sizeof(Node)`, the two offsets inside a node (its count stands at
      offset 0), and `sizeof(int) + sizeof(Node*)`, the sum the guards of the producer use where
      line 56 spends `sizeof(Node)`. */
  datatype Layout = Layout(total: nat, header: nat, node: nat, guard: nat, dataAt: nat, nextAt: nat)

  ghost predicate Sound(l: Layout) {
    0 < l.header && 0 < l.dataAt < l.nextAt < l.node
  }

  /** The size of `n` numbers: `n * sizeof(int)`. */
  function Bytes(n: int): int {
    4 * n
  }

  type Memory = map<int, int>

  function Read(mem: Memory, a: int): int {
    if a in mem then mem[a] else 0
  }

  /** A published block, with the numbers the producer wrote into it. */
  datatype Block = Block(addr: int, values: seq<int>)

  datatype ProducerAt =
    | PTop | PNew | PFill | PLockAppend | PAppend | PUnlockAppend
    | PLockCheck | PWalk | PUnlockCheck | PLockFinish | PFinish | PUnlockFinish | PExit

  /** `written` is bookkeeping: the numbers stored so far in the block under construction. */
  datatype Producer = Producer(at: ProducerAt, used: nat, blockCount: nat, sinceCheck: nat,
                               node: int, count: nat, written: seq<int>, current: int, allProcessed: bool)

  datatype ConsumerAt =
    | CLockLook | CLook | CWalkLook | CUnlockLook
    | CLockClaim | CWalkClaim | CUnlockNone | CClaim | CUnlockClaim
    | CFirst | CScan | CExit

  datatype Consumer = Consumer(at: ConsumerAt, producerDone: bool, hasUnprocessed: bool, current: int,
                               count: int, data: int, i: int, min: int, max: int, processed: nat,
                               block: nat)

  /** What a consumer printed for a block. */
  datatype Report = Report(block: nat, min: int, max: int)

  datatype Holder = Nobody | TheProducer | TheConsumer(id: nat)

  /** `blocks`, `claims` and `reports` are bookkeeping: what was published, which addresses were
      claimed, what was reported, each in the order in which it happened. */
  datatype State = State(mem: Memory, head: int, tail: int, finished: bool, semaphore: Holder,
                         producer: Producer, consumers: seq<Consumer>,
                         blocks: seq<Block>, claims: seq<int>, reports: seq<Report>)

  /** A process takes its next step; `random` is what `rand()` yields should the step call it. */
  datatype Event = ProducerMoves(random: nat) | ConsumerMoves(id: nat)

  const FRESH_CONSUMER := Consumer(CLockLook, false, false, NULL, 0, 0, 0, 0, 0, 0, 0)

  /** `init_shared_memory` and `init_semaphore`, with `n` consumers started. */
  function Initial(l: Layout, n: nat): State {
    State(map[], NULL, NULL, false, Nobody,
          Producer(PTop, l.header, 0, 0, NULL, 0, [], NULL, false),
          seq(n, i => FRESH_CONSUMER), [], [], [])
  }

  // ---------- producer.c ----------

  /** Line 17, on a 64-bit `size_t`. */
  function RemainingBytes(l: Layout, used: nat): nat {
    (l.total - used) % SIZE_MODULUS
  }

  /** Lines 17-35: the two guards, with the block size drawn in between. */
  function Decide(l: Layout, p: Producer, random: nat): Producer {
    var remaining := RemainingBytes(l, p.used);
    var count := random % 50 + 20;
    if remaining < l.guard + Bytes(1) || remaining < l.guard + Bytes(count) then p.(at := PLockFinish)
    else p.(at := PNew, count := count)
  }

  /** Lines 37-40. */
  function NewNode(l: Layout, s: State): State {
    var node := l.header + s.producer.used;
    s.(mem := s.mem[node := s.producer.count][node + l.dataAt := node + l.node][node + l.nextAt := NULL],
       producer := s.producer.(at := PFill, node := node, written := []))
  }

  /** Lines 42-44. */
  function Fill(l: Layout, s: State, random: nat): State {
    var p := s.producer;
    if |p.written| < p.count
    then
      var value := random % 100 + 1;
      s.(mem := s.mem[Read(s.mem, p.node + l.dataAt) + Bytes(|p.written|) := value],
         producer := p.(written := p.written + [value]))
    else s.(producer := p.(at := PLockAppend))
  }

  /** Lines 48-56. */
  function Append(l: Layout, s: State): State {
    var p := s.producer;
    s.(mem := if s.head == NULL then s.mem else s.mem[s.tail + l.nextAt := p.node],
       head := if s.head == NULL then p.node else s.head,
       tail := p.node,
       blocks := s.blocks + [Block(p.node, p.written)],
       producer := p.(at := PUnlockAppend, used := p.used + l.node + Bytes(p.count)))
  }

  /** Lines 69-75. */
  function Check(l: Layout, mem: Memory, p: Producer): Producer {
    if p.current == NULL then p.(at := PUnlockCheck)
    else if Read(mem, p.current) > 0 then p.(at := PUnlockCheck, allProcessed := false)
    else p.(current := Read(mem, p.current + l.nextAt))
  }

  /** `semaphore_lock` by the producer on its way to `p`. */
  function ProducerLock(s: State, p: Producer): State {
    if s.semaphore.Nobody? then s.(semaphore := TheProducer, producer := p) else s
  }

  function ProducerStep(l: Layout, s: State, random: nat): State {
    var p := s.producer;
    match p.at
    case PTop => s.(producer := Decide(l, p, random))
    case PNew => NewNode(l, s)
    case PFill => Fill(l, s, random)
    case PLockAppend => ProducerLock(s, p.(at := PAppend))
    case PAppend => Append(l, s)
    case PUnlockAppend =>
      s.(semaphore := Nobody,
         producer := p.(at := if p.sinceCheck + 1 >= BATCH_SIZE then PLockCheck else PTop,
                        blockCount := p.blockCount + 1, sinceCheck := p.sinceCheck + 1))
    case PLockCheck => ProducerLock(s, p.(at := PWalk, current := s.head, allProcessed := true))
    case PWalk => s.(producer := Check(l, s.mem, p))
    case PUnlockCheck =>
      s.(semaphore := Nobody,
         producer := if p.allProcessed && p.blockCount > 0 then p.(at := PLockFinish)
                     else p.(at := PTop, sinceCheck := 0))
    case PLockFinish => ProducerLock(s, p.(at := PFinish))
    case PFinish => s.(finished := true, producer := p.(at := PUnlockFinish))
    case PUnlockFinish => s.(semaphore := Nobody, producer := p.(at := PExit))
    case PExit => s
  }

  // ---------- consumer.c ----------

  /** `semaphore_lock` by a consumer on its way to `c`. */
  function ConsumerLock(s: State, id: nat, c: Consumer): State
    requires id < |s.consumers|
  {
    if s.semaphore.Nobody? then s.(semaphore := TheConsumer(id), consumers := s.consumers[id := c]) else s
  }

  function ConsumerUnlock(s: State, id: nat, c: Consumer): State
    requires id < |s.consumers|
  {
    s.(semaphore := Nobody, consumers := s.consumers[id := c])
  }

  /** Lines 22-29: a node of the first walk. */
  function Look(l: Layout, mem: Memory, c: Consumer): Consumer {
    if c.current == NULL then c.(at := CUnlockLook)
    else if Read(mem, c.current) > 0 then c.(at := CUnlockLook, hasUnprocessed := true)
    else c.(current := Read(mem, c.current + l.nextAt))
  }

  /** Lines 32-46: where the first critical section leads. */
  function AfterLook(c: Consumer): ConsumerAt {
    if c.producerDone && !c.hasUnprocessed then CExit
    else if !c.hasUnprocessed && !c.producerDone then CLockLook
    else CLockClaim
  }

  /** Lines 50-62: a node of the second walk. */
  function Seek(l: Layout, mem: Memory, c: Consumer): Consumer {
    if c.current == NULL then c.(at := CUnlockNone)
    else if Read(mem, c.current) > 0 then c.(at := CClaim)
    else c.(current := Read(mem, c.current + l.nextAt))
  }

  /** Lines 64-66. */
  function Claim(l: Layout, s: State, id: nat): State
    requires id < |s.consumers|
  {
    var c := s.consumers[id];
    s.(mem := s.mem[c.current := 0], claims := s.claims + [c.current],
       consumers := s.consumers[id := c.(at := CUnlockClaim, count := Read(s.mem, c.current),
                                         data := Read(s.mem, c.current + l.dataAt), block := |s.claims|)])
  }

  /** Lines 70-71 and 72-75: the scan, outside the lock. */
  function ScanFirst(mem: Memory, c: Consumer): Consumer {
    c.(at := CScan, min := Read(mem, c.data), max := Read(mem, c.data), i := 1)
  }

  function ScanNext(mem: Memory, c: Consumer): Consumer {
    var x := Read(mem, c.data + Bytes(c.i));
    c.(min := if x < c.min then x else c.min, max := if x > c.max then x else c.max, i := c.i + 1)
  }

  /** Lines 77-79. */
  function Announce(s: State, id: nat): State
    requires id < |s.consumers|
  {
    var c := s.consumers[id];
    s.(reports := s.reports + [Report(c.block, c.min, c.max)],
       consumers := s.consumers[id := c.(at := CLockLook, processed := c.processed + 1)])
  }

  function ConsumerStep(l: Layout, s: State, id: nat): State
    requires id < |s.consumers|
  {
    var c := s.consumers[id];
    match c.at
    case CLockLook => ConsumerLock(s, id, c.(at := CLook))
    case CLook =>
      s.(consumers := s.consumers[id := c.(at := CWalkLook, producerDone := s.finished, hasUnprocessed := false,
                                           current := s.head)])
    case CWalkLook => s.(consumers := s.consumers[id := Look(l, s.mem, c)])
    case CUnlockLook => ConsumerUnlock(s, id, c.(at := AfterLook(c)))
    case CLockClaim => ConsumerLock(s, id, c.(at := CWalkClaim, current := s.head))
    case CWalkClaim => s.(consumers := s.consumers[id := Seek(l, s.mem, c)])
    case CUnlockNone => ConsumerUnlock(s, id, c.(at := CLockLook))
    case CClaim => Claim(l, s, id)
    case CUnlockClaim => ConsumerUnlock(s, id, c.(at := CFirst))
    case CFirst => s.(consumers := s.consumers[id := ScanFirst(s.mem, c)])
    case CScan => if c.i < c.count then s.(consumers := s.consumers[id := ScanNext(s.mem, c)]) else Announce(s, id)
    case CExit => s
  }

  function Step(l: Layout, s: State, e: Event): State {
    match e
    case ProducerMoves(random) => ProducerStep(l, s, random)
    case ConsumerMoves(id) => if id < |s.consumers| then ConsumerStep(l, s, id) else s
  }

  function Run(l: Layout, s: State, events: seq<Event>): State
    decreases |events|
  {
    if events == [] then s else Run(l, Step(l, s, events[0]), events[1..])
  }

  ghost predicate AllExited(s: State) {
    s.producer.at.PExit? && forall id :: 0 <= id < |s.consumers| ==> s.consumers[id].at.CExit?
  }

  ghost function TotalProcessed(cs: seq<Consumer>): nat {
    if cs == [] then 0 else TotalProcessed(cs[..|cs| - 1]) + cs[|cs| - 1].processed
  }

  ghost predicate IsMin(values: seq<int>, m: int) {
    m in values && forall x :: x in values ==> m <= x
  }

  ghost predicate IsMax(values: seq<int>, m: int) {
    m in values && forall x :: x in values ==> x <= m
  }
}
