/** When the producer of module3/04 checks its blocks, and what it draws (producer.c, lines 16-76). */
module BlockQueueBatches {
  import opened BlockQueue

  /** The producer counts the blocks since its last check, and stands at a check after five. */
  ghost predicate InBatch(p: Producer) {
    match p.at
    case PLockCheck => p.sinceCheck == 5 && p.blockCount % 5 == 0
    case PWalk => p.sinceCheck == 5 && p.blockCount % 5 == 0
    case PUnlockCheck => p.sinceCheck == 5 && p.blockCount % 5 == 0
    case PLockFinish => true
    case PFinish => true
    case PUnlockFinish => true
    case PExit => true
    case _ => p.sinceCheck < 5 && p.blockCount % 5 == p.sinceCheck
  }

  lemma {:induction false} OneMoreOfFive(n: nat)
    ensures (n + 1) % 5 == if n % 5 == 4 then 0 else n % 5 + 1
  {
  }

  lemma {:induction false} StepInBatch(l: Layout, s: State, e: Event)
    requires InBatch(s.producer)
    ensures InBatch(Step(l, s, e).producer)
  {
    OneMoreOfFive(s.producer.blockCount);
    match e
    case ProducerMoves(random) =>
      match s.producer.at {
        case PTop =>
        case PNew =>
        case PFill =>
        case PLockAppend =>
        case PAppend =>
        case PUnlockAppend =>
        case PLockCheck =>
        case PWalk =>
        case PUnlockCheck =>
        case PLockFinish =>
        case PFinish =>
        case PUnlockFinish =>
        case PExit =>
      }
    case ConsumerMoves(id) =>
  }

  lemma {:induction false} RunInBatch(l: Layout, s: State, events: seq<Event>)
    requires InBatch(s.producer)
    ensures InBatch(Run(l, s, events).producer)
    decreases |events|
  {
    if events != [] {
      StepInBatch(l, s, events[0]);
      RunInBatch(l, Step(l, s, events[0]), events[1..]);
    }
  }

  /** Over every run the producer goes to its check behind every fifth block, and behind no other. */
  lemma {:induction false} ChecksEveryFifth(l: Layout, n: nat, events: seq<Event>, random: nat)
    ensures var s := Run(l, Initial(l, n), events);
            s.producer.at.PUnlockAppend? ==>
              ProducerStep(l, s, random).producer.at ==
              if (s.producer.blockCount + 1) % 5 == 0 then PLockCheck else PTop
  {
    RunInBatch(l, Initial(l, n), events);
    OneMoreOfFive(Run(l, Initial(l, n), events).producer.blockCount);
  }

  /** The numbers that can be written into a block are those from 1 to 100. */
  lemma {:induction false} NumbersDrawn(l: Layout, s: State, v: int)
    requires s.producer.at.PFill? && |s.producer.written| < s.producer.count
    ensures (exists random: nat :: ProducerStep(l, s, random).producer.written == s.producer.written + [v])
            <==> 1 <= v <= 100
  {
    if 1 <= v <= 100 {
      assert ProducerStep(l, s, v - 1).producer.written == s.producer.written + [v];
    }
    forall random: nat | ProducerStep(l, s, random).producer.written == s.producer.written + [v]
      ensures 1 <= v <= 100
    {
      assert (s.producer.written + [random % 100 + 1])[|s.producer.written|] == random % 100 + 1;
      assert (s.producer.written + [v])[|s.producer.written|] == v;
    }
  }

  /** The sizes that a block can have, while the memory lasts, are those from 20 to 69. */
  lemma {:induction false} SizesDrawn(l: Layout, p: Producer, count: nat)
    requires RemainingBytes(l, p.used) >= l.guard + 4 * 69
    ensures (exists random: nat :: Decide(l, p, random).at.PNew? && Decide(l, p, random).count == count)
            <==> 20 <= count <= 69
  {
    if 20 <= count <= 69 {
      assert Decide(l, p, count - 20).at.PNew? && Decide(l, p, count - 20).count == count;
    }
  }
}
