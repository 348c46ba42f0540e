/** The UDP checksum of the echo server: `udp_checksum` in module3/cross1/checksum.c.

    The program folds the carry back after every addition, so its running sum never
    leaves 16 bits. RFC 768 ("Fields", Checksum) and RFC 1071 define the checksum by the
    unbounded sum of the words. This module proves that the first refines the second, and
    what follows from that for a receiver.

    Memory is bytes; `Load16` and `Swap` say what a host of either byte order reads, so the
    `ntohs`/`htons` calls of the source are modelled and not assumed away. */
module UdpChecksum {
  import opened Bytes

  type Word = w: int | 0 <= w < 0x1_0000

  const IPPROTO_UDP: Word := 17
  const UDP_HEADER_LENGTH := 8

  datatype Host = BigEndian | LittleEndian

  /** Addresses and header fields are the numbers the wire carries (network order). */
  datatype IpAddress = IpAddress(high: Word, low: Word)

  datatype UdpHeader = UdpHeader(source: Word, dest: Word, length: Word, check: Word)

  function Swap(w: Word): Word {
    w % 0x100 * 0x100 + w / 0x100
  }

  /** What a 16-bit load of two adjacent bytes yields on a host. */
  function Load16(host: Host, first: Byte, second: Byte): Word {
    if host.BigEndian? then first * 0x100 + second else second * 0x100 + first
  }

  /** `ntohs` and `htons` are the same function. */
  function Ntohs(host: Host, w: Word): Word {
    if host.BigEndian? then w else Swap(w)
  }

  /** `w & 0xFF00` */
  function HighByteOf(w: Word): Word {
    w - w % 0x100
  }

  // ---------- the specification: an unbounded sum, reduced once ----------

  ghost function Sum(words: seq<Word>): (s: nat)
  {
    if words == [] then 0 else Sum(words[..|words| - 1]) + words[|words| - 1]
  }

  /** The 16-bit one's-complement representative of an unbounded sum. */
  ghost function Fold(s: nat): Word {
    if s == 0 then 0 else (s - 1) % 0xFFFF + 1
  }

  ghost function PseudoWords(src: IpAddress, dst: IpAddress, dataLength: nat): seq<Word> {
    [src.high, src.low, dst.high, dst.low, IPPROTO_UDP, (UDP_HEADER_LENGTH + dataLength) % 0x1_0000]
  }

  ghost function HeaderWords(h: UdpHeader): seq<Word> {
    [h.source, h.dest, h.length, h.check]
  }

  /** The whole words of the data, as RFC 768 reads them: most significant byte first. */
  ghost function DataWords(data: seq<Byte>): seq<Word> {
    seq(|data| / 2, i requires 0 <= i < |data| / 2 => Load16(BigEndian, data[2 * i], data[2 * i + 1]))
  }

  /** RFC 768: odd data is padded at the end with a zero byte. */
  ghost function Padded(data: seq<Byte>): seq<Byte> {
    if |data| % 2 == 0 then data else data + [0]
  }

  /** Everything RFC 768 sums for a packet. */
  ghost function PacketWords(src: IpAddress, dst: IpAddress, h: UdpHeader, data: seq<Byte>): seq<Word> {
    PseudoWords(src, dst, |data|) + HeaderWords(h) + DataWords(Padded(data))
  }

  /** The checksum of RFC 768, as a number in network order. */
  ghost function RfcChecksum(src: IpAddress, dst: IpAddress, h: UdpHeader, data: seq<Byte>): Word {
    0xFFFF - Fold(Sum(PacketWords(src, dst, h, data)))
  }

  /** The word the program adds for an odd last byte `last`, when `after` is the byte that
      follows the data in memory. */
  function TailWord(host: Host, last: Byte, after: Byte): Word {
    Ntohs(host, HighByteOf(Load16(host, last, after)))
  }

  /** The words the program really sums: as RFC 768, but with its own odd tail. */
  ghost function ProgramWords(host: Host, src: IpAddress, dst: IpAddress, h: UdpHeader,
                              data: seq<Byte>, after: Byte): seq<Word> {
    PseudoWords(src, dst, |data|) + HeaderWords(h) + DataWords(data) +
    if |data| % 2 == 0 then [] else [TailWord(host, data[|data| - 1], after)]
  }

  // ---------- the program ----------

  /** One addition with its end-around carry: lines 26-29, 34-37, 42-45 and 49-52. */
  function AddFolded(sum: nat, w: Word): nat {
    var s := sum + w;
    if s / 0x1_0000 % 2 == 1 then (s + 1) % 0x1_0000 else s
  }

  /** The running sum of the program after it has added `words` one by one. */
  ghost function RunningSum(words: seq<Word>): nat {
    if words == [] then 0 else AddFolded(RunningSum(words[..|words| - 1]), words[|words| - 1])
  }

  /** `htons(~sum)`: a 32-bit complement cut to 16 bits, stored in network order. */
  function Complement(host: Host, sum: Word): (check: Word)
    ensures Ntohs(host, check) == 0xFFFF - sum
  {
    ComplementLow(sum);
    SwapTwice((0xFFFF_FFFF - sum) % 0x1_0000);
    Ntohs(host, (0xFFFF_FFFF - sum) % 0x1_0000)
  }

  lemma {:induction false} ComplementLow(sum: Word)
    ensures (0xFFFF_FFFF - sum) % 0x1_0000 == 0xFFFF - sum
  {
    assert 0xFFFF_FFFF - sum == 0xFFFF * 0x1_0000 + (0xFFFF - sum);
  }

  lemma {:induction false} SwapPair(first: Byte, second: Byte)
    ensures Swap(first * 0x100 + second) == second * 0x100 + first
  {
    var w := first * 0x100 + second;
    assert w / 0x100 == first && w % 0x100 == second;
  }

  lemma {:induction false} SwapTwice(w: Word)
    ensures Swap(Swap(w)) == w
  {
    SwapPair(w % 0x100, w / 0x100);
  }

  lemma {:induction false} NextWord(before: seq<Word>, words: seq<Word>, i: nat)
    requires i < |words|
    ensures RunningSum(before + words[..i + 1]) == AddFolded(RunningSum(before + words[..i]), words[i])
  {
    var more := before + words[..i + 1];
    assert more[..|more| - 1] == before + words[..i];
  }

  lemma {:induction false} LastWord(words: seq<Word>, w: Word)
    ensures RunningSum(words + [w]) == AddFolded(RunningSum(words), w)
  {
    assert (words + [w])[..|words|] == words;
  }

  /** The loops of lines 25-30 and 33-38: header words added in order. */
  method AddWords(words: seq<Word>, start: nat, ghost before: seq<Word>) returns (sum: nat)
    requires start == RunningSum(before)
    ensures sum == RunningSum(before + words)
  {
    sum := start;
    assert before + words[..0] == before;
    for i := 0 to |words|
      invariant sum == RunningSum(before + words[..i])
    {
      NextWord(before, words, i);
      sum := AddFolded(sum, words[i]);
    }
    assert words[..|words|] == words;
  }

  /** The word that the loop loads is the next word of the data. */
  lemma {:induction false} LoadedWord(host: Host, bytes: seq<Byte>, i: nat, first: Byte, second: Byte)
    requires i < |bytes| / 2 && first == bytes[2 * i] && second == bytes[2 * i + 1]
    ensures |DataWords(bytes)| == |bytes| / 2 && DataWords(bytes)[i] == Ntohs(host, Load16(host, first, second))
  {
    NetworkOrder(host, first, second);
  }

  /** The loop of lines 41-46: data words loaded from memory. */
  method AddData(host: Host, data: array<Byte>, dataLength: nat, start: nat, ghost before: seq<Word>)
    returns (sum: nat)
    requires dataLength <= data.Length
    requires start == RunningSum(before)
    ensures sum == RunningSum(before + DataWords(data[..dataLength]))
  {
    ghost var bytes := data[..dataLength];
    ghost var words := DataWords(bytes);
    sum := start;
    assert before + words[..0] == before;
    var i := 0;
    while i < dataLength / 2
      invariant 0 <= i <= dataLength / 2 == |words|
      invariant sum == RunningSum(before + words[..i])
    {
      var first, second := data[2 * i], data[2 * i + 1];
      LoadedWord(host, bytes, i, first, second);
      NextWord(before, words, i);
      sum := AddFolded(sum, Ntohs(host, Load16(host, first, second)));
      i := i + 1;
    }
    assert words[..|words|] == words;
  }

  /** Lines 25-38: the pseudo header, then the UDP header. */
  method AddHeaders(src: IpAddress, dst: IpAddress, h: UdpHeader, dataLength: nat) returns (sum: nat)
    ensures sum == RunningSum(PseudoWords(src, dst, dataLength) + HeaderWords(h))
  {
    ghost var pseudo := PseudoWords(src, dst, dataLength);
    sum := AddWords([src.high, src.low, dst.high, dst.low, IPPROTO_UDP,
                     (UDP_HEADER_LENGTH + dataLength) % 0x1_0000], 0, []);
    assert [] + pseudo == pseudo;
    sum := AddWords([h.source, h.dest, h.length, h.check], sum, pseudo);
  }

  /** Lines 48-53: nothing for an even length. */
  method AddTail(host: Host, data: array<Byte>, dataLength: nat, start: nat, ghost before: seq<Word>)
    returns (sum: nat)
    requires dataLength <= data.Length && (dataLength % 2 == 1 ==> dataLength < data.Length)
    requires start == RunningSum(before)
    ensures sum == RunningSum(before + if dataLength % 2 == 0 then []
                                       else [TailWord(host, data[dataLength - 1], data[dataLength])])
  {
    sum := start;
    assert before + [] == before;
    if dataLength % 2 == 1 {
      assert 2 * (dataLength / 2) == dataLength - 1;
      var tail := TailWord(host, data[2 * (dataLength / 2)], data[2 * (dataLength / 2) + 1]);
      sum := AddFolded(sum, tail);
      LastWord(before, tail);
    }
  }

  /** `data` is the buffer in memory; an odd length makes the program load one byte past the
      data, so the buffer has to extend that far. */
  method Compute(host: Host, src: IpAddress, dst: IpAddress, h: UdpHeader,
                 data: array<Byte>, dataLength: nat) returns (check: Word)
    requires dataLength <= data.Length
    requires dataLength % 2 == 1 ==> dataLength < data.Length
    ensures Ntohs(host, check) ==
            0xFFFF - Fold(Sum(ProgramWords(host, src, dst, h, data[..dataLength],
                                           if dataLength % 2 == 1 then data[dataLength] else 0)))
  {
    ghost var headers := PseudoWords(src, dst, dataLength) + HeaderWords(h);
    ghost var words := ProgramWords(host, src, dst, h, data[..dataLength],
                                    if dataLength % 2 == 1 then data[dataLength] else 0);
    var sum := AddHeaders(src, dst, h, dataLength);
    sum := AddData(host, data, dataLength, sum, headers);
    sum := AddTail(host, data, dataLength, sum, headers + DataWords(data[..dataLength]));
    assert sum == RunningSum(words);
    RunningSumIsFoldedSum(words);
    check := Complement(host, sum);
  }

  /** The carry test never misses a carry and never sees two: folding after every addition is
      the same as reducing the unbounded sum once. */
  lemma {:induction false} RunningSumIsFoldedSum(words: seq<Word>)
    ensures RunningSum(words) == Fold(Sum(words))
  {
    if words != [] {
      var n := |words| - 1;
      RunningSumIsFoldedSum(words[..n]);
      FoldCarry(Sum(words[..n]), words[n]);
    }
  }

  lemma {:induction false} FoldCarry(s: nat, w: Word)
    ensures AddFolded(Fold(s), w) == Fold(s + w)
  {
    var sum := Fold(s) + w;
    assert sum / 0x1_0000 % 2 == if sum < 0x1_0000 then 0 else 1;
  }

  /** `ntohs` undoes the host's byte order: a load reads the word the wire carries. */
  lemma {:induction false} NetworkOrder(host: Host, first: Byte, second: Byte)
    ensures Ntohs(host, Load16(host, first, second)) == Load16(BigEndian, first, second)
  {
    SwapPair(second, first);
  }

  // ---------- what the refinement means ----------

  lemma {:induction false} SumAppend(a: seq<Word>, b: seq<Word>)
    ensures Sum(a + b) == Sum(a) + Sum(b)
  {
    if b == [] {
      assert a + b == a;
    } else {
      var n := |b| - 1;
      SumAppend(a, b[..n]);
      assert (a + b)[..|a + b| - 1] == a + b[..n];
    }
  }

  /** For even lengths, and on a big-endian host for every length, the program computes the
      checksum of RFC 768. On a little-endian host an odd length agrees with it exactly when
      the last byte and the byte beyond the data are both zero. */
  lemma {:induction false} MeetsRfc768(host: Host, src: IpAddress, dst: IpAddress, h: UdpHeader,
                                       data: seq<Byte>, after: Byte)
    ensures 0xFFFF - Fold(Sum(ProgramWords(host, src, dst, h, data, after))) == RfcChecksum(src, dst, h, data)
            <==> (|data| % 2 == 0 || host.BigEndian? || (data[|data| - 1] == 0 && after == 0))
  {
    if |data| % 2 == 0 {
      EvenWords(host, src, dst, h, data, after);
    } else {
      OddAgree(host, src, dst, h, data, after);
    }
  }

  lemma {:induction false} OddAgree(host: Host, src: IpAddress, dst: IpAddress, h: UdpHeader, data: seq<Byte>,
                                    after: Byte)
    requires |data| % 2 == 1
    ensures Fold(Sum(ProgramWords(host, src, dst, h, data, after))) == Fold(Sum(PacketWords(src, dst, h, data)))
            <==> host.BigEndian? || (data[|data| - 1] == 0 && after == 0)
  {
    var common := OddSums(host, src, dst, h, data, after);
    TailsAgree(host, common, data[|data| - 1], after, Sum(ProgramWords(host, src, dst, h, data, after)),
               Sum(PacketWords(src, dst, h, data)));
  }

  lemma {:induction false} EvenWords(host: Host, src: IpAddress, dst: IpAddress, h: UdpHeader, data: seq<Byte>,
                                     after: Byte)
    requires |data| % 2 == 0
    ensures ProgramWords(host, src, dst, h, data, after) == PacketWords(src, dst, h, data)
  {
  }

  /** The program and RFC 768 differ in the last word only. */
  lemma {:induction false} OddSums(host: Host, src: IpAddress, dst: IpAddress, h: UdpHeader, data: seq<Byte>,
                                   after: Byte)
    returns (common: nat)
    requires |data| % 2 == 1
    ensures common > 0
    ensures Sum(PacketWords(src, dst, h, data)) == common + Load16(BigEndian, data[|data| - 1], 0)
    ensures Sum(ProgramWords(host, src, dst, h, data, after)) == common + TailWord(host, data[|data| - 1], after)
  {
    var words := PseudoWords(src, dst, |data|) + HeaderWords(h) + DataWords(data);
    var padded := Load16(BigEndian, data[|data| - 1], 0);
    common := Sum(words);
    assert DataWords(data + [0]) == DataWords(data) + [padded];
    assert PacketWords(src, dst, h, data) == words + [padded];
    assert (words + [padded])[..|words|] == words;
    assert (words + [TailWord(host, data[|data| - 1], after)])[..|words|] == words;
    SumAppend(PseudoWords(src, dst, |data|) + HeaderWords(h), DataWords(data));
    SumAppend(PseudoWords(src, dst, |data|), HeaderWords(h));
    PseudoSumPositive(src, dst, |data|);
  }

  lemma {:induction false} TailsAgree(host: Host, common: nat, last: Byte, after: Byte, sent: nat, meant: nat)
    requires common > 0
    requires sent == common + TailWord(host, last, after) && meant == common + Load16(BigEndian, last, 0)
    ensures Fold(sent) == Fold(meant) <==> host.BigEndian? || (last == 0 && after == 0)
  {
    TailValue(host, last, after);
    if host.LittleEndian? {
      LowTail(common, last, after);
    }
  }

  lemma {:induction false} LowTail(common: nat, last: Byte, after: Byte)
    requires common > 0
    ensures Fold(common + after) == Fold(common + last * 0x100) <==> last == 0 && after == 0
  {
    FoldEqual(common + after, common + last * 0x100);
    SameRemainder(common + after, common + last * 0x100);
  }

  lemma {:induction false} SameRemainder(s: nat, t: nat)
    requires -0xFFFF < s - t < 0xFFFF
    ensures s % 0xFFFF == t % 0xFFFF <==> s == t
  {
    if s % 0xFFFF == t % 0xFFFF {
      assert s - t == 0xFFFF * (s / 0xFFFF - t / 0xFFFF);
    }
  }

  /** Masking the loaded word with 0xFF00 keeps the last byte on a big-endian host, and the
      byte behind it on a little-endian one. */
  lemma {:induction false} TailValue(host: Host, last: Byte, after: Byte)
    ensures TailWord(host, last, after) == if host.BigEndian? then last * 0x100 else after
  {
    var w := Load16(host, last, after);
    assert w % 0x100 == if host.BigEndian? then after else last;
    SwapPair(after, 0);
  }

  /** The protocol number keeps every packet sum positive, so a folded sum is never 0. */
  lemma {:induction false} PseudoSumPositive(src: IpAddress, dst: IpAddress, dataLength: nat)
    ensures Sum(PseudoWords(src, dst, dataLength)) >= IPPROTO_UDP
  {
    var p := PseudoWords(src, dst, dataLength);
    assert p[..5][..4] == p[..4];
    assert Sum(p) == Sum(p[..5]) + p[5];
    assert Sum(p[..5]) == Sum(p[..4]) + p[4];
  }

  lemma {:induction false} FoldResidue(s: nat)
    requires s > 0
    ensures 1 <= Fold(s) <= 0xFFFF && Fold(s) % 0xFFFF == s % 0xFFFF
  {
    var q := (s - 1) / 0xFFFF;
    assert s == 0xFFFF * q + Fold(s);
  }

  lemma {:induction false} ResidueInRange(a: nat, b: nat)
    requires 1 <= a <= 0xFFFF && 1 <= b <= 0xFFFF
    ensures a % 0xFFFF == b % 0xFFFF <==> a == b
  {
  }

  /** Two positive sums fold to the same word exactly when they are congruent modulo 65535. */
  lemma {:induction false} FoldEqual(s: nat, t: nat)
    requires s > 0 && t > 0
    ensures Fold(s) == Fold(t) <==> s % 0xFFFF == t % 0xFFFF
    ensures Fold(s) % 0xFFFF == s % 0xFFFF
  {
    FoldResidue(s);
    FoldResidue(t);
    ResidueInRange(Fold(s), Fold(t));
  }

  // ---------- consequences for a receiver ----------

  lemma {:induction false} SumUpdate(words: seq<Word>, k: nat, w: Word)
    requires k < |words|
    ensures Sum(words[k := w]) == Sum(words) - words[k] + w
  {
    var front, back := words[..k], words[k + 1..];
    assert words == front + [words[k]] + back;
    assert words[k := w] == front + [w] + back;
    SumAppend(front + [words[k]], back);
    SumAppend(front + [w], back);
    SumAppend(front, [words[k]]);
    SumAppend(front, [w]);
    assert Sum([w]) == w && Sum([words[k]]) == words[k];
  }

  /** The sender's value checks out at the receiver: storing the computed checksum in a header
      whose check field was zero makes the folded sum all ones, so recomputing yields 0. */
  lemma {:induction false} ReceiverSeesAllOnes(host: Host, src: IpAddress, dst: IpAddress, h: UdpHeader,
                            data: seq<Byte>, after: Byte, check: Word)
    requires h.check == 0
    requires check == 0xFFFF - Fold(Sum(ProgramWords(host, src, dst, h, data, after)))
    ensures Fold(Sum(ProgramWords(host, src, dst, h.(check := check), data, after))) == 0xFFFF
  {
    var words := ProgramWords(host, src, dst, h, data, after);
    ProgramSumPositive(host, src, dst, h, data, after);
    assert ProgramWords(host, src, dst, h.(check := check), data, after) == words[9 := check];
    SumUpdate(words, 9, check);
    FoldComplement(Sum(words));
  }

  lemma {:induction false} FoldComplement(s: nat)
    requires s > 0
    ensures Fold(s + 0xFFFF - Fold(s)) == 0xFFFF
  {
    var q := (s - 1) / 0xFFFF;
    assert s + 0xFFFF - Fold(s) == 0xFFFF * (q + 1);
  }

  lemma {:induction false} ProgramSumPositive(host: Host, src: IpAddress, dst: IpAddress, h: UdpHeader,
                           data: seq<Byte>, after: Byte)
    ensures Sum(ProgramWords(host, src, dst, h, data, after)) >= IPPROTO_UDP
  {
    var pseudo := PseudoWords(src, dst, |data|);
    var words := ProgramWords(host, src, dst, h, data, after);
    PseudoSumPositive(src, dst, |data|);
    assert words == pseudo + words[|pseudo|..];
    SumAppend(pseudo, words[|pseudo|..]);
  }

  /** The two words one's-complement arithmetic cannot tell apart are the two zeros. */
  ghost predicate Indistinct(a: Word, b: Word) {
    a == b || (a == 0 && b == 0xFFFF) || (a == 0xFFFF && b == 0)
  }

  /** A change of one data word goes unnoticed exactly when it turns 0 into 0xFFFF or back. */
  lemma {:induction false} DetectsChangedWord(host: Host, src: IpAddress, dst: IpAddress, h: UdpHeader,
                           data: seq<Byte>, data': seq<Byte>, after: Byte, k: nat, w: Word)
    requires |data'| == |data| && |data| % 2 == 0 && k < |data| / 2
    requires DataWords(data') == DataWords(data)[k := w]
    ensures Fold(Sum(ProgramWords(host, src, dst, h, data', after))) ==
            Fold(Sum(ProgramWords(host, src, dst, h, data, after)))
            <==> Indistinct(w, DataWords(data)[k])
  {
    var s, s', was := ChangedSum(host, src, dst, h, data, data', after, k, w);
    FoldEqual(s, s');
    SameResidue(s - was, w, was);
  }

  lemma {:induction false} ChangedSum(host: Host, src: IpAddress, dst: IpAddress, h: UdpHeader,
                   data: seq<Byte>, data': seq<Byte>, after: Byte, k: nat, w: Word)
    returns (s: nat, s': nat, was: Word)
    requires |data'| == |data| && |data| % 2 == 0 && k < |data| / 2
    requires DataWords(data') == DataWords(data)[k := w]
    ensures was == DataWords(data)[k] && s > 0 && s' > 0 && s' == s - was + w && s >= was
    ensures s == Sum(ProgramWords(host, src, dst, h, data, after))
    ensures s' == Sum(ProgramWords(host, src, dst, h, data', after))
  {
    var front, words := PseudoWords(src, dst, |data|) + HeaderWords(h), DataWords(data);
    was := words[k];
    s, s' := Sum(front + words), Sum(front + words[k := w]);
    assert ProgramWords(host, src, dst, h, data, after) == front + words;
    assert ProgramWords(host, src, dst, h, data', after) == front + words[k := w];
    SumAppend(front, words);
    SumAppend(front, words[k := w]);
    SumUpdate(words, k, w);
    SumUpdate(words, k, 0);
    ProgramSumPositive(host, src, dst, h, data, after);
    ProgramSumPositive(host, src, dst, h, data', after);
  }

  lemma {:induction false} SameResidue(s: nat, w: Word, was: Word)
    ensures (s + w) % 0xFFFF == (s + was) % 0xFFFF <==> Indistinct(w, was)
  {
  }

  /** Addition is commutative (RFC 1071, section 2 (A)): the order of the words is free. */
  lemma {:induction false} SumPermutation(a: seq<Word>, b: seq<Word>)
    requires multiset(a) == multiset(b)
    ensures Sum(a) == Sum(b)
  {
    if a == [] {
      assert |multiset(b)| == 0;
    } else {
      var n, last := |a| - 1, a[|a| - 1];
      assert last in multiset(b);
      var j :| 0 <= j < |b| && b[j] == last;
      assert a == a[..n] + [last];
      assert b == b[..j] + [last] + b[j + 1..];
      assert multiset(b[..j] + b[j + 1..]) == multiset(b) - multiset{last};
      assert multiset(a[..n]) == multiset(a) - multiset{last};
      SumPermutation(a[..n], b[..j] + b[j + 1..]);
      SumAppend(b[..j], b[j + 1..]);
      SumAppend(b[..j] + [last], b[j + 1..]);
      SumAppend(b[..j], [last]);
      assert Sum([last]) == last;
    }
  }

  lemma {:induction false} EvenSum(host: Host, src: IpAddress, dst: IpAddress, h: UdpHeader, data: seq<Byte>,
                                   after: Byte)
    requires |data| % 2 == 0
    ensures Sum(ProgramWords(host, src, dst, h, data, after)) ==
            Sum(PseudoWords(src, dst, |data|) + HeaderWords(h)) + Sum(DataWords(data))
  {
    var front := PseudoWords(src, dst, |data|) + HeaderWords(h);
    assert ProgramWords(host, src, dst, h, data, after) == front + DataWords(data);
    SumAppend(front, DataWords(data));
  }

  lemma {:induction false} OrderIndependent(host: Host, src: IpAddress, dst: IpAddress, h: UdpHeader,
                                            data: seq<Byte>, data': seq<Byte>, after: Byte)
    requires |data'| == |data| && |data| % 2 == 0
    requires multiset(DataWords(data')) == multiset(DataWords(data))
    ensures Fold(Sum(ProgramWords(host, src, dst, h, data', after))) ==
            Fold(Sum(ProgramWords(host, src, dst, h, data, after)))
  {
    SumPermutation(DataWords(data), DataWords(data'));
    EvenSum(host, src, dst, h, data, after);
    EvenSum(host, src, dst, h, data', after);
  }

  ghost function SwapAll(words: seq<Word>): seq<Word> {
    seq(|words|, i requires 0 <= i < |words| => Swap(words[i]))
  }

  /** RFC 1071, section 2 (B): summing the words as a host of the other byte order loads them
      gives the same two bytes of checksum. */
  lemma {:induction false} ByteOrderIndependent(words: seq<Word>)
    ensures Fold(Sum(SwapAll(words))) == Swap(Fold(Sum(words)))
  {
    var k := SwappedSum(words);
    var s, t := Sum(words), Sum(SwapAll(words));
    var f := Fold(s);
    if s > 0 {
      FoldEqual(s, s);
      var q, p := s / 0xFFFF, f / 0xFFFF;
      assert s - f == 0xFFFF * (q - p);
      assert 0x100 * f == 0xFFFF * (f / 0x100) + Swap(f);
      var c := 0x100 * (q - p) + f / 0x100 - k;
      assert t == Swap(f) + 0xFFFF * c;
      SwapPositive(f);
      FoldShift(Swap(f), c);
    }
  }

  lemma {:induction false} SwapPositive(w: Word)
    requires w > 0
    ensures Swap(w) > 0
  {
  }

  lemma {:induction false} FoldShift(w: Word, c: int)
    requires w > 0 && w + 0xFFFF * c > 0
    ensures Fold(w + 0xFFFF * c) == w
  {
    assert (w + 0xFFFF * c - 1) % 0xFFFF == w - 1;
  }

  lemma {:induction false} SwappedSum(words: seq<Word>) returns (k: nat)
    ensures Sum(SwapAll(words)) == 0x100 * Sum(words) - 0xFFFF * k
    ensures Sum(words) > 0 ==> Sum(SwapAll(words)) > 0
  {
    if words == [] {
      k := 0;
    } else {
      var n := |words| - 1;
      k := SwappedSum(words[..n]);
      assert SwapAll(words)[..n] == SwapAll(words[..n]);
      k := k + words[n] / 0x100;
      if words[n] > 0 {
        SwapPositive(words[n]);
      }
    }
  }

  /** RFC 768 sends a computed 0 as all ones, because 0 on the wire means "no checksum". The
      program has no such step: it sends 0 exactly when what it sums is a multiple of 65535. */
  lemma {:induction false} SendsNoChecksum(host: Host, src: IpAddress, dst: IpAddress, h: UdpHeader, data: seq<Byte>,
                                           after: Byte)
    ensures 0xFFFF - Fold(Sum(ProgramWords(host, src, dst, h, data, after))) == 0
            <==> Sum(ProgramWords(host, src, dst, h, data, after)) % 0xFFFF == 0
  {
    ProgramSumPositive(host, src, dst, h, data, after);
    FullFold(Sum(ProgramWords(host, src, dst, h, data, after)));
  }

  lemma {:induction false} FullFold(s: nat)
    requires s > 0
    ensures Fold(s) == 0xFFFF <==> s % 0xFFFF == 0
  {
    FoldResidue(s);
  }

  const PORT: Word := 51000
  const LOOPBACK := IpAddress(0x7F00, 1)

  /** The header of `build_udp_packet` in the server, before its checksum is stored. */
  function ReplyHeader(port: Word, data: seq<Byte>): UdpHeader {
    UdpHeader(PORT, port, (UDP_HEADER_LENGTH + |data|) % 0x1_0000, 0)
  }

  /** The reply "AB 1" to a local client on port 55591 goes out without a checksum. */
  lemma {:induction false} SendsNoChecksumExample(host: Host, data: seq<Byte>, after: Byte)
    requires data == [0x41, 0x42, 0x20, 0x31]
    ensures 0xFFFF - Fold(Sum(ProgramWords(host, LOOPBACK, LOOPBACK, ReplyHeader(55591, data), data, after))) == 0
  {
    var h := ReplyHeader(55591, data);
    var pseudo, header, body := PseudoWords(LOOPBACK, LOOPBACK, |data|), HeaderWords(h), DataWords(data);
    assert body == [0x4142, 0x2031];
    assert pseudo + header + body + [] == pseudo + header + body;
    SumAppend(pseudo + header, body);
    SumAppend(pseudo, header);
    SumOfSix(pseudo);
    SumOfFour(header);
    SumOfTwo(body);
    assert Sum(pseudo + header + body) == 196605;
  }

  lemma {:induction false} SumOfTwo(w: seq<Word>)
    requires |w| == 2
    ensures Sum(w) == w[0] as int + w[1] as int
  {
    assert w[..1][..0] == [];
    assert Sum(w[..1]) == w[0];
  }

  lemma {:induction false} SumOfFour(w: seq<Word>)
    requires |w| == 4
    ensures Sum(w) == w[0] as int + w[1] as int + w[2] as int + w[3] as int
  {
    assert w == w[..2] + w[2..];
    SumAppend(w[..2], w[2..]);
    SumOfTwo(w[..2]);
    SumOfTwo(w[2..]);
  }

  lemma {:induction false} SumOfSix(w: seq<Word>)
    requires |w| == 6
    ensures Sum(w) == w[0] as int + w[1] as int + w[2] as int + w[3] as int + w[4] as int + w[5] as int
  {
    assert w == w[..4] + w[4..];
    SumAppend(w[..4], w[4..]);
    SumOfFour(w[..4]);
    SumOfTwo(w[4..]);
  }
}
