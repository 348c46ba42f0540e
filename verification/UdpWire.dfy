/** What the checksum of module3/cross1/checksum.c sums, field by field and with the numbers of
    RFC 768 ("Fields", Checksum) written out, and which changes of a header it misses. */
module UdpWire {
  import opened Bytes
  import opened UdpChecksum

  /** The bytes of the data as numbers of two bytes, the last one padded with a zero. */
  ghost function WireSum(data: seq<Byte>): nat {
    if data == [] then 0
    else if |data| == 1 then data[0] * 256
    else data[0] * 256 + data[1] + WireSum(data[2..])
  }

  lemma {:induction false} EvenIsWire(data: seq<Byte>)
    requires |data| % 2 == 0
    ensures Sum(DataWords(data)) == WireSum(data)
    decreases |data|
  {
    if data != [] {
      var w := Load16(BigEndian, data[0], data[1]);
      EvenIsWire(data[2..]);
      assert DataWords(data) == [w] + DataWords(data[2..]);
      SumAppend([w], DataWords(data[2..]));
      assert Sum([w]) == w by { assert [w][..0] == []; }
    }
  }

  lemma {:induction false} PaddedIsWire(data: seq<Byte>)
    ensures WireSum(data + [0]) == WireSum(data)
    decreases |data|
  {
    if |data| >= 2 {
      assert (data + [0])[2..] == data[2..] + [0];
      PaddedIsWire(data[2..]);
    } else if |data| == 1 {
      assert (data + [0])[2..] == [];
    }
  }

  lemma {:induction false} FrontSum(src: IpAddress, dst: IpAddress, h: UdpHeader, dataLength: nat, words: seq<Word>)
    ensures Sum(PseudoWords(src, dst, dataLength) + HeaderWords(h) + words) ==
            src.high + src.low + dst.high + dst.low + 17 + (8 + dataLength) % 65536
            + h.source + h.dest + h.length + h.check + Sum(words)
  {
    SumAppend(PseudoWords(src, dst, dataLength) + HeaderWords(h), words);
    SumAppend(PseudoWords(src, dst, dataLength), HeaderWords(h));
    SumOfSix(PseudoWords(src, dst, dataLength));
    SumOfFour(HeaderWords(h));
  }

  /** What RFC 768 sums: both addresses, the protocol number 17 and the UDP length of the pseudo
      header, the four fields of the header, and the data padded to an even number of bytes. */
  lemma {:induction false} RfcSum(src: IpAddress, dst: IpAddress, h: UdpHeader, data: seq<Byte>)
    ensures Sum(PacketWords(src, dst, h, data)) ==
            src.high + src.low + dst.high + dst.low + 17 + (8 + |data|) % 65536
            + h.source + h.dest + h.length + h.check + WireSum(data)
  {
    FrontSum(src, dst, h, |data|, DataWords(Padded(data)));
    EvenIsWire(Padded(data));
    PaddedIsWire(data);
  }

  lemma {:induction false} OddWords(host: Host, src: IpAddress, dst: IpAddress, h: UdpHeader, data: seq<Byte>,
                                    after: Byte)
    requires |data| % 2 == 1
    ensures ProgramWords(host, src, dst, h, data, after) ==
            PseudoWords(src, dst, |data|) + HeaderWords(h)
            + (DataWords(data[..|data| - 1]) + [TailWord(host, data[|data| - 1], after)])
  {
    assert DataWords(data) == DataWords(data[..|data| - 1]);
  }

  lemma {:induction false} OddSum(host: Host, data: seq<Byte>, after: Byte)
    requires |data| % 2 == 1
    ensures Sum(DataWords(data[..|data| - 1]) + [TailWord(host, data[|data| - 1], after)]) ==
            WireSum(data[..|data| - 1]) + if host.BigEndian? then data[|data| - 1] * 256 else after
  {
    var whole, tail := data[..|data| - 1], TailWord(host, data[|data| - 1], after);
    EvenIsWire(whole);
    TailValue(host, data[|data| - 1], after);
    assert (DataWords(whole) + [tail])[..|DataWords(whole)|] == DataWords(whole);
  }

  /** What the program sums: the same, but of an odd length the last byte on a big-endian host and
      the byte behind it on a little-endian one. */
  lemma {:induction false} ProgramSum(host: Host, src: IpAddress, dst: IpAddress, h: UdpHeader, data: seq<Byte>,
                                      after: Byte)
    ensures Sum(ProgramWords(host, src, dst, h, data, after)) ==
            src.high + src.low + dst.high + dst.low + 17 + (8 + |data|) % 65536
            + h.source + h.dest + h.length + h.check
            + (if |data| % 2 == 0 then WireSum(data)
               else WireSum(data[..|data| - 1]) + if host.BigEndian? then data[|data| - 1] * 256 else after)
  {
    if |data| % 2 == 0 {
      EvenWords(host, src, dst, h, data, after);
      RfcSum(src, dst, h, data);
    } else {
      OddWords(host, src, dst, h, data, after);
      OddSum(host, data, after);
      FrontSum(src, dst, h, |data|,
               DataWords(data[..|data| - 1]) + [TailWord(host, data[|data| - 1], after)]);
    }
  }

  /** The six words of a packet that say where it comes from and where it goes. */
  function Route(src: IpAddress, dst: IpAddress, h: UdpHeader): seq<Word> {
    [src.high, src.low, dst.high, dst.low, h.source, h.dest]
  }

  /** Replacing one word of an address or a port goes unnoticed if and only if the old and the new
      one are congruent modulo 65535. */
  lemma {:induction false} DetectsChangedRoute(host: Host, src: IpAddress, dst: IpAddress, h: UdpHeader,
                                               src': IpAddress, dst': IpAddress, h': UdpHeader, data: seq<Byte>,
                                               after: Byte, k: nat, w: Word)
    requires k < 6 && Route(src', dst', h') == Route(src, dst, h)[k := w]
    requires h'.length == h.length && h'.check == h.check
    ensures Fold(Sum(ProgramWords(host, src', dst', h', data, after))) ==
            Fold(Sum(ProgramWords(host, src, dst, h, data, after)))
            <==> w % 65535 == Route(src, dst, h)[k] % 65535
  {
    var was := Route(src, dst, h)[k];
    var s := Sum(ProgramWords(host, src, dst, h, data, after));
    var s' := Sum(ProgramWords(host, src', dst', h', data, after));
    ProgramSum(host, src, dst, h, data, after);
    ProgramSum(host, src', dst', h', data, after);
    RouteSum(src, dst, h, src', dst', h', k, w);
    assert s' == s - was + w;
    FoldEqual(s, s');
    SameResidue(s - was, w, was);
    Congruent(w, was);
  }

  lemma {:induction false} RouteSum(src: IpAddress, dst: IpAddress, h: UdpHeader, src': IpAddress, dst': IpAddress,
                                    h': UdpHeader, k: nat, w: Word)
    requires k < 6 && Route(src', dst', h') == Route(src, dst, h)[k := w]
    ensures src'.high + src'.low + dst'.high + dst'.low + h'.source + h'.dest ==
            src.high + src.low + dst.high + dst.low + h.source + h.dest - Route(src, dst, h)[k] + w
  {
    var r, r' := Route(src, dst, h), Route(src', dst', h');
    assert r'[0] == src'.high && r'[1] == src'.low && r'[2] == dst'.high && r'[3] == dst'.low;
    assert r'[4] == h'.source && r'[5] == h'.dest;
  }

  lemma {:induction false} Congruent(a: Word, b: Word)
    ensures a % 65535 == b % 65535 <==> Indistinct(a, b)
  {
  }

  /** The reply "hi 1" from 127.0.0.1 to port 40000 of 10.0.0.5 carries the checksum 0x8ABC. */
  lemma {:induction false} RemoteReply(host: Host, data: seq<Byte>, after: Byte)
    requires data == [0x68, 0x69, 0x20, 0x31]
    ensures 0xFFFF - Fold(Sum(ProgramWords(host, IpAddress(0x7F00, 1), IpAddress(0x0A00, 5),
                                           UdpHeader(51000, 40000, 12, 0), data, after))) == 0x8ABC
  {
    ProgramSum(host, IpAddress(0x7F00, 1), IpAddress(0x0A00, 5), UdpHeader(51000, 40000, 12, 0), data, after);
    assert data[2..] == [0x20, 0x31] && data[2..][2..] == [];
    assert WireSum(data[2..]) == 0x20 * 256 + 0x31;
    assert WireSum(data) == 0x68 * 256 + 0x69 + WireSum(data[2..]);
  }
}
