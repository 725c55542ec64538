/**
 Fragmentation of packets on their way to the relay server, and the table of
 partly received packets that puts them together again.
 */
module Relay {
  import opened Common

  const ETHER_MTU := 1500
  const MIN_FRAG_PAYLOAD_LEN := 500
  const LC_FRAG_COUNT := 100
  const HEADER_LEN := 16
  const SRC_OFFSET := 12
  const DST_OFFSET := 16

  // ---------------------------------------------------------------------
  // The wire format of a fragment

  /** struct lan_client_fragment_header */
  datatype Header = Header(src: seq<byte>, dst: seq<byte>, id: nat, part: nat, total: nat, len: nat, pmtu: nat) {
    ghost predicate Valid() {
      && |src| == 4 && |dst| == 4 && id < 0x1_0000 && part < 256 && total < 256 && len < 0x1_0000 && pmtu < 0x1_0000
    }
  }

  function Write16(n: nat): (s: seq<byte>)
    ensures |s| == 2
  {
    [((n / 256) % 256) as byte, (n % 256) as byte]
  }

  function Read16(s: seq<byte>, off: nat): nat
    requires off + 2 <= |s|
  {
    s[off] as int * 256 + s[off + 1] as int
  }

  function EncodeHeader(h: Header): (s: seq<byte>)
    requires |h.src| == 4 && |h.dst| == 4
    ensures |s| == HEADER_LEN
  {
    h.src + h.dst + Write16(h.id) + [(h.part % 256) as byte, (h.total % 256) as byte] + Write16(h.len) + Write16(h.pmtu)
  }

  function DecodeHeader(s: seq<byte>): (h: Header)
    requires HEADER_LEN <= |s|
    ensures h.Valid()
  {
    Header(s[0..4], s[4..8], Read16(s, 8), s[10] as int, s[11] as int, Read16(s, 12), Read16(s, 14))
  }

  lemma {:induction false} HeaderRoundTrip(h: Header, payload: seq<byte>)
    requires h.Valid()
    ensures DecodeHeader(EncodeHeader(h) + payload) == h
    ensures (EncodeHeader(h) + payload)[HEADER_LEN..] == payload
  {
    var s := EncodeHeader(h) + payload;
    assert s[0..4] == h.src;
    assert s[4..8] == h.dst;
    assert s[8] == Write16(h.id)[0] && s[9] == Write16(h.id)[1];
    assert s[12] == Write16(h.len)[0] && s[13] == Write16(h.len)[1];
    assert s[14] == Write16(h.pmtu)[0] && s[15] == Write16(h.pmtu)[1];
  }

  // ---------------------------------------------------------------------
  // The sender

  /** A packet to be sent in parts of pmtu bytes under a 16-bit id. */
  datatype Msg = Msg(packet: seq<byte>, pmtu: nat, id: nat)

  /** What lan_client_send fragments: longer than the configured part size, and no longer
      than an Ethernet payload. */
  ghost predicate Fragmentable(m: Msg) {
    MIN_FRAG_PAYLOAD_LEN <= m.pmtu < |m.packet| <= ETHER_MTU && m.id < 0x1_0000
  }

  function Parts(len: nat, pmtu: nat): nat
    requires 0 < pmtu
  {
    len / pmtu + (if pmtu * (len / pmtu) < len then 1 else 0)
  }

  /** Where part i starts in the packet. */
  function Start(pmtu: nat, i: nat): nat {
    i * pmtu
  }

  lemma {:induction false} StartStep(pmtu: nat, i: nat)
    ensures Start(pmtu, 0) == 0 && Start(pmtu, i + 1) == Start(pmtu, i) + pmtu
  {
  }

  /** The bytes of part i. */
  function Piece(m: Msg, i: nat): seq<byte>
    requires Start(m.pmtu, i) <= |m.packet|
  {
    m.packet[Start(m.pmtu, i)..Min(Start(m.pmtu, i) + m.pmtu, |m.packet|)]
  }

  function HeaderOf(m: Msg, i: nat): Header
    requires 0 < m.pmtu && DST_OFFSET + 4 <= |m.packet| && Start(m.pmtu, i) <= |m.packet|
  {
    Header(m.packet[SRC_OFFSET..SRC_OFFSET + 4], m.packet[DST_OFFSET..DST_OFFSET + 4],
           m.id, i, Parts(|m.packet|, m.pmtu), |Piece(m, i)|, m.pmtu)
  }

  /** The fragment as it travels, without the leading type octet. */
  function Fragment(m: Msg, i: nat): seq<byte>
    requires 0 < m.pmtu && DST_OFFSET + 4 <= |m.packet| && Start(m.pmtu, i) <= |m.packet|
  {
    EncodeHeader(HeaderOf(m, i)) + Piece(m, i)
  }

  const TYPE_IPV4: byte := 1
  const TYPE_IPV4_FRAG: byte := 3

  lemma {:induction false} PartsCount(m: Msg)
    requires Fragmentable(m)
    ensures 2 <= Parts(|m.packet|, m.pmtu) <= 3
    ensures (Parts(|m.packet|, m.pmtu) - 1) * m.pmtu < |m.packet| <= Parts(|m.packet|, m.pmtu) * m.pmtu
  {
    var q := |m.packet| / m.pmtu;
    assert |m.packet| == q * m.pmtu + |m.packet| % m.pmtu;
    assert q >= 4 ==> q * m.pmtu >= 4 * m.pmtu;
  }

  lemma {:induction false} StartMonotone(pmtu: nat, i: nat, j: nat)
    requires i <= j
    ensures Start(pmtu, i) <= Start(pmtu, j)
  {
    assert 0 <= (j - i) * pmtu;
  }

  lemma {:induction false} WholeParts(n: nat, pmtu: nat)
    requires 0 < pmtu
    ensures Start(pmtu, n / pmtu) <= n < Start(pmtu, n / pmtu + 1)
    ensures pmtu * (n / pmtu) == Start(pmtu, n / pmtu)
  {
  }

  /** Part i of n bytes starts inside them exactly when i is below the number of parts. */
  lemma {:induction false} PartsCover(n: nat, pmtu: nat, i: nat)
    requires 0 < pmtu
    ensures Start(pmtu, i) < n <==> i < Parts(n, pmtu)
  {
    hide Start;
    var q := n / pmtu;
    WholeParts(n, pmtu);
    StartStep(pmtu, q);
    if i <= q {
      StartMonotone(pmtu, i, q);
      if i < q { StartStep(pmtu, i); StartMonotone(pmtu, i + 1, q); }
    } else {
      StartMonotone(pmtu, q + 1, i);
    }
  }

  /** The bytes of part i as the relay server reads them: the type octet, the addresses, and id, part,
      number of parts, length and part size with the high octet first, and then the part itself. */
  ghost predicate Datagram(d: seq<byte>, packet: seq<byte>, pmtu: nat, id: nat, i: nat, total: nat) {
    && DST_OFFSET + 4 <= |packet| && i * pmtu < |packet|
    && |d| == 17 + Min(pmtu, |packet| - i * pmtu) && d[0] == 3
    && d[1..5] == packet[SRC_OFFSET..SRC_OFFSET + 4] && d[5..9] == packet[DST_OFFSET..DST_OFFSET + 4]
    && 256 * d[9] as int + d[10] as int == id
    && d[11] as int == i && d[12] as int == total
    && 256 * d[13] as int + d[14] as int == |d| - 17
    && 256 * d[15] as int + d[16] as int == pmtu
    && IsAt(d[17..], packet, i * pmtu)
  }

  predicate IsAt(piece: seq<byte>, packet: seq<byte>, pos: nat) {
    pos + |piece| <= |packet| && piece == packet[pos..pos + |piece|]
  }

  lemma {:induction false} FragmentLayout(m: Msg, i: nat)
    requires MIN_FRAG_PAYLOAD_LEN <= m.pmtu < |m.packet| < 0x1_0000 && m.id < 0x1_0000 && i < Parts(|m.packet|, m.pmtu)
    ensures Start(m.pmtu, i) <= |m.packet|
    ensures Datagram([TYPE_IPV4_FRAG] + Fragment(m, i), m.packet, m.pmtu, m.id, i, Parts(|m.packet|, m.pmtu))
  {
    var total := Parts(|m.packet|, m.pmtu);
    PartsCover(|m.packet|, m.pmtu, i);
    PartsFew(|m.packet|, m.pmtu);
    var h, piece := HeaderOf(m, i), Piece(m, i);
    HeaderLayout(h);
    var s := EncodeHeader(h);
    var d := [TYPE_IPV4_FRAG] + (s + piece);
    hide EncodeHeader, Parts;
    assert forall k | 0 <= k < 16 :: d[k + 1] == s[k];
    assert d[1..5] == s[0..4] && d[5..9] == s[4..8] && d[17..] == piece;
    assert d[9] == s[8] && d[10] == s[9] && d[11] == s[10] && d[12] == s[11];
    assert d[13] == s[12] && d[14] == s[13] && d[15] == s[14] && d[16] == s[15];
  }

  lemma {:induction false} HeaderLayout(h: Header)
    requires h.Valid()
    ensures var s := EncodeHeader(h);
            && s[0..4] == h.src && s[4..8] == h.dst
            && 256 * s[8] as int + s[9] as int == h.id && s[10] as int == h.part && s[11] as int == h.total
            && 256 * s[12] as int + s[13] as int == h.len && 256 * s[14] as int + s[15] as int == h.pmtu
  {
    var s := EncodeHeader(h);
    assert s[8] == Write16(h.id)[0] && s[9] == Write16(h.id)[1];
    assert s[12] == Write16(h.len)[0] && s[13] == Write16(h.len)[1];
    assert s[14] == Write16(h.pmtu)[0] && s[15] == Write16(h.pmtu)[1];
  }

  lemma {:induction false} PartsFew(len: nat, pmtu: nat)
    requires MIN_FRAG_PAYLOAD_LEN <= pmtu && len < 0x1_0000
    ensures Parts(len, pmtu) < 256
  {
    PartsCover(len, pmtu, 255);
    assert 255 * pmtu >= 255 * MIN_FRAG_PAYLOAD_LEN;
  }

  class Sender {
    var fragId: nat

    constructor ()
      ensures fragId == 0
    {
      fragId := 0;
    }

    /** lan_client_send for an IPv4 packet; budget is the number of datagrams the socket takes
        before it reports an error, and out is what it took. */
    method Send(packet: seq<byte>, pmtu: nat, budget: nat) returns (out: seq<seq<byte>>)
      requires |packet| < 0x1_0000
      requires pmtu == 0 || MIN_FRAG_PAYLOAD_LEN <= pmtu
      modifies this
      ensures pmtu == 0 || |packet| <= pmtu ==>
        fragId == old(fragId) && out == if budget == 0 then [] else [[TYPE_IPV4] + packet]
      ensures 0 < pmtu < |packet| ==>
        && fragId == old(fragId) + 1
        && |out| == Min(budget, Parts(|packet|, pmtu))
        && forall i | 0 <= i < |out| ::
             Start(pmtu, i) <= |packet| && out[i] == [TYPE_IPV4_FRAG] + Fragment(Msg(packet, pmtu, old(fragId) % 0x1_0000), i)
      ensures 0 < pmtu < |packet| ==>
        forall i | 0 <= i < |out| :: Datagram(out[i], packet, pmtu, old(fragId) % 0x1_0000, i, Parts(|packet|, pmtu))
    {
      hide Datagram, Fragment, Start;
      out := [];
      if pmtu > 0 {
        var total := |packet| / pmtu;
        if pmtu * total < |packet| {
          total := total + 1;
        }
        PartsCover(|packet|, pmtu, 1);
        StartStep(pmtu, 0);
        if total > 1 {
          out := SendParts(packet, pmtu, total, fragId % 0x1_0000, budget);
          fragId := fragId + 1;
          return;
        }
      }
      if budget > 0 {
        out := [[TYPE_IPV4] + packet];
      }
    }

    /** The loop over the parts. */
    static method SendParts(packet: seq<byte>, pmtu: nat, total: nat, id: nat, budget: nat) returns (out: seq<seq<byte>>)
      requires |packet| < 0x1_0000 && MIN_FRAG_PAYLOAD_LEN <= pmtu < |packet| && id < 0x1_0000
      requires total == Parts(|packet|, pmtu)
      ensures |out| == Min(budget, total)
      ensures forall i | 0 <= i < |out| ::
        Start(pmtu, i) <= |packet| && out[i] == [TYPE_IPV4_FRAG] + Fragment(Msg(packet, pmtu, id), i)
      ensures forall i | 0 <= i < |out| :: Datagram(out[i], packet, pmtu, id, i, total)
    {
      hide Start, Parts, EncodeHeader, Datagram;
      ghost var m := Msg(packet, pmtu, id);
      StartStep(pmtu, 0);
      out := [];
      var i, pos := 0, 0;
      while pos < |packet|
        invariant pos == Min(Start(pmtu, i), |packet|) && i <= total && |out| == i <= budget
        invariant forall k | 0 <= k < i :: Start(pmtu, k) <= |packet| && out[k] == [TYPE_IPV4_FRAG] + Fragment(m, k)
        invariant forall k | 0 <= k < i :: Datagram(out[k], packet, pmtu, id, k, total)
        decreases |packet| - pos
      {
        PartsCover(|packet|, pmtu, i);
        StartStep(pmtu, i);
        var partLen := Min(pmtu, |packet| - pos);
        var header := Header(packet[SRC_OFFSET..SRC_OFFSET + 4], packet[DST_OFFSET..DST_OFFSET + 4], id, i, total, partLen, pmtu);
        if |out| == budget {
          return;
        }
        assert Piece(m, i) == packet[pos..pos + partLen];
        FragmentLayout(m, i);
        out := out + [[TYPE_IPV4_FRAG] + (EncodeHeader(header) + packet[pos..pos + partLen])];
        i := i + 1;
        pos := pos + partLen;
      }
      PartsCover(|packet|, pmtu, i);
    }
  }
}
