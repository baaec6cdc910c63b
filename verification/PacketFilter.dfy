/**
 The classic-BPF program that the capture socket runs in the kernel, the machine that runs
 it, and which frames it lets through.
 */
module PacketFilter {
  import opened Base
  import opened BigEndian

  // ----- the machine -----

  datatype Insn = Insn(code: u16, jt: byte, jf: byte, k: u32)

  const LDH_ABS := 0x28
  const LDB_ABS := 0x30
  const JEQ_K := 0x15
  const RET_K := 0x06

  /**
   The result of running a program from `pc` with accumulator `acc`. A load beyond the end of
   the packet ends the run with 0; jumps go forward only.
   */
  function Run(prog: seq<Insn>, pkt: seq<byte>, pc: nat, acc: u32): u32
    decreases |prog| - pc
  {
    if pc >= |prog| then 0 else
    var i := prog[pc];
    if i.code == LDH_ABS then
      if i.k + 2 > |pkt| then 0 else Run(prog, pkt, pc + 1, U16At(pkt, i.k))
    else if i.code == LDB_ABS then
      if i.k >= |pkt| then 0 else Run(prog, pkt, pc + 1, pkt[i.k])
    else if i.code == JEQ_K then
      Run(prog, pkt, pc + 1 + (if acc == i.k then i.jt else i.jf) as int, acc)
    else if i.code == RET_K then i.k
    else 0
  }

  // ----- the program -----

  const ACCEPT := 0xffff

  const IP_TCP_UDP_FILTER: seq<Insn> := [
    Insn(0x28, 0, 0, 12),      // 0  ethertype
    Insn(0x15, 0, 3, 0x0800),  // 1  IPv4: on, else 5
    Insn(0x30, 0, 0, 23),      // 2  protocol
    Insn(0x15, 9, 0, 6),       // 3  TCP: accept
    Insn(0x15, 8, 9, 17),      // 4  UDP: accept, else drop
    Insn(0x15, 7, 0, 0x86dd),  // 5  IPv6: accept
    Insn(0x15, 0, 7, 0x8100),  // 6  802.1Q: on, else drop
    Insn(0x28, 0, 0, 16),      // 7  inner ethertype
    Insn(0x15, 0, 3, 0x0800),  // 8  inner IPv4: on, else 12
    Insn(0x30, 0, 0, 27),      // 9  protocol
    Insn(0x15, 2, 0, 6),       // 10 TCP: accept
    Insn(0x15, 1, 2, 17),      // 11 UDP: accept, else drop
    Insn(0x15, 0, 1, 0x86dd),  // 12 inner IPv6: accept, else drop
    Insn(0x06, 0, 0, 0xffff),  // 13 accept
    Insn(0x06, 0, 0, 0)        // 14 drop
  ]

  // ----- its meaning -----

  const TCP: byte := 6
  const UDP: byte := 17
  const IPV4: u16 := 0x0800
  const IPV6: u16 := 0x86dd
  const VLAN: u16 := 0x8100
  const QINQ: u16 := 0x88a8

  /** The 16-bit field at `off` is in the packet and equals `v`. */
  predicate Type(pkt: seq<byte>, off: nat, v: u16) {
    off + 2 <= |pkt| && U16At(pkt, off) == v
  }

  predicate TcpOrUdp(pkt: seq<byte>, off: nat) {
    off < |pkt| && (pkt[off] == TCP || pkt[off] == UDP)
  }

  /** IPv4 with TCP or UDP, or any IPv6, untagged or behind one 802.1Q tag. */
  predicate Wanted(pkt: seq<byte>) {
    || (Type(pkt, 12, IPV4) && TcpOrUdp(pkt, 23))
    || Type(pkt, 12, IPV6)
    || (Type(pkt, 12, VLAN) && ((Type(pkt, 16, IPV4) && TcpOrUdp(pkt, 27)) || Type(pkt, 16, IPV6)))
  }

  lemma {:induction false} Ends(pkt: seq<byte>, acc: u32)
    ensures Run(IP_TCP_UDP_FILTER, pkt, 13, acc) == ACCEPT && Run(IP_TCP_UDP_FILTER, pkt, 14, acc) == 0
  {
    assert IP_TCP_UDP_FILTER[13] == Insn(0x06, 0, 0, 0xffff) && IP_TCP_UDP_FILTER[14] == Insn(0x06, 0, 0, 0);
  }

  /** Two comparisons in a row that both lead to acceptance. */
  lemma {:induction false} ProtocolTest(pkt: seq<byte>, pc: nat, acc: u32)
    requires pc == 3 || pc == 10
    ensures Run(IP_TCP_UDP_FILTER, pkt, pc, acc) == if acc == 6 || acc == 17 then ACCEPT else 0
  {
    Ends(pkt, acc);
    var p := IP_TCP_UDP_FILTER;
    if pc == 3 {
      assert p[3] == Insn(0x15, 9, 0, 6) && p[4] == Insn(0x15, 8, 9, 17);
      assert Run(p, pkt, 4, acc) == if acc == 17 then ACCEPT else 0;
    } else {
      assert p[10] == Insn(0x15, 2, 0, 6) && p[11] == Insn(0x15, 1, 2, 17);
      assert Run(p, pkt, 11, acc) == if acc == 17 then ACCEPT else 0;
    }
  }

  /** The part of the program behind a VLAN tag. */
  lemma {:induction false} TaggedPart(pkt: seq<byte>, acc: u32)
    ensures Run(IP_TCP_UDP_FILTER, pkt, 7, acc) ==
      if (Type(pkt, 16, IPV4) && TcpOrUdp(pkt, 27)) || Type(pkt, 16, IPV6) then ACCEPT else 0
  {
    hide U16At;
    var p := IP_TCP_UDP_FILTER;
    assert p[7] == Insn(0x28, 0, 0, 16) && p[8] == Insn(0x15, 0, 3, 0x0800) && p[9] == Insn(0x30, 0, 0, 27);
    assert p[12] == Insn(0x15, 0, 1, 0x86dd);
    if 18 <= |pkt| {
      var t := U16At(pkt, 16);
      Ends(pkt, t);
      assert Run(p, pkt, 12, t) == if t == 0x86dd then ACCEPT else 0;
      if 27 < |pkt| {
        ProtocolTest(pkt, 10, pkt[27]);
      }
      assert Run(p, pkt, 8, t) == Run(p, pkt, if t == 0x0800 then 9 else 12, t);
    }
  }

  /** The part for IPv4 without a tag. */
  lemma {:induction false} UntaggedPart(pkt: seq<byte>, acc: u32)
    ensures Run(IP_TCP_UDP_FILTER, pkt, 2, acc) == if TcpOrUdp(pkt, 23) then ACCEPT else 0
  {
    assert IP_TCP_UDP_FILTER[2] == Insn(0x30, 0, 0, 23);
    if 23 < |pkt| {
      ProtocolTest(pkt, 3, pkt[23]);
    }
  }

  /** The part for the other ethertypes. */
  lemma {:induction false} OtherTypes(pkt: seq<byte>, t: u32)
    ensures Run(IP_TCP_UDP_FILTER, pkt, 5, t) ==
      if t == IPV6 || (t == VLAN && ((Type(pkt, 16, IPV4) && TcpOrUdp(pkt, 27)) || Type(pkt, 16, IPV6)))
      then ACCEPT else 0
  {
    var p := IP_TCP_UDP_FILTER;
    assert p[5] == Insn(0x15, 7, 0, 0x86dd) && p[6] == Insn(0x15, 0, 7, 0x8100);
    Ends(pkt, t);
    TaggedPart(pkt, t);
    hide Type, TcpOrUdp;
    assert Run(p, pkt, 6, t) == Run(p, pkt, if t == 0x8100 then 7 else 14, t);
  }

  /** The program lets through exactly the wanted packets, of whatever length. */
  lemma {:induction false} FilterExact(pkt: seq<byte>)
    ensures Run(IP_TCP_UDP_FILTER, pkt, 0, 0) == if Wanted(pkt) then ACCEPT else 0
  {
    hide U16At;
    var p := IP_TCP_UDP_FILTER;
    assert p[0] == Insn(0x28, 0, 0, 12) && p[1] == Insn(0x15, 0, 3, 0x0800);
    if 14 <= |pkt| {
      var t := U16At(pkt, 12);
      UntaggedPart(pkt, t);
      OtherTypes(pkt, t);
      assert Run(p, pkt, 1, t) == Run(p, pkt, if t == 0x0800 then 2 else 5, t);
    }
  }

  // ----- the filter and the parser behind it -----

  /** Where the parser in user space finds the network header: past up to two tags. */
  datatype Link = Link(etherType: u16, off: nat, tags: nat)

  predicate IsTag(t: u16) {
    t == VLAN || t == QINQ
  }

  function SkipTags(frame: seq<byte>, l: Link): Option<Link>
    decreases 2 - l.tags
  {
    if !IsTag(l.etherType) || l.tags >= 2 then Some(l)
    else if |frame| < l.off + 4 then None
    else SkipTags(frame, Link(U16At(frame, l.off + 2), l.off + 4, l.tags + 1))
  }

  function ParseLink(frame: seq<byte>): Option<Link> {
    if |frame| < 14 then None else SkipTags(frame, Link(U16At(frame, 12), 14, 0))
  }

  /** What the parser needs at least: a full IPv4 header naming TCP or UDP, or a full IPv6 header. */
  predicate Parseable(frame: seq<byte>) {
    var l := ParseLink(frame);
    l.Some? &&
    ((l.value.etherType == IPV4 && l.value.off + 20 <= |frame| && TcpOrUdp(frame, l.value.off + 9)) ||
     (l.value.etherType == IPV6 && l.value.off + 40 <= |frame|))
  }

  /**
   Of the frames the parser could use, the filter lets through exactly those with no tag or
   one 802.1Q tag: frames with two tags, or with an 802.1ad tag, are lost before the parser
   that is able to read them.
   */
  lemma {:induction false} FilterAgainstParser(frame: seq<byte>)
    requires Parseable(frame)
    ensures var l := ParseLink(frame).value;
      Wanted(frame) <==> l.tags == 0 || (l.tags == 1 && Type(frame, 12, VLAN))
  {
    hide U16At;
    var t := U16At(frame, 12);
    if IsTag(t) {
      var u := U16At(frame, 16);
      assert ParseLink(frame) == SkipTags(frame, Link(u, 18, 1));
      if IsTag(u) {
        assert SkipTags(frame, Link(u, 18, 1)) == SkipTags(frame, Link(U16At(frame, 20), 22, 2));
      }
    }
  }
}
