/**
 What the NetFlow v9 decoder keeps and what it recovers: the cache stays bounded whatever
 arrives, and records encoded under a template come back as they were.
 */
module NetflowRoundTrip {
  import opened Base
  import opened BigEndian
  import opened FlowAggregation
  import opened NetflowV9

  // ----- any packet -----

  lemma {:induction false} StoredValid(c: Cache, k: TemplateKey, t: Template)
    requires c.Valid() && t.recordLen == RecordLen(t.fields) && |t.fields| <= t.fieldCount <= MAX_FIELDS
    ensures c.Stored(k, t).Valid()
  {
    assert c.templates[k := t].Keys == c.templates.Keys + {k};
  }

  lemma {:induction false} TemplatesKeepCache(c: Cache, data: seq<byte>, source: u32)
    requires c.Valid()
    ensures TemplatesParsed(c, data, source).Valid()
    decreases |data|
  {
    hide RecordLen, FieldsAt;
    if 4 <= |data| && 0 < U16At(data, 2) <= MAX_FIELDS {
      var rest := data[4..];
      var n := Min(U16At(data, 2), |rest| / 4);
      var fields := FieldsAt(rest, n);
      var t := Template(U16At(data, 0), U16At(data, 2), fields, RecordLen(fields));
      StoredValid(c, TemplateKey(source, t.id), t);
      TemplatesKeepCache(c.Stored(TemplateKey(source, t.id), t), rest[4 * n..], source);
    }
  }

  lemma {:induction false} FlowSetsKeepCache(c: Cache, count: nat, data: seq<byte>, source: u32, now: int)
    requires c.Valid()
    ensures FlowSetsParsed(c, count, data, source, now).cache.Valid()
    decreases count
  {
    hide TemplatesParsed, DataDecoded;
    if 0 < count && 4 <= |data| && 4 <= U16At(data, 2) <= |data| {
      var id, len := U16At(data, 0), U16At(data, 2);
      TemplatesKeepCache(c, data[4..len], source);
      FlowSetsKeepCache(FlowSetParsed(c, id, data[4..len], source, now).cache, count - 1, data[len..], source, now);
    }
  }

  /** Whatever arrives, the count stays the size of the cache and within its limit. */
  lemma {:induction false} PacketKeepsCache(c: Cache, data: seq<byte>, now: int)
    requires c.Valid()
    ensures PacketParsed(c, data, now).cache.Valid()
  {
    hide FlowSetsParsed;
    if 20 <= |data| {
      FlowSetsKeepCache(c, U16At(data, 2), data[20..], U32At(data, 16), now);
    }
  }

  // ----- records -----

  /** `b` holds the value of field `f` in `r`, as section 8 of RFC 3954 lays it out; other fields are free. */
  predicate FieldHolds(f: Field, r: FlowRecord, b: seq<byte>) {
    |b| == f.len &&
    match f.kind
    case 1 => IsUint(b, r.bytes)
    case 2 => IsUint(b, r.packets)
    case 4 => b == [r.proto]
    case 6 => b == [r.tcpFlags as int]
    case 7 => IsUint(b, r.srcPort)
    case 8 => f.len == 4 && b == r.srcIP
    case 10 => IsUint(b, r.inputIf)
    case 11 => IsUint(b, r.dstPort)
    case 12 => f.len == 4 && b == r.dstIP
    case 14 => IsUint(b, r.outputIf)
    case 16 => IsUint(b, r.srcAS)
    case 17 => IsUint(b, r.dstAS)
    case _ => true
  }

  /** `b` is `v` in big-endian, in whatever width holds it. */
  predicate IsUint(b: seq<byte>, v: nat) {
    v < Pow256(|b|) && b == BigBytes(v, |b|)
  }

  /** Reading gives back any number below 2^64, however wide its field. */
  lemma {:induction false} UintRoundTrip(b: seq<byte>, v: nat)
    requires IsUint(b, v) && v < TWO64
    ensures ReadUint(b) == v
  {
    var n := |b|;
    if n > 8 {
      LowBytes(v, n, 8);
      PowEight();
      BigRoundTrip(v, 8);
    } else {
      assert b[0..] == b;
      BigRoundTrip(v, n);
    }
  }

  lemma {:induction false} PowEight()
    ensures Pow256(8) == TWO64
  {
    assert Pow256(4) == 0x1_0000_0000;
    assert Pow256(8) == 256 * (256 * (256 * (256 * Pow256(4))));
  }

  predicate Encodes(fields: seq<Field>, r: FlowRecord, rec: seq<byte>)
    decreases |fields|
  {
    if fields == [] then rec == [] else
    && fields[0].len <= |rec|
    && FieldHolds(fields[0], r, rec[..fields[0].len])
    && Encodes(fields[1..], r, rec[fields[0].len..])
  }

  predicate Mentions(fields: seq<Field>, kind: u16) {
    exists i :: 0 <= i < |fields| && fields[i].kind == kind
  }

  /** `base` with the values of `r` for every field the template mentions. */
  function Overlay(base: FlowRecord, fields: seq<Field>, r: FlowRecord): FlowRecord {
    FlowRecord(
      if Mentions(fields, 8) then r.srcIP else base.srcIP,
      if Mentions(fields, 12) then r.dstIP else base.dstIP,
      if Mentions(fields, 7) then r.srcPort else base.srcPort,
      if Mentions(fields, 11) then r.dstPort else base.dstPort,
      if Mentions(fields, 4) then r.proto else base.proto,
      if Mentions(fields, 1) then r.bytes else base.bytes,
      if Mentions(fields, 2) then r.packets else base.packets,
      base.firstSeen, base.lastSeen,
      if Mentions(fields, 6) then r.tcpFlags else base.tcpFlags,
      if Mentions(fields, 16) then r.srcAS else base.srcAS,
      if Mentions(fields, 17) then r.dstAS else base.dstAS,
      if Mentions(fields, 10) then r.inputIf else base.inputIf,
      if Mentions(fields, 14) then r.outputIf else base.outputIf)
  }

  lemma {:induction false} MentionsFirst(fields: seq<Field>, kind: u16)
    requires fields != []
    ensures Mentions(fields, kind) <==> fields[0].kind == kind || Mentions(fields[1..], kind)
  {
    if Mentions(fields, kind) && fields[0].kind != kind {
      var i :| 0 <= i < |fields| && fields[i].kind == kind;
      assert fields[1..][i - 1].kind == kind;
    }
    if Mentions(fields[1..], kind) {
      var i :| 0 <= i < |fields| - 1 && fields[1..][i].kind == kind;
      assert fields[i + 1].kind == kind;
    }
  }

  /** Decoding one field of an encoded record. */
  lemma {:induction false} FieldRoundTrip(base: FlowRecord, f: Field, r: FlowRecord, b: seq<byte>)
    requires FieldHolds(f, r, b)
    ensures WithField(base, f, b) == Overlay(base, [f], r)
  {
    hide IsUint, ReadUint;
    assert forall k: u16 :: Mentions([f], k) <==> [f][0].kind == k;
    match f.kind
    case 1 => UintRoundTrip(b, r.bytes);
    case 2 => UintRoundTrip(b, r.packets);
    case 7 => UintRoundTrip(b, r.srcPort);
    case 10 => UintRoundTrip(b, r.inputIf);
    case 11 => UintRoundTrip(b, r.dstPort);
    case 14 => UintRoundTrip(b, r.outputIf);
    case 16 => UintRoundTrip(b, r.srcAS);
    case 17 => UintRoundTrip(b, r.dstAS);
    case _ =>
  }

  lemma {:induction false} OverlayFirst(base: FlowRecord, fields: seq<Field>, r: FlowRecord)
    requires fields != []
    ensures Overlay(Overlay(base, [fields[0]], r), fields[1..], r) == Overlay(base, fields, r)
  {
    hide Mentions;
    forall k: u16
      ensures Mentions(fields, k) <==> Mentions([fields[0]], k) || Mentions(fields[1..], k)
    {
      MentionsFirst(fields, k);
      MentionsFirst([fields[0]], k);
      MentionsNone([fields[0]][1..], k);
    }
  }

  lemma {:induction false} MentionsNone(fields: seq<Field>, k: u16)
    requires fields == []
    ensures !Mentions(fields, k)
  {
  }

  /** Decoding recovers every supported field of an encoded record and touches nothing else. */
  lemma {:induction false} RecordRoundTrip(base: FlowRecord, fields: seq<Field>, r: FlowRecord, rec: seq<byte>)
    requires Encodes(fields, r, rec)
    ensures FieldsDecoded(base, fields, rec) == Overlay(base, fields, r)
    ensures |rec| == RecordLen(fields)
    decreases |fields|
  {
    hide Overlay, WithField, FieldHolds;
    if fields == [] {
      OverlayNone(base, fields, r);
    } else {
      var b := rec[..fields[0].len];
      FieldRoundTrip(base, fields[0], r, b);
      RecordRoundTrip(WithField(base, fields[0], b), fields[1..], r, rec[fields[0].len..]);
      OverlayFirst(base, fields, r);
    }
  }

  lemma {:induction false} OverlayNone(base: FlowRecord, fields: seq<Field>, r: FlowRecord)
    requires fields == []
    ensures Overlay(base, fields, r) == base
  {
    hide Mentions;
    forall k: u16
      ensures !Mentions(fields, k)
    {
      MentionsNone(fields, k);
    }
  }

  /** A recovered record has nothing in fields that its template does not mention; its times are those of arrival. */
  lemma {:induction false} UnmentionedEmpty(fields: seq<Field>, r: FlowRecord, now: int)
    ensures var x := Overlay(Blank(now), fields, r);
      && x.firstSeen == now && x.lastSeen == now
      && (!Mentions(fields, 8) ==> x.srcIP == []) && (!Mentions(fields, 12) ==> x.dstIP == [])
      && (!Mentions(fields, 7) ==> x.srcPort == 0) && (!Mentions(fields, 11) ==> x.dstPort == 0)
      && (!Mentions(fields, 4) ==> x.proto == 0) && (!Mentions(fields, 6) ==> x.tcpFlags == 0)
      && (!Mentions(fields, 1) ==> x.bytes == 0) && (!Mentions(fields, 2) ==> x.packets == 0)
      && (!Mentions(fields, 16) ==> x.srcAS == 0) && (!Mentions(fields, 17) ==> x.dstAS == 0)
      && (!Mentions(fields, 10) ==> x.inputIf == 0) && (!Mentions(fields, 14) ==> x.outputIf == 0)
  {
    hide Mentions;
  }

  // ----- data flow sets -----

  function Flat(recs: seq<seq<byte>>): seq<byte> {
    if recs == [] then [] else recs[0] + Flat(recs[1..])
  }

  ghost predicate AllEncode(fields: seq<Field>, rs: seq<FlowRecord>, recs: seq<seq<byte>>) {
    |rs| == |recs| && forall i :: 0 <= i < |rs| ==> Encodes(fields, rs[i], recs[i])
  }

  function Overlays(base: FlowRecord, fields: seq<Field>, rs: seq<FlowRecord>): (r: seq<FlowRecord>)
    ensures |r| == |rs|
  {
    if rs == [] then [] else [Overlay(base, fields, rs[0])] + Overlays(base, fields, rs[1..])
  }

  /** The first record of a data set. */
  lemma {:induction false} FirstRecord(t: Template, rec: seq<byte>, tail: seq<byte>, now: int)
    requires 0 < t.recordLen == |rec|
    ensures RecordsDecoded(t, rec + tail, now)
      == [FieldsDecoded(Blank(now), t.fields, rec)] + RecordsDecoded(t, tail, now)
  {
    hide FieldsDecoded, Blank;
    assert (rec + tail)[..t.recordLen] == rec && (rec + tail)[t.recordLen..] == tail;
  }

  /** The records of a data set come first, in order; what follows them is decoded as more records. */
  lemma {:induction false} DataRoundTrip(t: Template, rs: seq<FlowRecord>, recs: seq<seq<byte>>,
                                         pad: seq<byte>, now: int)
    requires 0 < t.recordLen == RecordLen(t.fields) && AllEncode(t.fields, rs, recs)
    ensures RecordsDecoded(t, Flat(recs) + pad, now) == Overlays(Blank(now), t.fields, rs) + RecordsDecoded(t, pad, now)
    decreases |recs|
  {
    hide FieldsDecoded, Overlay, Encodes, Blank, RecordLen, RecordsDecoded;
    if recs == [] {
      assert Flat(recs) + pad == pad;
    } else {
      RecordRoundTrip(Blank(now), t.fields, rs[0], recs[0]);
      DataRoundTrip(t, rs[1..], recs[1..], pad, now);
      FirstRecord(t, recs[0], Flat(recs[1..]) + pad, now);
      assert Flat(recs) + pad == recs[0] + (Flat(recs[1..]) + pad);
    }
  }

  /** Padding is ignored exactly if it is shorter than a record. */
  lemma {:induction false} PaddingIgnored(t: Template, pad: seq<byte>, now: int)
    requires 0 < t.recordLen
    ensures RecordsDecoded(t, pad, now) == [] <==> |pad| < t.recordLen
  {
  }

  // ----- packets -----

  function FieldBytes(fields: seq<Field>): seq<byte> {
    if fields == [] then [] else PutU16(fields[0].kind) + PutU16(fields[0].len) + FieldBytes(fields[1..])
  }

  function TemplateBytes(id: u16, fields: seq<Field>): seq<byte>
    requires |fields| <= MAX_FIELDS
  {
    PutU16(id) + PutU16(|fields|) + FieldBytes(fields)
  }

  function FlowSet(id: u16, body: seq<byte>): seq<byte>
    requires |body| + 4 < 0x1_0000
  {
    PutU16(id) + PutU16(|body| + 4) + body
  }

  /** The 20-byte header: version 9, the number of flow sets, three words the decoder skips, the source. */
  function Header(count: u16, skipped: seq<byte>, source: u32): (b: seq<byte>)
    requires |skipped| == 12
    ensures |b| == 20
  {
    PutU16(9) + PutU16(count) + skipped + PutU32(source)
  }

  lemma {:induction false} FieldsRoundTrip(fields: seq<Field>)
    ensures |FieldBytes(fields)| == 4 * |fields|
    ensures FieldsAt(FieldBytes(fields), |fields|) == fields
  {
    if fields != [] {
      var b, f := FieldBytes(fields), fields[0];
      FieldsRoundTrip(fields[1..]);
      U16RoundTrip([], f.kind, PutU16(f.len) + FieldBytes(fields[1..]));
      U16RoundTrip(PutU16(f.kind), f.len, FieldBytes(fields[1..]));
      assert b == [] + PutU16(f.kind) + (PutU16(f.len) + FieldBytes(fields[1..]));
      assert b[4..] == FieldBytes(fields[1..]);
    }
  }

  /** A template set is parsed back into its template. */
  lemma {:induction false} TemplateRoundTrip(c: Cache, id: u16, fields: seq<Field>, source: u32)
    requires 1 <= |fields| <= MAX_FIELDS
    ensures TemplatesParsed(c, TemplateBytes(id, fields), source) ==
      c.Stored(TemplateKey(source, id), Template(id, |fields|, fields, RecordLen(fields)))
  {
    hide RecordLen, FieldsAt, FieldBytes, U16At, PutU16;
    var b := TemplateBytes(id, fields);
    FieldsRoundTrip(fields);
    U16RoundTrip([], id, PutU16(|fields|) + FieldBytes(fields));
    U16RoundTrip(PutU16(id), |fields|, FieldBytes(fields));
    assert b == [] + PutU16(id) + (PutU16(|fields|) + FieldBytes(fields));
    assert b[4..] == FieldBytes(fields);
    var d := c.Stored(TemplateKey(source, id), Template(id, |fields|, fields, RecordLen(fields)));
    assert FieldBytes(fields)[4 * |fields|..] == [];
    TooShort(d, [], source);
  }

  /** Parsing one encoded flow set, whatever follows it. */
  lemma {:induction false} FlowSetRoundTrip(c: Cache, count: nat, id: u16, body: seq<byte>, rest: seq<byte>,
                                            source: u32, now: int)
    requires |body| + 4 < 0x1_0000 && 0 < count
    ensures var first := FlowSetParsed(c, id, body, source, now);
      FlowSetsParsed(c, count, FlowSet(id, body) + rest, source, now) ==
      FlowSetsParsed(first.cache, count - 1, rest, source, now).After(first.records)
  {
    hide FlowSetParsed, FlowSetsParsed, U16At, PutU16;
    var data, len := FlowSet(id, body) + rest, |body| + 4;
    U16RoundTrip([], id, PutU16(len) + body + rest);
    U16RoundTrip(PutU16(id), len, body + rest);
    assert data == [] + PutU16(id) + (PutU16(len) + body + rest) == PutU16(id) + PutU16(len) + (body + rest);
    assert data[4..len] == body && data[len..] == rest;
    OneFlowSet(c, count, data, source, now);
  }

  /** A flow set of a kind the decoder passes over, such as an options template. */
  datatype OtherSet = OtherSet(id: u16, body: seq<byte>) {
    predicate Valid() {
      1 <= id <= 255 && |body| + 4 < 0x1_0000
    }
  }

  predicate AllValid(others: seq<OtherSet>) {
    forall i :: 0 <= i < |others| ==> others[i].Valid()
  }

  function OtherBytes(others: seq<OtherSet>): seq<byte>
    requires AllValid(others)
  {
    if others == [] then [] else FlowSet(others[0].id, others[0].body) + OtherBytes(others[1..])
  }

  /** Flow sets numbered 1 to 255 do nothing, whatever they hold. */
  lemma {:induction false} OthersPassedOver(c: Cache, others: seq<OtherSet>, count: nat, rest: seq<byte>, source: u32,
                                            now: int)
    requires AllValid(others)
    ensures FlowSetsParsed(c, |others| + count, OtherBytes(others) + rest, source, now) ==
      FlowSetsParsed(c, count, rest, source, now)
    decreases |others|
  {
    hide FlowSetsParsed, FlowSet;
    if others == [] {
      assert OtherBytes(others) + rest == rest;
    } else {
      var o, tail := others[0], OtherBytes(others[1..]) + rest;
      assert OtherBytes(others) + rest == FlowSet(o.id, o.body) + tail;
      FlowSetRoundTrip(c, |others| + count, o.id, o.body, tail, source, now);
      OthersPassedOver(c, others[1..], count, rest, source, now);
      Behind(FlowSetsParsed(c, count, rest, source, now));
    }
  }

  lemma {:induction false} Behind(o: Outcome)
    ensures o.After([]) == o
  {
    assert [] + o.records == o.records;
  }

  /**
   Round trip: a packet with a template and a set of records encoded under it makes the
   decoder cache the template and add exactly those records, their supported fields intact,
   provided the padding after them is shorter than a record. Other flow sets may come before,
   between and after them.
   */
  lemma {:induction false} PacketRoundTrip(
    c: Cache, source: u32, id: u16, fields: seq<Field>, rs: seq<FlowRecord>, recs: seq<seq<byte>>,
    pad: seq<byte>, skipped: seq<byte>, now: int, o1: seq<OtherSet>, o2: seq<OtherSet>, o3: seq<OtherSet>)
    requires AllValid(o1) && AllValid(o2) && AllValid(o3) && |o1| + |o2| + |o3| + 2 < 0x1_0000
    requires 256 <= id && 1 <= |fields| <= MAX_FIELDS && |skipped| == 12
    requires 0 < RecordLen(fields) && AllEncode(fields, rs, recs) && |pad| < RecordLen(fields)
    requires |TemplateBytes(id, fields)| + 4 < 0x1_0000 && |Flat(recs) + pad| + 4 < 0x1_0000
    requires TemplateKey(source, id) in c.templates || c.count < MAX_TEMPLATES
    ensures var k := TemplateKey(source, id);
      var t := Template(id, |fields|, fields, RecordLen(fields));
      var sets := OtherBytes(o1) + (FlowSet(0, TemplateBytes(id, fields)) +
        (OtherBytes(o2) + (FlowSet(id, Flat(recs) + pad) + OtherBytes(o3))));
      var packet := Header(|o1| + |o2| + |o3| + 2, skipped, source) + sets;
      && PacketParsed(c, packet, now) == Outcome(c.Stored(k, t), Overlays(Blank(now), fields, rs))
      && c.Stored(k, t).templates == c.templates[k := t]
  {
    hide RecordLen, Flat, Blank, Overlays, TemplatesParsed, FlowSetsParsed, U16At, PutU16, U32At, PutU32;
    hide OtherBytes, AllValid, RecordsDecoded;
    var k := TemplateKey(source, id);
    var t := Template(id, |fields|, fields, RecordLen(fields));
    var d := c.Stored(k, t);
    var body := Flat(recs) + pad;
    var after := OtherBytes(o3);
    var tail := OtherBytes(o2) + (FlowSet(id, body) + after);
    var sets := OtherBytes(o1) + (FlowSet(0, TemplateBytes(id, fields)) + tail);
    var n := |o2| + |o3| + 1;
    HeaderRoundTrip(|o1| + |o2| + |o3| + 2, skipped, source, sets);
    TemplateRoundTrip(c, id, fields, source);
    OthersPassedOver(c, o1, n + 1, FlowSet(0, TemplateBytes(id, fields)) + tail, source, now);
    FlowSetRoundTrip(c, n + 1, 0, TemplateBytes(id, fields), tail, source, now);
    OthersPassedOver(d, o2, |o3| + 1, FlowSet(id, body) + after, source, now);
    FlowSetRoundTrip(d, |o3| + 1, id, body, after, source, now);
    assert after + [] == after;
    OthersPassedOver(d, o3, 0, [], source, now);
    NoFlowSet(d, 0, [], source, now);
    DataRoundTrip(t, rs, recs, pad, now);
    PaddingIgnored(t, pad, now);
    var records := Overlays(Blank(now), fields, rs);
    assert records + [] == records && [] + (records + []) == records;
  }

  lemma {:induction false} HeaderRoundTrip(count: u16, skipped: seq<byte>, source: u32, sets: seq<byte>)
    requires |skipped| == 12
    ensures var b := Header(count, skipped, source) + sets;
      U16At(b, 2) == count && U32At(b, 16) == source && b[20..] == sets
  {
    hide U16At, PutU16, U32At, PutU32;
    var b := Header(count, skipped, source) + sets;
    U16RoundTrip(PutU16(9), count, skipped + PutU32(source) + sets);
    U32RoundTrip(PutU16(9) + PutU16(count) + skipped, source, sets);
    assert b == PutU16(9) + PutU16(count) + (skipped + PutU32(source) + sets);
    assert b == PutU16(9) + PutU16(count) + skipped + PutU32(source) + sets;
  }
}
