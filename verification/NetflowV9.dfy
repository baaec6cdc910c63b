/**
 Template-driven decoding of NetFlow v9 packets (RFC 3954, sections 5.1 to 5.3).

 A record's addresses are kept as their four raw bytes.
 */
module NetflowV9 {
  import opened Base
  import opened BigEndian
  import opened FlowAggregation

  const MAX_FIELDS := 512
  const MAX_TEMPLATES := 4096

  datatype Field = Field(kind: u16, len: u16)

  function RecordLen(fields: seq<Field>): nat {
    if fields == [] then 0 else fields[0].len + RecordLen(fields[1..])
  }

  datatype Template = Template(id: u16, fieldCount: u16, fields: seq<Field>, recordLen: nat)

  datatype TemplateKey = TemplateKey(source: u32, id: u16)

  /** The template cache; `count` is kept beside it. */
  datatype Cache = Cache(templates: map<TemplateKey, Template>, count: int) {
    /** The count is the size of the cache, which is bounded, and record lengths are right. */
    ghost predicate Valid() {
      && count == |templates| <= MAX_TEMPLATES
      && forall k :: k in templates ==>
           templates[k].recordLen == RecordLen(templates[k].fields) &&
           |templates[k].fields| <= templates[k].fieldCount <= MAX_FIELDS
    }

    function Stored(k: TemplateKey, t: Template): Cache {
      if k !in templates && count >= MAX_TEMPLATES then this else
      Cache(templates[k := t], if k in templates then count else count + 1)
    }
  }

  // ----- template flow sets -----

  function FieldsAt(b: seq<byte>, n: nat): (fields: seq<Field>)
    requires 4 * n <= |b|
    ensures |fields| == n
  {
    if n == 0 then [] else [Field(U16At(b, 0), U16At(b, 2))] + FieldsAt(b[4..], n - 1)
  }

  /** The cache after a template flow set of one source. */
  function TemplatesParsed(c: Cache, data: seq<byte>, source: u32): Cache
    decreases |data|
  {
    if |data| < 4 then c else
    var id, fieldCount, rest := U16At(data, 0), U16At(data, 2), data[4..];
    if fieldCount == 0 || fieldCount > MAX_FIELDS then c else
    var n := Min(fieldCount, |rest| / 4);
    var fields := FieldsAt(rest, n);
    TemplatesParsed(
      c.Stored(TemplateKey(source, id), Template(id, fieldCount, fields, RecordLen(fields))), rest[4 * n..], source)
  }

  // ----- data flow sets -----

  /** `readUint`: the value of the last eight bytes. */
  function ReadUint(b: seq<byte>): (v: nat)
    ensures v < TWO64
  {
    var low := b[Max(|b| - 8, 0)..];
    BigBelow(low);
    PowBound(|low|);
    Big(low)
  }

  lemma {:induction false} PowBound(n: nat)
    requires n <= 8
    ensures Pow256(n) <= TWO64
  {
    assert Pow256(1) == 0x100 && Pow256(2) == 0x1_0000 && Pow256(3) == 0x100_0000;
    assert Pow256(4) == 0x1_0000_0000 && Pow256(5) == 0x100_0000_0000 && Pow256(6) == 0x1_0000_0000_0000;
    assert Pow256(7) == 0x100_0000_0000_0000 && Pow256(8) == TWO64;
  }

  function WithField(r: FlowRecord, f: Field, b: seq<byte>): FlowRecord {
    match f.kind
    case 1 => r.(bytes := ReadUint(b))
    case 2 => r.(packets := ReadUint(b))
    case 4 => if b == [] then r else r.(proto := b[0])
    case 6 => if b == [] then r else r.(tcpFlags := b[0] as bv8)
    case 7 => r.(srcPort := ReadUint(b) % 0x1_0000)
    case 8 => if |b| == 4 then r.(srcIP := b) else r
    case 10 => r.(inputIf := ReadUint(b) % 0x1_0000_0000)
    case 11 => r.(dstPort := ReadUint(b) % 0x1_0000)
    case 12 => if |b| == 4 then r.(dstIP := b) else r
    case 14 => r.(outputIf := ReadUint(b) % 0x1_0000_0000)
    case 16 => r.(srcAS := ReadUint(b) % 0x1_0000_0000)
    case 17 => r.(dstAS := ReadUint(b) % 0x1_0000_0000)
    case _ => r
  }

  function FieldsDecoded(r: FlowRecord, fields: seq<Field>, rec: seq<byte>): FlowRecord
    decreases |fields|
  {
    if fields == [] || |rec| < fields[0].len then r else
    FieldsDecoded(WithField(r, fields[0], rec[..fields[0].len]), fields[1..], rec[fields[0].len..])
  }

  function Blank(now: int): FlowRecord {
    FlowRecord([], [], 0, 0, 0, 0, 0, now, now, 0, 0, 0, 0, 0)
  }

  function RecordsDecoded(t: Template, data: seq<byte>, now: int): seq<FlowRecord>
    requires 0 < t.recordLen
    decreases |data|
  {
    if |data| < t.recordLen then [] else
    [FieldsDecoded(Blank(now), t.fields, data[..t.recordLen])] + RecordsDecoded(t, data[t.recordLen..], now)
  }

  function DataDecoded(c: Cache, id: u16, data: seq<byte>, source: u32, now: int): seq<FlowRecord> {
    var k := TemplateKey(source, id);
    if k !in c.templates || c.templates[k].recordLen == 0 then [] else RecordsDecoded(c.templates[k], data, now)
  }

  // ----- packets -----

  datatype Outcome = Outcome(cache: Cache, records: seq<FlowRecord>) {
    function After(front: seq<FlowRecord>): Outcome {
      this.(records := front + records)
    }
  }

  /** What one flow set does: a template set, a data set, or one that is passed over. */
  function FlowSetParsed(c: Cache, id: u16, body: seq<byte>, source: u32, now: int): Outcome {
    if id == 0 then Outcome(TemplatesParsed(c, body, source), [])
    else if id >= 256 then Outcome(c, DataDecoded(c, id, body, source, now))
    else Outcome(c, [])
  }

  /** What `count` flow sets do. */
  function FlowSetsParsed(c: Cache, count: nat, data: seq<byte>, source: u32, now: int): Outcome
    decreases count
  {
    if count == 0 || |data| < 4 then Outcome(c, []) else
    var id, len := U16At(data, 0), U16At(data, 2);
    if len < 4 || len > |data| then Outcome(c, []) else
    var first := FlowSetParsed(c, id, data[4..len], source, now);
    FlowSetsParsed(first.cache, count - 1, data[len..], source, now).After(first.records)
  }

  function PacketParsed(c: Cache, data: seq<byte>, now: int): Outcome {
    if |data| < 20 then Outcome(c, []) else
    FlowSetsParsed(c, U16At(data, 2), data[20..], U32At(data, 16), now)
  }

  /** `b` is a possible aggregator state after adding the records to `a`, in order. */
  ghost predicate AddsAll(a: Agg, records: seq<FlowRecord>, b: Agg) {
    if records == [] then b == a else
    var n := |records| - 1;
    exists m: Agg, victim: Option<FlowKey> :: AddsAll(a, records[..n], m) && m.Added(records[n], victim, b)
  }

  // ----- the receiver object -----

  class Receiver {
    var templates: map<TemplateKey, Template>
    var count: int
    const agg: FlowAggregator

    ghost function State(): Cache
      reads this
    {
      Cache(templates, count)
    }

    constructor (maxFlows: int)
      ensures State() == Cache(map[], 0) && State().Valid() && fresh(agg)
      ensures agg.State() == Agg(map[], maxFlows, 0)
    {
      templates, count := map[], 0;
      agg := new FlowAggregator(maxFlows);
    }

    method ParseTemplate(data: seq<byte>, source: u32)
      modifies this
      ensures State() == TemplatesParsed(old(State()), data, source)
    {
      hide TemplatesParsed;
      var offset := 0;
      assert data[0..] == data;
      while offset + 4 <= |data|
        invariant offset <= |data|
        invariant TemplatesParsed(State(), data[offset..], source) == TemplatesParsed(old(State()), data, source)
      {
        ghost var before, from := State(), data[offset..];
        var id, fieldCount := U16At(data, offset), U16At(data, offset + 2);
        assert U16At(from, 0) == id && U16At(from, 2) == fieldCount && from[4..] == data[offset + 4..];
        OneTemplate(before, from, source);
        offset := offset + 4;
        if fieldCount == 0 || fieldCount > MAX_FIELDS {
          assert TemplatesParsed(State(), from, source) == State();
          return;
        }
        var fields, recordLen, used := ReadFields(data, offset, fieldCount);
        ghost var start := offset;
        offset := offset + used;
        assert data[start..][used..] == data[offset..];
        var k := TemplateKey(source, id);
        if k !in templates {
          if count >= MAX_TEMPLATES {
            continue;
          }
          count := count + 1;
        }
        templates := templates[k := Template(id, fieldCount, fields, recordLen)];
      }
      TooShort(State(), data[offset..], source);
    }

    /** The fields of one template, as many as the data holds. */
    method ReadFields(data: seq<byte>, start: nat, fieldCount: u16)
      returns (fields: seq<Field>, recordLen: nat, used: nat)
      requires start <= |data|
      ensures var n := Min(fieldCount, (|data| - start) / 4);
        used == 4 * n && fields == FieldsAt(data[start..], n) && recordLen == RecordLen(fields)
    {
      var rest := data[start..];
      var offset := start;
      var j := 0;
      fields, recordLen := [], 0;
      while j < fieldCount && offset + 4 <= |data|
        invariant j <= fieldCount && offset == start + 4 * j <= |data|
        invariant fields == FieldsAt(rest, j) && recordLen == RecordLen(fields)
      {
        NextField(rest, j);
        assert U16At(rest, 4 * j) == U16At(data, offset) && U16At(rest, 4 * j + 2) == U16At(data, offset + 2);
        fields := fields + [Field(U16At(data, offset), U16At(data, offset + 2))];
        recordLen := recordLen + U16At(data, offset + 2);
        offset := offset + 4;
        j := j + 1;
      }
      used := 4 * j;
    }

    method DecodeRecord(fields: seq<Field>, rec: seq<byte>, now: int) returns (r: FlowRecord)
      ensures r == FieldsDecoded(Blank(now), fields, rec)
    {
      r := Blank(now);
      var pos: nat, j: nat := 0, 0;
      assert fields[0..] == fields && rec[0..] == rec;
      while j < |fields|
        invariant j <= |fields| && pos <= |rec|
        invariant FieldsDecoded(r, fields[j..], rec[pos..]) == FieldsDecoded(Blank(now), fields, rec)
      {
        var f := fields[j];
        if pos + f.len > |rec| {
          return;
        }
        assert rec[pos..][..f.len] == rec[pos..pos + f.len] && rec[pos..][f.len..] == rec[pos + f.len..];
        assert fields[j..][1..] == fields[j + 1..];
        r := WithField(r, f, rec[pos..pos + f.len]);
        pos := pos + f.len;
        j := j + 1;
      }
    }

    method DecodeV9Data(id: u16, data: seq<byte>, source: u32, now: int)
      modifies agg
      ensures AddsAll(old(agg.State()), DataDecoded(State(), id, data, source, now), agg.State())
    {
      hide FieldsDecoded, Agg.Added, Blank;
      var k := TemplateKey(source, id);
      if k !in templates || templates[k].recordLen == 0 {
        return;
      }
      var t := templates[k];
      ghost var done: seq<FlowRecord> := [];
      var offset := 0;
      assert data[0..] == data && done + RecordsDecoded(t, data, now) == RecordsDecoded(t, data, now);
      while offset + t.recordLen <= |data|
        invariant offset <= |data|
        invariant done + RecordsDecoded(t, data[offset..], now) == RecordsDecoded(t, data, now)
        invariant AddsAll(old(agg.State()), done, agg.State())
      {
        var rec := data[offset..offset + t.recordLen];
        assert data[offset..][..t.recordLen] == rec && data[offset..][t.recordLen..] == data[offset + t.recordLen..];
        var r := DecodeRecord(t.fields, rec, now);
        ghost var m := agg.State();
        ghost var victim := agg.Add(r);
        AddsOneMore(old(agg.State()), done, m, r, victim, agg.State());
        ghost var left := RecordsDecoded(t, data[offset + t.recordLen..], now);
        assert done + ([r] + left) == done + [r] + left;
        done := done + [r];
        offset := offset + t.recordLen;
      }
      assert done + [] == done;
    }

    method ParseFlowSet(id: u16, body: seq<byte>, source: u32, now: int)
      modifies this, agg
      ensures var out := FlowSetParsed(old(State()), id, body, source, now);
        State() == out.cache && AddsAll(old(agg.State()), out.records, agg.State())
    {
      hide TemplatesParsed, DataDecoded;
      if id == 0 {
        ParseTemplate(body, source);
      } else if id >= 256 {
        DecodeV9Data(id, body, source, now);
      }
    }

    method ParseV9(data: seq<byte>, now: int)
      modifies this, agg
      ensures var out := PacketParsed(old(State()), data, now);
        State() == out.cache && AddsAll(old(agg.State()), out.records, agg.State())
    {
      hide FlowSetsParsed;
      if |data| >= 20 {
        ParseFlowSets(data, U16At(data, 2), U32At(data, 16), now);
      }
    }

    /** The loop over the flow sets behind the header. */
    method ParseFlowSets(data: seq<byte>, flowSets: nat, source: u32, now: int)
      requires 20 <= |data|
      modifies this, agg
      ensures var out := FlowSetsParsed(old(State()), flowSets, data[20..], source, now);
        State() == out.cache && AddsAll(old(agg.State()), out.records, agg.State())
    {
      ghost var target := FlowSetsParsed(State(), flowSets, data[20..], source, now);
      ghost var done: seq<FlowRecord> := [];
      assert Underway(target, State(), flowSets, data, 20, source, now, done);
      AddsNone(agg.State());
      hide Underway, FlowSetParsed, FlowSetsParsed, AddsAll, U16At;
      var offset: nat, i: nat := 20, 0;
      while i < flowSets && offset + 4 <= |data|
        invariant i <= flowSets && offset <= |data|
        invariant Underway(target, State(), flowSets - i, data, offset, source, now, done)
        invariant AddsAll(old(agg.State()), done, agg.State())
      {
        ghost var c, m := State(), agg.State();
        var id, len := U16At(data, offset), U16At(data, offset + 2);
        Round(target, c, flowSets - i, data, offset, source, now, done);
        if len < 4 || offset + len > |data| {
          return;
        }
        ParseFlowSet(id, data[offset + 4..offset + len], source, now);
        ghost var first := FlowSetParsed(c, id, data[offset + 4..offset + len], source, now);
        AddsBoth(old(agg.State()), done, m, first.records, agg.State());
        done := done + first.records;
        offset := offset + len;
        i := i + 1;
      }
      RoundsOver(target, State(), flowSets - i, data, offset, source, now, done);
    }
  }

  /** The flow sets from `offset` on, after the records in `done`, make up `target`. */
  ghost predicate Underway(target: Outcome, c: Cache, count: nat, data: seq<byte>, offset: nat,
                           source: u32, now: int, done: seq<FlowRecord>)
    requires offset <= |data|
  {
    FlowSetsParsed(c, count, data[offset..], source, now).After(done) == target
  }

  lemma {:induction false} RoundsOver(target: Outcome, c: Cache, count: nat, data: seq<byte>, offset: nat,
                                      source: u32, now: int, done: seq<FlowRecord>)
    requires offset <= |data| && Underway(target, c, count, data, offset, source, now, done)
    requires count == 0 || offset + 4 > |data|
    ensures target == Outcome(c, done)
  {
    NoFlowSet(c, count, data[offset..], source, now);
    assert done + [] == done;
  }

  /** One round of the flow set loop, as its invariant sees it. */
  lemma {:induction false} Round(target: Outcome, c: Cache, count: nat, data: seq<byte>, offset: nat,
                                 source: u32, now: int, done: seq<FlowRecord>)
    requires 0 < count && offset + 4 <= |data| && Underway(target, c, count, data, offset, source, now, done)
    ensures var id, len := U16At(data, offset), U16At(data, offset + 2);
      if len < 4 || offset + len > |data| then target == Outcome(c, done) else
      var first := FlowSetParsed(c, id, data[offset + 4..offset + len], source, now);
      Underway(target, first.cache, count - 1, data, offset + len, source, now, done + first.records)
  {
    hide FlowSetParsed, FlowSetsParsed;
    var from := data[offset..];
    var id, len := U16At(data, offset), U16At(data, offset + 2);
    assert U16At(from, 0) == id && U16At(from, 2) == len;
    OneFlowSet(c, count, from, source, now);
    assert done + [] == done;
    if 4 <= len && offset + len <= |data| {
      assert from[4..len] == data[offset + 4..offset + len] && from[len..] == data[offset + len..];
      var first := FlowSetParsed(c, id, data[offset + 4..offset + len], source, now);
      AfterBoth(FlowSetsParsed(first.cache, count - 1, data[offset + len..], source, now), first.records, done);
    }
  }

  lemma {:induction false} AddsNone(a: Agg)
    ensures AddsAll(a, [], a)
  {
  }

  lemma {:induction false} NoFlowSet(c: Cache, count: nat, data: seq<byte>, source: u32, now: int)
    requires count == 0 || |data| < 4 || U16At(data, 2) < 4 || U16At(data, 2) > |data|
    ensures FlowSetsParsed(c, count, data, source, now) == Outcome(c, [])
  {
  }

  lemma {:induction false} AfterBoth(out: Outcome, a: seq<FlowRecord>, b: seq<FlowRecord>)
    ensures out.After(a).After(b) == out.After(b + a)
  {
    assert b + (a + out.records) == b + a + out.records;
  }

  /** One round of the flow set loop. */
  lemma {:induction false} OneFlowSet(c: Cache, count: nat, data: seq<byte>, source: u32, now: int)
    requires 0 < count && 4 <= |data|
    ensures var id, len := U16At(data, 0), U16At(data, 2);
      FlowSetsParsed(c, count, data, source, now) ==
        if len < 4 || len > |data| then Outcome(c, []) else
        var first := FlowSetParsed(c, id, data[4..len], source, now);
        FlowSetsParsed(first.cache, count - 1, data[len..], source, now).After(first.records)
  {
    hide FlowSetParsed;
  }

  lemma {:induction false} AddsOneMore(a: Agg, records: seq<FlowRecord>, m: Agg, r: FlowRecord,
                                       victim: Option<FlowKey>, b: Agg)
    requires AddsAll(a, records, m) && m.Added(r, victim, b)
    ensures AddsAll(a, records + [r], b)
  {
    var all := records + [r];
    var n := |all| - 1;
    assert all[..n] == records && all[n] == r;
    assert AddsAll(a, all[..n], m) && m.Added(all[n], victim, b);
  }

  lemma {:induction false} AddsBoth(a: Agg, first: seq<FlowRecord>, m: Agg, second: seq<FlowRecord>, b: Agg)
    requires AddsAll(a, first, m) && AddsAll(m, second, b)
    ensures AddsAll(a, first + second, b)
  {
    hide Agg.Added;
    if second == [] {
      assert first + second == first;
    } else {
      var n := |second| - 1;
      var x: Agg, victim: Option<FlowKey> :| AddsAll(m, second[..n], x) && x.Added(second[n], victim, b);
      AddsBoth(a, first, m, second[..n], x);
      AddsOneMore(a, first + second[..n], x, second[n], victim, b);
      assert first + second == first + second[..n] + [second[n]];
    }
  }

  /** One round of the template loop. */
  lemma {:induction false} OneTemplate(c: Cache, data: seq<byte>, source: u32)
    requires 4 <= |data|
    ensures var id, fieldCount, rest := U16At(data, 0), U16At(data, 2), data[4..];
      TemplatesParsed(c, data, source) ==
        if fieldCount == 0 || fieldCount > MAX_FIELDS then c else
        var n := Min(fieldCount, |rest| / 4);
        var fields := FieldsAt(rest, n);
        TemplatesParsed(
          c.Stored(TemplateKey(source, id), Template(id, fieldCount, fields, RecordLen(fields))), rest[4 * n..], source)
  {
  }

  lemma {:induction false} TooShort(c: Cache, data: seq<byte>, source: u32)
    requires |data| < 4
    ensures TemplatesParsed(c, data, source) == c
  {
  }

  lemma {:induction false} NextField(b: seq<byte>, j: nat)
    requires 4 * j + 4 <= |b|
    ensures FieldsAt(b, j + 1) == FieldsAt(b, j) + [Field(U16At(b, 4 * j), U16At(b, 4 * j + 2))]
    ensures RecordLen(FieldsAt(b, j + 1)) == RecordLen(FieldsAt(b, j)) + U16At(b, 4 * j + 2)
  {
    var next := Field(U16At(b, 4 * j), U16At(b, 4 * j + 2));
    if j > 0 {
      NextField(b[4..], j - 1);
      assert Field(U16At(b[4..], 4 * (j - 1)), U16At(b[4..], 4 * (j - 1) + 2)) == next;
      var first := Field(U16At(b, 0), U16At(b, 2));
      assert FieldsAt(b, j + 1) == [first] + FieldsAt(b[4..], j);
      assert [first] + (FieldsAt(b[4..], j - 1) + [next]) == FieldsAt(b, j) + [next];
    }
    RecordLenLast(FieldsAt(b, j), next);
  }

  lemma {:induction false} RecordLenLast(fields: seq<Field>, f: Field)
    ensures RecordLen(fields + [f]) == RecordLen(fields) + f.len
  {
    if fields != [] {
      RecordLenLast(fields[1..], f);
      assert (fields + [f])[1..] == fields[1..] + [f];
    }
  }
}
