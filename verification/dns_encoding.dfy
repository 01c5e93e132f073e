// Writing a message the way section 4.1 of RFC 1035 lays it out, and reading
// it back with the full decoder of dns_message.go.

module DnsEncoding {
  import opened Wrappers
  import opened Bytes
  import opened DnsNames
  import opened DnsSections

  // A number as one byte, and as two; both are used on numbers that fit.
  function Byte(n: nat): byte { n % 256 }

  function Big16(v: nat): (s: seq<byte>)
    ensures |s| == 2
  {
    [Byte(v / 256), Byte(v)]
  }

  // Each label behind its length.
  function WireLabels(labels: seq<Text>): seq<byte> {
    if labels == [] then [] else [Byte(|labels[0]|)] + labels[0] + WireLabels(labels[1..])
  }

  function WireNameOf(labels: seq<Text>): seq<byte> { WireLabels(labels) + [0] }

  predicate PlainLabels(labels: seq<Text>) { forall l :: l in labels ==> 0 < |l| <= 63 }

  // The length of the text once labels follow len bytes of it.
  function TextAfter(len: nat, labels: seq<Text>): nat
    ensures TextAfter(len, labels) >= len
    decreases |labels|
  {
    if labels == [] then len else TextAfter(len + |labels[0]| + if len > 0 then 1 else 0, labels[1..])
  }

  predicate LiesAt(raw: seq<byte>, pos: nat, s: seq<byte>) { pos + |s| <= |raw| && raw[pos..pos + |s|] == s }

  lemma LiesApart(raw: seq<byte>, pos: nat, a: seq<byte>, b: seq<byte>)
    ensures LiesAt(raw, pos, a + b) <==> LiesAt(raw, pos, a) && LiesAt(raw, pos + |a|, b)
  {
    if LiesAt(raw, pos, a + b) {
      assert raw[pos..pos + |a|] == (a + b)[..|a|];
      assert raw[pos + |a|..pos + |a| + |b|] == (a + b)[|a|..];
    }
    if LiesAt(raw, pos, a) && LiesAt(raw, pos + |a|, b) {
      assert raw[pos..pos + |a + b|] == raw[pos..pos + |a|] + raw[pos + |a|..pos + |a| + |b|];
    }
  }

  lemma DecodeOneLabel(raw: seq<byte>, pos: nat, jumps: nat, len: nat, l: Text)
    requires jumps <= MAX_JUMPS && 0 < |l| <= 63 && LiesAt(raw, pos, [Byte(|l|)] + l)
    requires len + |l| + (if len > 0 then 1 else 0) <= MAX_TEXT
    ensures Decode(raw, pos, jumps, len) ==
      match Decode(raw, pos + 1 + |l|, jumps, len + |l| + if len > 0 then 1 else 0)
      case Failure(e) => Failure(e)
      case Success(n) => Success(WireName([l] + n.labels, n.end))
  {
    LiesApart(raw, pos, [Byte(|l|)], l);
    assert raw[pos] == raw[pos..pos + 1][0] == |l|;
  }

  function Behind(labels: seq<Text>, rest: Result<WireName, NameError>): Result<WireName, NameError> {
    match rest
    case Failure(e) => Failure(e)
    case Success(n) => Success(WireName(labels + n.labels, n.end))
  }

  lemma BehindTwice(a: seq<Text>, b: seq<Text>, rest: Result<WireName, NameError>)
    ensures Behind(a, Behind(b, rest)) == Behind(a + b, rest)
    ensures Behind([], rest) == rest
  {
    assert rest.Success? ==> a + (b + rest.value.labels) == a + b + rest.value.labels;
    assert rest.Success? ==> [] + rest.value.labels == rest.value.labels;
  }

  // What follows plain labels is read where they end, and goes behind them.
  lemma {:induction false} DecodeLabels(raw: seq<byte>, pos: nat, jumps: nat, len: nat, labels: seq<Text>)
    requires jumps <= MAX_JUMPS && PlainLabels(labels) && LiesAt(raw, pos, WireLabels(labels))
    requires TextAfter(len, labels) <= MAX_TEXT
    ensures Decode(raw, pos, jumps, len) ==
      Behind(labels, Decode(raw, pos + |WireLabels(labels)|, jumps, TextAfter(len, labels)))
    decreases |labels|
  {
    hide Decode, Behind, LiesAt;
    BehindTwice([], [], Decode(raw, pos, jumps, len));
    if labels != [] {
      var l, more := labels[0], labels[1..];
      var next := len + |l| + if len > 0 then 1 else 0;
      assert l in labels && forall m :: m in more ==> m in labels;
      LiesApart(raw, pos, [Byte(|l|)] + l, WireLabels(more));
      DecodeOneLabel(raw, pos, jumps, len, l);
      DecodeLabels(raw, pos + 1 + |l|, jumps, next, more);
      OneBehind(l, Decode(raw, pos + 1 + |l|, jumps, next));
      BehindTwice([l], more, Decode(raw, pos + |WireLabels(labels)|, jumps, TextAfter(len, labels)));
      assert labels == [l] + more;
    }
  }

  lemma OneBehind(l: Text, rest: Result<WireName, NameError>)
    ensures Behind([l], rest) ==
      match rest
      case Failure(e) => Failure(e)
      case Success(n) => Success(WireName([l] + n.labels, n.end))
  {
  }

  // A name written out is read back, label by label, and ends where it ends.
  lemma NameRoundTrip(raw: seq<byte>, pos: nat, labels: seq<Text>)
    requires PlainLabels(labels) && LiesAt(raw, pos, WireNameOf(labels)) && TextAfter(0, labels) <= MAX_TEXT
    ensures Decode(raw, pos, 0, 0) == Success(WireName(labels, pos + |WireNameOf(labels)|))
  {
    LiesApart(raw, pos, WireLabels(labels), [0]);
    var end := pos + |WireLabels(labels)|;
    assert raw[end] == raw[end..end + 1][0] == 0;
    DecodeLabels(raw, pos, 0, 0, labels);
    assert labels + [] == labels;
  }

  // A name that ends in a pointer back goes on with the name pointed to, and
  // ends behind the pointer.
  lemma CompressedName(raw: seq<byte>, pos: nat, jumps: nat, len: nat, labels: seq<Text>, target: nat)
    requires jumps < MAX_JUMPS && PlainLabels(labels) && TextAfter(len, labels) <= MAX_TEXT
    requires 12 <= target < 0x4000 && target < pos + |WireLabels(labels)|
    requires LiesAt(raw, pos, WireLabels(labels) + Big16(0xC000 + target))
    ensures Decode(raw, pos, jumps, len) ==
      match Decode(raw, target, jumps + 1, TextAfter(len, labels))
      case Failure(e) => Failure(e)
      case Success(n) => Success(WireName(labels + n.labels, pos + |WireLabels(labels)| + 2))
  {
    hide WireLabels, Byte;
    var p := pos + |WireLabels(labels)|;
    LiesApart(raw, pos, WireLabels(labels), Big16(0xC000 + target));
    DecodeLabels(raw, pos, jumps, len, labels);
    PointerBytes(raw, p, target);
    DecodePointer(raw, p, jumps, TextAfter(len, labels), target);
    hide Decode, TextAfter, LiesAt;
  }

  lemma PointerBytes(raw: seq<byte>, p: nat, target: nat)
    requires target < 0x4000 && LiesAt(raw, p, Big16(0xC000 + target))
    ensures p + 2 <= |raw| && IsPointer(raw[p]) && PointerTarget(raw, p) == target
  {
    assert raw[p] == raw[p..p + 2][0] && raw[p + 1] == raw[p..p + 2][1];
    assert (0xC000 + target) / 256 == 192 + target / 256;
  }

  lemma DecodePointer(raw: seq<byte>, p: nat, jumps: nat, len: nat, target: nat)
    requires jumps < MAX_JUMPS && p + 2 <= |raw| && IsPointer(raw[p]) && PointerTarget(raw, p) == target
    requires 12 <= target < p
    ensures Decode(raw, p, jumps, len) ==
      match Decode(raw, target, jumps + 1, len)
      case Failure(e) => Failure(e)
      case Success(n) => Success(WireName(n.labels, p + 2))
  {
    hide PointerTarget;
  }

  // ------------------------------------------------------------ records

  datatype WireRecord = WireRecord(labels: seq<Text>, rrType: nat, class_: nat, ttl: nat, rdata: seq<byte>)

  predicate Writable(r: WireRecord) {
    && PlainLabels(r.labels) && TextAfter(0, r.labels) <= MAX_TEXT
    && r.rrType < 0x1_0000 && r.class_ < 0x1_0000 && r.ttl < 0x1_0000_0000 && |r.rdata| <= MAX_RDATA
  }

  // Type, class, time to live and data length, behind the name.
  function FixedPart(r: WireRecord): (s: seq<byte>)
    ensures |s| == 10
  {
    Big16(r.rrType) + Big16(r.class_) + Big16(r.ttl / 0x1_0000) + Big16(r.ttl % 0x1_0000) + Big16(|r.rdata|)
  }

  function RecordBytes(r: WireRecord): seq<byte> { WireNameOf(r.labels) + (FixedPart(r) + r.rdata) }

  function AsRecord(r: WireRecord): Record {
    Record(Join(r.labels), r.rrType, r.class_, r.ttl, r.rdata)
  }

  lemma WordAt(raw: seq<byte>, pos: nat, s: seq<byte>, i: nat)
    requires LiesAt(raw, pos, s) && i + 2 <= |s|
    ensures Word16(raw, pos + i) == Word16(s, i)
  {
    assert raw[pos..pos + |s|][i] == raw[pos + i] && raw[pos..pos + |s|][i + 1] == raw[pos + i + 1];
  }

  lemma FixedWords(r: WireRecord)
    requires Writable(r)
    ensures var s := FixedPart(r);
      && Word16(s, 0) == r.rrType && Word16(s, 2) == r.class_
      && Word16(s, 4) * 0x1_0000 + Word16(s, 6) == r.ttl && Word16(s, 8) == |r.rdata|
  {
  }

  lemma RecordRoundTrip(raw: seq<byte>, pos: nat, r: WireRecord)
    requires Writable(r) && LiesAt(raw, pos, RecordBytes(r))
    ensures ParseRecord(raw, pos) == Success(Section([AsRecord(r)], pos + |RecordBytes(r)|))
  {
    hide Decode, Join, WireLabels, TextAfter, PlainLabels, WireNameOf, FixedPart, LiesAt, Word16;
    var e := pos + |WireNameOf(r.labels)|;
    LiesApart(raw, pos, WireNameOf(r.labels), FixedPart(r) + r.rdata);
    LiesApart(raw, e, FixedPart(r), r.rdata);
    NameRoundTrip(raw, pos, r.labels);
    FixedWords(r);
    WordAt(raw, e, FixedPart(r), 0);
    WordAt(raw, e, FixedPart(r), 2);
    WordAt(raw, e, FixedPart(r), 4);
    WordAt(raw, e, FixedPart(r), 6);
    WordAt(raw, e, FixedPart(r), 8);
    LiesIs(raw, e + 10, r.rdata);
  }

  lemma LiesIs(raw: seq<byte>, pos: nat, s: seq<byte>)
    requires LiesAt(raw, pos, s)
    ensures pos + |s| <= |raw| && raw[pos..pos + |s|] == s
  {
  }

  function AllBytes(rs: seq<WireRecord>): seq<byte> {
    if rs == [] then [] else AllBytes(rs[..|rs| - 1]) + RecordBytes(rs[|rs| - 1])
  }

  lemma ParseNext(raw: seq<byte>, off: nat, n: nat, before: Section, one: Section)
    requires ParseRecords(raw, off, n) == Success(before) && ParseRecord(raw, before.end) == Success(one)
    ensures ParseRecords(raw, off, n + 1) == Success(Section(before.records + one.records, one.end))
  {
  }

  function AsRecords(rs: seq<WireRecord>): seq<Record> {
    seq(|rs|, i requires 0 <= i < |rs| => AsRecord(rs[i]))
  }

  lemma AsRecordsNext(rs: seq<WireRecord>, r: WireRecord)
    ensures AsRecords(rs + [r]) == AsRecords(rs) + [AsRecord(r)] && AsRecords([]) == []
  {
  }

  lemma AllBytesNext(rs: seq<WireRecord>, r: WireRecord)
    ensures AllBytes(rs + [r]) == AllBytes(rs) + RecordBytes(r)
  {
    hide RecordBytes;
    assert (rs + [r])[..|rs|] == rs;
  }

  // The records rs lie in raw from pos on, and are read from there.
  ghost predicate ReadBack(raw: seq<byte>, pos: nat, rs: seq<WireRecord>) {
    ParseRecords(raw, pos, |rs|) == Success(Section(AsRecords(rs), pos + |AllBytes(rs)|))
  }

  lemma NothingToRead(raw: seq<byte>, pos: nat)
    ensures ReadBack(raw, pos, [])
  {
    assert AsRecords([]) == [];
  }

  lemma ReadOneMore(raw: seq<byte>, pos: nat, p: seq<WireRecord>, r: WireRecord)
    requires ReadBack(raw, pos, p) && Writable(r) && LiesAt(raw, pos + |AllBytes(p)|, RecordBytes(r))
    ensures ReadBack(raw, pos, p + [r])
  {
    hide RecordBytes, ParseRecord, ParseRecords, AsRecord, AsRecords, Writable, LiesAt, AllBytes;
    RecordRoundTrip(raw, pos + |AllBytes(p)|, r);
    AllBytesNext(p, r);
    AsRecordsNext(p, r);
    ParseNext(raw, pos, |p|, Section(AsRecords(p), pos + |AllBytes(p)|),
              Section([AsRecord(r)], pos + |AllBytes(p)| + |RecordBytes(r)|));
    assert |p + [r]| == |p| + 1;
  }

  lemma {:induction false} RecordsRoundTrip(raw: seq<byte>, pos: nat, rs: seq<WireRecord>)
    requires (forall r :: r in rs ==> Writable(r)) && LiesAt(raw, pos, AllBytes(rs))
    ensures ReadBack(raw, pos, rs)
  {
    hide RecordBytes, Writable, LiesAt, ReadBack;
    if rs == [] {
      NothingToRead(raw, pos);
    } else {
      var p, r := rs[..|rs| - 1], rs[|rs| - 1];
      assert rs == p + [r];
      assert r in rs;
      LiesApart(raw, pos, AllBytes(p), RecordBytes(r));
      RecordsRoundTrip(raw, pos, p);
      ReadOneMore(raw, pos, p, r);
    }
  }

  // ------------------------------------------------------------ messages

  datatype WireMessage = WireMessage(
    id: nat, flags: nat, labels: seq<Text>, qType: nat, qClass: nat,
    answers: seq<WireRecord>, authorities: seq<WireRecord>, additionals: seq<WireRecord>)

  predicate Sendable(m: WireMessage) {
    && m.id < 0x1_0000 && m.flags < 0x1_0000 && m.qType < 0x1_0000 && m.qClass < 0x1_0000
    && PlainLabels(m.labels) && TextAfter(0, m.labels) <= MAX_TEXT
    && |m.answers| <= MAX_RRS && |m.authorities| <= MAX_RRS && |m.additionals| <= MAX_RRS
    && (forall r :: r in m.answers ==> Writable(r))
    && (forall r :: r in m.authorities ==> Writable(r))
    && (forall r :: r in m.additionals ==> Writable(r))
  }

  function HeaderBytes(m: WireMessage): (s: seq<byte>)
    ensures |s| == 12
  {
    Big16(m.id) + Big16(m.flags) + Big16(1) + Big16(|m.answers|) + Big16(|m.authorities|) + Big16(|m.additionals|)
  }

  function QuestionBytes(m: WireMessage): seq<byte>
  {
    WireNameOf(m.labels) + (Big16(m.qType) + Big16(m.qClass))
  }

  function MessageBytes(m: WireMessage): seq<byte>
  {
    HeaderBytes(m) + (QuestionBytes(m) + (AllBytes(m.answers) + (AllBytes(m.authorities) + AllBytes(m.additionals))))
  }

  // A message written out is read back: header, question and every record.
  lemma MessageRoundTrip(m: WireMessage)
    requires Sendable(m)
    ensures var raw := MessageBytes(m);
      && |raw| >= 12 && Word16(raw, 0) == m.id && Word16(raw, 2) == m.flags
      && Parse(raw) == Success(Message(Join(m.labels), m.qType, m.qClass,
                                       AsRecords(m.answers), AsRecords(m.authorities), AsRecords(m.additionals)))
  {
    hide WireLabels, TextAfter, Decode, Join, AllBytes, ParseRecords, WireNameOf, ParseQuestions, Writable;
    hide LiesAt;
    var raw := MessageBytes(m);
    var question := QuestionBytes(m);
    var an, ns, ar := AllBytes(m.answers), AllBytes(m.authorities), AllBytes(m.additionals);
    LiesWhole(raw);
    LiesApart(raw, 0, HeaderBytes(m), question + (an + (ns + ar)));
    LiesApart(raw, 12, question, an + (ns + ar));
    var p := 12 + |question|;
    LiesApart(raw, p, an, ns + ar);
    LiesApart(raw, p + |an|, ns, ar);
    HeaderWords(raw, m);
    QuestionRoundTrip(raw, m);
    RecordsRoundTrip(raw, p, m.answers);
    RecordsRoundTrip(raw, p + |an|, m.authorities);
    RecordsRoundTrip(raw, p + |an| + |ns|, m.additionals);
    hide Word16, QuestionBytes, HeaderBytes, MessageBytes, AsRecords;
  }

  lemma LiesWhole(raw: seq<byte>)
    ensures LiesAt(raw, 0, raw)
  {
  }

  lemma HeaderWords(raw: seq<byte>, m: WireMessage)
    requires Sendable(m) && LiesAt(raw, 0, HeaderBytes(m))
    ensures |raw| >= 12 && Word16(raw, 0) == m.id && Word16(raw, 2) == m.flags && Word16(raw, 4) == 1
    ensures Word16(raw, 6) == |m.answers| && Word16(raw, 8) == |m.authorities| && Word16(raw, 10) == |m.additionals|
  {
    var s := HeaderBytes(m);
    WordAt(raw, 0, s, 0);
    WordAt(raw, 0, s, 2);
    WordAt(raw, 0, s, 4);
    WordAt(raw, 0, s, 6);
    WordAt(raw, 0, s, 8);
    WordAt(raw, 0, s, 10);
    TwoBytes(m.id);
    TwoBytes(m.flags);
    hide Byte, Writable, PlainLabels, TextAfter;
    TwoBytes(1);
    TwoBytes(|m.answers|);
    TwoBytes(|m.authorities|);
    TwoBytes(|m.additionals|);
  }

  lemma TwoBytes(v: nat)
    requires v < 0x1_0000
    ensures Big16(v)[0] as int * 256 + Big16(v)[1] as int == v
  {
  }

  lemma QuestionRoundTrip(raw: seq<byte>, m: WireMessage)
    requires Sendable(m) && LiesAt(raw, 12, QuestionBytes(m))
    ensures ParseQuestions(raw, 12, 1) == Success(12 + |QuestionBytes(m)|)
    ensures Decode(raw, 12, 0, 0) == Success(WireName(m.labels, 8 + |QuestionBytes(m)|))
    ensures Word16(raw, 8 + |QuestionBytes(m)|) == m.qType && Word16(raw, 10 + |QuestionBytes(m)|) == m.qClass
  {
    hide Decode, WireLabels, TextAfter;
    var fixed := Big16(m.qType) + Big16(m.qClass);
    LiesApart(raw, 12, WireNameOf(m.labels), fixed);
    NameRoundTrip(raw, 12, m.labels);
    assert Word16(fixed, 0) == m.qType && Word16(fixed, 2) == m.qClass;
    WordAt(raw, 12 + |WireNameOf(m.labels)|, fixed, 0);
    WordAt(raw, 12 + |WireNameOf(m.labels)|, fixed, 2);
    assert ParseQuestions(raw, 12, 0) == Success(12);
  }
}
