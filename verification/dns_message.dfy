// The full decoder of dns_message.go, writing into the fixed arrays of a
// message object that is reused from one packet to the next.

module DnsMessage {
  import opened Numbers
  import opened Wrappers
  import opened Bytes
  import opened DnsNames
  import opened DnsSections

  const NO_RECORD: Record := Record([], 0, 0, 0, [])

  // The header bits, and what the first question's name looks like.
  datatype Header = Header(
    id: nat, flags: nat, isResponse: bool, opcode: nat, aa: bool, tc: bool, rd: bool, ra: bool, rCode: nat)

  datatype NameTraits = NameTraits(
    labelCount: nat, maxLabelLen: nat, hasNonLDH: bool,
    firstUpper: nat, firstLower: nat, firstDigits: nat, firstHasZeroOIl: bool, firstHasHyphen: bool)

  const NO_HEADER: Header := Header(0, 0, false, 0, false, false, false, false, 0)
  const NO_TRAITS: NameTraits := NameTraits(0, 0, false, 0, 0, 0, false, false)

  predicate BitSet(flags: nat, weight: nat)
    requires weight > 0
  {
    flags / weight % 2 == 1
  }

  function HeaderOf(raw: seq<byte>): Header
    requires |raw| >= 12
  {
    var flags := Word16(raw, 2);
    Header(Word16(raw, 0), flags, BitSet(flags, 0x8000), flags / 0x800 % 16,
           BitSet(flags, 0x400), BitSet(flags, 0x200), BitSet(flags, 0x100), BitSet(flags, 0x80), flags % 16)
  }

  function Weight(set_: bool, weight: nat): nat { if set_ then weight else 0 }

  // The fields take the flags apart: together with the three reserved bits
  // they give them back.
  lemma FlagsTakenApart(raw: seq<byte>)
    requires |raw| >= 12
    ensures var h := HeaderOf(raw);
      && h.id == raw[0] as int * 256 + raw[1] as int && h.flags == raw[2] as int * 256 + raw[3] as int
      && h.opcode < 16 && h.rCode < 16
      && h.flags == Weight(h.isResponse, 0x8000) + h.opcode * 0x800 + Weight(h.aa, 0x400) + Weight(h.tc, 0x200)
                    + Weight(h.rd, 0x100) + Weight(h.ra, 0x80) + h.flags / 16 % 8 * 16 + h.rCode
  {
    assert Word16(raw, 0) == raw[0] as int * 256 + raw[1] as int;
    assert Word16(raw, 2) == raw[2] as int * 256 + raw[3] as int;
    hide Word16, BitSet, Weight;
    WordTakenApart(Word16(raw, 2));
  }

  lemma WordTakenApart(f: nat)
    requires f < 0x1_0000
    ensures f == Weight(BitSet(f, 0x8000), 0x8000) + f / 0x800 % 16 * 0x800 + Weight(BitSet(f, 0x400), 0x400)
                 + Weight(BitSet(f, 0x200), 0x200) + Weight(BitSet(f, 0x100), 0x100) + Weight(BitSet(f, 0x80), 0x80)
                 + f / 16 % 8 * 16 + f % 16
  {
    hide BitSet, Weight;
    assert f / 0x8000 < 2;
    WeightOfBit(f, 0x8000);
    WeightOfBit(f, 0x400);
    WeightOfBit(f, 0x200);
    WeightOfBit(f, 0x100);
    WeightOfBit(f, 0x80);
    TwoDivisions(f, 16, 8);
    TwoDivisions(f, 0x80, 2);
    TwoDivisions(f, 0x100, 2);
    TwoDivisions(f, 0x200, 2);
    TwoDivisions(f, 0x400, 2);
    TwoDivisions(f, 0x800, 16);
    BitsAddUp(f, f / 16, f / 0x80, f / 0x100, f / 0x200, f / 0x400, f / 0x800, f / 0x8000);
  }

  lemma WeightOfBit(f: nat, w: nat)
    requires w > 0
    ensures Weight(BitSet(f, w), w) == f / w % 2 * w
  {
    if BitSet(f, w) {
      assert f / w % 2 == 1;
    } else {
      assert f / w % 2 == 0;
    }
  }

  lemma BitsAddUp(f: nat, a: nat, b: nat, c: nat, d: nat, e: nat, g: nat, r: nat)
    requires a == f / 16 && b == a / 8 && c == b / 2 && d == c / 2 && e == d / 2 && g == e / 2 && r == g / 16
    ensures f == r * 0x8000 + g % 16 * 0x800 + e % 2 * 0x400 + d % 2 * 0x200 + c % 2 * 0x100 + b % 2 * 0x80
                 + a % 8 * 16 + f % 16
  {
    assert f == 16 * a + f % 16 && a == 8 * b + a % 8 && b == 2 * c + b % 2 && c == 2 * d + c % 2;
    assert d == 2 * e + d % 2 && e == 2 * g + e % 2 && g == 16 * r + g % 16;
  }

  lemma TwoDivisions(n: nat, a: nat, b: nat)
    requires a > 0 && b > 0
    ensures a * b > 0 && n / (a * b) == n / a / b
  {
    var m := n / a;
    var q := m / b;
    QuotientUnique(n, a, m);
    QuotientUnique(m, b, q);
    MulLe(q * b, m, a);
    MulLe(m + 1, (q + 1) * b, a);
    assert q * b * a == q * (a * b) && (q + 1) * b * a == (q + 1) * (a * b);
    QuotientUnique(n, a * b, q);
  }

  predicate IsLower(b: byte) { 97 <= b <= 122 }

  predicate IsDigit(b: byte) { 48 <= b <= 57 }

  // '0', 'O', 'I' and 'l', which are read for one another.
  predicate IsZeroOIl(b: byte) { b == 48 || b == 79 || b == 73 || b == 108 }

  function CountOf(p: byte -> bool, s: seq<byte>): nat {
    if s == [] then 0 else CountOf(p, s[..|s| - 1]) + if p(s[|s| - 1]) then 1 else 0
  }

  // The bytes of the first label on the wire, when it is a plain one.
  function FirstLabel(raw: seq<byte>): seq<byte> {
    if |raw| > 13 && 0 < raw[12] <= 63 && 13 + raw[12] as int <= |raw| then raw[13..13 + raw[12] as int] else []
  }

  // Where p holds in s.
  function PlacesOf(p: byte -> bool, s: seq<byte>): set<nat> {
    set i | 0 <= i < |s| && p(s[i])
  }

  lemma {:induction false} CountIsSize(p: byte -> bool, s: seq<byte>)
    ensures CountOf(p, s) == |PlacesOf(p, s)|
  {
    if s != [] {
      CountIsSize(p, s[..|s| - 1]);
      LastPlace(p, s);
      hide PlacesOf;
    }
  }

  lemma LastPlace(p: byte -> bool, s: seq<byte>)
    requires s != []
    ensures PlacesOf(p, s) == PlacesOf(p, s[..|s| - 1]) + if p(s[|s| - 1]) then {|s| - 1} else {}
    ensures |s| - 1 !in PlacesOf(p, s[..|s| - 1])
  {
  }

  // The question's name cannot begin with a pointer, so these are the bytes of
  // its first label, if it has one.
  lemma FirstLabelIsFirst(raw: seq<byte>)
    requires Decode(raw, 12, 0, 0).Success?
    ensures var labels := Decode(raw, 12, 0, 0).value.labels;
      FirstLabel(raw) == if labels == [] then [] else labels[0]
  {
  }

  // The kinds of bytes in letters.
  lemma KindsOfBytes(b: byte)
    ensures var c := b as char;
      && (IsUpper(b) <==> 'A' <= c <= 'Z') && (IsLower(b) <==> 'a' <= c <= 'z') && (IsDigit(b) <==> '0' <= c <= '9')
      && (IsZeroOIl(b) <==> c == '0' || c == 'O' || c == 'I' || c == 'l')
      && (b == HYPHEN <==> c == '-')
  {
  }

  predicate DescribesName(t: NameTraits, raw: seq<byte>) {
    && Decode(raw, 12, 0, 0).Success?
    && var labels := Decode(raw, 12, 0, 0).value.labels;
    && t.labelCount == |labels| && t.maxLabelLen == LongestLabel(labels) && t.hasNonLDH == HasNonLDH(labels)
    && CountsBytes(t, FirstLabel(raw))
  }

  predicate CountsBytes(t: NameTraits, s: seq<byte>) {
    && t.firstUpper == CountOf(IsUpper, s)
    && t.firstLower == CountOf(IsLower, s)
    && t.firstDigits == CountOf(IsDigit, s)
    && (t.firstHasZeroOIl <==> exists i :: 0 <= i < |s| && IsZeroOIl(s[i]))
    && (t.firstHasHyphen <==> exists i :: 0 <= i < |s| && s[i] == HYPHEN)
  }

  // The loop over the first label; each kind of byte has a counter.
  method CountFirstLabel(t0: NameTraits, s: seq<byte>) returns (t: NameTraits)
    requires t0.firstUpper == t0.firstLower == t0.firstDigits == 0 && !t0.firstHasZeroOIl && !t0.firstHasHyphen
    ensures CountsBytes(t, s)
    ensures t.labelCount == t0.labelCount && t.maxLabelLen == t0.maxLabelLen && t.hasNonLDH == t0.hasNonLDH
  {
    t := t0;
    for i := 0 to |s|
      invariant CountsBytes(t, s[..i])
      invariant t.labelCount == t0.labelCount && t.maxLabelLen == t0.maxLabelLen && t.hasNonLDH == t0.hasNonLDH
    {
      var b := s[i];
      ghost var before := t;
      if IsUpper(b) {
        t := t.(firstUpper := t.firstUpper + 1);
      } else if IsLower(b) {
        t := t.(firstLower := t.firstLower + 1);
      } else if IsDigit(b) {
        t := t.(firstDigits := t.firstDigits + 1);
      }
      if IsZeroOIl(b) {
        t := t.(firstHasZeroOIl := true);
      }
      if b == HYPHEN {
        t := t.(firstHasHyphen := true);
      }
      CountNext(before, t, s, i);
    }
    assert s[..|s|] == s;
  }

  lemma CountNext(before: NameTraits, t: NameTraits, s: seq<byte>, i: nat)
    requires i < |s| && CountsBytes(before, s[..i])
    requires t.firstUpper == before.firstUpper + if IsUpper(s[i]) then 1 else 0
    requires t.firstLower == before.firstLower + if IsLower(s[i]) then 1 else 0
    requires t.firstDigits == before.firstDigits + if IsDigit(s[i]) then 1 else 0
    requires t.firstHasZeroOIl == (before.firstHasZeroOIl || IsZeroOIl(s[i]))
    requires t.firstHasHyphen == (before.firstHasHyphen || s[i] == HYPHEN)
    ensures CountsBytes(t, s[..i + 1])
  {
    hide IsUpper, IsLower, IsDigit, IsZeroOIl;
    var p, q := s[..i], s[..i + 1];
    assert q[..|q| - 1] == p && q[i] == s[i];
    assert forall k :: 0 <= k < i ==> p[k] == q[k];
  }

  class DNSMessage {
    var header: Header
    var traits: NameTraits
    var qName: Text
    var qType: nat
    var qClass: nat
    var answerCount: nat
    var authorityCount: nat
    var additionalCount: nat
    const answers: array<Record>
    const authorities: array<Record>
    const additionals: array<Record>

    constructor ()
      ensures Valid() && fresh(answers) && fresh(authorities) && fresh(additionals)
    {
      header, traits := NO_HEADER, NO_TRAITS;
      qName, qType, qClass := [], 0, 0;
      answerCount, authorityCount, additionalCount := 0, 0, 0;
      answers := new Record[16](_ => NO_RECORD);
      authorities := new Record[16](_ => NO_RECORD);
      additionals := new Record[16](_ => NO_RECORD);
    }

    ghost predicate Valid()
      reads this
    {
      && answers.Length == authorities.Length == additionals.Length == MAX_RRS
      && answers != authorities && authorities != additionals && answers != additionals
      && answerCount <= MAX_RRS && authorityCount <= MAX_RRS && additionalCount <= MAX_RRS
    }

    // What the object holds.
    ghost function Contents(): Message
      requires Valid()
      reads this, answers, authorities, additionals
    {
      Message(qName, qType, qClass,
              answers[..answerCount], authorities[..authorityCount], additionals[..additionalCount])
    }

    method ParseDNSMessage(raw: seq<byte>) returns (err: Option<DnsError>)
      requires Valid()
      modifies this, answers, authorities, additionals
      ensures Valid()
      ensures err == None ==> Parse(raw) == Success(Contents())
      ensures err == None ==> |raw| >= 12 && header == HeaderOf(raw) && DescribesName(traits, raw)
      ensures err.Some? ==> Parse(raw) == Failure(err.value)
      ensures err.Some? ==> additionalCount == 0 && (|raw| >= 12 ==> header == HeaderOf(raw))
      ensures err.Some? && (|raw| < 12 || ParseQuestions(raw, 12, Word16(raw, 4)).Failure?) ==>
        answerCount == authorityCount == 0
      ensures err.Some? && (|raw| < 12 || ParseQuestions(raw, 12, 1).Failure?) ==>
        qName == [] && qType == qClass == 0 && traits == NO_TRAITS
      ensures |raw| < 12 ==> header == NO_HEADER
    {
      hide Decode, ParseSection, ParseQuestions, Word16, Join, HeaderOf, DescribesName;
      header, traits := NO_HEADER, NO_TRAITS;
      qName, qType, qClass := [], 0, 0;
      answerCount, authorityCount, additionalCount := 0, 0, 0;
      if |raw| < 12 {
        return Some(PacketTooShort);
      }
      header := HeaderOf(raw);
      var qdCount := Word16(raw, 4);
      if qdCount == 0 {
        return Some(QuestionContract);
      }
      var off, qErr := ReadQuestions(raw, qdCount);
      if qErr.Some? {
        return qErr;
      }
      err := ReadSections(raw, off);
    }

    // The three record sections, one after the other.
    method ReadSections(raw: seq<byte>, start: nat) returns (err: Option<DnsError>)
      requires Valid() && |raw| >= 12
      modifies this`answerCount, this`authorityCount, this`additionalCount, answers, authorities, additionals
      ensures Valid()
      ensures err == None <==> ParseSections(raw, start).Success?
      ensures err == None ==>
        ParseSections(raw, start).value ==
        (answers[..answerCount], authorities[..authorityCount], additionals[..additionalCount])
      ensures err.Some? ==> ParseSections(raw, start) == Failure(err.value)
      ensures err.Some? ==> additionalCount == old(additionalCount) || additionalCount == 0
    {
      hide ParseSection, Word16;
      var off, rrErr;
      off, answerCount, rrErr := DecodeRRSection(raw, start, Word16(raw, 6), answers);
      if rrErr.Some? {
        return rrErr;
      }
      off, authorityCount, rrErr := DecodeRRSection(raw, off, Word16(raw, 8), authorities);
      if rrErr.Some? {
        return rrErr;
      }
      off, additionalCount, rrErr := DecodeRRSection(raw, off, Word16(raw, 10), additionals);
      return rrErr;
    }

    // The first question fills the message; the others are stepped over.
    method ReadQuestions(raw: seq<byte>, qdCount: nat) returns (off: nat, err: Option<DnsError>)
      requires Valid() && |raw| >= 12 && qdCount == Word16(raw, 4) > 0
      modifies this`qName, this`qType, this`qClass, this`traits
      ensures err == None ==> ParseQuestions(raw, 12, qdCount) == Success(off)
      ensures err == None ==>
        && Decode(raw, 12, 0, 0).Success? && Decode(raw, 12, 0, 0).value.end + 4 <= |raw|
        && qName == Join(Decode(raw, 12, 0, 0).value.labels)
        && qType == Word16(raw, Decode(raw, 12, 0, 0).value.end)
        && qClass == Word16(raw, Decode(raw, 12, 0, 0).value.end + 2)
        && DescribesName(traits, raw)
      ensures err.Some? ==> ParseQuestions(raw, 12, qdCount) == Failure(err.value)
      ensures ParseQuestions(raw, 12, 1).Failure? ==>
        err.Some? && qName == old(qName) && qType == old(qType) && qClass == old(qClass) && traits == old(traits)
    {
      hide Decode, Word16, Join, CountsBytes, HasNonLDH, LongestLabel, MarksLabels;
      var name := new byte[256];
      var q := DecodeDNSWireName(raw, 12, name);
      QuestionStep(raw, 0, qdCount);
      if q.Failure? {
        return 0, Some(BadName(q.error));
      }
      off := q.value.end;
      if off + 4 > |raw| {
        return 0, Some(QuestionContract);
      }
      qName := name[..q.value.len];
      qType, qClass := Word16(raw, off), Word16(raw, off + 2);
      off := off + 4;
      traits := NO_TRAITS.(labelCount := q.value.labelCount, maxLabelLen := q.value.maxLabel,
                           hasNonLDH := q.value.hasNonLDH);
      traits := CountFirstLabel(traits, FirstLabel(raw));
      ghost var qname, qtype, qclass := qName, qType, qClass;
      assert DescribesName(traits, raw);
      hide DescribesName;
      for i := 1 to qdCount
        invariant qName == qname && qType == qtype && qClass == qclass && DescribesName(traits, raw)
        invariant ParseQuestions(raw, 12, i) == Success(off)
      {
        QuestionStep(raw, i, qdCount);
        var skip := new byte[256];
        var next := DecodeDNSWireName(raw, off, skip);
        if next.Failure? {
          return 0, Some(BadName(next.error));
        }
        if next.value.end + 4 > |raw| {
          return 0, Some(QuestionContract);
        }
        off := next.value.end + 4;
      }
      return off, None;
    }
  }

  lemma {:induction false} QuestionFailure(raw: seq<byte>, off: nat, k: nat, n: nat)
    requires k <= n && ParseQuestions(raw, off, k).Failure?
    ensures ParseQuestions(raw, off, n) == ParseQuestions(raw, off, k)
    decreases n
  {
    hide Decode;
    if k < n {
      QuestionFailure(raw, off, k, n - 1);
    }
  }

  lemma QuestionStep(raw: seq<byte>, k: nat, n: nat)
    requires k < n && ParseQuestions(raw, 12, k).Success?
    ensures ParseQuestions(raw, 12, 0) == Success(12)
    ensures ParseQuestions(raw, 12, k + 1).Failure? ==> ParseQuestions(raw, 12, n) == ParseQuestions(raw, 12, k + 1)
  {
    hide Decode;
    if ParseQuestions(raw, 12, k + 1).Failure? {
      QuestionFailure(raw, 12, k + 1, n);
    }
  }

  lemma {:induction false} RecordFailure(raw: seq<byte>, off: nat, k: nat, n: nat)
    requires k <= n && ParseRecords(raw, off, k).Failure?
    ensures ParseRecords(raw, off, n) == ParseRecords(raw, off, k)
    decreases n
  {
    hide ParseRecord;
    if k < n {
      RecordFailure(raw, off, k, n - 1);
    }
  }

  method DecodeRRSection(raw: seq<byte>, start: nat, rrCount: nat, dst: array<Record>)
    returns (off: nat, stored: nat, err: Option<DnsError>)
    requires dst.Length == MAX_RRS
    modifies dst
    ensures stored <= MAX_RRS
    ensures err == None ==> stored == rrCount
    ensures err == None ==> ParseSection(raw, start, rrCount) == Success(Section(dst[..stored], off))
    ensures err.Some? ==> stored == 0 && ParseSection(raw, start, rrCount) == Failure(err.value)
  {
    hide ParseRecord, Decode, Word16;
    if rrCount > MAX_RRS {
      return 0, 0, Some(TooManyRRs);
    }
    off, stored := start, 0;
    for i := 0 to rrCount
      invariant stored == i
      invariant ParseRecords(raw, start, i) == Success(Section(dst[..stored], off))
    {
      if ParseRecords(raw, start, i + 1).Failure? {
        RecordFailure(raw, start, i + 1, rrCount);
      }
      var one := DecodeRecord(raw, off);
      if one.Failure? {
        return 0, 0, Some(one.error);
      }
      ghost var before := dst[..stored];
      dst[stored] := one.value.0;
      stored := stored + 1;
      assert dst[..stored] == before + [one.value.0];
      off := one.value.1;
    }
    return off, stored, None;
  }

  // The body of the section loop: one record at off.
  method DecodeRecord(raw: seq<byte>, off: nat) returns (r: Result<(Record, nat), DnsError>)
    ensures r.Failure? ==> ParseRecord(raw, off) == Failure(r.error)
    ensures r.Success? ==> ParseRecord(raw, off) == Success(Section([r.value.0], r.value.1))
  {
    hide Decode, Word16, Join;
    var name := new byte[256];
    var n := DecodeDNSWireName(raw, off, name);
    if n.Failure? {
      return Failure(BadName(n.error));
    }
    var nextOff := n.value.end;
    if nextOff + 10 > |raw| {
      return Failure(BadRecord);
    }
    var rrType, class_ := Word16(raw, nextOff), Word16(raw, nextOff + 2);
    var ttl := Word16(raw, nextOff + 4) * 0x1_0000 + Word16(raw, nextOff + 6);
    var rdLen := Word16(raw, nextOff + 8);
    var rdataStart := nextOff + 10;
    var rdataEnd := rdataStart + rdLen;
    if rdataEnd > |raw| {
      return Failure(BadRecord);
    }
    if rdLen > MAX_RDATA {
      return Failure(RDataTooLong);
    }
    return Success((Record(name[..n.value.len], rrType, class_, ttl, raw[rdataStart..rdataEnd]), rdataEnd));
  }
}
