// Three traversals of a compressed domain name (section 4.1.4 of RFC 1035):
// decodeDNSWireName of dns_message.go, sauterNomAAAAIID of aaaa_iid_eval.go
// and sauterNomDNS of soa_negative_eval.go. Each is a loop of its own with
// its own pointer rule; each is proved against a recursive reading of the
// packet, and the three readings form a refinement chain.

module DnsNames {
  import opened Wrappers
  import opened Bytes

  type Text = seq<byte>

  const MAX_JUMPS: nat := 8
  const MAX_TEXT: nat := 253
  const MAX_WIRE: nat := 255
  const MAX_LABELS: nat := 128

  datatype NameError = InvalidLabel | LoopPointer | NameTooLong

  // The labels a name is made of, and the offset just past it where it starts.
  datatype WireName = WireName(labels: seq<Text>, end: nat)

  predicate IsPointer(b: byte) { b / 64 == 3 }

  predicate IsReserved(b: byte) { b / 64 == 1 || b / 64 == 2 }

  function PointerTarget(raw: seq<byte>, pos: nat): nat
    requires pos + 1 < |raw|
  {
    (raw[pos] % 64) * 256 + raw[pos + 1] as int
  }

  // The strict reading: every pointer goes back, but not into the header,
  // and the text, counting dots, stays within 253 bytes. len is the length
  // of the text read so far.
  function Decode(raw: seq<byte>, pos: nat, jumps: nat, len: nat): Result<WireName, NameError>
    requires jumps <= MAX_JUMPS
    decreases MAX_JUMPS - jumps, |raw| - pos
  {
    if pos >= |raw| then Failure(InvalidLabel)
    else
      var b := raw[pos];
      if b == 0 then Success(WireName([], pos + 1))
      else if IsPointer(b) then
        if pos + 1 >= |raw| then Failure(InvalidLabel)
        else
          var target := PointerTarget(raw, pos);
          if target < 12 || target >= pos || jumps == MAX_JUMPS then Failure(LoopPointer)
          else
            match Decode(raw, target, jumps + 1, len)
            case Failure(e) => Failure(e)
            case Success(n) => Success(WireName(n.labels, pos + 2))
      else if IsReserved(b) || pos + 1 + b as int > |raw| then Failure(InvalidLabel)
      else if Extended(len, b) > MAX_TEXT then Failure(NameTooLong)
      else
        match Decode(raw, pos + 1 + b as int, jumps, Extended(len, b))
        case Failure(e) => Failure(e)
        case Success(n) => Success(WireName([raw[pos + 1..pos + 1 + b as int]] + n.labels, n.end))
  }

  // The text length after one more label of b bytes.
  function Extended(len: nat, b: byte): nat {
    (if len > 0 then len + 1 else 0) + b as int
  }

  // The AAAA reading: pointers may go anywhere in the packet, eight at most.
  function AaaaSkip(raw: seq<byte>, pos: nat, jumps: nat, wire: nat): (end: Option<nat>)
    requires jumps <= MAX_JUMPS
    ensures end.Some? ==> pos < end.value <= |raw|
    decreases MAX_JUMPS - jumps, |raw| - pos
  {
    if pos >= |raw| then None
    else
      var b := raw[pos];
      if b == 0 then Some(pos + 1)
      else if IsPointer(b) then
        if pos + 1 >= |raw| || jumps == MAX_JUMPS || PointerTarget(raw, pos) >= |raw| then None
        else if AaaaSkip(raw, PointerTarget(raw, pos), jumps + 1, wire).Some? then Some(pos + 2)
        else None
      else if IsReserved(b) || wire + b as int + 1 > MAX_WIRE || pos + 1 + b as int > |raw| then None
      else AaaaSkip(raw, pos + 1 + b as int, jumps, wire + b as int + 1)
  }

  // The SOA reading: the first pointer ends the name, unread.
  function SoaSkip(raw: seq<byte>, pos: nat, wire: nat): (end: Option<nat>)
    ensures end.Some? ==> pos < end.value <= |raw|
    decreases |raw| - pos
  {
    if pos >= |raw| then None
    else
      var b := raw[pos];
      if b == 0 then Some(pos + 1)
      else if IsPointer(b) then
        if pos + 1 >= |raw| || PointerTarget(raw, pos) >= |raw| then None else Some(pos + 2)
      else if IsReserved(b) || wire + b as int + 1 > MAX_WIRE || pos + 1 + b as int > |raw| then None
      else SoaSkip(raw, pos + 1 + b as int, wire + b as int + 1)
  }

  // Every pointer met on the way goes back and stays out of the header.
  predicate PointersGoBack(raw: seq<byte>, pos: nat, jumps: nat)
    requires jumps <= MAX_JUMPS
    decreases MAX_JUMPS - jumps, |raw| - pos
  {
    if pos + 1 >= |raw| || raw[pos] == 0 || IsReserved(raw[pos]) then true
    else if IsPointer(raw[pos]) then
      && 12 <= PointerTarget(raw, pos) < pos
      && (jumps < MAX_JUMPS ==> PointersGoBack(raw, PointerTarget(raw, pos), jumps + 1))
    else PointersGoBack(raw, pos + 1 + raw[pos] as int, jumps)
  }

  // The wire length of a name whose text so far has len bytes.
  function WireOf(len: nat): nat { if len == 0 then 1 else len + 2 }

  // The strict decoder accepts exactly the names the AAAA walker accepts
  // whose pointers all go back, with the same end: the 253-byte bound on the
  // text and the 255-byte bound on the wire (section 2.3.4 of RFC 1035) are
  // the same bound.
  lemma {:induction false} DecodeIffAaaaAndBack(raw: seq<byte>, pos: nat, jumps: nat, len: nat)
    requires jumps <= MAX_JUMPS
    ensures Decode(raw, pos, jumps, len).Success?
        <==> AaaaSkip(raw, pos, jumps, WireOf(len)).Some? && PointersGoBack(raw, pos, jumps)
    ensures Decode(raw, pos, jumps, len).Success? ==>
      AaaaSkip(raw, pos, jumps, WireOf(len)) == Some(Decode(raw, pos, jumps, len).value.end)
    decreases MAX_JUMPS - jumps, |raw| - pos
  {
    if pos < |raw| && raw[pos] != 0 {
      var b := raw[pos];
      if IsPointer(b) {
        if pos + 1 < |raw| && jumps < MAX_JUMPS && PointerTarget(raw, pos) < pos {
          DecodeIffAaaaAndBack(raw, PointerTarget(raw, pos), jumps + 1, len);
        }
      } else if !IsReserved(b) && pos + 1 + b as int <= |raw| {
        assert WireOf(Extended(len, b)) == WireOf(len) + b as int + 1;
        if Extended(len, b) <= MAX_TEXT {
          DecodeIffAaaaAndBack(raw, pos + 1 + b as int, jumps, Extended(len, b));
        }
      }
    }
  }

  lemma {:induction false} AaaaImpliesSoa(raw: seq<byte>, pos: nat, jumps: nat, wire: nat)
    requires jumps <= MAX_JUMPS
    requires AaaaSkip(raw, pos, jumps, wire).Some?
    ensures SoaSkip(raw, pos, wire) == AaaaSkip(raw, pos, jumps, wire)
    decreases |raw| - pos
  {
    if raw[pos] != 0 && !IsPointer(raw[pos]) {
      AaaaImpliesSoa(raw, pos + 1 + raw[pos] as int, jumps, wire + raw[pos] as int + 1);
    }
  }

  // What decodeDNSWireName accepts, the other two accept at the same place
  // and leave at the same offset, past the start and within the packet.
  lemma RefinementChain(raw: seq<byte>, start: nat)
    requires Decode(raw, start, 0, 0).Success?
    ensures AaaaSkip(raw, start, 0, 1) == Some(Decode(raw, start, 0, 0).value.end)
    ensures SoaSkip(raw, start, 1) == Some(Decode(raw, start, 0, 0).value.end)
    ensures start < Decode(raw, start, 0, 0).value.end <= |raw|
  {
    DecodeIffAaaaAndBack(raw, start, 0, 0);
    AaaaImpliesSoa(raw, start, 0, 1);
  }

  // Neither step of the chain is an equality: a pointer forward passes the
  // AAAA walker alone of the first two, a pointer to itself only the last.
  lemma ChainIsStrict()
    ensures exists raw, start: nat :: AaaaSkip(raw, start, 0, 1).Some? && Decode(raw, start, 0, 0).Failure?
    ensures exists raw, start: nat :: SoaSkip(raw, start, 1).Some? && AaaaSkip(raw, start, 0, 1).None?
  {
    var forward: seq<byte> := [0, 0, 0, 0, 0, 0, 0, 0, 0, 0, 0, 0, 192, 14, 0];
    assert AaaaSkip(forward, 14, 1, 1) == Some(15);
    assert AaaaSkip(forward, 12, 0, 1).Some? && Decode(forward, 12, 0, 0).Failure?;
    var cyclic: seq<byte> := [0, 0, 0, 0, 0, 0, 0, 0, 0, 0, 0, 0, 192, 12];
    SelfPointer(cyclic, 12, 0, 1);
    assert SoaSkip(cyclic, 12, 1).Some? && AaaaSkip(cyclic, 12, 0, 1).None?;
  }

  // A pointer to itself exhausts the jumps of the AAAA walker, wherever in a
  // name it is met and after however many jumps and octets.
  lemma {:induction false} SelfPointer(raw: seq<byte>, pos: nat, jumps: nat, wire: nat)
    requires jumps <= MAX_JUMPS
    requires pos + 1 < |raw| && IsPointer(raw[pos]) && PointerTarget(raw, pos) == pos
    ensures AaaaSkip(raw, pos, jumps, wire) == None
    decreases MAX_JUMPS - jumps
  {
    if jumps < MAX_JUMPS {
      SelfPointer(raw, pos, jumps + 1, wire);
    }
  }

  // ------------------------------------------------------------ text form

  function LowerText(t: Text): (r: Text)
    ensures |r| == |t|
  {
    seq(|t|, i requires 0 <= i < |t| => LowerByte(t[i]))
  }

  // Labels in lower case, separated by dots.
  function Join(labels: seq<Text>): Text {
    if labels == [] then []
    else if |labels| == 1 then LowerText(labels[0])
    else Join(labels[..|labels| - 1]) + [DOT] + LowerText(labels[|labels| - 1])
  }

  predicate TextNonLDH(t: Text) {
    exists k :: 0 <= k < |t| && !IsLabelByte(LowerByte(t[k]))
  }

  predicate HasNonLDH(labels: seq<Text>) {
    exists i :: 0 <= i < |labels| && TextNonLDH(labels[i])
  }

  function LongestLabel(labels: seq<Text>): nat {
    if labels == [] then 0
    else
      var m := LongestLabel(labels[..|labels| - 1]);
      if |labels[|labels| - 1]| > m then |labels[|labels| - 1]| else m
  }

  datatype Decoded = Decoded(
    len: nat, end: nat, labelCount: nat, maxLabel: nat, hasNonLDH: bool, labelOffsets: seq<nat>)

  // Where each label lies in the text, be there dots inside labels or not.
  predicate MarksLabels(labels: seq<Text>, offsets: seq<nat>) {
    && |offsets| == |labels|
    && forall k :: 0 <= k < |labels| ==>
         && offsets[k] + |labels[k]| <= |Join(labels)|
         && Join(labels)[offsets[k]..offsets[k] + |labels[k]|] == LowerText(labels[k])
  }

  // What is left to read at pos completes what has been read before it.
  function Continue(labels: seq<Text>, nextOff: int, rest: Result<WireName, NameError>): Result<WireName, NameError>
    requires -1 <= nextOff
  {
    match rest
    case Failure(e) => Failure(e)
    case Success(n) => Success(WireName(labels + n.labels, if nextOff < 0 then n.end else nextOff))
  }

  // The inner copy: one label in lower case, appended to the text.
  method CopyLabel(raw: seq<byte>, pos: nat, lLen: nat, dst: array<byte>, outLen: nat) returns (nonLDH: bool)
    requires pos + lLen <= |raw| && outLen + lLen <= dst.Length
    modifies dst
    ensures dst[..outLen + lLen] == old(dst[..outLen]) + LowerText(raw[pos..pos + lLen])
    ensures nonLDH == TextNonLDH(raw[pos..pos + lLen])
  {
    nonLDH := false;
    ghost var lab := raw[pos..pos + lLen];
    for i := 0 to lLen
      invariant dst[..outLen] == old(dst[..outLen])
      invariant forall k :: 0 <= k < i ==> dst[outLen + k] == LowerByte(lab[k])
      invariant nonLDH <==> exists k :: 0 <= k < i && !IsLabelByte(LowerByte(lab[k]))
    {
      var ch := raw[pos + i];
      if IsUpper(ch) {
        ch := ch + 32;
      }
      assert ch == LowerByte(lab[i]);
      if !IsLabelByte(ch) {
        nonLDH := true;
      }
      dst[outLen + i] := ch;
    }
  }

  method DecodeDNSWireName(raw: seq<byte>, startOff: nat, dst: array<byte>) returns (r: Result<Decoded, NameError>)
    requires dst.Length == 256
    modifies dst
    ensures r.Failure? ==> Decode(raw, startOff, 0, 0) == Failure(r.error)
    ensures r.Success? ==>
      && Decode(raw, startOff, 0, 0).Success?
      && var n := Decode(raw, startOff, 0, 0).value;
      && r.value.len <= MAX_TEXT && dst[..r.value.len] == Join(n.labels)
      && r.value.end == n.end && startOff < n.end <= |raw|
      && r.value.labelCount == |n.labels| <= 127
      && r.value.maxLabel == LongestLabel(n.labels) <= 63
      && r.value.hasNonLDH == HasNonLDH(n.labels)
      && MarksLabels(n.labels, r.value.labelOffsets)
  {
    hide MarksLabels, HasNonLDH, LongestLabel, Join, LowerText, TextNonLDH, Decode, Continue, PointerTarget;
    NoLabels();
    WholeName(Decode(raw, startOff, 0, 0));
    var pos, nextOff, jumps, outLen := startOff, -1, 0, 0;
    var labelCount, maxLbl, hasNonLDH := 0, 0, false;
    var labelOffsets: seq<nat> := [];
    ghost var labels: seq<Text> := [];
    while true
      invariant 0 <= jumps <= MAX_JUMPS && 0 <= outLen <= MAX_TEXT && 0 <= pos && -1 <= nextOff
      invariant Continue(labels, nextOff, Decode(raw, pos, jumps, outLen)) == Decode(raw, startOff, 0, 0)
      invariant dst[..outLen] == Join(labels) && |Join(labels)| == outLen
      invariant labelCount == |labels| && 2 * |labels| <= outLen + 1
      invariant labels == [] <==> outLen == 0
      invariant maxLbl == LongestLabel(labels) <= 63
      invariant hasNonLDH == HasNonLDH(labels)
      invariant MarksLabels(labels, labelOffsets)
      decreases MAX_JUMPS - jumps, |raw| - pos
    {
      OneStep(labels, nextOff, raw, pos, jumps, outLen);
      if pos >= |raw| {
        return Failure(InvalidLabel);
      }
      var b := raw[pos];
      if b == 0 {
        if nextOff < 0 {
          nextOff := pos + 1;
        }
        break;
      }
      if IsPointer(b) {
        if pos + 1 >= |raw| {
          return Failure(InvalidLabel);
        }
        var target := PointerTarget(raw, pos);
        if target < 12 || target >= pos {
          return Failure(LoopPointer);
        }
        jumps := jumps + 1;
        if jumps > MAX_JUMPS {
          return Failure(LoopPointer);
        }
        if nextOff < 0 {
          nextOff := pos + 2;
        }
        pos := target;
        continue;
      }
      if IsReserved(b) {
        return Failure(InvalidLabel);
      }
      var lLen := b as int;
      pos := pos + 1;
      if lLen > 63 || pos + lLen > |raw| {
        return Failure(InvalidLabel);
      }
      ghost var lab := raw[pos..pos + lLen];
      if outLen > 0 {
        if outLen + 1 > MAX_TEXT {
          return Failure(NameTooLong);
        }
        dst[outLen] := DOT;
        outLen := outLen + 1;
      }
      if outLen + lLen > MAX_TEXT {
        return Failure(NameTooLong);
      }
      MarkLabel(labels, lab, labelOffsets);
      if labelCount < MAX_LABELS {
        labelOffsets := labelOffsets + [outLen];
      }
      var nonLDH := CopyLabel(raw, pos, lLen, dst, outLen);
      hasNonLDH := hasNonLDH || nonLDH;
      outLen := outLen + lLen;
      AppendLabel(labels, lab);
      labels := labels + [lab];
      labelCount := labelCount + 1;
      if lLen > maxLbl {
        maxLbl := lLen;
      }
      pos := pos + lLen;
    }
    RefinementChain(raw, startOff);
    return Success(Decoded(outLen, nextOff, labelCount, maxLbl, hasNonLDH, labelOffsets));
  }

  lemma WholeName(r: Result<WireName, NameError>)
    ensures Continue([], -1, r) == r
  {
    if r.Success? {
      assert [] + r.value.labels == r.value.labels;
    }
  }

  lemma NoLabels()
    ensures Join([]) == [] && LongestLabel([]) == 0 && !HasNonLDH([]) && MarksLabels([], [])
  {
  }

  // One more label goes behind the text so far and its dot.
  lemma MarkLabel(labels: seq<Text>, lab: Text, offsets: seq<nat>)
    requires MarksLabels(labels, offsets)
    ensures MarksLabels(labels + [lab], offsets + [|Join(labels)| + if labels == [] then 0 else 1])
  {
    AppendLabel(labels, lab);
    hide Join, LowerText;
    var all, marks := labels + [lab], offsets + [|Join(labels)| + if labels == [] then 0 else 1];
    var text := Join(labels);
    assert labels == [] ==> text == [] by {
      NoLabels();
    }
    assert Join(all)[..|text|] == text;
    forall k | 0 <= k < |all|
      ensures marks[k] + |all[k]| <= |Join(all)|
      ensures Join(all)[marks[k]..marks[k] + |all[k]|] == LowerText(all[k])
    {
      if k < |labels| {
        assert Join(all)[marks[k]..marks[k] + |all[k]|] == text[offsets[k]..offsets[k] + |labels[k]|];
      }
    }
  }

  lemma AppendLabel(labels: seq<Text>, lab: Text)
    ensures Join(labels + [lab]) == (if labels == [] then [] else Join(labels) + [DOT]) + LowerText(lab)
    ensures LongestLabel(labels + [lab]) == if |lab| > LongestLabel(labels) then |lab| else LongestLabel(labels)
    ensures HasNonLDH(labels + [lab]) <==> HasNonLDH(labels) || TextNonLDH(lab)
  {
    hide TextNonLDH, LowerText;
    var all := labels + [lab];
    assert all[..|all| - 1] == labels;
    assert all[|labels|] == lab;
    if HasNonLDH(labels) {
      var i :| 0 <= i < |labels| && TextNonLDH(labels[i]);
      assert TextNonLDH(all[i]);
    }
  }

  // One turn of the strict reading, whatever the byte at pos.
  lemma OneStep(labels: seq<Text>, nextOff: int, raw: seq<byte>, pos: nat, jumps: nat, len: nat)
    requires -1 <= nextOff && jumps <= MAX_JUMPS
    ensures var now := Continue(labels, nextOff, Decode(raw, pos, jumps, len));
      if pos >= |raw| then now == Failure(InvalidLabel)
      else if raw[pos] == 0 then now == Success(WireName(labels, if nextOff < 0 then pos + 1 else nextOff))
      else if IsPointer(raw[pos]) then
        if pos + 1 >= |raw| then now == Failure(InvalidLabel)
        else if !(12 <= PointerTarget(raw, pos) < pos) || jumps == MAX_JUMPS then now == Failure(LoopPointer)
        else now == Continue(labels, if nextOff < 0 then pos + 2 else nextOff,
                             Decode(raw, PointerTarget(raw, pos), jumps + 1, len))
      else if IsReserved(raw[pos]) || pos + 1 + raw[pos] as int > |raw| then now == Failure(InvalidLabel)
      else if Extended(len, raw[pos]) > MAX_TEXT then now == Failure(NameTooLong)
      else now == Continue(labels + [raw[pos + 1..pos + 1 + raw[pos] as int]], nextOff,
                           Decode(raw, pos + 1 + raw[pos] as int, jumps, Extended(len, raw[pos])))
  {
    if pos < |raw| && raw[pos] < 64 && pos + 1 + raw[pos] as int <= |raw| {
      var next := pos + 1 + raw[pos] as int;
      var lab := raw[pos + 1..next];
      var rest := Decode(raw, next, jumps, Extended(len, raw[pos]));
      if rest.Success? {
        assert labels + ([lab] + rest.value.labels) == labels + [lab] + rest.value.labels;
      }
    }
    assert labels + [] == labels;
  }

  method SauterNomAAAAIID(charge: seq<byte>, start: nat) returns (end: nat, ok: bool)
    ensures ok <==> AaaaSkip(charge, start, 0, 1).Some?
    ensures ok ==> AaaaSkip(charge, start, 0, 1) == Some(end)
    ensures !ok ==> end == 0
  {
    var position, finNom, sauts, longueur := start, -1, 0, 1;
    while true
      invariant 0 <= sauts <= MAX_JUMPS && 0 <= position && -1 <= finNom && 1 <= longueur
      invariant var rest := AaaaSkip(charge, position, sauts, longueur);
        AaaaSkip(charge, start, 0, 1) == if rest.Some? && finNom >= 0 then Some(finNom) else rest
      decreases MAX_JUMPS - sauts, |charge| - position
    {
      if position >= |charge| {
        return 0, false;
      }
      var octet := charge[position];
      position := position + 1;
      if octet == 0 {
        if finNom >= 0 {
          return finNom, true;
        }
        return position, true;
      }
      if IsPointer(octet) {
        if position >= |charge| || sauts >= 8 {
          return 0, false;
        }
        var cible := PointerTarget(charge, position - 1);
        position := position + 1;
        if cible >= |charge| {
          return 0, false;
        }
        if finNom < 0 {
          finNom := position;
        }
        position := cible;
        sauts := sauts + 1;
        continue;
      }
      if IsReserved(octet) || longueur + octet as int + 1 > 255 || octet as int > |charge| - position {
        return 0, false;
      }
      longueur := longueur + octet as int + 1;
      position := position + octet as int;
    }
  }

  method SauterNomDNS(paquet: seq<byte>, start: nat) returns (end: nat, ok: bool)
    ensures ok <==> SoaSkip(paquet, start, 1).Some?
    ensures ok ==> SoaSkip(paquet, start, 1) == Some(end)
    ensures !ok ==> end == 0
  {
    var position, longueurNom := start, 1;
    while true
      invariant 0 <= position && 1 <= longueurNom
      invariant SoaSkip(paquet, start, 1) == SoaSkip(paquet, position, longueurNom)
      decreases |paquet| - position
    {
      if position >= |paquet| {
        return 0, false;
      }
      var longueurEtiquette := paquet[position];
      position := position + 1;
      if longueurEtiquette == 0 {
        return position, true;
      }
      if IsPointer(longueurEtiquette) {
        if position >= |paquet| {
          return 0, false;
        }
        var cible := PointerTarget(paquet, position - 1);
        if cible >= |paquet| {
          return 0, false;
        }
        return position + 1, true;
      }
      if IsReserved(longueurEtiquette) || longueurNom + longueurEtiquette as int + 1 > 255
        || longueurEtiquette as int > |paquet| - position
      {
        return 0, false;
      }
      longueurNom := longueurNom + longueurEtiquette as int + 1;
      position := position + longueurEtiquette as int;
    }
  }
}
