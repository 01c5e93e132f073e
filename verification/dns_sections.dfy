// The section walks: the full decoder of dns_message.go against the two
// light walkers that only step over names and record headers.

module DnsSections {
  import opened Wrappers
  import opened Bytes
  import opened DnsNames

  const MAX_RRS: nat := 16
  const MAX_RDATA: nat := 1536
  const TYPE_SOA: nat := 6
  const TYPE_AAAA: nat := 28

  datatype Walker = Strict | Aaaa | Soa

  // How each walker steps over a name.
  function SkipName(w: Walker, raw: seq<byte>, pos: nat): (end: Option<nat>)
    ensures end.Some? ==> pos < end.value <= |raw|
  {
    match w
    case Aaaa => AaaaSkip(raw, pos, 0, 1)
    case Soa => SoaSkip(raw, pos, 1)
    case Strict =>
      (match Decode(raw, pos, 0, 0)
       case Failure(_) => None
       case Success(n) => RefinementChain(raw, pos); Some(n.end))
  }

  // What a walker sees of a record: its type and where its data lies.
  datatype Seen = Seen(rrType: nat, start: nat, length: nat)

  datatype Walk = Walk(seen: seq<Seen>, end: nat)

  // n questions from off on.
  function SkipQuestions(w: Walker, raw: seq<byte>, off: nat, n: nat): (end: Option<nat>)
    ensures end.Some? ==> end.value <= |raw| || end.value == off
  {
    if n == 0 then Some(off)
    else
      match SkipQuestions(w, raw, off, n - 1)
      case None => None
      case Some(p) =>
        match SkipName(w, raw, p)
        case None => None
        case Some(e) => if e + 4 > |raw| then None else Some(e + 4)
  }

  // One record at p.
  function SkipRecord(w: Walker, raw: seq<byte>, p: nat): Option<Walk> {
    match SkipName(w, raw, p)
    case None => None
    case Some(e) =>
      if e + 10 > |raw| || e + 10 + Word16(raw, e + 8) > |raw| then None
      else Some(Walk([Seen(Word16(raw, e), e + 10, Word16(raw, e + 8))], e + 10 + Word16(raw, e + 8)))
  }

  // n records from off on.
  function SkipRecords(w: Walker, raw: seq<byte>, off: nat, n: nat): (r: Option<Walk>)
    ensures r.Some? ==> |r.value.seen| == n
    ensures r.Some? ==> forall i :: 0 <= i < n ==> r.value.seen[i].start + r.value.seen[i].length <= |raw|
  {
    if n == 0 then Some(Walk([], off))
    else
      match SkipRecords(w, raw, off, n - 1)
      case None => None
      case Some(before) =>
        match SkipRecord(w, raw, before.end)
        case None => None
        case Some(one) => Some(Walk(before.seen + one.seen, one.end))
  }

  // Strict steps are steps of the other two walkers as well.
  lemma SkipAgrees(w: Walker, raw: seq<byte>, p: nat)
    requires SkipName(Strict, raw, p).Some?
    ensures SkipName(w, raw, p) == SkipName(Strict, raw, p)
  {
    RefinementChain(raw, p);
  }

  lemma {:induction false} QuestionsAgree(w: Walker, raw: seq<byte>, off: nat, n: nat)
    requires SkipQuestions(Strict, raw, off, n).Some?
    ensures SkipQuestions(w, raw, off, n) == SkipQuestions(Strict, raw, off, n)
  {
    hide SkipName;
    if n > 0 {
      QuestionsAgree(w, raw, off, n - 1);
      SkipAgrees(w, raw, SkipQuestions(Strict, raw, off, n - 1).value);
    }
  }

  lemma {:induction false} RecordsAgree(w: Walker, raw: seq<byte>, off: nat, n: nat)
    requires SkipRecords(Strict, raw, off, n).Some?
    ensures SkipRecords(w, raw, off, n) == SkipRecords(Strict, raw, off, n)
  {
    hide SkipName;
    if n > 0 {
      RecordsAgree(w, raw, off, n - 1);
      SkipAgrees(w, raw, SkipRecords(Strict, raw, off, n - 1).value.end);
    }
  }

  lemma {:induction false} QuestionsPrefix(w: Walker, raw: seq<byte>, off: nat, k: nat, n: nat)
    requires k <= n && SkipQuestions(w, raw, off, k).None?
    ensures SkipQuestions(w, raw, off, n).None?
    decreases n
  {
    if k < n {
      QuestionsPrefix(w, raw, off, k, n - 1);
    }
  }

  lemma {:induction false} RecordsPrefix(w: Walker, raw: seq<byte>, off: nat, k: nat, n: nat)
    requires k <= n
    ensures SkipRecords(w, raw, off, n).Some? ==>
      && SkipRecords(w, raw, off, k).Some?
      && SkipRecords(w, raw, off, k).value.seen == SkipRecords(w, raw, off, n).value.seen[..k]
    decreases n
  {
    hide SkipRecord;
    if k < n {
      RecordsPrefix(w, raw, off, k, n - 1);
    }
  }

  // One more record after k of them, or the end of the whole walk.
  lemma RecordStep(w: Walker, raw: seq<byte>, off: nat, k: nat, n: nat)
    requires k < n && SkipRecords(w, raw, off, k).Some?
    ensures var before := SkipRecords(w, raw, off, k).value;
      match SkipName(w, raw, before.end)
      case None => SkipRecords(w, raw, off, k + 1).None? && SkipRecords(w, raw, off, n).None?
      case Some(e) =>
        if e + 10 > |raw| || e + 10 + Word16(raw, e + 8) > |raw| then
          SkipRecords(w, raw, off, k + 1).None? && SkipRecords(w, raw, off, n).None?
        else
          SkipRecords(w, raw, off, k + 1)
          == Some(Walk(before.seen + [Seen(Word16(raw, e), e + 10, Word16(raw, e + 8))], e + 10 + Word16(raw, e + 8)))
  {
    hide SkipName, Word16;
    RecordsPrefix(w, raw, off, k + 1, n);
  }

  lemma NoRecords(w: Walker, raw: seq<byte>, off: nat)
    ensures SkipRecords(w, raw, off, 0) == Some(Walk([], off))
  {
  }

  // Walking n records and then m more is walking n + m records.
  lemma {:induction false} RecordsConcat(w: Walker, raw: seq<byte>, off: nat, n: nat, m: nat)
    requires SkipRecords(w, raw, off, n).Some?
    ensures var a := SkipRecords(w, raw, off, n).value;
      SkipRecords(w, raw, off, n + m) ==
        match SkipRecords(w, raw, a.end, m)
        case None => None
        case Some(b) => Some(Walk(a.seen + b.seen, b.end))
    decreases m
  {
    hide SkipRecord;
    if m > 0 {
      RecordsConcat(w, raw, off, n, m - 1);
      var a := SkipRecords(w, raw, off, n).value;
      var b := SkipRecords(w, raw, a.end, m - 1);
      if b.Some? && SkipRecord(w, raw, b.value.end).Some? {
        assert a.seen + (b.value.seen + SkipRecord(w, raw, b.value.end).value.seen)
            == a.seen + b.value.seen + SkipRecord(w, raw, b.value.end).value.seen;
      }
    } else {
      assert SkipRecords(w, raw, off, n).value.seen + [] == SkipRecords(w, raw, off, n).value.seen;
    }
  }

  // ------------------------------------------------------- full decoder

  datatype DnsError =
    | PacketTooShort
    | QuestionContract
    | BadName(name: NameError)
    | TooManyRRs
    | BadRecord
    | RDataTooLong

  datatype Record = Record(name: Text, rrType: nat, class_: nat, ttl: nat, rdata: seq<byte>)

  datatype Section = Section(records: seq<Record>, end: nat)

  function ParseRecord(raw: seq<byte>, p: nat): Result<Section, DnsError> {
    match Decode(raw, p, 0, 0)
    case Failure(e) => Failure(BadName(e))
    case Success(n) =>
      var e := n.end;
      if e + 10 > |raw| || e + 10 + Word16(raw, e + 8) > |raw| then Failure(BadRecord)
      else if Word16(raw, e + 8) > MAX_RDATA then Failure(RDataTooLong)
      else
        var stop := e + 10 + Word16(raw, e + 8);
        Success(Section([Record(Join(n.labels), Word16(raw, e), Word16(raw, e + 2),
                                Word16(raw, e + 4) * 0x1_0000 + Word16(raw, e + 6), raw[e + 10..stop])], stop))
  }

  function ParseRecords(raw: seq<byte>, off: nat, n: nat): (r: Result<Section, DnsError>)
    ensures r.Success? ==> |r.value.records| == n
  {
    if n == 0 then Success(Section([], off))
    else
      match ParseRecords(raw, off, n - 1)
      case Failure(e) => Failure(e)
      case Success(before) =>
        match ParseRecord(raw, before.end)
        case Failure(e) => Failure(e)
        case Success(one) => Success(Section(before.records + one.records, one.end))
  }

  function ParseSection(raw: seq<byte>, off: nat, n: nat): Result<Section, DnsError> {
    if n > MAX_RRS then Failure(TooManyRRs) else ParseRecords(raw, off, n)
  }

  function ParseQuestions(raw: seq<byte>, off: nat, n: nat): Result<nat, DnsError> {
    if n == 0 then Success(off)
    else
      match ParseQuestions(raw, off, n - 1)
      case Failure(e) => Failure(e)
      case Success(p) =>
        match Decode(raw, p, 0, 0)
        case Failure(e) => Failure(BadName(e))
        case Success(w) => if w.end + 4 > |raw| then Failure(QuestionContract) else Success(w.end + 4)
  }

  datatype Message = Message(
    qname: Text, qtype: nat, qclass: nat, answers: seq<Record>, authorities: seq<Record>, additionals: seq<Record>)

  // The three record sections in order.
  function ParseSections(raw: seq<byte>, off: nat): Result<(seq<Record>, seq<Record>, seq<Record>), DnsError>
    requires |raw| >= 12
  {
    match ParseSection(raw, off, Word16(raw, 6))
    case Failure(e) => Failure(e)
    case Success(an) =>
      match ParseSection(raw, an.end, Word16(raw, 8))
      case Failure(e) => Failure(e)
      case Success(ns) =>
        match ParseSection(raw, ns.end, Word16(raw, 10))
        case Failure(e) => Failure(e)
        case Success(ar) => Success((an.records, ns.records, ar.records))
  }

  // The whole packet: questions, then records.
  function Parse(raw: seq<byte>): Result<Message, DnsError> {
    if |raw| < 12 then Failure(PacketTooShort)
    else if Word16(raw, 4) == 0 then Failure(QuestionContract)
    else
      match ParseQuestions(raw, 12, Word16(raw, 4))
      case Failure(e) => Failure(e)
      case Success(off) =>
        match ParseSections(raw, off)
        case Failure(e) => Failure(e)
        case Success(rs) =>
          QuestionName(raw);
          var q := Decode(raw, 12, 0, 0).value;
          Success(Message(Join(q.labels), Word16(raw, q.end), Word16(raw, q.end + 2), rs.0, rs.1, rs.2))
  }

  lemma {:induction false} FirstQuestion(raw: seq<byte>, n: nat)
    requires n > 0 && ParseQuestions(raw, 12, n).Success?
    ensures ParseQuestions(raw, 12, 1).Success?
  {
    if n > 1 {
      FirstQuestion(raw, n - 1);
    }
  }

  lemma QuestionName(raw: seq<byte>)
    requires |raw| >= 12 && Word16(raw, 4) > 0 && ParseQuestions(raw, 12, Word16(raw, 4)).Success?
    ensures Decode(raw, 12, 0, 0).Success? && Decode(raw, 12, 0, 0).value.end + 4 <= |raw|
  {
    FirstQuestion(raw, Word16(raw, 4));
    assert ParseQuestions(raw, 12, 0) == Success(12);
  }

  // What a record and what a walker saw of it have in common.
  ghost predicate Describes(raw: seq<byte>, s: Seen, r: Record) {
    && s.rrType == r.rrType
    && s.start + s.length <= |raw|
    && raw[s.start..s.start + s.length] == r.rdata
  }

  lemma RecordIsWalked(raw: seq<byte>, p: nat)
    requires ParseRecord(raw, p).Success?
    ensures SkipRecord(Strict, raw, p).Some?
    ensures var w, r := SkipRecord(Strict, raw, p).value, ParseRecord(raw, p).value;
      |w.seen| == |r.records| == 1 && w.end == r.end && Describes(raw, w.seen[0], r.records[0])
  {
    hide Decode, Join, Word16;
  }

  lemma {:induction false} ParsedIsWalked(raw: seq<byte>, off: nat, n: nat)
    requires ParseRecords(raw, off, n).Success?
    ensures SkipRecords(Strict, raw, off, n).Some?
    ensures SkipRecords(Strict, raw, off, n).value.end == ParseRecords(raw, off, n).value.end
    ensures forall i :: 0 <= i < n ==>
      Describes(raw, SkipRecords(Strict, raw, off, n).value.seen[i], ParseRecords(raw, off, n).value.records[i])
  {
    hide ParseRecord, SkipRecord, Describes;
    if n > 0 {
      ParsedIsWalked(raw, off, n - 1);
      RecordIsWalked(raw, ParseRecords(raw, off, n - 1).value.end);
    }
  }

  lemma {:induction false} QuestionsWalked(raw: seq<byte>, off: nat, n: nat)
    requires ParseQuestions(raw, off, n).Success?
    ensures SkipQuestions(Strict, raw, off, n) == Some(ParseQuestions(raw, off, n).value)
  {
    hide Decode;
    if n > 0 {
      QuestionsWalked(raw, off, n - 1);
    }
  }

  // ------------------------------------------------------- light walkers

  // The records both SOA checks step over: questions, then records.
  function Records(w: Walker, raw: seq<byte>, n: nat): Option<Walk>
    requires |raw| >= 12
  {
    match SkipQuestions(w, raw, 12, Word16(raw, 4))
    case None => None
    case Some(off) => SkipRecords(w, raw, off, n)
  }

  // The i-th record after the questions is readable and is an SOA record.
  predicate SoaAt(raw: seq<byte>, i: nat)
    requires |raw| >= 12
  {
    Records(Soa, raw, i + 1).Some? && Records(Soa, raw, i + 1).value.seen[i].rrType == TYPE_SOA
  }

  // Some authority record of type SOA, with everything before it readable.
  predicate HasSoaAuthority(raw: seq<byte>)
    requires |raw| >= 12
  {
    exists i: nat :: Word16(raw, 6) <= i < Word16(raw, 6) + Word16(raw, 8) && SoaAt(raw, i)
  }

  predicate LegitimateType(t: nat) { t == 5 || t == 39 || t == 46 }

  // A readable answer section made of CNAME, DNAME and RRSIG records only.
  predicate LegitimateNxdomain(raw: seq<byte>)
    requires |raw| >= 12
  {
    && Word16(raw, 4) > 0
    && Records(Soa, raw, Word16(raw, 6)).Some?
    && AllLegitimate(Records(Soa, raw, Word16(raw, 6)).value.seen)
  }

  predicate AllLegitimate(seen: seq<Seen>) {
    forall i :: 0 <= i < |seen| ==> LegitimateType(seen[i].rrType)
  }

  function CountAaaa(seen: seq<Seen>): nat {
    if seen == [] then 0
    else CountAaaa(seen[..|seen| - 1]) + if seen[|seen| - 1].rrType == TYPE_AAAA then 1 else 0
  }

  predicate CarriesPrefix(s: Seen) { s.rrType == TYPE_AAAA && s.length >= 8 }

  // The first eight bytes of the first AAAA record that has that many.
  function FirstPrefix(raw: seq<byte>, seen: seq<Seen>): Option<seq<byte>>
    requires forall i :: 0 <= i < |seen| ==> seen[i].start + seen[i].length <= |raw|
  {
    if seen == [] then None
    else
      var before := FirstPrefix(raw, seen[..|seen| - 1]);
      var s := seen[|seen| - 1];
      if before.None? && CarriesPrefix(s) then Some(raw[s.start..s.start + 8]) else before
  }

  method SkipQuestionsSoa(raw: seq<byte>, questions: nat) returns (position: nat, ok: bool)
    requires |raw| >= 12
    ensures ok <==> SkipQuestions(Soa, raw, 12, questions).Some?
    ensures ok ==> SkipQuestions(Soa, raw, 12, questions) == Some(position)
  {
    hide SoaSkip;
    position := 12;
    for i := 0 to questions
      invariant SkipQuestions(Soa, raw, 12, i) == Some(position)
    {
      var end, valid := SauterNomDNS(raw, position);
      if !valid || |raw| - end < 4 {
        QuestionsPrefix(Soa, raw, 12, i + 1, questions);
        return 0, false;
      }
      position := end + 4;
    }
    return position, true;
  }

  // contientSOAAutorite: the loop over answers and authorities together.
  method ContientSOAAutorite(raw: seq<byte>) returns (found: bool)
    requires |raw| >= 12
    ensures found <==> HasSoaAuthority(raw)
  {
    hide SoaSkip, SkipRecords, SkipRecord, HasSoaAuthority, SkipQuestions, Word16;
    var questions, reponses, autorites := Word16(raw, 4), Word16(raw, 6), Word16(raw, 8);
    var position, valide := SkipQuestionsSoa(raw, questions);
    if !valide {
      Unreadable(raw);
      return false;
    }
    ghost var off := position;
    NoRecords(Soa, raw, off);
    for indice := 0 to reponses + autorites
      invariant SkipRecords(Soa, raw, off, indice).Some? && SkipRecords(Soa, raw, off, indice).value.end == position
      invariant forall i :: reponses <= i < indice ==>
        SkipRecords(Soa, raw, off, indice).value.seen[i].rrType != TYPE_SOA
    {
      RecordStep(Soa, raw, off, indice, reponses + autorites);
      var end, valid := SauterNomDNS(raw, position);
      if !valid || |raw| - end < 10 {
        NoSoaBefore(raw, off, indice);
        return false;
      }
      var typeRessource, longueurDonnees := Word16(raw, end), Word16(raw, end + 8);
      position := end + 10;
      if longueurDonnees > |raw| - position {
        NoSoaBefore(raw, off, indice);
        return false;
      }
      if indice >= reponses && typeRessource == TYPE_SOA {
        SoaFound(raw, indice);
        return true;
      }
      position := position + longueurDonnees;
    }
    NoSoaBefore(raw, off, reponses + autorites);
    return false;
  }

  lemma Unreadable(raw: seq<byte>)
    requires |raw| >= 12 && SkipQuestions(Soa, raw, 12, Word16(raw, 4)).None?
    ensures !HasSoaAuthority(raw)
  {
  }

  lemma SoaFound(raw: seq<byte>, i: nat)
    requires |raw| >= 12 && SoaAt(raw, i)
    requires Word16(raw, 6) <= i < Word16(raw, 6) + Word16(raw, 8)
    ensures HasSoaAuthority(raw)
  {
  }

  // Once the walk stops with no SOA seen in the authority part, there is none.
  lemma NoSoaBefore(raw: seq<byte>, off: nat, k: nat)
    requires |raw| >= 12 && SkipQuestions(Soa, raw, 12, Word16(raw, 4)) == Some(off)
    requires SkipRecords(Soa, raw, off, k).Some?
    requires k < Word16(raw, 6) + Word16(raw, 8) ==> SkipRecords(Soa, raw, off, k + 1).None?
    requires forall i :: Word16(raw, 6) <= i < k ==> SkipRecords(Soa, raw, off, k).value.seen[i].rrType != TYPE_SOA
    ensures !HasSoaAuthority(raw)
  {
    hide SkipRecord, SkipRecords, SkipQuestions, Word16;
    forall i: nat | Word16(raw, 6) <= i < Word16(raw, 6) + Word16(raw, 8)
      ensures !SoaAt(raw, i)
    {
      if i < k {
        RecordsPrefix(Soa, raw, off, i + 1, k);
      } else {
        RecordsPrefix(Soa, raw, off, k + 1, i + 1);
      }
    }
  }

  method ContientChargeReponseIllegitimeNXDOMAIN(raw: seq<byte>) returns (illegitimate: bool)
    requires |raw| >= 12
    ensures illegitimate <==> !LegitimateNxdomain(raw)
  {
    hide SoaSkip, LegitimateType, SkipRecords, SkipRecord, SkipQuestions, Word16;
    var questions, reponses := Word16(raw, 4), Word16(raw, 6);
    if questions == 0 {
      return true;
    }
    var position, valide := SkipQuestionsSoa(raw, questions);
    if !valide {
      return true;
    }
    ghost var off := position;
    NoRecords(Soa, raw, off);
    for indice := 0 to reponses
      invariant SkipRecords(Soa, raw, off, indice).Some? && SkipRecords(Soa, raw, off, indice).value.end == position
      invariant AllLegitimate(SkipRecords(Soa, raw, off, indice).value.seen)
    {
      RecordStep(Soa, raw, off, indice, reponses);
      RecordsPrefix(Soa, raw, off, indice + 1, reponses);
      var end, valid := SauterNomDNS(raw, position);
      if !valid || |raw| - end < 10 {
        return true;
      }
      var typeRessource, longueurDonnees := Word16(raw, end), Word16(raw, end + 8);
      position := end + 10;
      if longueurDonnees > |raw| - position {
        return true;
      }
      assert SkipRecords(Soa, raw, off, indice + 1).value.seen[indice].rrType == typeRessource;
      if !LegitimateType(typeRessource) {
        return true;
      }
      position := position + longueurDonnees;
    }
    return false;
  }

  method SkipQuestionsAaaa(raw: seq<byte>, questions: nat) returns (position: nat, ok: bool)
    requires |raw| >= 12
    ensures ok <==> SkipQuestions(Aaaa, raw, 12, questions).Some?
    ensures ok ==> SkipQuestions(Aaaa, raw, 12, questions) == Some(position)
  {
    hide AaaaSkip;
    position := 12;
    for i := 0 to questions
      invariant SkipQuestions(Aaaa, raw, 12, i) == Some(position)
    {
      var finNom, valid := SauterNomAAAAIID(raw, position);
      if !valid || |raw| - finNom < 4 {
        QuestionsPrefix(Aaaa, raw, 12, i + 1, questions);
        return 0, false;
      }
      position := finNom + 4;
    }
    return position, true;
  }

  method CompterReponsesAAAAIID(raw: seq<byte>)
    returns (nombre: nat, prefixe: Option<seq<byte>>, valide: bool)
    requires |raw| >= 12
    ensures valide <==> Records(Aaaa, raw, Word16(raw, 6)).Some?
    ensures !valide ==> nombre == 0 && prefixe == None
    ensures valide ==>
      && nombre == CountAaaa(Records(Aaaa, raw, Word16(raw, 6)).value.seen)
      && prefixe == FirstPrefix(raw, Records(Aaaa, raw, Word16(raw, 6)).value.seen)
  {
    hide AaaaSkip, SkipRecords, SkipRecord, SkipQuestions, Word16;
    var questions, reponses := Word16(raw, 4), Word16(raw, 6);
    nombre, prefixe := 0, None;
    var position, ok := SkipQuestionsAaaa(raw, questions);
    if !ok {
      return 0, None, false;
    }
    ghost var off := position;
    NoRecords(Aaaa, raw, off);
    for indice := 0 to reponses
      invariant SkipRecords(Aaaa, raw, off, indice).Some? && SkipRecords(Aaaa, raw, off, indice).value.end == position
      invariant nombre == CountAaaa(SkipRecords(Aaaa, raw, off, indice).value.seen)
      invariant prefixe == FirstPrefix(raw, SkipRecords(Aaaa, raw, off, indice).value.seen)
    {
      RecordStep(Aaaa, raw, off, indice, reponses);
      ghost var before := SkipRecords(Aaaa, raw, off, indice).value.seen;
      var finNom, valid := SauterNomAAAAIID(raw, position);
      if !valid || |raw| - finNom < 10 {
        return 0, None, false;
      }
      var longueur := Word16(raw, finNom + 8);
      position := finNom + 10;
      if longueur > |raw| - position {
        return 0, None, false;
      }
      ghost var s := Seen(Word16(raw, finNom), position, longueur);
      assert (before + [s])[..indice] == before;
      if Word16(raw, finNom) == TYPE_AAAA {
        nombre := nombre + 1;
        if prefixe.None? && longueur >= 8 {
          prefixe := Some(raw[position..position + 8]);
        }
      }
      position := position + longueur;
    }
    return nombre, prefixe, true;
  }

  // ------------------------------------------------------- agreement

  lemma ParsedRecords(raw: seq<byte>, w: Walker)
    requires Parse(raw).Success?
    ensures |raw| >= 12 && Word16(raw, 4) > 0
    ensures Records(w, raw, Word16(raw, 6)).Some?
    ensures |Parse(raw).value.answers| == Word16(raw, 6) && |Parse(raw).value.authorities| == Word16(raw, 8)
    ensures forall i :: 0 <= i < Word16(raw, 6) ==>
      Describes(raw, Records(w, raw, Word16(raw, 6)).value.seen[i], Parse(raw).value.answers[i])
    ensures Records(w, raw, Word16(raw, 6) + Word16(raw, 8)).Some?
    ensures forall i :: 0 <= i < Word16(raw, 8) ==>
      Describes(raw, Records(w, raw, Word16(raw, 6) + Word16(raw, 8)).value.seen[Word16(raw, 6) + i],
                Parse(raw).value.authorities[i])
  {
    hide Decode, SkipRecord, ParseRecord, Describes, SkipQuestions, ParseQuestions, SkipRecords, ParseRecords, Word16;
    var qd, an, ns := Word16(raw, 4), Word16(raw, 6), Word16(raw, 8);
    QuestionsWalked(raw, 12, qd);
    QuestionsAgree(w, raw, 12, qd);
    var off := ParseQuestions(raw, 12, qd).value;
    ParsedIsWalked(raw, off, an);
    RecordsAgree(w, raw, off, an);
    var mid := ParseRecords(raw, off, an).value.end;
    ParsedIsWalked(raw, mid, ns);
    RecordsAgree(w, raw, mid, ns);
    RecordsConcat(w, raw, off, an, ns);
  }

  // Whenever the full decoder accepts a packet, the SOA check answers what
  // the decoded authority records say.
  lemma SoaAgreesWithParse(raw: seq<byte>)
    requires Parse(raw).Success?
    ensures |raw| >= 12
    ensures HasSoaAuthority(raw) <==> exists r :: r in Parse(raw).value.authorities && r.rrType == TYPE_SOA
  {
    hide Parse, SkipRecord, SkipRecords, SkipQuestions, Word16;
    ParsedRecords(raw, Soa);
    var an, ns := Word16(raw, 6), Word16(raw, 8);
    var off := SkipQuestions(Soa, raw, 12, Word16(raw, 4)).value;
    var auth := Parse(raw).value.authorities;
    forall k | 0 <= k < ns
      ensures SoaAt(raw, an + k) <==> auth[k].rrType == TYPE_SOA
    {
      RecordsPrefix(Soa, raw, off, an + k + 1, an + ns);
      assert Describes(raw, Records(Soa, raw, an + ns).value.seen[an + k], auth[k]);
    }
    forall i: nat | an <= i < an + ns && SoaAt(raw, i)
      ensures exists r :: r in auth && r.rrType == TYPE_SOA
    {
      assert SoaAt(raw, an + (i - an));
      assert auth[i - an] in auth;
    }
  }

  lemma NxdomainAgreesWithParse(raw: seq<byte>)
    requires Parse(raw).Success?
    ensures |raw| >= 12
    ensures LegitimateNxdomain(raw) <==> forall r :: r in Parse(raw).value.answers ==> LegitimateType(r.rrType)
  {
    hide Parse, SkipRecord, SkipRecords, SkipQuestions, Word16, LegitimateType;
    ParsedRecords(raw, Soa);
    var an := Word16(raw, 6);
    var seen := Records(Soa, raw, an).value.seen;
    var answers := Parse(raw).value.answers;
    forall i | 0 <= i < an
      ensures seen[i].rrType == answers[i].rrType && answers[i] in answers
    {
      assert Describes(raw, seen[i], answers[i]);
    }
  }

  function CountType(rs: seq<Record>, t: nat): nat {
    if rs == [] then 0
    else CountType(rs[..|rs| - 1], t) + if rs[|rs| - 1].rrType == t then 1 else 0
  }

  // The first eight bytes of data of the first AAAA record with that many.
  function FirstAaaaPrefix(rs: seq<Record>): Option<seq<byte>> {
    if rs == [] then None
    else
      var before := FirstAaaaPrefix(rs[..|rs| - 1]);
      var r := rs[|rs| - 1];
      if before.None? && r.rrType == TYPE_AAAA && |r.rdata| >= 8 then Some(r.rdata[..8]) else before
  }

  lemma {:induction false} CountsMatch(raw: seq<byte>, seen: seq<Seen>, rs: seq<Record>)
    requires |seen| == |rs|
    requires forall i :: 0 <= i < |seen| ==> Describes(raw, seen[i], rs[i])
    ensures CountAaaa(seen) == CountType(rs, TYPE_AAAA)
    ensures forall i :: 0 <= i < |seen| ==> seen[i].start + seen[i].length <= |raw|
    ensures FirstPrefix(raw, seen) == FirstAaaaPrefix(rs)
  {
    if seen != [] {
      var k := |seen| - 1;
      CountsMatch(raw, seen[..k], rs[..k]);
      assert Describes(raw, seen[k], rs[k]);
      assert seen[k].length >= 8 ==> rs[k].rdata[..8] == raw[seen[k].start..seen[k].start + 8];
    }
  }

  lemma AaaaAgreesWithParse(raw: seq<byte>)
    requires Parse(raw).Success?
    ensures |raw| >= 12 && Records(Aaaa, raw, Word16(raw, 6)).Some?
    ensures var seen := Records(Aaaa, raw, Word16(raw, 6)).value.seen;
      && CountAaaa(seen) == CountType(Parse(raw).value.answers, TYPE_AAAA)
      && FirstPrefix(raw, seen) == FirstAaaaPrefix(Parse(raw).value.answers)
  {
    hide Parse, SkipRecord;
    ParsedRecords(raw, Aaaa);
    CountsMatch(raw, Records(Aaaa, raw, Word16(raw, 6)).value.seen, Parse(raw).value.answers);
  }
}
