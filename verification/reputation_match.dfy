// Looking a name up in a loaded table: a binary search per label suffix
// that has to agree with a linear scan of all entries, for every hash.

module ReputationMatch {
  import opened Wrappers
  import opened Bytes
  import opened ReputationNames
  import opened ReputationPolicy
  import opened ReputationCanon
  import opened ReputationSnapshot

  // What a table answers about a name: the scan of all its entries.
  function Verdict(hash: Hash, t: ReputationTable, fqdn: Name): Option<BuildEntry>
    requires ValidTable(hash, t)
  {
    if ValidName(Clean(fqdn)) then LinearScan(Records(hash, t), Clean(fqdn)) else None
  }

  // The entries matchHash may return for one label suffix.
  predicate Candidate(e: BuildEntry, name: Name, exact: bool) {
    && e.domain == name
    && (exact || (e.matchKind == SUBTREE && (IsSharedHosting(name) ==> e.classification == BLOCK_C2)))
  }

  ghost predicate BestCandidate(es: seq<BuildEntry>, name: Name, exact: bool, r: Option<BuildEntry>) {
    match r
    case None => forall e :: e in es ==> !Candidate(e, name, exact)
    case Some(m) =>
      && m in es
      && Candidate(m, name, exact)
      && forall e :: e in es && Candidate(e, name, exact) ==> !Outranks(e, m)
  }

  // sort.Search by hand: the first record whose hash is not below h.
  method LowerBound(hash: Hash, t: ReputationTable, h: u64) returns (low: nat)
    requires ValidTable(hash, t)
    ensures low <= t.numEntries
    ensures forall k :: 0 <= k < low ==> RecordAt(t.entriesData, k).domainHash < h
    ensures forall k :: low <= k < t.numEntries ==> h <= RecordAt(t.entriesData, k).domainHash
  {
    hide ValidRecord;
    var high := t.numEntries;
    low := 0;
    while low < high
      invariant 0 <= low <= high <= t.numEntries
      invariant forall k :: 0 <= k < low ==> RecordAt(t.entriesData, k).domainHash < h
      invariant forall k :: high <= k < t.numEntries ==> h <= RecordAt(t.entriesData, k).domainHash
    {
      var mid := low + (high - low) / 2;
      var midHash := GetLE(t.entriesData[16 * mid..16 * mid + 8]);
      assert midHash == RecordAt(t.entriesData, mid).domainHash;
      if midHash < h {
        low := mid + 1;
      } else {
        high := mid;
      }
    }
  }

  lemma NoCandidate(name: Name, exact: bool)
    ensures BestCandidate([], name, exact, None)
  {
  }

  lemma CandidateStep(es: seq<BuildEntry>, e: BuildEntry, name: Name, exact: bool, res: Option<BuildEntry>)
    requires BestCandidate(es, name, exact, res)
    requires ValidClass(e.classification) && (res.Some? ==> ValidClass(res.value.classification))
    ensures BestCandidate(es + [e], name, exact,
      if Candidate(e, name, exact)
         && (res.None? || Rank(e.classification) > Rank(res.value.classification)
             || (e.classification == res.value.classification && e.matchKind < res.value.matchKind))
      then Some(e) else res)
  {
  }

  // Entries outside the range of equal hashes do not carry the name.
  lemma OutsideRange(es: seq<BuildEntry>, name: Name, exact: bool, lo: nat, hi: nat, res: Option<BuildEntry>)
    requires lo <= hi <= |es|
    requires forall k :: 0 <= k < lo || hi <= k < |es| ==> es[k].domain != name
    requires BestCandidate(es[lo..hi], name, exact, res)
    ensures BestCandidate(es, name, exact, res)
  {
    hide Outranks, IsSharedHosting;
    forall e | e in es && Candidate(e, name, exact)
      ensures e in es[lo..hi]
    {
      var k :| 0 <= k < |es| && es[k] == e;
      assert es[lo..hi][k - lo] == e;
    }
  }

  lemma EntryFacts(hash: Hash, t: ReputationTable, i: nat)
    requires ValidTable(hash, t) && i < t.numEntries
    ensures Records(hash, t)[i] == EntryAt(hash, t, i)
    ensures ValidClass(EntryAt(hash, t, i).classification)
    ensures RecordAt(t.entriesData, i).domainHash == hash(EntryAt(hash, t, i).domain)
  {
    hide ValidName;
    assert ValidRecord(hash, t.stringBlock, RecordAt(t.entriesData, i));
  }

  // matchHash: scans the whole range of equal hashes and trusts only the text.
  method MatchHash(hash: Hash, t: ReputationTable, name: Name, exact: bool) returns (res: Option<BuildEntry>)
    requires ValidTable(hash, t)
    ensures BestCandidate(Records(hash, t), name, exact, res)
  {
    hide ValidRecord, IsSharedHosting, BestCandidate, Records, EntryAt;
    ghost var es := Records(hash, t);
    var h := hash(name);
    var low := LowerBound(hash, t, h);
    res := None;
    NoCandidate(name, exact);
    assert es[low..low] == [];
    var i := low;
    while i < t.numEntries
      invariant low <= i <= t.numEntries
      invariant res.Some? ==> ValidClass(res.value.classification)
      invariant BestCandidate(es[low..i], name, exact, res)
    {
      if RecordAt(t.entriesData, i).domainHash != h {
        break;
      }
      EntryFacts(hash, t, i);
      assert es[low..i + 1] == es[low..i] + [es[i]];
      var e := EntryAt(hash, t, i);
      CandidateStep(es[low..i], e, name, exact, res);
      var silent := e.matchKind != SUBTREE || (IsSharedHosting(e.domain) && e.classification != BLOCK_C2);
      if e.domain != name || (!exact && silent) {
        i := i + 1;
        continue;
      }
      if res.None? || Rank(e.classification) > Rank(res.value.classification)
        || (e.classification == res.value.classification && e.matchKind < res.value.matchKind)
      {
        res := Some(e);
      }
      i := i + 1;
    }
    forall k | 0 <= k < low || i <= k < t.numEntries
      ensures es[k].domain != name
    {
      EntryFacts(hash, t, k);
    }
    OutsideRange(es, name, exact, low, i, res);
  }

  // r is the best of the applicable entries whose domain has at least len bytes.
  ghost predicate BestFrom(es: seq<BuildEntry>, name: Name, len: nat, r: Option<BuildEntry>) {
    match r
    case None => forall e :: e in es && |e.domain| >= len ==> !Applies(e, name)
    case Some(m) =>
      && m in es && |m.domain| >= len
      && Applies(m, name)
      && forall e :: e in es && |e.domain| >= len && Applies(e, name) ==> !Outranks(e, m)
  }

  predicate IsSuffixAt(curr: Name, name: Name) {
    curr == name || IsChildOf(name, curr)
  }

  lemma NothingLonger(es: seq<BuildEntry>, name: Name)
    ensures BestFrom(es, name, |name| + 1, None)
  {
  }

  // Taking the suffix curr into account after all longer ones.
  lemma BestStep(es: seq<BuildEntry>, name: Name, curr: Name, res: Option<BuildEntry>, cand: Option<BuildEntry>)
    requires forall e :: e in es ==> ValidEntry(e)
    requires IsSuffixAt(curr, name)
    requires BestFrom(es, name, |curr| + 1, res)
    requires BestCandidate(es, curr, curr == name, cand)
    ensures BestFrom(es, name, |curr|,
                     if cand.Some? && (res.None? || Rank(cand.value.classification) > Rank(res.value.classification))
                     then cand else res)
  {
    forall e | e in es && |e.domain| == |curr|
      ensures Applies(e, name) <==> Candidate(e, curr, curr == name)
    {
    }
  }

  // No applicable domain ends strictly between a suffix and its next dot.
  lemma NoBoundary(name: Name, curr: Name, stop: int, e: BuildEntry)
    requires IsSuffixAt(curr, name) && 0 <= stop <= |curr|
    requires forall k :: 0 <= k < stop ==> curr[k] != DOT
    requires |curr| - stop <= |e.domain| < |curr|
    ensures !Applies(e, name)
  {
    hide IsSharedHosting;
    assert name[|name| - |e.domain| - 1] == curr[|curr| - |e.domain| - 1];
  }

  lemma NextIsSuffix(name: Name, curr: Name, dot: int)
    requires IsSuffixAt(curr, name)
    requires 0 <= dot < |curr| - 1 && curr[dot] == DOT
    ensures IsSuffixAt(curr[dot + 1..], name)
  {
    var base := |name| - |curr|;
    assert curr == name[base..];
    assert curr[dot + 1..] == name[base + dot + 1..];
  }

  lemma NextSuffix(es: seq<BuildEntry>, name: Name, curr: Name, dot: int, res: Option<BuildEntry>)
    requires IsSuffixAt(curr, name)
    requires 0 <= dot < |curr| - 1 && curr[dot] == DOT
    requires forall k :: 0 <= k < dot ==> curr[k] != DOT
    requires BestFrom(es, name, |curr|, res)
    ensures IsSuffixAt(curr[dot + 1..], name)
    ensures BestFrom(es, name, |curr| - dot, res)
  {
    hide Applies, Outranks, IsSuffixAt;
    NextIsSuffix(name, curr, dot);
    forall e | e in es && |curr| - dot <= |e.domain| < |curr|
      ensures !Applies(e, name)
    {
      NoBoundary(name, curr, dot, e);
    }
  }

  lemma LastSuffix(es: seq<BuildEntry>, name: Name, curr: Name, res: Option<BuildEntry>)
    requires forall e :: e in es ==> e.domain != []
    requires IsSuffixAt(curr, name) && curr != []
    requires forall k :: 0 <= k < |curr| - 1 ==> curr[k] != DOT
    requires BestFrom(es, name, |curr|, res)
    ensures IsBest(es, name, res)
  {
    hide Applies, Outranks, IsSuffixAt;
    forall e | e in es && |e.domain| < |curr|
      ensures !Applies(e, name)
    {
      NoBoundary(name, curr, |curr| - 1, e);
    }
  }

  lemma NamesNotEmpty(es: seq<BuildEntry>, name: Name)
    requires ValidName(name) && forall e :: e in es ==> ValidEntry(e)
    ensures name != [] && forall e :: e in es ==> e.domain != []
  {
  }

  lemma EmptyName()
    ensures !ValidName(Clean([]))
  {
  }

  // strings.IndexByte.
  method IndexDot(s: Name) returns (dot: int)
    ensures -1 <= dot < |s|
    ensures dot >= 0 ==> s[dot] == DOT
    ensures forall k :: 0 <= k < (if dot < 0 then |s| else dot) ==> s[k] != DOT
  {
    dot := 0;
    while dot < |s|
      invariant 0 <= dot <= |s|
      invariant forall k :: 0 <= k < dot ==> s[k] != DOT
    {
      if s[dot] == DOT {
        return;
      }
      dot := dot + 1;
    }
    dot := -1;
  }

  lemma VerdictDecides(hash: Hash, t: ReputationTable, fqdn: Name)
    requires ValidTable(hash, t)
    ensures ValidName(Clean(fqdn)) ==> Decides(Records(hash, t), Clean(fqdn), Verdict(hash, t, fqdn))
  {
    hide ValidTable, Records, ValidName, Decides, ValidEntry;
    RecordsValid(hash, t);
    ScanDecides(Records(hash, t), Clean(fqdn));
  }

  method Match(hash: Hash, t: ReputationTable, fqdn: Name) returns (res: Option<BuildEntry>)
    requires ValidTable(hash, t)
    ensures res == Verdict(hash, t, fqdn)
    ensures if ValidName(Clean(fqdn)) then Decides(Records(hash, t), Clean(fqdn), res) else res == None
  {
    VerdictDecides(hash, t, fqdn);
    hide ValidRecord, ValidName, IsBest, Clean, BestCandidate, BestFrom, ValidTable, Records, Decides;
    if |fqdn| == 0 || t.numEntries == 0 {
      EmptyName();
      return None;
    }
    var fqdnClean := CleanDomain(fqdn);
    var valid := ValidReputationDomain(fqdnClean);
    if !valid {
      return None;
    }
    ghost var es := Records(hash, t);
    RecordsValid(hash, t);
    NamesNotEmpty(es, fqdnClean);
    NothingLonger(es, fqdnClean);
    res := None;
    var curr := fqdnClean;
    while true
      invariant IsSuffixAt(curr, fqdnClean) && curr != []
      invariant BestFrom(es, fqdnClean, |curr| + 1, res)
      decreases |curr|
    {
      var candidate := MatchHash(hash, t, curr, curr == fqdnClean);
      BestStep(es, fqdnClean, curr, res, candidate);
      if candidate.Some? && (res.None? || Rank(candidate.value.classification) > Rank(res.value.classification)) {
        res := candidate;
      }
      var dotIdx := IndexDot(curr);
      if dotIdx == -1 || dotIdx + 1 >= |curr| {
        LastSuffix(es, fqdnClean, curr, res);
        BestIsScan(es, fqdnClean, res);
        return;
      }
      NextSuffix(es, fqdnClean, curr, dotIdx, res);
      curr := curr[dotIdx + 1..];
    }
  }
}
