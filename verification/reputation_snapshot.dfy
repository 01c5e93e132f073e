// The compact binary snapshot: a 24-byte header, one 16-byte record per
// entry, then the block of names. Compiler, loader and enumeration.

module ReputationSnapshot {
  import opened Wrappers
  import opened Bytes
  import opened ReputationNames
  import opened ReputationPolicy
  import opened ReputationCanon
  import opened Sorting

  const MAGIC: nat := 0x42443243
  const HEADER: nat := 24
  const MAX_U32: nat := 0xFFFF_FFFF

  datatype SnapshotError = CorruptSnapshot | InvalidMagic

  datatype CompactEntry = CompactEntry(
    domainHash: nat, offset: nat, length: nat, classification: byte, matchKind: byte, flags: byte)

  datatype ReputationTable = ReputationTable(numEntries: nat, entriesData: seq<byte>, stringBlock: seq<byte>)

  // ---------------------------------------------------------------- reading

  // getEntry.
  function RecordAt(data: seq<byte>, i: nat): CompactEntry
    requires 16 * (i + 1) <= |data|
  {
    var off := 16 * i;
    CompactEntry(GetLE(data[off..off + 8]), GetLE(data[off + 8..off + 12]),
                 data[off + 12], data[off + 13], data[off + 14], data[off + 15])
  }

  predicate ValidRecord(hash: Hash, strings: seq<byte>, r: CompactEntry) {
    && r.offset <= |strings| && r.length <= |strings| - r.offset
    && ValidName(strings[r.offset..r.offset + r.length])
    && r.domainHash == hash(strings[r.offset..r.offset + r.length])
    && ValidClass(r.classification) && ValidKind(r.matchKind) && r.flags == 0
  }

  predicate ValidTable(hash: Hash, t: ReputationTable) {
    && |t.entriesData| == 16 * t.numEntries
    && (forall i :: 0 <= i < t.numEntries ==> ValidRecord(hash, t.stringBlock, RecordAt(t.entriesData, i)))
    && forall i, j :: 0 <= i < j < t.numEntries ==>
         RecordAt(t.entriesData, i).domainHash <= RecordAt(t.entriesData, j).domainHash
  }

  function EntryAt(hash: Hash, t: ReputationTable, i: nat): BuildEntry
    requires ValidTable(hash, t) && i < t.numEntries
  {
    var r := RecordAt(t.entriesData, i);
    assert ValidRecord(hash, t.stringBlock, r);
    BuildEntry(t.stringBlock[r.offset..r.offset + r.length], r.classification, r.matchKind)
  }

  // The entries a table stands for, in index order.
  function Records(hash: Hash, t: ReputationTable): (es: seq<BuildEntry>)
    requires ValidTable(hash, t)
    ensures |es| == t.numEntries
  {
    seq(t.numEntries, i requires 0 <= i < t.numEntries => EntryAt(hash, t, i))
  }

  lemma RecordsValid(hash: Hash, t: ReputationTable)
    requires ValidTable(hash, t)
    ensures forall e :: e in Records(hash, t) ==> ValidEntry(e)
    ensures forall i :: 0 <= i < t.numEntries ==>
      RecordAt(t.entriesData, i).domainHash == hash(Records(hash, t)[i].domain)
  {
    forall i | 0 <= i < t.numEntries
      ensures ValidEntry(Records(hash, t)[i])
      ensures RecordAt(t.entriesData, i).domainHash == hash(Records(hash, t)[i].domain)
    {
      assert ValidRecord(hash, t.stringBlock, RecordAt(t.entriesData, i));
    }
  }

  predicate HeaderOk(raw: seq<byte>)
    requires |raw| >= HEADER
  {
    && GetLE(raw[0..4]) == MAGIC
    && GetLE(raw[4..6]) == 1
    && (forall i :: 18 <= i < 24 ==> raw[i] == 0)
    && GetLE(raw[6..10]) <= (|raw| - HEADER) / 16
    && GetLE(raw[10..14]) == HEADER + GetLE(raw[6..10]) * 16
    && GetLE(raw[14..18]) == |raw| - (HEADER + GetLE(raw[6..10]) * 16)
  }

  function TableOf(raw: seq<byte>): ReputationTable
    requires |raw| >= HEADER && HeaderOk(raw)
  {
    var count := GetLE(raw[6..10]);
    var start := HEADER + count * 16;
    ReputationTable(count, raw[HEADER..start], raw[start..])
  }

  // Exactly the snapshots the loader admits.
  predicate Accepts(hash: Hash, raw: seq<byte>) {
    |raw| >= HEADER && HeaderOk(raw) && ValidTable(hash, TableOf(raw))
  }

  method CheckRecord(hash: Hash, strings: seq<byte>, e: CompactEntry) returns (ok: bool)
    ensures ok == ValidRecord(hash, strings, e)
  {
    if e.offset > |strings| || e.length > |strings| - e.offset {
      return false;
    }
    var name := strings[e.offset..e.offset + e.length];
    var valid := ValidReputationDomain(name);
    if !valid {
      return false;
    }
    var cleaned := CleanDomain(name);
    ValidIsClean(name);
    ok := name == cleaned && e.domainHash == hash(name)
      && ValidClass(e.classification) && ValidKind(e.matchKind) && e.flags == 0;
  }

  // The first n records are valid, and in order of hash.
  predicate ValidUpTo(hash: Hash, t: ReputationTable, n: nat)
    requires 16 * n <= |t.entriesData|
  {
    && (forall k :: 0 <= k < n ==> ValidRecord(hash, t.stringBlock, RecordAt(t.entriesData, k)))
    && forall k, l :: 0 <= k < l < n ==>
         RecordAt(t.entriesData, k).domainHash <= RecordAt(t.entriesData, l).domainHash
  }

  lemma ValidNext(hash: Hash, t: ReputationTable, n: nat)
    requires 16 * (n + 1) <= |t.entriesData| && ValidUpTo(hash, t, n)
    ensures ValidUpTo(hash, t, n + 1) <==>
      && ValidRecord(hash, t.stringBlock, RecordAt(t.entriesData, n))
      && (n > 0 ==> RecordAt(t.entriesData, n - 1).domainHash <= RecordAt(t.entriesData, n).domainHash)
  {
    hide RecordAt, ValidRecord;
  }

  lemma ValidToEnd(hash: Hash, t: ReputationTable, n: nat)
    requires |t.entriesData| == 16 * t.numEntries && n <= t.numEntries
    ensures ValidTable(hash, t) ==> ValidUpTo(hash, t, n)
    ensures ValidUpTo(hash, t, t.numEntries) ==> ValidTable(hash, t)
  {
    hide RecordAt, ValidRecord;
  }

  method CheckRecords(hash: Hash, t: ReputationTable) returns (ok: bool)
    requires |t.entriesData| == 16 * t.numEntries
    ensures ok == ValidTable(hash, t)
  {
    hide ValidRecord, RecordAt, ValidUpTo, ValidTable;
    var previousHash := 0;
    NothingToCheck(hash, t);
    for i := 0 to t.numEntries
      invariant ValidUpTo(hash, t, i)
      invariant i > 0 ==> previousHash == RecordAt(t.entriesData, i - 1).domainHash
    {
      var e := RecordAt(t.entriesData, i);
      ValidNext(hash, t, i);
      var valid := CheckRecord(hash, t.stringBlock, e);
      if !valid || (i > 0 && e.domainHash < previousHash) {
        ValidToEnd(hash, t, i + 1);
        return false;
      }
      previousHash := e.domainHash;
    }
    ValidToEnd(hash, t, t.numEntries);
    return true;
  }

  lemma NothingToCheck(hash: Hash, t: ReputationTable)
    ensures ValidUpTo(hash, t, 0)
  {
  }

  method NewReputationTable(hash: Hash, raw: seq<byte>) returns (r: Result<ReputationTable, SnapshotError>)
    ensures r.Success? <==> Accepts(hash, raw)
    ensures r.Success? ==> r.value == TableOf(raw)
    ensures r == Failure(InvalidMagic) <==> |raw| >= HEADER && GetLE(raw[0..4]) != MAGIC
  {
    if |raw| < HEADER {
      return Failure(CorruptSnapshot);
    }
    if GetLE(raw[0..4]) != MAGIC {
      return Failure(InvalidMagic);
    }
    assert raw[18..24] == [0, 0, 0, 0, 0, 0] <==> forall i :: 18 <= i < 24 ==> raw[i] == 0 by {
      assert raw[18..24] == [raw[18], raw[19], raw[20], raw[21], raw[22], raw[23]];
    }
    if GetLE(raw[4..6]) != 1 || raw[18..24] != [0, 0, 0, 0, 0, 0] {
      return Failure(CorruptSnapshot);
    }
    var count, start, length := GetLE(raw[6..10]), GetLE(raw[10..14]), GetLE(raw[14..18]);
    if count > (|raw| - HEADER) / 16 || start != HEADER + count * 16 || start > |raw| || length != |raw| - start {
      return Failure(CorruptSnapshot);
    }
    var t := ReputationTable(count, raw[HEADER..HEADER + count * 16], raw[start..start + length]);
    assert t == TableOf(raw);
    var ok := CheckRecords(hash, t);
    return if ok then Success(t) else Failure(CorruptSnapshot);
  }

  // Entries: the guard on the bounds never fires on a loaded table.
  method Entries(hash: Hash, t: ReputationTable) returns (out: seq<BuildEntry>)
    requires ValidTable(hash, t)
    ensures out == Records(hash, t)
  {
    out := [];
    for i := 0 to t.numEntries
      invariant out == Records(hash, t)[..i]
    {
      var e := RecordAt(t.entriesData, i);
      assert ValidRecord(hash, t.stringBlock, e);
      if e.offset + e.length > |t.stringBlock| {
        assert false;
        continue;
      }
      out := out + [BuildEntry(t.stringBlock[e.offset..e.offset + e.length], e.classification, e.matchKind)];
    }
  }

  // ---------------------------------------------------------------- writing

  function Strings(l: seq<BuildEntry>): seq<byte> {
    if l == [] then [] else Strings(l[..|l| - 1]) + l[|l| - 1].domain
  }

  function RecordBytes(hash: Hash, offset: nat, e: BuildEntry): (s: seq<byte>)
    ensures |s| == 16
  {
    PutLE(hash(e.domain), 8) + PutLE(offset, 4)
    + PutLE(|e.domain|, 1) + [e.classification, e.matchKind, 0]
  }

  function Index(hash: Hash, l: seq<BuildEntry>): (s: seq<byte>)
    ensures |s| == 16 * |l|
  {
    if l == [] then []
    else Index(hash, l[..|l| - 1]) + RecordBytes(hash, |Strings(l[..|l| - 1])|, l[|l| - 1])
  }

  function Header(count: nat, stringsLen: nat): (s: seq<byte>)
    ensures |s| == HEADER
  {
    PutLE(MAGIC, 4) + PutLE(1, 2) + PutLE(count, 4) + PutLE(HEADER + 16 * count, 4) + PutLE(stringsLen, 4)
    + Zeros(6)
  }

  function Encode(hash: Hash, l: seq<BuildEntry>): seq<byte> {
    Header(|l|, |Strings(l)|) + Index(hash, l) + Strings(l)
  }

  function Normalize(e: BuildEntry): BuildEntry {
    var name := CompileName(e.domain);
    BuildEntry(name, e.classification,
               if IsSharedHosting(name) && e.classification != BLOCK_C2 then EXACT else e.matchKind)
  }

  function NormalizeAll(es: seq<BuildEntry>): (r: seq<BuildEntry>)
    ensures |r| == |es|
  {
    seq(|es|, i requires 0 <= i < |es| => Normalize(es[i]))
  }

  predicate Normalizable(e: BuildEntry) {
    ValidName(CompileName(e.domain)) && ValidClass(e.classification) && ValidKind(e.matchKind)
  }

  // The bytes the compiler budgets for, before duplicates are merged.
  function Budget(es: seq<BuildEntry>): nat {
    if es == [] then HEADER else Budget(es[..|es| - 1]) + 16 + |CompileName(es[|es| - 1].domain)|
  }

  predicate Compilable(es: seq<BuildEntry>) {
    && |es| <= (MAX_U32 - HEADER) / 16
    && (forall e :: e in es ==> Normalizable(e))
    && Budget(es) <= MAX_U32
  }

  // What compiling a list of entries yields.
  function Compiled(hash: Hash, es: seq<BuildEntry>): Result<seq<byte>, SnapshotError> {
    if Compilable(es) then Success(Encode(hash, Canon(hash, NormalizeAll(es)))) else Failure(CorruptSnapshot)
  }

  lemma NormalizedValid(es: seq<BuildEntry>)
    requires forall e :: e in es ==> Normalizable(e)
    ensures forall e :: e in NormalizeAll(es) ==> ValidEntry(e)
  {
    forall i | 0 <= i < |es|
      ensures ValidEntry(NormalizeAll(es)[i])
    {
      assert es[i] in es;
    }
  }

  method NormalizeItem(e: BuildEntry) returns (r: Option<BuildEntry>)
    ensures r.Some? <==> Normalizable(e)
    ensures r.Some? ==> r.value == Normalize(e) && r.value.domain == CompileName(e.domain)
  {
    var nameClean := CompileName(e.domain);
    var valid := ValidReputationDomain(nameClean);
    if !valid || !ValidClass(e.classification) || !ValidKind(e.matchKind) {
      return None;
    }
    var kind := e.matchKind;
    if IsSharedHosting(nameClean) && e.classification != BLOCK_C2 {
      kind := EXACT;
    }
    return Some(BuildEntry(nameClean, e.classification, kind));
  }

  // The source's single pass: it stops at the first bad entry, and as soon
  // as the budget is exceeded.
  method NormalizeItems(entries: seq<BuildEntry>) returns (r: Option<seq<BuildEntry>>)
    requires |entries| <= (MAX_U32 - HEADER) / 16
    ensures r.Some? <==> Compilable(entries)
    ensures r.Some? ==> r.value == NormalizeAll(entries)
  {
    hide CompileName, Normalizable, Normalize, Budget;
    assert Budget(entries[..0]) == HEADER by {
      NoBudget();
    }
    var items: seq<BuildEntry> := [];
    var bytesRequired := HEADER + |entries| * 16;
    for i := 0 to |entries|
      invariant items == NormalizeAll(entries)[..i]
      invariant forall k :: 0 <= k < i ==> Normalizable(entries[k])
      invariant bytesRequired == Budget(entries[..i]) + 16 * (|entries| - i)
      invariant bytesRequired <= MAX_U32 || i == 0
    {
      var item := NormalizeItem(entries[i]);
      if item.None? {
        assert entries[i] in entries;
        return None;
      }
      BudgetStep(entries, i);
      BudgetGrows(entries, i + 1);
      bytesRequired := bytesRequired + |item.value.domain|;
      if bytesRequired > MAX_U32 {
        return None;
      }
      assert NormalizeAll(entries)[..i + 1] == NormalizeAll(entries)[..i] + [Normalize(entries[i])];
      items := items + [item.value];
    }
    assert entries[..|entries|] == entries;
    return Some(items);
  }

  lemma NoBudget()
    ensures forall es: seq<BuildEntry> :: es == [] ==> Budget(es) == HEADER
  {
  }

  lemma BudgetStep(es: seq<BuildEntry>, i: nat)
    requires i < |es|
    ensures Budget(es[..i + 1]) == Budget(es[..i]) + 16 + |CompileName(es[i].domain)|
  {
    assert es[..i + 1][..i] == es[..i];
  }

  lemma {:induction false} BudgetGrows(es: seq<BuildEntry>, i: nat)
    requires i <= |es|
    ensures Budget(es[..i]) + 16 * (|es| - i) <= Budget(es)
    decreases |es|
  {
    if i < |es| {
      var p := es[..|es| - 1];
      BudgetGrows(p, i);
      assert p[..i] == es[..i];
    } else {
      assert es[..i] == es;
    }
  }

  // The merge after the sort: the first item of each key is kept.
  method MergeItems(hash: Hash, items: seq<BuildEntry>) returns (merged: seq<BuildEntry>)
    requires forall e :: e in items ==> ValidEntry(e)
    requires ItemSorted(hash, items)
    ensures IsCanonical(hash, items, merged)
  {
    merged := [];
    for i := 0 to |items|
      invariant IsCanonical(hash, items[..i], merged)
      invariant i > 0 ==> merged != [] && SameKey(merged[|merged| - 1], items[i - 1])
    {
      var it := items[i];
      ghost var before := merged;
      if |merged| > 0 {
        var last := merged[|merged| - 1];
        if last.domain == it.domain && last.matchKind == it.matchKind {
          MergeSkip(hash, items, i, before);
          continue;
        }
      }
      MergeAppend(hash, items, i, before);
      merged := merged + [it];
    }
    assert items[..|items|] == items;
  }

  lemma MergeSkip(hash: Hash, items: seq<BuildEntry>, i: nat, merged: seq<BuildEntry>)
    requires i < |items| && ItemSorted(hash, items) && IsCanonical(hash, items[..i], merged)
    requires forall e :: e in items ==> ValidEntry(e)
    requires merged != [] && SameKey(merged[|merged| - 1], items[i])
    ensures IsCanonical(hash, items[..i + 1], merged)
  {
    var p, it, last := items[..i], items[i], merged[|merged| - 1];
    assert items[..i + 1] == p + [it];
    assert IsTop(last, p);
    var k :| 0 <= k < i && items[k] == last;
    assert !ItemLess(hash, items[i], items[k]);
    assert Rank(it.classification) <= Rank(last.classification);
    forall e
      ensures IsTop(e, p + [it]) <==> IsTop(e, p)
    {
      if IsTop(e, p) && SameKey(e, it) {
        assert SameKey(e, last) && Rank(last.classification) <= Rank(e.classification);
      }
      if IsTop(e, p + [it]) && e == it {
        assert last in p + [it];
        assert Rank(last.classification) <= Rank(it.classification);
        assert ValidEntry(last) && ValidEntry(it);
        assert it == last;
      }
    }
  }

  lemma MergeAppend(hash: Hash, items: seq<BuildEntry>, i: nat, merged: seq<BuildEntry>)
    requires i < |items| && ItemSorted(hash, items) && IsCanonical(hash, items[..i], merged)
    requires i > 0 ==> merged != [] && SameKey(merged[|merged| - 1], items[i - 1]) && !SameKey(items[i - 1], items[i])
    ensures IsCanonical(hash, items[..i + 1], merged + [items[i]])
  {
    var p, it := items[..i], items[i];
    assert items[..i + 1] == p + [it];
    forall k | 0 <= k < i
      ensures KeyLess(hash, items[k], it)
    {
      assert !ItemLess(hash, items[i], items[i - 1]);
      KeyOrder(hash, items[i - 1], it, it);
      assert KeyLess(hash, items[i - 1], it);
      if k < i - 1 {
        assert !ItemLess(hash, items[i - 1], items[k]);
        KeyOrder(hash, items[k], items[i - 1], it);
        KeyOrder(hash, items[i - 1], items[k], it);
      }
    }
    forall e | e in p
      ensures KeyLess(hash, e, it) && !SameKey(e, it)
    {
      var k :| 0 <= k < i && items[k] == e;
      KeyOrder(hash, e, it, it);
    }
    forall e
      ensures e in merged + [it] <==> IsTop(e, p + [it])
    {
      assert e in merged + [it] <==> e in merged || e == it;
      assert IsTop(e, p + [it]) <==> (IsTop(e, p) || e == it);
    }
    forall a, b | 0 <= a < b < |merged + [it]|
      ensures KeyLess(hash, (merged + [it])[a], (merged + [it])[b])
    {
      if b == |merged| {
        assert IsTop(merged[a], p);
      }
    }
  }

  // A store into a buffer.
  function Store(buf: seq<byte>, off: nat, field: seq<byte>): (r: seq<byte>)
    requires off + |field| <= |buf|
    ensures |r| == |buf|
  {
    buf[..off] + field + buf[off + |field|..]
  }

  method WriteIndex(hash: Hash, items: seq<BuildEntry>) returns (index: seq<byte>, strBuf: seq<byte>)
    ensures index == Index(hash, items) && strBuf == Strings(items)
  {
    index, strBuf := [], [];
    for i := 0 to |items|
      invariant index == Index(hash, items[..i]) && strBuf == Strings(items[..i])
    {
      assert items[..i + 1][..i] == items[..i];
      index := index + RecordBytes(hash, |strBuf|, items[i]);
      strBuf := strBuf + items[i].domain;
    }
    assert items[..|items|] == items;
  }

  method CompileReputationSnapshot(hash: Hash, entries: seq<BuildEntry>)
    returns (r: Result<seq<byte>, SnapshotError>)
    ensures r == Compiled(hash, entries)
  {
    if |entries| > (MAX_U32 - HEADER) / 16 {
      return Failure(CorruptSnapshot);
    }
    var normalized := NormalizeItems(entries);
    if normalized.None? {
      return Failure(CorruptSnapshot);
    }
    NormalizedValid(entries);
    var items := SortAndMerge(hash, normalized.value);
    var index, strBuf := WriteIndex(hash, items);
    var res := Zeros(HEADER) + (index + strBuf);
    var stringBlockStart := HEADER + |index|;
    res := Store(res, 0, PutLE(MAGIC, 4));
    res := Store(res, 4, PutLE(1, 2));
    res := Store(res, 6, PutLE(|items|, 4));
    res := Store(res, 10, PutLE(stringBlockStart, 4));
    res := Store(res, 14, PutLE(|strBuf|, 4));
    res := Store(res, 18, Zeros(4));
    StoredHeader(index + strBuf, PutLE(MAGIC, 4), PutLE(1, 2), PutLE(|items|, 4),
                 PutLE(stringBlockStart, 4), PutLE(|strBuf|, 4));
    assert res == Encode(hash, items);
    return Success(res);
  }

  method SortAndMerge(hash: Hash, items: seq<BuildEntry>) returns (merged: seq<BuildEntry>)
    requires forall e :: e in items ==> ValidEntry(e)
    ensures merged == Canon(hash, items)
  {
    ItemOrder(hash);
    var sorted := Sort((a, b) => ItemLess(hash, a, b), items);
    SameMembers(sorted, items);
    assert ItemSorted(hash, sorted) by {
      forall i, j | 0 <= i < j < |sorted|
        ensures !ItemLess(hash, sorted[j], sorted[i])
      {
      }
    }
    merged := MergeItems(hash, sorted);
    CanonIsCanonical(hash, items);
    CanonicalUnique(hash, sorted, items, merged, Canon(hash, items));
  }

  function Zeros(n: nat): (z: seq<byte>)
    ensures |z| == n
  {
    seq(n, i => 0)
  }

  lemma StoreNext(done: seq<byte>, n: nat, body: seq<byte>, field: seq<byte>)
    requires |field| <= n
    ensures Store(done + Zeros(n) + body, |done|, field) == done + field + Zeros(n - |field|) + body
  {
  }

  lemma StoredHeader(body: seq<byte>, a: seq<byte>, b: seq<byte>, c: seq<byte>, d: seq<byte>, e: seq<byte>)
    requires |a| == |c| == |d| == |e| == 4 && |b| == 2
    ensures Store(Store(Store(Store(Store(Store(Zeros(HEADER) + body, 0, a), 4, b), 6, c), 10, d), 14, e), 18, Zeros(4))
         == a + b + c + d + e + Zeros(6) + body
  {
    assert Zeros(HEADER) + body == [] + Zeros(HEADER) + body;
    StoreNext([], HEADER, body, a);
    assert [] + a == a;
    StoreNext(a, 20, body, b);
    StoreNext(a + b, 18, body, c);
    StoreNext(a + b + c, 14, body, d);
    StoreNext(a + b + c + d, 10, body, e);
    StoreNext(a + b + c + d + e, 6, body, Zeros(4));
    assert Zeros(4) + Zeros(2) == Zeros(6);
    assert a + b + c + d + e + Zeros(4) + Zeros(2) == a + b + c + d + e + (Zeros(4) + Zeros(2));
  }
}
