// Compiler against loader: every compiled snapshot loads back to the
// canonical list, whatever the order and the repetitions of the input.

module ReputationRoundTrip {
  import opened Bytes
  import opened ReputationNames
  import opened ReputationPolicy
  import opened ReputationCanon
  import opened ReputationSnapshot
  import opened Sorting

  lemma {:induction false} IndexAt(hash: Hash, l: seq<BuildEntry>, i: nat)
    requires i < |l|
    ensures Index(hash, l)[16 * i..16 * i + 16] == RecordBytes(hash, |Strings(l[..i])|, l[i])
    decreases |l|
  {
    var p := l[..|l| - 1];
    if i < |p| {
      IndexAt(hash, p, i);
      assert p[..i] == l[..i];
      assert Index(hash, l)[16 * i..16 * i + 16] == Index(hash, p)[16 * i..16 * i + 16];
    } else {
      assert p == l[..i];
    }
  }

  lemma {:induction false} StringAt(l: seq<BuildEntry>, i: nat)
    requires i < |l|
    ensures |Strings(l[..i])| + |l[i].domain| <= |Strings(l)|
    ensures Strings(l)[|Strings(l[..i])|..|Strings(l[..i])| + |l[i].domain|] == l[i].domain
    decreases |l|
  {
    var p := l[..|l| - 1];
    if i < |p| {
      StringAt(p, i);
      assert p[..i] == l[..i];
    } else {
      assert p == l[..i];
    }
  }

  lemma RecordSlices(data: seq<byte>, off: nat, a: seq<byte>, b: seq<byte>, c: seq<byte>, d: seq<byte>)
    requires off + 16 <= |data| && |a| == 8 && |b| == 4 && |c| == 1 && |d| == 3
    requires data[off..off + 16] == a + b + c + d
    ensures data[off..off + 8] == a && data[off + 8..off + 12] == b
    ensures data[off + 12] == c[0] && data[off + 13] == d[0] && data[off + 14] == d[1] && data[off + 15] == d[2]
  {
    var s := a + b + c + d;
    assert forall k :: 0 <= k < 16 ==> data[off + k] == data[off..off + 16][k] == s[k];
    assert data[off..off + 8] == s[..8] == a;
    assert data[off + 8..off + 12] == s[8..12] == b;
  }

  lemma RecordReads(hash: Hash, data: seq<byte>, i: nat, offset: nat, e: BuildEntry)
    requires 16 * (i + 1) <= |data| && data[16 * i..16 * i + 16] == RecordBytes(hash, offset, e)
    requires offset <= MAX_U32 && |e.domain| <= 255
    ensures RecordAt(data, i) == CompactEntry(hash(e.domain), offset, |e.domain|, e.classification, e.matchKind, 0)
  {
    Widths();
    GetPutLE(hash(e.domain), 8);
    GetPutLE(offset, 4);
    assert PutLE(|e.domain|, 1) == [|e.domain| % 256];
    RecordSlices(data, 16 * i, PutLE(hash(e.domain), 8), PutLE(offset, 4), PutLE(|e.domain|, 1),
                 [e.classification, e.matchKind, 0]);
  }

  // The bytes of an admitted snapshot, place by place: the signature, the
  // version, and for each entry its hash, where its name lies, how long it is,
  // its class, its kind and an unused byte.
  lemma RecordLayout(hash: Hash, raw: seq<byte>, i: nat)
    requires Accepts(hash, raw) && i < TableOf(raw).numEntries
    ensures var e, n := Records(hash, TableOf(raw))[i], |Records(hash, TableOf(raw))|;
      var b, names := 24 + 16 * i, raw[24 + 16 * n..];
      var at, length := GetLE(raw[b + 8..b + 12]), raw[b + 12] as int;
      && 24 + 16 * n <= |raw|
      && GetLE(raw[b..b + 8]) == hash(e.domain)
      && at + length <= |names| && e.domain == names[at..at + length]
      && raw[b + 13] == e.classification && raw[b + 14] == e.matchKind && raw[b + 15] == 0
  {
    hide GetLE, RecordAt, HeaderOk, ValidTable, Records;
    RecordIsThere(raw, TableOf(raw), i);
    RecordSays(hash, TableOf(raw), i);
  }

  lemma RecordSays(hash: Hash, t: ReputationTable, i: nat)
    requires ValidTable(hash, t) && i < t.numEntries
    ensures var e, r := Records(hash, t)[i], RecordAt(t.entriesData, i);
      && r.domainHash == hash(e.domain) && r.flags == 0
      && r.offset + r.length <= |t.stringBlock| && e.domain == t.stringBlock[r.offset..r.offset + r.length]
      && r.classification == e.classification && r.matchKind == e.matchKind
  {
    hide ValidName, RecordAt, ValidClass, ValidKind;
    assert ValidRecord(hash, t.stringBlock, RecordAt(t.entriesData, i));
  }

  lemma RecordIsThere(raw: seq<byte>, t: ReputationTable, i: nat)
    requires |raw| >= HEADER && HeaderOk(raw) && t == TableOf(raw) && i < t.numEntries
    ensures 24 + 16 * t.numEntries <= |raw| && t.stringBlock == raw[24 + 16 * t.numEntries..]
    ensures var b := 24 + 16 * i;
      RecordAt(t.entriesData, i) == CompactEntry(GetLE(raw[b..b + 8]), GetLE(raw[b + 8..b + 12]), raw[b + 12],
                                                 raw[b + 13], raw[b + 14], raw[b + 15])
  {
    hide GetLE;
    var b, data := 24 + 16 * i, t.entriesData;
    assert data[16 * i..16 * i + 8] == raw[b..b + 8] && data[16 * i + 8..16 * i + 12] == raw[b + 8..b + 12];
  }

  lemma HeaderLayout(hash: Hash, raw: seq<byte>)
    requires Accepts(hash, raw)
    ensures raw[..6] == [0x43, 0x32, 0x44, 0x42, 1, 0]
    ensures |raw| == GetLE(raw[10..14]) + GetLE(raw[14..18]) && GetLE(raw[10..14]) == 24 + 16 * GetLE(raw[6..10])
    ensures forall i :: 18 <= i < 24 ==> raw[i] == 0
  {
    hide ValidTable;
    FourBytes(raw[..4]);
    TwoBytes(raw[4..6]);
  }

  lemma TwoBytes(s: seq<byte>)
    requires |s| == 2 && GetLE(s) == 1
    ensures s == [1, 0]
  {
    assert s[1..][1..] == [];
  }

  lemma FourBytes(s: seq<byte>)
    requires |s| == 4 && GetLE(s) == 0x4244_3243
    ensures s == [0x43, 0x32, 0x44, 0x42]
  {
    var t := s[1..];
    assert GetLE(s) == s[0] as int + 256 * GetLE(t);
    assert GetLE(t) == t[0] as int + 256 * GetLE(t[1..]);
    TwoMore(t[1..]);
  }

  lemma TwoMore(s: seq<byte>)
    requires |s| == 2
    ensures GetLE(s) == s[0] as int + 256 * (s[1] as int)
  {
    assert s[1..][1..] == [];
  }

  function SnapshotSize(l: seq<BuildEntry>): nat { HEADER + 16 * |l| + |Strings(l)| }

  lemma HeaderSlices(raw: seq<byte>, a: seq<byte>, b: seq<byte>, c: seq<byte>, d: seq<byte>, e: seq<byte>,
                     body: seq<byte>)
    requires |a| == |c| == |d| == |e| == 4 && |b| == 2
    requires raw == a + b + c + d + e + Zeros(6) + body
    ensures raw[0..4] == a && raw[4..6] == b && raw[6..10] == c && raw[10..14] == d && raw[14..18] == e
    ensures forall i :: 18 <= i < 24 ==> raw[i] == 0
    ensures raw[24..] == body
  {
    assert forall i :: 18 <= i < 24 ==> raw[i] == Zeros(6)[i - 18];
  }

  lemma EncodeHeaderOk(hash: Hash, l: seq<BuildEntry>)
    requires SnapshotSize(l) <= MAX_U32
    ensures |Encode(hash, l)| >= HEADER && HeaderOk(Encode(hash, l))
    ensures TableOf(Encode(hash, l)) == ReputationTable(|l|, Index(hash, l), Strings(l))
  {
    hide PutLE, GetLE, Index, Strings;
    Widths();
    GetPutLE(MAGIC, 4);
    GetPutLE(1, 2);
    GetPutLE(|l|, 4);
    GetPutLE(HEADER + 16 * |l|, 4);
    GetPutLE(|Strings(l)|, 4);
    var raw, body := Encode(hash, l), Index(hash, l) + Strings(l);
    assert raw == Header(|l|, |Strings(l)|) + body;
    HeaderSlices(raw, PutLE(MAGIC, 4), PutLE(1, 2), PutLE(|l|, 4), PutLE(HEADER + 16 * |l|, 4),
                 PutLE(|Strings(l)|, 4), body);
    assert raw[HEADER..HEADER + 16 * |l|] == body[..16 * |l|] == Index(hash, l);
    assert raw[HEADER + 16 * |l|..] == body[16 * |l|..] == Strings(l);
  }

  lemma EncodeLoads(hash: Hash, l: seq<BuildEntry>)
    requires forall e :: e in l ==> ValidEntry(e)
    requires KeySorted(hash, l)
    requires SnapshotSize(l) <= MAX_U32
    ensures Accepts(hash, Encode(hash, l))
    ensures Records(hash, TableOf(Encode(hash, l))) == l
  {
    hide ValidName, Encode, Index, Strings, HeaderOk, RecordAt, TableOf;
    EncodeHeaderOk(hash, l);
    var t := ReputationTable(|l|, Index(hash, l), Strings(l));
    forall i | 0 <= i < |l|
      ensures var r := RecordAt(t.entriesData, i);
        r.domainHash == hash(l[i].domain) && ValidRecord(hash, t.stringBlock, r)
        && t.stringBlock[r.offset..r.offset + r.length] == l[i].domain
        && r.classification == l[i].classification && r.matchKind == l[i].matchKind
    {
      IndexAt(hash, l, i);
      StringAt(l, i);
      assert ValidEntry(l[i]);
      NameLength(l[i].domain);
      RecordReads(hash, t.entriesData, i, |Strings(l[..i])|, l[i]);
    }
    forall i, j | 0 <= i < j < |l|
      ensures RecordAt(t.entriesData, i).domainHash <= RecordAt(t.entriesData, j).domainHash
    {
      assert KeyLess(hash, l[i], l[j]);
    }
  }

  lemma NameLength(n: Name)
    requires ValidName(n)
    ensures 0 < |n| <= 253
  {
  }

  lemma {:induction false} InsertTopSize(hash: Hash, e: BuildEntry, l: seq<BuildEntry>)
    ensures SnapshotSize(InsertTop(hash, e, l)) <= SnapshotSize(l) + 16 + |e.domain|
  {
    if l != [] && !KeyLess(hash, e, l[0]) && !SameKey(e, l[0]) {
      InsertTopSize(hash, e, l[1..]);
      StringsFront([l[0]], InsertTop(hash, e, l[1..]));
      StringsFront([l[0]], l[1..]);
      assert l == [l[0]] + l[1..];
    } else if l != [] {
      StringsFront([l[0]], l[1..]);
      StringsFront([e], l[1..]);
      StringsFront([e], l);
      assert l == [l[0]] + l[1..];
    } else {
      StringsFront([e], l);
    }
  }

  lemma {:induction false} StringsFront(a: seq<BuildEntry>, b: seq<BuildEntry>)
    ensures Strings(a + b) == Strings(a) + Strings(b)
    decreases |b|
  {
    if b == [] {
      assert a + b == a;
    } else {
      var b' := b[..|b| - 1];
      StringsFront(a, b');
      assert (a + b)[..|a + b| - 1] == a + b';
    }
  }

  lemma {:induction false} CanonSize(hash: Hash, es: seq<BuildEntry>)
    requires forall e :: e in es ==> Normalizable(e)
    ensures SnapshotSize(Canon(hash, NormalizeAll(es))) <= Budget(es)
  {
    if es != [] {
      var p := es[..|es| - 1];
      CanonSize(hash, p);
      assert NormalizeAll(es)[..|es| - 1] == NormalizeAll(p);
      InsertTopSize(hash, NormalizeAll(es)[|es| - 1], Canon(hash, NormalizeAll(p)));
    }
  }

  // Every snapshot the compiler produces is admitted by the loader, which
  // reads back the top entry of every (domain, kind) in canonical order.
  lemma CompiledLoads(hash: Hash, es: seq<BuildEntry>)
    requires Compiled(hash, es).Success?
    ensures var raw := Compiled(hash, es).value;
      && Accepts(hash, raw)
      && Records(hash, TableOf(raw)) == Canon(hash, NormalizeAll(es))
      && IsCanonical(hash, NormalizeAll(es), Records(hash, TableOf(raw)))
  {
    hide Normalizable, Accepts, ValidEntry, Records, Canon, NormalizeAll;
    NormalizedValid(es);
    CanonIsCanonical(hash, NormalizeAll(es));
    CanonSize(hash, es);
    var l := Canon(hash, NormalizeAll(es));
    forall e | e in l
      ensures ValidEntry(e)
    {
      assert IsTop(e, NormalizeAll(es));
    }
    EncodeLoads(hash, l);
  }

  // What the compiled table holds for a domain and kind: nothing if no entry
  // has them, and otherwise one entry, of the class that prevails.
  lemma CompiledKeepsPrevailing(hash: Hash, es: seq<BuildEntry>, domain: Name, kind: byte)
    requires Compiled(hash, es).Success?
    ensures Accepts(hash, Compiled(hash, es).value)
    ensures KeepsPrevailing(Records(hash, TableOf(Compiled(hash, es).value)), NormalizeAll(es), domain, kind)
  {
    CompiledLoads(hash, es);
    NormalizedValid(es);
    hide Compiled, Accepts, Normalizable, NormalizeAll, Records, TableOf, IsCanonical, ValidName, KeepsPrevailing;
    CanonicalKeepsPrevailing(hash, NormalizeAll(es), Records(hash, TableOf(Compiled(hash, es).value)), domain, kind);
  }

  // The snapshot depends on the set of entries alone: reordering or
  // repeating them changes nothing as long as both lists compile.
  lemma CompileIgnoresOrderAndRepetition(hash: Hash, es: seq<BuildEntry>, fs: seq<BuildEntry>)
    requires SameElements(es, fs)
    requires Compiled(hash, es).Success? && Compiled(hash, fs).Success?
    ensures Compiled(hash, es) == Compiled(hash, fs)
  {
    hide Normalizable, Canon, ValidEntry, KeySorted;
    NormalizedValid(es);
    NormalizedValid(fs);
    CanonIsCanonical(hash, NormalizeAll(es));
    CanonIsCanonical(hash, NormalizeAll(fs));
    NormalizeElements(es, fs);
    NormalizeElements(fs, es);
    CanonicalUnique(hash, NormalizeAll(es), NormalizeAll(fs),
                    Canon(hash, NormalizeAll(es)), Canon(hash, NormalizeAll(fs)));
  }

  lemma NormalizeElements(es: seq<BuildEntry>, fs: seq<BuildEntry>)
    requires forall e :: e in es ==> e in fs
    ensures forall e :: e in NormalizeAll(es) ==> e in NormalizeAll(fs)
  {
    forall e | e in NormalizeAll(es)
      ensures e in NormalizeAll(fs)
    {
      var i :| 0 <= i < |es| && NormalizeAll(es)[i] == e;
      assert es[i] in fs;
      var j :| 0 <= j < |fs| && fs[j] == es[i];
      assert NormalizeAll(fs)[j] == e;
    }
  }

  lemma {:induction false} BudgetRemove(es: seq<BuildEntry>, i: nat)
    requires i < |es|
    ensures Budget(es) == Budget(Without(es, i)) + 16 + |CompileName(es[i].domain)|
    decreases |es|
  {
    hide CompileName, Without;
    var p, e := es[..|es| - 1], es[|es| - 1];
    assert es == p + [e];
    WithoutAppend(p, e, i);
    if i < |p| {
      BudgetRemove(p, i);
      var q := Without(p, i);
      assert (q + [e])[..|q|] == q;
    }
  }

  lemma {:induction false} BudgetPermutation(es: seq<BuildEntry>, fs: seq<BuildEntry>)
    requires multiset(es) == multiset(fs)
    ensures |es| == |fs| && Budget(es) == Budget(fs)
    decreases |es|
  {
    hide Budget, CompileName, Without;
    SameMembers(es, fs);
    if es != [] {
      var i := MatchMember(es, fs, 0);
      BudgetRemove(es, 0);
      BudgetRemove(fs, i);
      BudgetPermutation(Without(es, 0), Without(fs, i));
    }
  }

  // For a permutation even the refusals agree.
  lemma CompileIgnoresPermutation(hash: Hash, es: seq<BuildEntry>, fs: seq<BuildEntry>)
    requires multiset(es) == multiset(fs)
    ensures Compiled(hash, es) == Compiled(hash, fs)
  {
    hide Normalizable;
    forall e
      ensures e in es <==> e in fs
    {
      assert e in multiset(es) <==> e in multiset(fs);
    }
    BudgetPermutation(es, fs);
    if Compilable(es) {
      CompileIgnoresOrderAndRepetition(hash, es, fs);
    }
  }

  lemma NormalizeIdempotent(e: BuildEntry)
    requires Normalizable(e)
    ensures Normalize(Normalize(e)) == Normalize(e) && Normalizable(Normalize(e))
  {
    hide IsSharedHosting;
    ValidIsClean(Normalize(e).domain);
  }

  lemma {:induction false} BudgetOfNormal(l: seq<BuildEntry>)
    requires forall e :: e in l ==> CompileName(e.domain) == e.domain
    ensures Budget(l) == SnapshotSize(l)
  {
    hide CompileName;
    if l != [] {
      BudgetOfNormal(l[..|l| - 1]);
      assert l[|l| - 1] in l;
    }
  }

  // Compiling what a table enumerates reproduces the snapshot byte for byte.
  lemma RecompileIsIdentity(hash: Hash, es: seq<BuildEntry>)
    requires Compiled(hash, es).Success?
    ensures Accepts(hash, Compiled(hash, es).value)
    ensures Compiled(hash, Records(hash, TableOf(Compiled(hash, es).value))) == Compiled(hash, es)
  {
    hide Normalizable, Accepts, ValidEntry, Records, Canon, CompileName, KeySorted, IsSharedHosting;
    CompiledLoads(hash, es);
    var n := NormalizeAll(es);
    var l := Canon(hash, n);
    forall e | e in l
      ensures Normalizable(e) && Normalize(e) == e && CompileName(e.domain) == e.domain
    {
      assert IsTop(e, n);
      var i :| 0 <= i < |es| && n[i] == e;
      assert es[i] in es;
      NormalizeIdempotent(es[i]);
    }
    CanonSize(hash, es);
    BudgetOfNormal(l);
    assert |l| <= (MAX_U32 - HEADER) / 16;
    assert Compilable(l);
    assert NormalizeAll(l) == l;
    NormalizedValid(l);
    CanonIsCanonical(hash, l);
    CanonOfCanon(hash, n, l, Canon(hash, l));
  }

  lemma CanonOfCanon(hash: Hash, n: seq<BuildEntry>, l: seq<BuildEntry>, m: seq<BuildEntry>)
    requires IsCanonical(hash, n, l) && IsCanonical(hash, l, m)
    ensures m == l
  {
    forall e
      ensures e in m <==> e in l
    {
      if e in l {
        assert IsTop(e, n);
        forall f | f in l && SameKey(e, f)
          ensures Rank(f.classification) <= Rank(e.classification)
        {
          assert IsTop(f, n);
        }
        assert IsTop(e, l);
      }
      assert e in m <==> IsTop(e, l);
    }
    SortedUnique(hash, m, l);
  }
}
