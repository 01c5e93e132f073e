// The canonical list behind a snapshot: one entry per (domain, match kind),
// the highest ranked one, ordered by hash, then domain, then match kind.

module ReputationCanon {
  import opened Bytes
  import opened ReputationNames
  import opened ReputationPolicy
  import opened Sorting

  // An arbitrary hash: no result below depends on FNV-1a.
  type Hash = Name -> u64

  predicate KeyLess(hash: Hash, a: BuildEntry, b: BuildEntry) {
    || hash(a.domain) < hash(b.domain)
    || (&& hash(a.domain) == hash(b.domain)
        && (LexLess(a.domain, b.domain) || (a.domain == b.domain && a.matchKind < b.matchKind)))
  }

  predicate SameKey(a: BuildEntry, b: BuildEntry) {
    a.domain == b.domain && a.matchKind == b.matchKind
  }

  // The comparison handed to the sort.
  predicate ItemLess(hash: Hash, a: BuildEntry, b: BuildEntry) {
    KeyLess(hash, a, b) || (SameKey(a, b) && Rank(a.classification) > Rank(b.classification))
  }

  lemma KeyOrder(hash: Hash, a: BuildEntry, b: BuildEntry, c: BuildEntry)
    ensures !(KeyLess(hash, a, b) && KeyLess(hash, b, a))
    ensures !(KeyLess(hash, a, b) && SameKey(a, b))
    ensures SameKey(a, b) || KeyLess(hash, a, b) || KeyLess(hash, b, a)
    ensures KeyLess(hash, a, b) && KeyLess(hash, b, c) ==> KeyLess(hash, a, c)
    ensures SameKey(a, b) ==> KeyLess(hash, b, c) == KeyLess(hash, a, c)
  {
    LexOrder(a.domain, b.domain, c.domain);
  }

  predicate KeySorted(hash: Hash, l: seq<BuildEntry>) {
    forall i, j :: 0 <= i < j < |l| ==> KeyLess(hash, l[i], l[j])
  }

  // e stands for its key in es: nothing with the same key ranks higher.
  ghost predicate IsTop(e: BuildEntry, es: seq<BuildEntry>) {
    e in es && forall f :: f in es && SameKey(e, f) ==> Rank(f.classification) <= Rank(e.classification)
  }

  ghost predicate IsCanonical(hash: Hash, es: seq<BuildEntry>, l: seq<BuildEntry>) {
    KeySorted(hash, l) && forall e :: e in l <==> IsTop(e, es)
  }

  ghost predicate SameElements(a: seq<BuildEntry>, b: seq<BuildEntry>) {
    forall e :: e in a <==> e in b
  }

  lemma {:induction false} SortedUnique(hash: Hash, a: seq<BuildEntry>, b: seq<BuildEntry>)
    requires KeySorted(hash, a) && KeySorted(hash, b) && SameElements(a, b)
    ensures a == b
  {
    assert |a| > 0 ==> a[0] in a;
    assert |b| > 0 ==> b[0] in b;
    if a != [] && b != [] {
      assert a[0] in b && b[0] in a;
      KeyOrder(hash, a[0], b[0], a[0]);
      assert a[0] == b[0];
      var a', b' := a[1..], b[1..];
      assert a == [a[0]] + a' && b == [b[0]] + b';
      forall e ensures e in a' <==> e in b' {
        KeyOrder(hash, e, e, e);
        assert e in a' ==> e in b;
        assert e in b' ==> e in a;
      }
      SortedUnique(hash, a', b');
    }
  }

  // Only the set of entries decides the canonical list.
  lemma CanonicalUnique(hash: Hash, es: seq<BuildEntry>, fs: seq<BuildEntry>, l: seq<BuildEntry>, m: seq<BuildEntry>)
    requires SameElements(es, fs)
    requires IsCanonical(hash, es, l) && IsCanonical(hash, fs, m)
    ensures l == m
  {
    forall e ensures e in l <==> e in m {
      assert IsTop(e, es) <==> IsTop(e, fs);
    }
    SortedUnique(hash, l, m);
  }

  function InsertTop(hash: Hash, e: BuildEntry, l: seq<BuildEntry>): (r: seq<BuildEntry>) {
    if l == [] || KeyLess(hash, e, l[0]) then [e] + l
    else if SameKey(e, l[0]) then
      if Rank(e.classification) > Rank(l[0].classification) then [e] + l[1..] else l
    else [l[0]] + InsertTop(hash, e, l[1..])
  }

  function Canon(hash: Hash, es: seq<BuildEntry>): seq<BuildEntry> {
    if es == [] then [] else InsertTop(hash, es[|es| - 1], Canon(hash, es[..|es| - 1]))
  }

  ghost predicate InsertedFrom(x: BuildEntry, e: BuildEntry, l: seq<BuildEntry>) {
    || (x == e && forall f :: f in l && SameKey(f, e) ==> Rank(f.classification) < Rank(e.classification))
    || (x in l && (SameKey(x, e) ==> Rank(e.classification) <= Rank(x.classification)))
  }

  lemma {:induction false} InsertTopResult(hash: Hash, e: BuildEntry, l: seq<BuildEntry>)
    requires KeySorted(hash, l)
    ensures KeySorted(hash, InsertTop(hash, e, l))
    ensures forall x :: x in InsertTop(hash, e, l) <==> InsertedFrom(x, e, l)
  {
    var r := InsertTop(hash, e, l);
    if l == [] {
    } else {
      var t := l[1..];
      assert l == [l[0]] + t;
      KeyOrder(hash, e, l[0], e);
      forall f | f in t
        ensures KeyLess(hash, l[0], f) && !SameKey(l[0], f)
      {
        KeyOrder(hash, l[0], f, f);
      }
      if KeyLess(hash, e, l[0]) {
        forall f | f in l
          ensures KeyLess(hash, e, f) && !SameKey(f, e)
        {
          KeyOrder(hash, e, l[0], f);
          KeyOrder(hash, e, f, f);
        }
      } else if SameKey(e, l[0]) {
        forall f | f in t
          ensures KeyLess(hash, e, f) && !SameKey(f, e)
        {
          KeyOrder(hash, e, l[0], f);
          KeyOrder(hash, e, f, f);
        }
      } else {
        InsertTopResult(hash, e, t);
        var r' := InsertTop(hash, e, t);
        assert r == [l[0]] + r';
        forall j | 1 <= j < |r|
          ensures KeyLess(hash, r[0], r[j])
        {
          assert r'[j - 1] in r';
          assert InsertedFrom(r'[j - 1], e, t);
        }
        forall x
          ensures x in r <==> InsertedFrom(x, e, l)
        {
          assert x in r <==> x == l[0] || InsertedFrom(x, e, t);
        }
      }
    }
  }

  lemma {:induction false} CanonIsCanonical(hash: Hash, es: seq<BuildEntry>)
    requires forall e :: e in es ==> ValidEntry(e)
    ensures IsCanonical(hash, es, Canon(hash, es))
  {
    if es != [] {
      var p, e := es[..|es| - 1], es[|es| - 1];
      assert es == p + [e];
      CanonIsCanonical(hash, p);
      InsertTopResult(hash, e, Canon(hash, p));
      forall x
        ensures x in Canon(hash, es) <==> IsTop(x, es)
      {
        TopStep(hash, x, e, p, Canon(hash, p));
      }
    }
  }

  lemma TopStep(hash: Hash, x: BuildEntry, e: BuildEntry, p: seq<BuildEntry>, l: seq<BuildEntry>)
    requires forall f :: f in p + [e] ==> ValidEntry(f)
    requires IsCanonical(hash, p, l)
    ensures InsertedFrom(x, e, l) <==> IsTop(x, p + [e])
  {
    if IsTop(x, p + [e]) && !IsTop(x, p) {
      assert x == e;
    }
    if InsertedFrom(x, e, l) && x == e && !(x in l) {
      forall f | f in p && SameKey(e, f)
        ensures Rank(f.classification) <= Rank(e.classification)
      {
        var g := TopOf(f, p);
        assert g in l;
      }
    }
    if IsTop(x, p + [e]) && x == e {
      forall f | f in l && SameKey(f, e) && Rank(f.classification) >= Rank(e.classification)
        ensures x in l
      {
        assert IsTop(f, p);
        assert f in p + [e];
        assert Rank(f.classification) == Rank(e.classification);
        assert f == e;
      }
    }
  }

  // Every key present has a top entry.
  lemma {:induction false} TopOf(f: BuildEntry, es: seq<BuildEntry>) returns (g: BuildEntry)
    requires f in es
    ensures IsTop(g, es) && SameKey(f, g) && Rank(g.classification) >= Rank(f.classification)
  {
    g := f;
    for i := 0 to |es|
      invariant g in es && SameKey(f, g) && Rank(g.classification) >= Rank(f.classification)
      invariant forall k :: 0 <= k < i && SameKey(g, es[k]) ==> Rank(es[k].classification) <= Rank(g.classification)
    {
      if SameKey(g, es[i]) && Rank(es[i].classification) > Rank(g.classification) {
        g := es[i];
      }
    }
  }

  lemma ItemOrder(hash: Hash)
    ensures StrictWeakOrder((a, b) => ItemLess(hash, a, b))
  {
    forall a, b, c
      ensures !(ItemLess(hash, a, b) && ItemLess(hash, b, a))
      ensures ItemLess(hash, a, b) && !ItemLess(hash, c, b) ==> ItemLess(hash, a, c)
    {
      KeyOrder(hash, a, b, c);
      KeyOrder(hash, b, c, a);
      KeyOrder(hash, c, b, a);
      KeyOrder(hash, b, a, c);
      KeyOrder(hash, a, c, b);
    }
  }

  ghost predicate ItemSorted(hash: Hash, s: seq<BuildEntry>) {
    forall i, j :: 0 <= i < j < |s| ==> !ItemLess(hash, s[j], s[i])
  }

  function OfKey(es: seq<BuildEntry>, domain: Name, kind: byte): set<BuildEntry> {
    set e | e in es && e.domain == domain && e.matchKind == kind
  }

  // Of the entries es with this domain and kind, l holds one, of the class
  // that prevails among them, and none if there are none.
  ghost predicate KeepsPrevailing(l: seq<BuildEntry>, es: seq<BuildEntry>, domain: Name, kind: byte) {
    && (forall e :: e in OfKey(l, domain, kind) ==> Prevails(e.classification, OfKey(es, domain, kind)))
    && (OfKey(l, domain, kind) == {} <==> OfKey(es, domain, kind) == {})
    && (forall e, f :: e in OfKey(l, domain, kind) && f in OfKey(l, domain, kind) ==> e == f)
  }

  lemma TopPrevails(e: BuildEntry, es: seq<BuildEntry>)
    requires IsTop(e, es) && forall f :: f in es ==> ValidClass(f.classification)
    ensures Prevails(e.classification, OfKey(es, e.domain, e.matchKind))
  {
    assert e in OfKey(es, e.domain, e.matchKind);
  }

  lemma OneOfKey(hash: Hash, l: seq<BuildEntry>, e: BuildEntry, f: BuildEntry)
    requires KeySorted(hash, l) && e in l && f in l && SameKey(e, f)
    ensures e == f
  {
    hide KeyLess;
    var i :| 0 <= i < |l| && l[i] == e;
    var j :| 0 <= j < |l| && l[j] == f;
    KeyOrder(hash, e, f, e);
    KeyOrder(hash, f, e, f);
  }

  lemma CanonicalKeepsPrevailing(hash: Hash, es: seq<BuildEntry>, l: seq<BuildEntry>, domain: Name, kind: byte)
    requires IsCanonical(hash, es, l) && forall f :: f in es ==> ValidEntry(f)
    ensures KeepsPrevailing(l, es, domain, kind)
  {
    hide Prevails, KeySorted, ValidName;
    forall e | e in OfKey(l, domain, kind)
      ensures e in es && Prevails(e.classification, OfKey(es, domain, kind))
    {
      TopPrevails(e, es);
    }
    forall e, f | e in OfKey(l, domain, kind) && f in OfKey(l, domain, kind)
      ensures e == f
    {
      OneOfKey(hash, l, e, f);
    }
    if e :| e in OfKey(es, domain, kind) {
      var g := TopOf(e, es);
      assert g in OfKey(l, domain, kind);
    }
  }
}
