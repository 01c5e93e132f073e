// What a list of policy entries says about a queried name: the linear scan
// that every faster lookup has to agree with.

module ReputationPolicy {
  import opened Wrappers
  import opened Bytes
  import opened ReputationNames

  const ALLOW_VENDOR: byte := 1
  const BLOCK_C2: byte := 3
  const PROTOCOL_CRYPTO: byte := 4

  const EXACT: byte := 1
  const SUBTREE: byte := 2

  datatype BuildEntry = BuildEntry(domain: Name, classification: byte, matchKind: byte)

  predicate ValidClass(c: byte) { ALLOW_VENDOR <= c <= PROTOCOL_CRYPTO }

  predicate ValidKind(k: byte) { k == EXACT || k == SUBTREE }

  predicate ValidEntry(e: BuildEntry) {
    ValidName(e.domain) && ValidClass(e.classification) && ValidKind(e.matchKind)
  }

  // A Block entry dominates; the other classes keep their numeric order.
  function Rank(c: byte): nat { if c == BLOCK_C2 then 10 else c }

  // child is parent with at least one more label in front.
  predicate IsChildOf(child: Name, parent: Name) {
    && |parent| < |child|
    && child[|child| - |parent|..] == parent
    && child[|child| - |parent| - 1] == DOT
  }

  // e speaks about name: it names it, or it is a subtree above it. A
  // subtree on a shared hosting root reaches its children only to block them.
  predicate Applies(e: BuildEntry, name: Name) {
    || e.domain == name
    || (&& IsChildOf(name, e.domain)
        && e.matchKind == SUBTREE
        && (IsSharedHosting(e.domain) ==> e.classification == BLOCK_C2))
  }

  // Higher rank first, then the longer domain, then exact before subtree.
  predicate Outranks(a: BuildEntry, b: BuildEntry) {
    || Rank(a.classification) > Rank(b.classification)
    || (&& Rank(a.classification) == Rank(b.classification)
        && (|a.domain| > |b.domain| || (|a.domain| == |b.domain| && a.matchKind < b.matchKind)))
  }

  function LinearScan(es: seq<BuildEntry>, name: Name): Option<BuildEntry> {
    if es == [] then None
    else
      var before := LinearScan(es[..|es| - 1], name);
      var e := es[|es| - 1];
      if Applies(e, name) && (before.None? || Outranks(e, before.value)) then Some(e) else before
  }

  ghost predicate IsBest(es: seq<BuildEntry>, name: Name, r: Option<BuildEntry>) {
    match r
    case None => forall e :: e in es ==> !Applies(e, name)
    case Some(m) =>
      && m in es
      && Applies(m, name)
      && forall e :: e in es && Applies(e, name) ==> !Outranks(e, m)
  }

  lemma {:induction false} ScanIsBest(es: seq<BuildEntry>, name: Name)
    ensures IsBest(es, name, LinearScan(es, name))
  {
    if es != [] {
      ScanIsBest(es[..|es| - 1], name);
      assert es == es[..|es| - 1] + [es[|es| - 1]];
    }
  }

  // The best applicable entry is unique, so any search that finds one
  // returns what the linear scan returns.
  lemma BestIsScan(es: seq<BuildEntry>, name: Name, r: Option<BuildEntry>)
    requires forall e :: e in es ==> ValidEntry(e)
    requires IsBest(es, name, r)
    ensures r == LinearScan(es, name)
  {
    ScanIsBest(es, name);
    var s := LinearScan(es, name);
    if r.Some? && s.Some? {
      assert Rank(r.value.classification) == Rank(s.value.classification);
      assert r.value.classification == s.value.classification;
      assert r.value.domain == s.value.domain;
    }
  }

  function VerdictRank(r: Option<BuildEntry>): nat {
    if r.Some? then Rank(r.value.classification) else 0
  }

  // Block wins over every other applicable entry, and a shared hosting root
  // never speaks for its children unless it blocks them.
  lemma ScanDecision(es: seq<BuildEntry>, name: Name)
    requires forall e :: e in es ==> ValidEntry(e)
    ensures (exists e :: e in es && Applies(e, name) && e.classification == BLOCK_C2)
        <==> VerdictRank(LinearScan(es, name)) == Rank(BLOCK_C2)
    ensures LinearScan(es, name).Some? && IsSharedHosting(LinearScan(es, name).value.domain)
        && LinearScan(es, name).value.classification != BLOCK_C2
        ==> LinearScan(es, name).value.domain == name
  {
    ScanIsBest(es, name);
  }

  // c is what a group of classes comes down to: 3, the blocking class, if it
  // is among them, and otherwise the greatest.
  ghost predicate Prevails(c: byte, es: set<BuildEntry>) {
    && (exists e :: e in es && e.classification == c)
    && (c == 3 || forall e :: e in es ==> e.classification <= c && e.classification != 3)
  }

  function Applicable(es: seq<BuildEntry>, name: Name): set<BuildEntry> {
    set e | e in es && Applies(e, name)
  }

  // The decision in terms of the bytes of the entries: the prevailing class of
  // those that apply, then the longest domain, then the smaller kind.
  ghost predicate Decides(es: seq<BuildEntry>, name: Name, r: Option<BuildEntry>) {
    match r
    case None => Applicable(es, name) == {}
    case Some(m) =>
      && m in Applicable(es, name)
      && Prevails(m.classification, Applicable(es, name))
      && forall e :: e in Applicable(es, name) && e.classification == m.classification ==>
           |e.domain| < |m.domain| || (e.domain == m.domain && m.matchKind <= e.matchKind)
  }

  lemma ScanDecides(es: seq<BuildEntry>, name: Name)
    requires forall e :: e in es ==> ValidEntry(e)
    ensures Decides(es, name, LinearScan(es, name))
  {
    ScanIsBest(es, name);
    var r := LinearScan(es, name);
    if r.Some? {
      var m := r.value;
      forall e | e in Applicable(es, name)
        ensures e.classification == m.classification || m.classification == 3
                || (e.classification < m.classification && e.classification != 3)
        ensures e.classification == m.classification ==>
          |e.domain| < |m.domain| || (e.domain == m.domain && m.matchKind <= e.matchKind)
      {
        if |e.domain| == |m.domain| {
          SameLengthSuffix(e, m, name);
        }
      }
    }
  }

  lemma SameLengthSuffix(a: BuildEntry, b: BuildEntry, name: Name)
    requires Applies(a, name) && Applies(b, name) && |a.domain| == |b.domain|
    ensures a.domain == b.domain
  {
  }

  // A list in which every entry of another list is matched by an entry of
  // at least its rank wherever it applies never gives a weaker verdict.
  lemma ScanMonotone(old_: seq<BuildEntry>, new_: seq<BuildEntry>, name: Name)
    requires forall e :: e in new_ ==> ValidEntry(e)
    requires forall e :: e in old_ && Applies(e, name) ==>
      exists f :: f in new_ && Applies(f, name) && Rank(f.classification) >= Rank(e.classification)
    ensures VerdictRank(LinearScan(new_, name)) >= VerdictRank(LinearScan(old_, name))
  {
    ScanIsBest(old_, name);
    ScanIsBest(new_, name);
  }
}
