// One synchronisation pass (syncer.go): sources are fetched, active entries
// are merged back when a source failed, and the table is swapped only once
// the whole list compiles and loads.

module ReputationSyncer {
  import opened Wrappers
  import opened Bytes
  import opened ReputationNames
  import opened ReputationPolicy
  import opened ReputationCanon
  import opened ReputationSnapshot
  import opened ReputationMatch
  import opened ReputationRoundTrip

  datatype EntryKey = EntryKey(domain: Name, classification: byte, matchKind: byte)

  function KeyOf(e: BuildEntry): EntryKey {
    EntryKey(Clean(e.domain), e.classification, e.matchKind)
  }

  function KeysOf(es: seq<BuildEntry>): set<EntryKey> {
    set e | e in es :: KeyOf(e)
  }

  // The active entries whose key has not been seen yet, each key once.
  function Missing(active: seq<BuildEntry>, seen: set<EntryKey>): seq<BuildEntry> {
    if active == [] then []
    else if KeyOf(active[0]) in seen then Missing(active[1..], seen)
    else [active[0]] + Missing(active[1..], seen + {KeyOf(active[0])})
  }

  function FetchedEntries(fetched: seq<Option<seq<BuildEntry>>>): seq<BuildEntry> {
    if fetched == [] then []
    else FetchedEntries(fetched[..|fetched| - 1]) + fetched[|fetched| - 1].GetOr([])
  }

  predicate SomeSourceFailed(fetched: seq<Option<seq<BuildEntry>>>) {
    None in fetched
  }

  // The list a pass hands to the compiler.
  function PassEntries(hash: Hash, defaults: seq<BuildEntry>, fetched: seq<Option<seq<BuildEntry>>>,
                       active: Option<ReputationTable>): seq<BuildEntry>
    requires active.Some? ==> ValidTable(hash, active.value)
  {
    var all := defaults + FetchedEntries(fetched);
    if SomeSourceFailed(fetched) && active.Some? then
      all + Missing(Records(hash, active.value), KeysOf(all))
    else all
  }

  lemma {:induction false} FetchedFrom(fetched: seq<Option<seq<BuildEntry>>>, e: BuildEntry)
    ensures e in FetchedEntries(fetched) <==>
      exists i :: 0 <= i < |fetched| && fetched[i].Some? && e in fetched[i].value
  {
    if fetched != [] {
      var p, last := fetched[..|fetched| - 1], fetched[|fetched| - 1];
      FetchedFrom(p, e);
      assert fetched == p + [last];
      assert forall i :: 0 <= i < |p| ==> p[i] == fetched[i];
    }
  }

  lemma {:induction false} MissingFrom(active: seq<BuildEntry>, seen: set<EntryKey>, e: BuildEntry)
    requires e in Missing(active, seen)
    ensures e in active && KeyOf(e) !in seen
  {
    hide KeyOf;
    assert active == [active[0]] + active[1..];
    if KeyOf(active[0]) in seen {
      MissingFrom(active[1..], seen, e);
    } else if e != active[0] {
      MissingFrom(active[1..], seen + {KeyOf(active[0])}, e);
    }
  }

  // What a pass compiles: every default and every entry of every source that
  // answered; and, when a source failed, active entries of other keys.
  lemma PassHolds(hash: Hash, defaults: seq<BuildEntry>, fetched: seq<Option<seq<BuildEntry>>>,
                  active: Option<ReputationTable>, e: BuildEntry)
    requires active.Some? ==> ValidTable(hash, active.value)
    ensures var all := PassEntries(hash, defaults, fetched, active);
      var new_ := e in defaults || exists i :: 0 <= i < |fetched| && fetched[i].Some? && e in fetched[i].value;
      && (new_ ==> e in all)
      && (e in all && !new_ ==> None in fetched && active.Some? && e in Records(hash, active.value))
      && (None !in fetched || active.None? ==> (e in all <==> new_))
  {
    hide Records, ValidTable, Missing, KeysOf, FetchedEntries;
    FetchedFrom(fetched, e);
    if SomeSourceFailed(fetched) && active.Some? {
      var seen := KeysOf(defaults + FetchedEntries(fetched));
      if e in Missing(Records(hash, active.value), seen) {
        MissingFrom(Records(hash, active.value), seen, e);
      }
    }
  }

  lemma {:induction false} MissingCovers(active: seq<BuildEntry>, seen: set<EntryKey>, e: BuildEntry)
    requires e in active
    ensures KeyOf(e) in seen || KeyOf(e) in KeysOf(Missing(active, seen))
  {
    hide Clean;
    if e != active[0] {
      assert active == [active[0]] + active[1..];
      MissingCovers(active[1..], if KeyOf(active[0]) in seen then seen else seen + {KeyOf(active[0])}, e);
    }
  }

  lemma MergedCovers(all: seq<BuildEntry>, active: seq<BuildEntry>, e: BuildEntry)
    requires e in active
    ensures exists f :: f in all + Missing(active, KeysOf(all)) && KeyOf(f) == KeyOf(e)
  {
    MissingCovers(active, KeysOf(all), e);
  }

  // An active entry and the top compiled entry of its key: wherever the
  // first speaks about a name, the second does too, at no lower rank.
  lemma EntryIsKept(hash: Hash, e: BuildEntry, f: BuildEntry, es: seq<BuildEntry>, name: Name) returns (g: BuildEntry)
    requires ValidEntry(e) && KeyOf(f) == KeyOf(e)
    requires f in es && Compilable(es)
    requires Applies(e, name)
    ensures g in Canon(hash, NormalizeAll(es)) && ValidEntry(g)
    ensures Applies(g, name) && Rank(g.classification) >= Rank(e.classification)
  {
    hide ValidName, IsSharedHosting, Canon, KeySorted;
    ValidIsClean(e.domain);
    CleanAgrees(f.domain);
    var n := Normalize(f);
    assert n.domain == e.domain && n.classification == e.classification;
    var i :| 0 <= i < |es| && es[i] == f;
    assert NormalizeAll(es)[i] == n;
    NormalizedValid(es);
    CanonIsCanonical(hash, NormalizeAll(es));
    g := TopOf(n, NormalizeAll(es));
    assert ValidEntry(g);
    assert e.domain != name ==> n.matchKind == SUBTREE;
  }

  // The table a successful reload publishes.
  function LoadedTable(hash: Hash, es: seq<BuildEntry>): (t: ReputationTable)
    requires Compiled(hash, es).Success?
    ensures ValidTable(hash, t)
    ensures Records(hash, t) == Canon(hash, NormalizeAll(es))
  {
    CompiledLoads(hash, es);
    TableOf(Compiled(hash, es).value)
  }

  ghost predicate NoVerdictWeakened(hash: Hash, before: ReputationTable, after: ReputationTable)
    requires ValidTable(hash, before) && ValidTable(hash, after)
  {
    forall fqdn: Name :: VerdictRank(Verdict(hash, after, fqdn)) >= VerdictRank(Verdict(hash, before, fqdn))
  }

  // A pass with a failed source never weakens the verdict on any name.
  lemma FusionKeepsVerdicts(hash: Hash, defaults: seq<BuildEntry>, fetched: seq<Option<seq<BuildEntry>>>,
                            active: ReputationTable)
    requires ValidTable(hash, active)
    requires SomeSourceFailed(fetched)
    requires Compiled(hash, PassEntries(hash, defaults, fetched, Some(active))).Success?
    ensures NoVerdictWeakened(hash, active, LoadedTable(hash, PassEntries(hash, defaults, fetched, Some(active))))
  {
    hide ValidTable, ValidEntry, Records, Compilable, Encode, ValidName, Applies, Clean, LoadedTable;
    var es := PassEntries(hash, defaults, fetched, Some(active));
    var after := LoadedTable(hash, es);
    var old_, new_ := Records(hash, active), Records(hash, after);
    RecordsValid(hash, active);
    RecordsValid(hash, after);
    forall fqdn: Name
      ensures VerdictRank(Verdict(hash, after, fqdn)) >= VerdictRank(Verdict(hash, active, fqdn))
    {
      var name := Clean(fqdn);
      forall e | e in old_ && Applies(e, name)
        ensures exists g :: g in new_ && Applies(g, name) && Rank(g.classification) >= Rank(e.classification)
      {
        MergedCovers(defaults + FetchedEntries(fetched), old_, e);
        var f :| f in es && KeyOf(f) == KeyOf(e);
        var g := EntryIsKept(hash, e, f, es, name);
      }
      ScanMonotone(old_, new_, name);
    }
  }

  // A pass that reloaded: how many entries, and which sources failed.
  datatype Synced = Synced(entries: nat, failed: seq<nat>)

  datatype SyncError = ContextDone | NoSource | NothingToCompile | CompileFailed

  class AtomicReputation {
    const hash: Hash
    var table: Option<ReputationTable>

    ghost predicate Valid()
      reads this
    {
      table.Some? ==> ValidTable(hash, table.value)
    }

    constructor (hash: Hash)
      ensures Valid() && table == None && this.hash == hash
    {
      this.hash := hash;
      table := None;
    }

    method ReloadFromEntries(entries: seq<BuildEntry>) returns (ok: bool)
      requires Valid()
      modifies this`table
      ensures Valid()
      ensures ok <==> Compiled(hash, entries).Success?
      ensures ok ==> table == Some(LoadedTable(hash, entries))
      ensures !ok ==> table == old(table)
    {
      hide Compiled, Accepts, ValidTable, TableOf, Records;
      var snap := CompileReputationSnapshot(hash, entries);
      if snap.Failure? {
        return false;
      }
      CompiledLoads(hash, entries);
      var newTbl := NewReputationTable(hash, snap.value);
      assert newTbl.value == LoadedTable(hash, entries);
      table := Some(newTbl.value);
      return true;
    }
  }

  class Syncer {
    const rep: AtomicReputation
    const defaults: seq<BuildEntry>

    constructor (rep: AtomicReputation, defaults: seq<BuildEntry>)
      ensures this.rep == rep && this.defaults == defaults
    {
      this.rep := rep;
      this.defaults := defaults;
    }

    // The list the pass compiles, given the outcome of every source.
    function Entering(fetched: seq<Option<seq<BuildEntry>>>): seq<BuildEntry>
      requires rep.Valid()
      reads rep
    {
      PassEntries(rep.hash, defaults, fetched, rep.table)
    }

    // fetched holds the outcome of each configured source, None for a failed
    // one; the two flags say whether the context was already done before and
    // after the fetches.
    method SyncOnce(fetched: seq<Option<seq<BuildEntry>>>, doneBefore: bool, doneAfter: bool)
      returns (r: Result<Synced, SyncError>)
      requires rep.Valid()
      modifies rep`table
      ensures rep.Valid()
      ensures r.Success? <==>
        && !doneBefore && !doneAfter && fetched != []
        && old(Entering(fetched)) != []
        && Compiled(rep.hash, old(Entering(fetched))).Success?
      ensures r.Failure? ==> rep.table == old(rep.table)
      ensures r.Success? ==>
        && rep.table == Some(LoadedTable(rep.hash, old(Entering(fetched))))
        && r.value.entries == rep.table.value.numEntries && NamesFailures(r.value.failed, fetched)
      ensures r.Success? && SomeSourceFailed(fetched) && old(rep.table).Some? ==>
        NoVerdictWeakened(rep.hash, old(rep.table).value, rep.table.value)
    {
      hide ValidTable, Compiled, Missing, NamesFailures, LoadedTable, NoVerdictWeakened, Records, KeysOf;
      if doneBefore {
        return Failure(ContextDone);
      }
      if |fetched| == 0 {
        return Failure(NoSource);
      }
      var allEntries, failed := Gather(defaults, fetched);
      if doneAfter {
        return Failure(ContextDone);
      }
      if |failed| > 0 {
        if rep.table.Some? {
          var active := Entries(rep.hash, rep.table.value);
          allEntries := MergeActive(allEntries, active);
        }
      }
      assert allEntries == old(Entering(fetched));
      if |allEntries| == 0 {
        return Failure(NothingToCompile);
      }
      var ok := rep.ReloadFromEntries(allEntries);
      if !ok {
        return Failure(CompileFailed);
      }
      if |failed| > 0 && old(rep.table).Some? {
        FusionKeepsVerdicts(rep.hash, defaults, fetched, old(rep.table).value);
      }
      return Success(Synced(rep.table.value.numEntries, failed));
    }
  }

  // failed lists the sources that failed, in the order they were read.
  ghost predicate NamesFailures(failed: seq<nat>, fetched: seq<Option<seq<BuildEntry>>>) {
    && (forall i :: i in failed <==> 0 <= i < |fetched| && fetched[i].None?)
    && forall i, j :: 0 <= i < j < |failed| ==> failed[i] < failed[j]
  }

  // Every source is read, and what went wrong is joined.
  method Gather(defaults: seq<BuildEntry>, fetched: seq<Option<seq<BuildEntry>>>)
    returns (allEntries: seq<BuildEntry>, failed: seq<nat>)
    ensures allEntries == defaults + FetchedEntries(fetched)
    ensures NamesFailures(failed, fetched)
    ensures failed != [] <==> SomeSourceFailed(fetched)
  {
    allEntries, failed := defaults, [];
    for i := 0 to |fetched|
      invariant allEntries == defaults + FetchedEntries(fetched[..i])
      invariant NamesFailures(failed, fetched[..i])
    {
      assert fetched[..i + 1][..i] == fetched[..i];
      if fetched[i].None? {
        assert forall k :: 0 <= k < |failed| ==> failed[k] in failed;
        failed := failed + [i];
        continue;
      }
      allEntries := allEntries + fetched[i].value;
    }
    assert fetched[..|fetched|] == fetched;
    assert failed != [] ==> failed[0] in failed;
  }

  // The resilience merge: a seen-map filled from the fetched entries, then
  // from each active entry that is added.
  method MergeActive(allEntries: seq<BuildEntry>, active: seq<BuildEntry>) returns (r: seq<BuildEntry>)
    ensures r == allEntries + Missing(active, KeysOf(allEntries))
  {
    hide Clean;
    var seen: set<EntryKey> := {};
    for i := 0 to |allEntries|
      invariant seen == KeysOf(allEntries[..i])
    {
      assert allEntries[..i + 1] == allEntries[..i] + [allEntries[i]];
      seen := seen + {KeyOf(allEntries[i])};
    }
    assert allEntries[..|allEntries|] == allEntries;
    r := allEntries;
    for i := 0 to |active|
      invariant r + Missing(active[i..], seen) == allEntries + Missing(active, KeysOf(allEntries))
    {
      var k := KeyOf(active[i]);
      assert active[i..][1..] == active[i + 1..];
      if k in seen {
        continue;
      }
      seen := seen + {k};
      r := r + [active[i]];
    }
  }
}
