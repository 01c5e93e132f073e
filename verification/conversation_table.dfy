// The fixed table of conversations (encrypted_wire_eval.go,
// encrypted_wire_hote.go): open addressing with linear probing, proved to be
// a finite map from keys to conversations, for every hash.

module ConversationTable {
  import opened Numbers
  import opened Wrappers
  import opened Bytes
  import opened Sorting
  import opened FlowWindows
  import opened ConversationFlow

  datatype ConversationKey = ConversationKey(client: seq<byte>, server: seq<byte>, serverPort: nat, transport: nat)

  // The packets retained for each key.
  type Runs = map<ConversationKey, seq<Packet>>

  function RunSoFar(runs: Runs, cle: ConversationKey): seq<Packet> { if cle in runs then runs[cle] else [] }

  type KeyHash = ConversationKey -> u64

  datatype Conversation = Conversation(cle: ConversationKey, ipv6: bool, occupee: bool, rang: nat, suivi: Flow)

  const NO_KEY: ConversationKey := ConversationKey([], [], 0, 0)
  const FREE: Conversation := Conversation(NO_KEY, false, false, 0, NEW_FLOW)

  // The slot a key hashes to; capacities are powers of two, so the mask of
  // the source is this remainder.
  function Home(hash: KeyHash, cle: ConversationKey, cap: nat): (h: nat)
    requires cap > 0
    ensures h < cap
  {
    hash(cle) % cap
  }

  function NextSlot(p: nat, cap: nat): nat { if p + 1 >= cap then 0 else p + 1 }

  // The j-th slot probed from home.
  function Probe(home: nat, j: nat, cap: nat): (p: nat)
    requires home < cap && j < cap
    ensures p < cap
  {
    if home + j < cap then home + j else home + j - cap
  }

  // How far slot i is from home along the probe sequence.
  function Distance(home: nat, i: nat, cap: nat): (d: nat)
    requires home < cap && i < cap
    ensures d < cap && Probe(home, d, cap) == i
  {
    if i >= home then i - home else i + cap - home
  }

  function Occupied(t: seq<Conversation>): set<nat> {
    set i | 0 <= i < |t| && t[i].occupee
  }

  predicate DistinctKeys(order: seq<ConversationKey>) {
    forall i, j :: 0 <= i < j < |order| ==> order[i] != order[j]
  }

  // The slot of each key comes before any free slot of its probe sequence.
  ghost predicate NoGap(hash: KeyHash, t: seq<Conversation>, i: nat)
    requires i < |t|
  {
    forall j :: 0 <= j < Distance(Home(hash, t[i].cle, |t|), i, |t|) ==>
      t[Probe(Home(hash, t[i].cle, |t|), j, |t|)].occupee
  }

  ghost predicate SlotsRanked(t: seq<Conversation>, order: seq<ConversationKey>) {
    forall i :: 0 <= i < |t| && t[i].occupee ==> t[i].rang < |order| && order[t[i].rang] == t[i].cle
  }

  ghost predicate NoGaps(hash: KeyHash, t: seq<Conversation>) {
    forall i :: 0 <= i < |t| && t[i].occupee ==> NoGap(hash, t, i)
  }

  predicate KeysOnce(t: seq<Conversation>) {
    forall i, j :: 0 <= i < j < |t| && t[i].occupee && t[j].occupee ==> t[i].cle != t[j].cle
  }

  ghost predicate HasSlot(t: seq<Conversation>, cle: ConversationKey) {
    exists i :: 0 <= i < |t| && t[i].occupee && t[i].cle == cle
  }

  ghost predicate AllHeld(t: seq<Conversation>, order: seq<ConversationKey>) {
    forall r :: 0 <= r < |order| ==> HasSlot(t, order[r])
  }

  // t holds exactly the keys of order, each in one slot, ranked in order,
  // where linear probing finds it.
  ghost predicate TableOk(hash: KeyHash, t: seq<Conversation>, order: seq<ConversationKey>) {
    && |t| > 0
    && DistinctKeys(order)
    && |Occupied(t)| == |order|
    && SlotsRanked(t, order)
    && NoGaps(hash, t)
    && KeysOnce(t)
    && AllHeld(t, order)
  }

  predicate TakenByOther(t: seq<Conversation>, p: nat, cle: ConversationKey)
    requires p < |t|
  {
    t[p].occupee && t[p].cle != cle
  }

  // A key in the table is probed before any free slot.
  lemma KeyBeforeFree(hash: KeyHash, t: seq<Conversation>, i: nat, cle: ConversationKey, n: nat)
    requires i < |t| && n < |t| && t[i].occupee && NoGap(hash, t, i)
    requires !t[Probe(Home(hash, cle, |t|), n, |t|)].occupee
    ensures t[i].cle == cle ==> Distance(Home(hash, cle, |t|), i, |t|) < n
  {
    hide Home;
  }

  // A free slot met first means the key is nowhere in the table.
  lemma FreeMeansAbsent(hash: KeyHash, t: seq<Conversation>, order: seq<ConversationKey>, cle: ConversationKey, n: nat)
    requires TableOk(hash, t, order) && n < |t|
    requires forall j :: 0 <= j < n ==> TakenByOther(t, Probe(Home(hash, cle, |t|), j, |t|), cle)
    requires !t[Probe(Home(hash, cle, |t|), n, |t|)].occupee
    ensures cle !in order
  {
    hide Home, Occupied, NoGap;
    forall i | 0 <= i < |t| && t[i].occupee
      ensures t[i].cle != cle
    {
      KeyBeforeFree(hash, t, i, cle, n);
    }
    assert !HasSlot(t, cle);
  }

  // Every slot probed and taken by another key: the table is full of others.
  lemma FullMeansAbsent(hash: KeyHash, t: seq<Conversation>, order: seq<ConversationKey>, cle: ConversationKey)
    requires TableOk(hash, t, order)
    requires forall j :: 0 <= j < |t| ==> TakenByOther(t, Probe(Home(hash, cle, |t|), j, |t|), cle)
    ensures cle !in order && |order| == |t|
  {
    hide Home, NoGaps, Occupied;
    forall i | 0 <= i < |t|
      ensures t[i].occupee && t[i].cle != cle
    {
      assert Probe(Home(hash, cle, |t|), Distance(Home(hash, cle, |t|), i, |t|), |t|) == i;
    }
    AllOccupied(t);
    assert !HasSlot(t, cle);
  }

  lemma AllOccupied(t: seq<Conversation>)
    ensures |Occupied(t)| <= |t|
    ensures (forall i :: 0 <= i < |t| ==> t[i].occupee) ==> |Occupied(t)| == |t|
    ensures (exists i :: 0 <= i < |t| && !t[i].occupee) ==> |Occupied(t)| < |t|
  {
    SubsetSize(Occupied(t), UpTo(|t|));
    if forall i :: 0 <= i < |t| ==> t[i].occupee {
      assert Occupied(t) == UpTo(|t|);
    } else {
      var i :| 0 <= i < |t| && !t[i].occupee;
      SubsetSize(Occupied(t), UpTo(|t|) - {i});
    }
  }

  // Table t2 differs from t in slot p alone, which is now held by cle.
  lemma NoGapsAfter(hash: KeyHash, t: seq<Conversation>, p: nat, c: Conversation)
    requires NoGaps(hash, t) && p < |t| && c.occupee
    requires NoGap(hash, t[p := c], p)
    ensures NoGaps(hash, t[p := c])
  {
    hide Home;
    var t' := t[p := c];
    forall i | 0 <= i < |t'| && t'[i].occupee
      ensures NoGap(hash, t', i)
    {
      if i != p {
        assert NoGap(hash, t, i);
      }
    }
  }

  lemma NewSlotNoGap(hash: KeyHash, t: seq<Conversation>, cle: ConversationKey, n: nat, c: Conversation)
    requires n < |t| && c.cle == cle && c.occupee
    requires forall j :: 0 <= j < n ==> t[Probe(Home(hash, cle, |t|), j, |t|)].occupee
    ensures NoGap(hash, t[Probe(Home(hash, cle, |t|), n, |t|) := c], Probe(Home(hash, cle, |t|), n, |t|))
  {
    hide Home;
    assert Distance(Home(hash, cle, |t|), Probe(Home(hash, cle, |t|), n, |t|), |t|) == n;
  }

  lemma InsertKeepsTable(hash: KeyHash, t: seq<Conversation>, order: seq<ConversationKey>, cle: ConversationKey,
                         n: nat, c: Conversation)
    requires TableOk(hash, t, order) && n < |t| && cle !in order
    requires forall j :: 0 <= j < n ==> TakenByOther(t, Probe(Home(hash, cle, |t|), j, |t|), cle)
    requires !t[Probe(Home(hash, cle, |t|), n, |t|)].occupee
    requires c.cle == cle && c.occupee && c.rang == |order|
    ensures TableOk(hash, t[Probe(Home(hash, cle, |t|), n, |t|) := c], order + [cle])
  {
    hide Home, NoGap, NoGaps, Probe;
    NewSlotNoGap(hash, t, cle, n, c);
    NoGapsAfter(hash, t, Probe(Home(hash, cle, |t|), n, |t|), c);
    InsertKeepsKeys(t, order, Probe(Home(hash, cle, |t|), n, |t|), c);
  }

  lemma InsertKeepsKeys(t: seq<Conversation>, order: seq<ConversationKey>, p: nat, c: Conversation)
    requires DistinctKeys(order) && |Occupied(t)| == |order|
    requires SlotsRanked(t, order) && KeysOnce(t) && AllHeld(t, order)
    requires p < |t| && !t[p].occupee && c.occupee && c.rang == |order| && c.cle !in order
    ensures DistinctKeys(order + [c.cle]) && |Occupied(t[p := c])| == |order + [c.cle]|
    ensures SlotsRanked(t[p := c], order + [c.cle]) && KeysOnce(t[p := c]) && AllHeld(t[p := c], order + [c.cle])
  {
    hide Occupied, DistinctKeys, SlotsRanked, KeysOnce, AllHeld;
    OneMoreOccupied(t, p, c);
    AppendKeepsDistinct(order, c.cle);
    InsertKeepsRanks(t, order, p, c);
    InsertKeepsOnce(t, order, p, c);
    InsertKeepsHeld(t, order, p, c);
  }

  lemma OneMoreOccupied(t: seq<Conversation>, p: nat, c: Conversation)
    requires p < |t| && !t[p].occupee && c.occupee
    ensures |Occupied(t[p := c])| == |Occupied(t)| + 1
  {
    assert Occupied(t[p := c]) == Occupied(t) + {p};
  }

  lemma AppendKeepsDistinct(order: seq<ConversationKey>, cle: ConversationKey)
    requires DistinctKeys(order) && cle !in order
    ensures DistinctKeys(order + [cle])
  {
  }

  lemma InsertKeepsRanks(t: seq<Conversation>, order: seq<ConversationKey>, p: nat, c: Conversation)
    requires SlotsRanked(t, order) && p < |t| && c.rang == |order|
    ensures SlotsRanked(t[p := c], order + [c.cle])
  {
  }

  lemma InsertKeepsHeld(t: seq<Conversation>, order: seq<ConversationKey>, p: nat, c: Conversation)
    requires AllHeld(t, order) && p < |t| && !t[p].occupee && c.occupee
    ensures AllHeld(t[p := c], order + [c.cle])
  {
    HeldAfter(t, order, p, c);
    var t', order' := t[p := c], order + [c.cle];
    assert t'[p].cle == c.cle;
    assert HasSlot(t', c.cle);
    hide HasSlot;
    forall r | 0 <= r < |order'|
      ensures HasSlot(t', order'[r])
    {
      if r < |order| {
        assert order'[r] == order[r];
      }
    }
  }

  lemma InsertKeepsOnce(t: seq<Conversation>, order: seq<ConversationKey>, p: nat, c: Conversation)
    requires SlotsRanked(t, order) && KeysOnce(t)
    requires p < |t| && !t[p].occupee && c.occupee && c.cle !in order
    ensures KeysOnce(t[p := c])
  {
    assert forall i :: 0 <= i < |t| && t[i].occupee ==> t[i].cle in order;
  }

  lemma HeldAfter(t: seq<Conversation>, order: seq<ConversationKey>, p: nat, c: Conversation)
    requires AllHeld(t, order) && p < |t| && c.occupee
    requires t[p].occupee ==> t[p].cle == c.cle
    ensures AllHeld(t[p := c], order)
  {
    var t' := t[p := c];
    forall r | 0 <= r < |order|
      ensures HasSlot(t', order[r])
    {
      assert HasSlot(t, order[r]);
      var i :| 0 <= i < |t| && t[i].occupee && t[i].cle == order[r];
      assert t'[i].occupee && t'[i].cle == order[r];
    }
  }

  // Replacing what is tracked in a slot leaves the map of keys alone.
  lemma UpdateKeepsTable(hash: KeyHash, t: seq<Conversation>, order: seq<ConversationKey>, p: nat, suivi: Flow)
    requires TableOk(hash, t, order) && p < |t| && t[p].occupee
    ensures TableOk(hash, t[p := t[p].(suivi := suivi)], order)
  {
    hide Home;
    var c := t[p].(suivi := suivi);
    assert Occupied(t[p := c]) == Occupied(t);
    assert NoGap(hash, t, p);
    assert NoGap(hash, t[p := c], p);
    NoGapsAfter(hash, t, p, c);
    HeldAfter(t, order, p, c);
  }

  // Whether a decoded frame is kept, and if not, which counter takes it.
  datatype Outcome = Retained | OutOfScope | Fragment | Malformed

  datatype Frame = Frame(outcome: Outcome, cle: ConversationKey, ipv6: bool, packet: Packet)

  datatype Stats = Stats(
    trames: nat, retenues: nat, horsPerimetre: nat, fragments: nat, malformees: nat,
    regressifs: nat, conversations: nat)

  // Every frame is counted once; a retained one also when the table is full.
  function Counted(s: Stats, frame: Frame, conversations: nat, late: bool): Stats {
    var t := s.(trames := s.trames + 1);
    match frame.outcome
    case OutOfScope => t.(horsPerimetre := s.horsPerimetre + 1)
    case Fragment => t.(fragments := s.fragments + 1)
    case Malformed => t.(malformees := s.malformees + 1)
    case Retained =>
      t.(retenues := s.retenues + 1, conversations := conversations,
         regressifs := s.regressifs + if late then 1 else 0)
  }

  // Each outcome has a counter of its own, and together they count the frames.
  lemma EachFrameOnce(s: Stats, frame: Frame, conversations: nat, late: bool)
    ensures var t, o := Counted(s, frame, conversations, late), frame.outcome;
      && t.trames - s.trames == 1
         == t.horsPerimetre - s.horsPerimetre + t.fragments - s.fragments + t.malformees - s.malformees
            + t.retenues - s.retenues
      && (o.OutOfScope? <==> t.horsPerimetre > s.horsPerimetre) && (o.Fragment? <==> t.fragments > s.fragments)
      && (o.Malformed? <==> t.malformees > s.malformees) && (o.Retained? <==> t.retenues > s.retenues)
      && t.regressifs - s.regressifs == if o.Retained? && late then 1 else 0
  {
  }

  datatype Verdict = Verdict(cle: ConversationKey, suivi: Flow)

  class EncryptedWireEvaluator {
    const hash: KeyHash
    const config: Config
    const conversations: array<Conversation>
    var stats: Stats
    // The keys by first appearance, and the packets retained for each.
    ghost var order: seq<ConversationKey>
    ghost var runs: Runs

    ghost predicate Valid()
      reads this, conversations
    {
      && ValidConfig(config) && conversations.Length > 0
      && TableOk(hash, conversations[..], order)
      && stats.conversations == |order|
      && stats.trames == stats.retenues + stats.horsPerimetre + stats.fragments + stats.malformees
      && Follows(conversations[..], order, runs, config)
    }

    constructor (hash: KeyHash, capacity: nat, config: Config)
      requires capacity >= 16 && ValidConfig(config)
      ensures Valid() && order == [] && fresh(conversations) && conversations.Length == capacity
      ensures this.hash == hash && this.config == config
    {
      this.hash, this.config := hash, config;
      conversations := new Conversation[capacity](_ => FREE);
      stats := Stats(0, 0, 0, 0, 0, 0, 0);
      order, runs := [], map[];
      new;
      EmptyTable(hash, conversations[..]);
    }

    // trouverOuCreer: the position of the key, or None when the table is full.
    method TrouverOuCreer(cle: ConversationKey, ipv6: bool) returns (r: Option<nat>)
      requires conversations.Length > 0 && TableOk(hash, conversations[..], order) && stats.conversations == |order|
      modifies this`stats, this`order, conversations
      ensures TableOk(hash, conversations[..], order)
      ensures stats == old(stats).(conversations := |order|)
      ensures |old(order)| <= conversations.Length
      ensures r.None? <==> cle !in old(order) && |old(order)| == conversations.Length
      ensures r.Some? ==> r.value < conversations.Length
      ensures r.Some? ==> conversations[r.value].occupee && conversations[r.value].cle == cle
      ensures r.None? || cle in old(order) ==> order == old(order) && conversations[..] == old(conversations[..])
      ensures r.Some? && cle !in old(order) ==>
        && order == old(order) + [cle]
        && conversations[..] == old(conversations[..])[r.value := Conversation(cle, ipv6, true, |old(order)|, NEW_FLOW)]
    {
      hide Home, TableOk;
      ghost var t := conversations[..];
      NoMoreThanSlots(hash, t, order);
      var cap := conversations.Length;
      ghost var home := Home(hash, cle, cap);
      var position := Home(hash, cle, cap);
      for n := 0 to cap
        invariant n < cap ==> position == Probe(home, n, cap)
        invariant conversations[..] == t
        invariant forall j :: 0 <= j < n ==> TakenByOther(t, Probe(home, j, cap), cle)
      {
        assert conversations[position] == t[position];
        if !conversations[position].occupee {
          FreeMeansAbsent(hash, t, order, cle, n);
          NotAllOccupied(hash, t, order, position);
          InsertKeepsTable(hash, t, order, cle, n, Conversation(cle, ipv6, true, |order|, NEW_FLOW));
          conversations[position] := Conversation(cle, ipv6, true, stats.conversations, NEW_FLOW);
          stats := stats.(conversations := stats.conversations + 1);
          order := order + [cle];
          return Some(position);
        }
        if conversations[position].cle == cle {
          HeldIsOrdered(hash, t, order, position);
          return Some(position);
        }
        position := NextSlot(position, cap);
      }
      FullMeansAbsent(hash, t, order, cle);
      return None;
    }

    // Observe: one frame, already decoded.
    method Observe(frame: Frame) returns (ok: bool)
      requires Valid()
      modifies this, conversations
      ensures Valid()
      ensures stats == Counted(old(stats), frame, |order|,
        frame.cle in old(runs) && frame.packet.timestampNs < Clock(old(runs)[frame.cle]))
      ensures ok <==>
        || frame.outcome != Retained
        || frame.cle in old(order)
        || |old(order)| < conversations.Length
      ensures frame.outcome != Retained || !ok ==> order == old(order) && runs == old(runs)
      ensures frame.outcome == Retained && ok ==>
        && order == (if frame.cle in old(order) then old(order) else old(order) + [frame.cle])
        && runs == old(runs)[frame.cle := RunSoFar(old(runs), frame.cle) + [frame.packet]]
    {
      hide TableOk, TrackFlow, Home, Follows;
      stats := stats.(trames := stats.trames + 1);
      match frame.outcome
      case OutOfScope => stats := stats.(horsPerimetre := stats.horsPerimetre + 1); return true;
      case Fragment => stats := stats.(fragments := stats.fragments + 1); return true;
      case Malformed => stats := stats.(malformees := stats.malformees + 1); return true;
      case Retained =>
        stats := stats.(retenues := stats.retenues + 1);
        ghost var t0, order0 := conversations[..], order;
        FollowedKeys(t0, order, runs, config, frame.cle);
        var found := TrouverOuCreer(frame.cle, frame.ipv6);
        if found.None? {
          return false;
        }
        var p := found.value;
        ghost var t := conversations[..];
        SlotFollows(hash, t0, order0, runs, config, t, order, frame.cle, frame.ipv6, p);
        var c := conversations[p];
        ghost var before := RunSoFar(runs, frame.cle);
        var suivi, regressed := AccumulerPaquet(before, c.suivi, frame.packet, config);
        if regressed {
          stats := stats.(regressifs := stats.regressifs + 1);
        }
        conversations[p] := c.(suivi := suivi);
        assert conversations[..] == t[p := t[p].(suivi := suivi)];
        UpdateKeepsTable(hash, t, order, p, suivi);
        AccumulateFollows(hash, t, order, runs, config, frame.cle, frame.packet, p, suivi);
        runs := runs[frame.cle := before + [frame.packet]];
        return true;
    }

    // FinalizeWithHosts: the verdicts in order of first appearance; the
    // evaluator is then empty again.
    method FinalizeConversations() returns (verdicts: seq<Verdict>)
      requires Valid()
      modifies this, conversations
      ensures Valid() && order == [] && stats == Stats(0, 0, 0, 0, 0, 0, 0)
      ensures |verdicts| == |old(order)|
      ensures forall r :: 0 <= r < |verdicts| ==>
        && verdicts[r].cle == old(order)[r]
        && verdicts[r].cle in old(runs)
        && old(runs)[verdicts[r].cle] != []
        && IsVerdictOfRun(verdicts[r].suivi, old(runs)[verdicts[r].cle], config)
    {
      hide TableOk, CloseFlow, Home, TrackFlow, Occupied, SortedBy, IsVerdictOfRun;
      var t := conversations[..];
      var occupees := OccupiedSlots(t);
      var sorted := Sort<nat>((a: nat, b: nat) => RankAt(t, a) < RankAt(t, b), occupees);
      RankOrder(hash, t, order, occupees, sorted);
      verdicts := [];
      for r := 0 to |sorted|
        invariant conversations[..] == t && order == old(order) && runs == old(runs) && |verdicts| == r
        invariant forall k :: 0 <= k < r ==>
          && verdicts[k].cle == order[k]
          && verdicts[k].cle in runs
          && runs[verdicts[k].cle] != []
          && IsVerdictOfRun(verdicts[k].suivi, runs[verdicts[k].cle], config)
      {
        var c := t[sorted[r]];
        HeldIsOrdered(hash, t, order, sorted[r]);
        FinalFlow(runs[c.cle], config);
        var closed := CloturerFlow(c.suivi);
        verdicts := verdicts + [Verdict(c.cle, closed)];
      }
      forall i | 0 <= i < conversations.Length {
        conversations[i] := FREE;
      }
      stats := Stats(0, 0, 0, 0, 0, 0, 0);
      order, runs := [], map[];
      EmptyTable(hash, conversations[..]);
    }
  }

  // Each slot tracks the run of its key.
  ghost predicate Follows(t: seq<Conversation>, order: seq<ConversationKey>, runs: Runs, config: Config)
    requires ValidConfig(config)
  {
    && runs.Keys == (set k | k in order)
    && (forall k | k in runs :: runs[k] != [])
    && forall i :: 0 <= i < |t| && t[i].occupee ==> t[i].cle in runs && t[i].suivi == TrackFlow(runs[t[i].cle], config)
  }

  lemma FollowedKeys(t: seq<Conversation>, order: seq<ConversationKey>, runs: Runs, config: Config,
                     cle: ConversationKey)
    requires ValidConfig(config) && Follows(t, order, runs, config)
    ensures cle in runs <==> cle in order
  {
  }

  lemma EmptyTable(hash: KeyHash, t: seq<Conversation>)
    requires |t| > 0 && forall i :: 0 <= i < |t| ==> t[i] == FREE
    ensures TableOk(hash, t, [])
  {
    assert Occupied(t) == {};
  }

  lemma NoMoreThanSlots(hash: KeyHash, t: seq<Conversation>, order: seq<ConversationKey>)
    requires TableOk(hash, t, order)
    ensures |order| <= |t|
  {
    AllOccupied(t);
  }

  lemma NotAllOccupied(hash: KeyHash, t: seq<Conversation>, order: seq<ConversationKey>, p: nat)
    requires TableOk(hash, t, order) && p < |t| && !t[p].occupee
    ensures |order| < |t|
  {
    AllOccupied(t);
  }

  lemma HeldIsOrdered(hash: KeyHash, t: seq<Conversation>, order: seq<ConversationKey>, p: nat)
    requires TableOk(hash, t, order) && p < |t| && t[p].occupee
    ensures t[p].cle in order && t[p].rang < |order| && order[t[p].rang] == t[p].cle
  {
  }

  // After the lookup the slot holds what has been tracked for the key so far.
  lemma SlotFollows(hash: KeyHash, t0: seq<Conversation>, order0: seq<ConversationKey>, runs: Runs,
                    config: Config, t: seq<Conversation>, order: seq<ConversationKey>,
                    cle: ConversationKey, ipv6: bool, p: nat)
    requires ValidConfig(config) && Follows(t0, order0, runs, config)
    requires TableOk(hash, t, order) && p < |t| == |t0| && t[p].occupee && t[p].cle == cle
    requires cle in order0 ==> order == order0 && t == t0
    requires cle !in order0 ==> order == order0 + [cle]
    requires cle !in order0 ==> t == t0[p := Conversation(cle, ipv6, true, |order0|, NEW_FLOW)]
    ensures t[p].suivi == TrackFlow(RunSoFar(runs, cle), config)
    ensures forall i :: 0 <= i < |t| && i != p && t[i].occupee ==>
      t[i].cle in runs && t[i].suivi == TrackFlow(runs[t[i].cle], config) && t[i].cle != cle
    ensures order == (if cle in order0 then order0 else order0 + [cle])
    ensures runs.Keys + {cle} == set k | k in order
    ensures forall k | k in runs :: runs[k] != []
  {
    hide TrackFlow, Home, NoGap, Occupied;
    assert cle in runs <==> cle in order0;
    FlowBegins(config);
  }

  lemma AccumulateFollows(hash: KeyHash, t: seq<Conversation>, order: seq<ConversationKey>, runs: Runs,
                          config: Config, cle: ConversationKey, packet: Packet, p: nat, suivi: Flow)
    requires ValidConfig(config) && p < |t| && t[p].occupee && t[p].cle == cle
    requires suivi == TrackFlow(RunSoFar(runs, cle) + [packet], config)
    requires forall i :: 0 <= i < |t| && i != p && t[i].occupee ==>
      t[i].cle in runs && t[i].suivi == TrackFlow(runs[t[i].cle], config) && t[i].cle != cle
    requires runs.Keys + {cle} == set k | k in order
    requires forall k | k in runs :: runs[k] != []
    ensures Follows(t[p := t[p].(suivi := suivi)], order,
                    runs[cle := RunSoFar(runs, cle) + [packet]], config)
  {
    hide TrackFlow;
    var runs' := runs[cle := RunSoFar(runs, cle) + [packet]];
    assert runs'.Keys == runs.Keys + {cle};
  }

  function RankAt(t: seq<Conversation>, i: nat): nat { if i < |t| then t[i].rang else 0 }

  method OccupiedSlots(t: seq<Conversation>) returns (slots: seq<nat>)
    ensures forall i :: i in slots <==> 0 <= i < |t| && t[i].occupee
    ensures forall i, j :: 0 <= i < j < |slots| ==> slots[i] < slots[j]
    ensures |slots| == |Occupied(t)|
  {
    hide Occupied;
    slots := [];
    assert t[..0] == [];
    NoSlots();
    for n := 0 to |t|
      invariant forall i :: i in slots <==> 0 <= i < n && t[i].occupee
      invariant forall i, j :: 0 <= i < j < |slots| ==> slots[i] < slots[j]
      invariant |slots| == |Occupied(t[..n])|
    {
      assert forall k :: 0 <= k < |slots| ==> slots[k] in slots;
      OneMoreSlot(t, n);
      if t[n].occupee {
        slots := slots + [n];
      }
    }
    assert t[..|t|] == t;
  }

  lemma NoSlots()
    ensures Occupied([]) == {}
  {
  }

  lemma OneMoreSlot(t: seq<Conversation>, n: nat)
    requires n < |t|
    ensures |Occupied(t[..n + 1])| == |Occupied(t[..n])| + if t[n].occupee then 1 else 0
  {
    assert Occupied(t[..n + 1]) == if t[n].occupee then Occupied(t[..n]) + {n} else Occupied(t[..n]);
  }

  // Sorting the occupied slots by rank lists them by first appearance.
  lemma RankOrder(hash: KeyHash, t: seq<Conversation>, order: seq<ConversationKey>, slots: seq<nat>, sorted: seq<nat>)
    requires TableOk(hash, t, order)
    requires forall i :: i in slots <==> 0 <= i < |t| && t[i].occupee
    requires |slots| == |Occupied(t)|
    requires forall i, j :: 0 <= i < j < |slots| ==> slots[i] < slots[j]
    requires multiset(sorted) == multiset(slots)
    requires SortedBy((a: nat, b: nat) => RankAt(t, a) < RankAt(t, b), sorted)
    ensures |sorted| == |order|
    ensures forall r :: 0 <= r < |sorted| ==> sorted[r] < |t| && t[sorted[r]].occupee && t[sorted[r]].rang == r
  {
    hide Home, NoGap, Occupied, AllHeld;
    SameMembers(slots, sorted);
    assert forall r :: 0 <= r < |sorted| ==> sorted[r] in sorted && sorted[r] in slots;
    var ranks := seq(|sorted|, r requires 0 <= r < |sorted| => RankAt(t, sorted[r]));
    forall i, j | 0 <= i < j < |sorted|
      ensures ranks[i] < ranks[j]
    {
      assert !(RankAt(t, sorted[j]) < RankAt(t, sorted[i]));
      DistinctSlots(slots, sorted, i, j);
      RanksDiffer(t, order, sorted[i], sorted[j]);
    }
    IncreasingIsIdentity(ranks, |order|);
    assert forall r :: 0 <= r < |sorted| ==> ranks[r] == RankAt(t, sorted[r]);
  }

  lemma RanksDiffer(t: seq<Conversation>, order: seq<ConversationKey>, a: nat, b: nat)
    requires SlotsRanked(t, order) && KeysOnce(t)
    requires a < |t| && b < |t| && a != b && t[a].occupee && t[b].occupee
    ensures t[a].rang != t[b].rang
  {
    assert t[a].cle != t[b].cle;
  }

  lemma DistinctSlots(slots: seq<nat>, sorted: seq<nat>, i: nat, j: nat)
    requires forall i, j :: 0 <= i < j < |slots| ==> slots[i] < slots[j]
    requires multiset(sorted) == multiset(slots)
    requires i < j < |sorted|
    ensures sorted[i] != sorted[j]
  {
    if sorted[i] == sorted[j] {
      assert sorted == sorted[..i] + [sorted[i]] + sorted[i + 1..j] + [sorted[j]] + sorted[j + 1..];
      assert multiset(sorted)[sorted[i]] >= 2;
      OnceEach(slots, sorted[i]);
    }
  }

  lemma {:induction false} OnceEach(s: seq<nat>, x: nat)
    requires forall i, j :: 0 <= i < j < |s| ==> s[i] < s[j]
    ensures multiset(s)[x] <= 1
  {
    if s != [] {
      var p, y := s[..|s| - 1], s[|s| - 1];
      OnceEach(p, x);
      assert s == p + [y];
      assert y !in p;
      assert y !in multiset(p);
    }
  }

  lemma IncreasingIsIdentity(s: seq<nat>, n: nat)
    requires |s| == n && (forall i, j :: 0 <= i < j < n ==> s[i] < s[j])
    requires forall i :: 0 <= i < n ==> s[i] < n
    ensures forall i :: 0 <= i < n ==> s[i] == i
  {
    forall i | 0 <= i < n
      ensures s[i] == i
    {
      AtLeastIndex(s, i);
      AtMostIndex(s, i);
    }
  }

  lemma {:induction false} AtLeastIndex(s: seq<nat>, i: nat)
    requires (forall i, j :: 0 <= i < j < |s| ==> s[i] < s[j]) && i < |s|
    ensures s[i] >= i
  {
    if i > 0 {
      AtLeastIndex(s, i - 1);
    }
  }

  lemma {:induction false} AtMostIndex(s: seq<nat>, i: nat)
    requires (forall i, j :: 0 <= i < j < |s| ==> s[i] < s[j]) && i < |s|
    requires forall i :: 0 <= i < |s| ==> s[i] < |s|
    ensures s[i] <= i
    decreases |s| - i
  {
    if i + 1 < |s| {
      AtMostIndex(s, i + 1);
    }
  }
}
