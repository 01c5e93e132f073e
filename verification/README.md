# A verified model of the c2blue55 core

A Dafny model of the stateful core of a network-defence tool written in Go,
with proofs of what that code is for. It covers:

- **Reputation table** (`reputation_*.dfy`): the compiler from policy entries
  to a binary snapshot, the validating loader, the binary-searched index, and
  the syncer that merges, recompiles and swaps tables. The index answers as a
  plain scan would; the snapshot is canonical and round-trips; a pass with a
  failed source weakens no verdict.
- **Daily oracle silo** (`oracle_*.dfy`): two-channel reservoir sampling
  with what every random word decides, merge on seal, rotation of days in any order, and the chain of seals with its
  repair on back-fill. The storage directory is a map from days to files, the
  seal an arbitrary function of header and entries (assumed injective only
  where a lemma says so), the random stream an arbitrary function.
- **DNS walkers** (`dns_*.dfy`): three independent traversals of compressed
  names (section 4.1.4 of RFC 1035), the full decoder, and three light section
  walkers that must agree with it; a message written out is read back.
- **Encrypted flows** (`flow_windows.dfy`, `flow_bursts.dfy`,
  `conversation_*.dfy`, `host_*.dfy`, `roc_auc.dfy`): window and burst counters
  of every conversation against its whole packet run, an open-addressing table as a map, an
  interval sweep as connected components, a rank sum as pair counting.
- **Concurrent protocols** (`sub_ring.dfy`, `ring_*.dfy`,
  `corpus_router.dfy`, `arbitration_*.dfy`): the single-producer
  single-consumer ring and the bounded queue with its close and drain, as steps
  that interleave in every order and come to an end, with what each loses and
  counts read off the schedule alone; and the ring as run by one thread, which
  is what the steps of one side come to while the other is idle.
- **Streaming and tracking** (`stream_windows.dfy`, `temporal_tracker.dfy`):
  the sliding-buffer file windower against slicing the whole file, and the
  eight-probe domain table with its timestamp ring and 256-bit filter against
  the histories they stand for.

`numbers.dfy`, `bytes.dfy` and `sorting.dfy` hold what the modules share. A sort is used only
through its contract, a sorted permutation: the library sorts are unstable.

Names follow the source. Code that updates its state in place is modelled by
classes and loops whose contracts tie the new state to a function of the old
one; lemmas then say what that function means. Hash functions (FNV-1a,
splitmix64), the random words, the seal and the persistence score are
parameters, and every result holds for all of them, collisions included.

Where code and comment disagree the code is modelled. The comment on
`currentDroppedFlags` (server_oracle_silo.go:82-85) promises the flags of the
entries that were displaced; line 232 adds those of the entry that arrives. For
the anomaly flag the promise holds all the same (`AnomalyReachesHeader`). For
the degraded flag it does not: `DegradedPromiseFails` gives an input for every
random stream, and `DegradedShowsIff` says exactly when it holds, in terms of the
branch that loses the flag.

## Model

| member | source | states |
|---|---|---|
| `ReputationNames.ValidReputationDomain` | compact_reputation.go:265-285 | The single pass over the bytes accepts exactly the valid names: 1 to 253 bytes, every maximal run without a dot a label of 1 to 63 lower-case letters, digits, `-` or `_` that neither starts nor ends with `-`. The definition speaks of labels, not of the scan. |
| `ReputationNames.CleanDomain` | compact_reputation.go:164-183 | Lower-casing only when an upper-case byte is present gives what lower-casing always would, with one trailing dot removed at most. |
| `ReputationNames.ValidIsClean` | compact_reputation.go:164-183 | A valid name is a fixed point of the query cleaning, of the compiler's trimming and of lower-casing. |
| `ReputationNames.CleanAgrees` | compact_reputation.go:337-357 | Whenever the query cleaning of a spelling is a valid name, the compiler's cleaning of that spelling is the same name. |
| `ReputationNames.TrimmedAround` | compact_reputation.go:337-339 | Trimming cuts off exactly the ASCII spaces around the name. |
| `ReputationPolicy.ScanIsBest` | compact_reputation.go:200-251 | The reference decision: the linear scan returns an applicable entry that no applicable entry outranks (rank, then longer domain, then exact before subtree), and none only if none applies. |
| `ReputationPolicy.BestIsScan` | compact_reputation.go:200-251 | The best applicable entry is unique, so whatever search finds one returns what the linear scan returns. |
| `ReputationPolicy.ScanDecision` | compact_reputation.go:236-263 | Block is the verdict if and only if some Block entry applies; a subtree on a shared-hosting root is never the verdict on a child unless it blocks. |
| `ReputationPolicy.ScanMonotone` | syncer.go:124-151 | If every applicable entry of one list is matched in another by an applicable entry of at least its rank, no verdict of the second list is weaker. |
| `ReputationPolicy.ScanDecides` | compact_reputation.go:236-263 | What the scan returns is applicable, and class 3 prevails over every class, a greater class over a smaller one, then the longer domain, then the exact entry: stated without the rank. |
| `ReputationMatch.Match` | compact_reputation.go:200-222 | On every table the loader admits, for every byte string and every hash function, collisions included, the suffix loop over the binary-searched index returns what the linear scan of all entries returns; and, on the class bytes, an applicable Block entry is what decides, and without one the greatest class among the applicable entries. |
| `ReputationMatch.VerdictDecides` | compact_reputation.go:200-222 | Whatever entry is the verdict of the table decides in that sense. |
| `ReputationMatch.MatchHash` | compact_reputation.go:225-251 | Over the whole range of equal hashes, returns the best entry that carries exactly this text and may answer at this suffix; none only if there is none. |
| `ReputationMatch.LowerBound` | compact_reputation.go:226-234 | The binary search splits the index: every record before the result has a smaller hash, none after does. |
| `ReputationMatch.BestStep` | compact_reputation.go:204-221 | Merging the candidate of one suffix into the best of all longer ones gives the best of both. |
| `ReputationMatch.NextSuffix` | compact_reputation.go:213-220 | No applicable domain ends strictly inside a label, so moving to the next dot skips no entry. |
| `ReputationSnapshot.NewReputationTable` | compact_reputation.go:97-151 | The loader succeeds exactly on the well-formed snapshots (header, sizes, every record in bounds, valid, hashed to its domain and in hash order), and then returns the table those bytes stand for; the invalid-magic error is given in exactly one case. |
| `ReputationSnapshot.CheckRecords` | compact_reputation.go:126-142 | The validation loop accepts exactly the tables whose records are all valid and ordered by hash. |
| `ReputationSnapshot.CheckRecord` | compact_reputation.go:126-142 | One record is accepted exactly when it is in bounds without overflow, names a valid clean domain, carries that domain's hash, and has a known class, a known kind and no flags. |
| `ReputationSnapshot.Entries` | compact_reputation.go:307-322 | On a loaded table the bounds guard never fires: every record is enumerated, in index order. |
| `ReputationSnapshot.NormalizeItems` | compact_reputation.go:332-357 | The pass over the input succeeds exactly when every entry normalises to a valid one and the whole input fits the byte budget, early exits included. |
| `ReputationSnapshot.MergeItems` | compact_reputation.go:372-382 | From any list sorted by the comparison the source hands to its unstable sort, the merge keeps exactly one entry of each (domain, kind), the highest ranked. |
| `ReputationSnapshot.SortAndMerge` | compact_reputation.go:359-382 | Sorting and merging gives the canonical list, which depends on the set of entries alone. |
| `ReputationSnapshot.CompileReputationSnapshot` | compact_reputation.go:325-422 | The compiler succeeds exactly on the compilable inputs, with the bytes of the canonical list and the right error otherwise. |
| `ReputationCanon.CanonicalUnique` | compact_reputation.go:359-382 | Two lists with the same elements, in any order and with any repetition, have one canonical list. |
| `ReputationCanon.CanonIsCanonical` | compact_reputation.go:359-382 | The canonical list is strictly ordered by (hash, domain, kind) and holds exactly the top-ranked entry of each (domain, kind). |
| `ReputationCanon.CanonicalKeepsPrevailing` | compact_reputation.go:359-382 | Of each (domain, kind) the canonical list keeps an entry of class 3 if there is one, and otherwise one of the greatest class. |
| `ReputationCanon.OneOfKey` | compact_reputation.go:359-382 | It keeps no more than one entry of each (domain, kind). |
| `ReputationRoundTrip.EncodeLoads` | compact_reputation.go:384-422 | Printing a canonical list and loading the bytes succeeds and reads the same list back. |
| `ReputationRoundTrip.CompiledLoads` | compact_reputation.go:325-422 | Whatever the compiler writes, the loader admits, and the table enumerates the normalised entries, one of top rank for each (domain, kind). |
| `ReputationRoundTrip.CompiledKeepsPrevailing` | compact_reputation.go:325-422 | The table loaded from a compiled snapshot holds, of each (domain, kind) compiled, one entry: of class 3 if any has it, otherwise of the greatest class. |
| `ReputationRoundTrip.HeaderLayout` | compact_reputation.go:97-124 | The bytes of the header of an admitted snapshot: signature, version 1, sizes that add up, six zeros. |
| `ReputationRoundTrip.RecordLayout` | compact_reputation.go:126-161 | Where in an admitted snapshot the hash, the name, its length, the class and the kind of each entry lie. |
| `ReputationRoundTrip.CompileIgnoresOrderAndRepetition` | compact_reputation.go:359-382 | Two compilable inputs with the same set of entries compile to the same bytes. |
| `ReputationRoundTrip.CompileIgnoresPermutation` | compact_reputation.go:325-422 | A permutation of the input gives the same result, refusals included. |
| `ReputationRoundTrip.RecompileIsIdentity` | compact_reputation.go:307-422 | Compiling what a compiled table enumerates reproduces the snapshot byte for byte. |
| `ReputationSyncer.FusionKeepsVerdicts` | syncer.go:124-162 | If a source failed and the reload succeeds, the new verdict on every name has at least the rank of the old one. |
| `ReputationSyncer.EntryIsKept` | syncer.go:137-151 | Every active entry that speaks about a name has, in the compiled table, an entry of its key that speaks about it at no lower rank. |
| `ReputationSyncer.MergeActive` | syncer.go:137-151 | The seen-map loop adds exactly the active entries whose (domain, class, kind) was not fetched, each key once. |
| `ReputationSyncer.Gather` | syncer.go:103-122 | Collects the defaults and the entries of every source that answered, and names the sources that failed, in the order they were read. |
| `ReputationSyncer.PassHolds` | syncer.go:103-151 | What a pass compiles: every default, every entry of every source that answered, and, only when a source failed, entries of the active table. |
| `ReputationSyncer.Syncer.SyncOnce` | syncer.go:89-170 | When a pass reloads and when it does not; a pass that does not leaves the active table alone; one that does publishes the compiled table, says how many entries it has and which sources failed, and weakens no verdict if some did. |
| `ReputationSyncer.AtomicReputation.ReloadFromEntries` | compact_reputation.go:495-506 | Publishes the loaded table exactly when compilation succeeds, and otherwise keeps the active one. |
| `DnsNames.DecodeDNSWireName` | dns_message.go:170-246 | The strict decoder, byte by byte into its 256-byte buffer: it fails with the error of the reading, or yields the dotted lower-case text, the offset past the name where it starts, the label count and longest label, where each label lies in the text, and whether some byte is not a letter, digit, hyphen or underscore. It terminates on every byte string, cyclic pointers included, and stays within its buffer. |
| `DnsNames.MarkLabel` | dns_message.go:222-239 | The offset recorded for a label is where the label lies in the text, whatever bytes, dots included, the labels are made of. |
| `DnsNames.SauterNomAAAAIID` | aaaa_iid_eval.go:20-58 | The second walker, over every byte string: accepts exactly when its reading does (pointers anywhere, eight jumps, 255 wire octets), with that end offset. |
| `DnsNames.SauterNomDNS` | soa_negative_eval.go:114-141 | The third walker, over every byte string: accepts exactly when its reading does (the first pointer ends the name), with that end offset. |
| `DnsNames.DecodeIffAaaaAndBack` | dns_message.go:170-246 | The strict decoder accepts exactly the names the AAAA walker accepts whose pointers all go back and stay out of the header; the 253-character bound on the text and the 255-octet bound on the wire (section 2.3.4 of RFC 1035) are the same bound. |
| `DnsNames.AaaaImpliesSoa` | aaaa_iid_eval.go:20-58 | Whatever the AAAA walker accepts, the SOA walker accepts, with the same end. |
| `DnsNames.RefinementChain` | dns_message.go:170-246 | A name accepted by the strict decoder is accepted by the two others at the same offset, all three with one end, strictly past the start and within the packet. |
| `DnsNames.ChainIsStrict` | soa_negative_eval.go:114-141 | Neither inclusion is an equality: concrete packets for both. |
| `DnsNames.SelfPointer` | aaaa_iid_eval.go:20-58 | A pointer to itself is refused once the jumps run out, wherever in a name it is met and after however many octets. |
| `DnsSections.ContientSOAAutorite` | soa_negative_eval.go:143-174 | True if and only if some authority record readable from the front has type SOA, the header excluded. |
| `DnsSections.ContientChargeReponseIllegitimeNXDOMAIN` | soa_negative_eval.go:176-209 | False if and only if the whole answer section is readable and made of types 5, 39 and 46 only. |
| `DnsSections.CompterReponsesAAAAIID` | aaaa_iid_eval.go:61-93 | Valid exactly when the answer section is readable; then the count of type 28 and the first eight data bytes of the first such record that has them, otherwise neither count nor prefix. |
| `DnsSections.ParsedIsWalked` | dns_message.go:248-283 | A record section that decodes is a section that walks: same end, and record by record the same type and data bytes. |
| `DnsSections.RecordIsWalked` | dns_message.go:248-283 | One record that decodes is one that walks, with its type and data. |
| `DnsSections.RecordsConcat` | soa_negative_eval.go:155-172 | Walking n records and then m more is walking n + m, which is how one loop covers answers and authorities. |
| `DnsSections.SoaAgreesWithParse` | soa_negative_eval.go:143-174 | Whenever the full decoder accepts the packet, the SOA check holds iff some decoded authority record has type 6. |
| `DnsSections.NxdomainAgreesWithParse` | soa_negative_eval.go:176-209 | Whenever the full decoder accepts the packet, the answer is legitimate iff every decoded answer has type 5, 39 or 46. |
| `DnsSections.AaaaAgreesWithParse` | aaaa_iid_eval.go:61-93 | Whenever the full decoder accepts the packet, count and first prefix are those of the decoded answers of type 28. |
| `DnsMessage.DNSMessage.ParseDNSMessage` | dns_message.go:77-168 | The object is filled with exactly the header fields, the question, the traits of its name and the records of the packet, section by section, or the first error in packet order is returned. |
| `DnsMessage.DNSMessage.ReadQuestions` | dns_message.go:101-155 | The first question sets name, type, class and the traits of the name; the others are stepped over; the first failure is reported. |
| `DnsMessage.DNSMessage.ReadSections` | dns_message.go:157-167 | The three record sections fill the three arrays, in order, or the first error is returned. |
| `DnsMessage.FlagsTakenApart` | dns_message.go:86-95 | The identifier and the flag word are the first two big-endian words of the packet, and the header fields take the flag word apart: with the three reserved bits they give it back. |
| `DnsMessage.CountFirstLabel` | dns_message.go:121-141 | One loop counts upper case, lower case and digits of the first label on the wire, and finds a hyphen or a character read for another. |
| `DnsMessage.FirstLabelIsFirst` | dns_message.go:121-141 | The bytes counted are those of the first decoded label, the name of the question being unable to begin with a pointer. |
| `DnsMessage.CountIsSize` | dns_message.go:121-141 | The count of a kind of byte is the number of places that hold one. |
| `DnsMessage.DecodeRRSection` | dns_message.go:248-283 | A section of more records than the array holds is refused; otherwise all are stored, in order, or the error of the first bad one is returned. |
| `DnsEncoding.MessageRoundTrip` | dns_message.go:77-168 | A message written out in wire format, with one question and as many records as the arrays hold, is decoded to exactly its fields, its name and its records, section by section. |
| `DnsEncoding.RecordsRoundTrip` | dns_message.go:248-283 | A section of records written out is decoded to those records and ends where it ends. |
| `DnsEncoding.NameRoundTrip` | dns_message.go:170-246 | A name of plain labels within the bound on the text is decoded to those labels. |
| `DnsEncoding.CompressedName` | dns_message.go:185-206 | A name that ends in a pointer back goes on with the name pointed to, and ends behind the pointer. |
| `OracleSlice.EveryStream` | server_oracle_silo.go:172-256 | For every stream of snapshots and of random words: at most the capacity is held; observed = held + displaced; while no more High or Critical entries than the capacity arrived they are all held, in order; a slice that displaced nothing holds everything in order. |
| `OracleSlice.OfferKeepsInv` | server_oracle_silo.go:205-251 | The same, for one more snapshot, through each of the five branches of the two-channel sampling. |
| `OracleSlice.HighLeavesAMark` | server_oracle_silo.go:205-251 | Some High or Critical entry is held at the end if and only if one ever arrived. |
| `OracleSlice.HighWord` | server_oracle_silo.go:107-111 | The high word of the 128-bit product is below n and is the quotient: each number below n gets its own stretch of words. |
| `OracleSlice.EveryNumberIsDrawn` | server_oracle_silo.go:107-111 | While n is at most 2^64 every number below n is drawn for some word. |
| `OracleChannels.ChannelIsReservoir` | server_oracle_silo.go:225-254 | Each channel is a reservoir: after a stream of one severity every place of a full slice holds the last entry whose word fell on it, and the entry it began with when none did; a word is drawn for each arrival past the capacity, among all that the channel has seen. |
| `OracleChannels.Counted` | server_oracle_silo.go:205-232 | After any stream: how many of each severity were seen, how many entries were displaced, and that one word was drawn for each of those. |
| `OracleMerge.MergeOracleEntries` | server_oracle_silo.go:772-795 | The two passes over the seen-map give the merge, and the number of fresh entries left out of it. |
| `OracleMerge.MergeKeepsEverything` | server_oracle_silo.go:772-795 | The merge is duplicate-free, holds exactly what either side holds, starts with the day already sealed in its own order, and its length is accounted for by the duplicates. |
| `OracleMerge.MergeIdempotent` | server_oracle_silo.go:772-795 | Merging entries that are already there changes nothing and counts them all as duplicates. |
| `OracleMerge.ReservoirIndices` | server_oracle_silo.go:422-436 | One word is drawn for each index past the first k, none when they fit; each place of the result holds the last index whose word fell on it, and the index it began with when none did. |
| `OracleMerge.ReservoirHolds` | server_oracle_silo.go:422-436 | An index past the first k is kept if and only if its own word fell on a place below k and no later word fell there; one of the first k if and only if no word fell on its place; each is kept once. |
| `OracleMerge.SampleOracleEntries` | server_oracle_silo.go:402-419 | Exactly the capacity, in the original order; every High or Critical entry when those fit, and nothing else when they do not; and an entry is kept if and only if the words drawn let it survive among those of its severity, the others competing for the places that the High ones leave. |
| `OracleMerge.OneSample` | server_oracle_silo.go:402-419 | The words drawn decide the whole sample. |
| `OracleMerge.SampleFacts` | server_oracle_silo.go:402-419 | A sample of a duplicate-free day is duplicate-free, and keeps every High or Critical entry when those fit. |
| `OracleSeal.SealKeepsWhatFits` | server_oracle_silo.go:285-396 | The sealed day is duplicate-free and within capacity; it holds exactly the old and the fresh entries when they fit, and otherwise exactly the capacity, with every High or Critical one when those fit. |
| `OracleSeal.HeaderFlags` | server_oracle_silo.go:322-344 | Flag by flag, exactly when the sealed header carries it. |
| `OracleSeal.HeaderBounds` | server_oracle_silo.go:354-362 | The header spans the slice and the day on disk, ends after it starts, and ends a day later when the end given is not after the start. |
| `OracleSeal.ScoresAdd` | server_oracle_silo.go:363-371 | The sum under the average counts every score once. |
| `OracleSeal.ObservedCoversEntries` | server_oracle_silo.go:331-350 | The subtraction of duplicates never underflows and ObservedCount is at least VectorCount. |
| `OracleSeal.AnomalyReachesHeader` | server_oracle_silo.go:285-375 | The sealed header carries the anomaly flag if and only if a High or Critical snapshot reached the slice, displaced or not, or the day on disk already said so. |
| `OracleSeal.ResealChangesNothing` | server_oracle_silo.go:303-352 | Sealing again entries that the day already holds, nothing having been displaced, changes neither its entries nor its ObservedCount. |
| `OracleFlags.DroppedFlagsExact` | server_oracle_silo.go:216-232 | For every stream, the flags accumulated for the header are exactly those of the entries that arrived at a full slice, whichever entry was displaced. |
| `OracleFlags.DegradedReachesHeader` | server_oracle_silo.go:322-344 | Exactly when the sealed header says Degraded. |
| `OracleFlags.HeldCount` | server_oracle_silo.go:216-223 | The slice fills up in order of arrival and then stays full; no random word is drawn before. |
| `OracleFlagLoss.KeptAfter` | server_oracle_silo.go:216-254 | After an arrival the slice holds what it held but the entry displaced, and the arriving one where it took a place. |
| `OracleFlagLoss.LosesIff` | server_oracle_silo.go:232-254 | One arrival makes the slice forget that something degraded came in exactly when the slice is full, the entry displaced is the only degraded one held, the arriving one is not degraded, and no flag says so already. |
| `OracleFlagLoss.MarkLostIff` | server_oracle_silo.go:172-256 | A whole stream is forgotten exactly when some arrival loses the mark in that way and no degraded one comes after. |
| `OracleFlagLoss.DegradedShowsIff` | server_oracle_silo.go:82-85 | The comment's promise, read for the Degraded flag of the sealed header, holds if and only if no arrival loses the mark for good or the day on disk says so. |
| `OracleFlagLoss.DegradedCanBeLost` | server_oracle_silo.go:232-240 | For every random stream there is a stream of snapshots on which it is lost: one degraded entry where the first draw strikes, a full slice of sound ones, one High arrival. |
| `OracleFlagLoss.DegradedPromiseFails` | server_oracle_silo.go:82-85 | Sealed on a day not on disk, that stream gives a header without the flag: the promise fails, for every host and every random stream. |
| `OracleChain.SaveIsWellSaved` | server_oracle_silo.go:374-384 | What this host saves loads again under its key, with the key flag it ought to have. |
| `OracleChain.OneReader` | server_oracle_silo.go:745-766 | A stored file is readable for one machine and one day only. |
| `OracleChain.WriteStep` | server_oracle_silo.go:354-390 | Writing a day that carries the seal of its predecessor into an intact directory leaves at most one link to repair, that of the day after it. |
| `OracleChain.RewriteStep` | server_oracle_silo.go:463-493 | Rewriting the day after moves the open link one day on and changes nothing but links. |
| `OracleChain.StopStep` | server_oracle_silo.go:463-493 | Stopping early is sound: if the next day already carries the right seal, or there is none, the whole directory is intact. |
| `OracleChain.RelinkStep` | server_oracle_silo.go:463-493 | One turn of relinking keeps what has to stay and moves the open link on. |
| `OracleChain.RelinkStop` | server_oracle_silo.go:463-493 | Stopping at a day that carries the right seal, or that cannot be read, leaves what relinking promises. |
| `OracleChain.SealDetermines` | server_oracle_silo.go:536-543 | Under an injective seal, two readable files with one seal are the same file of the same day. |
| `OracleChain.NewestSealCommits` | server_oracle_silo.go:558-588 | Under an injective seal, two directories that verify cleanly and end in the same seal hold the same days as far back as both go: altering, dropping or inserting an earlier day shows. |
| `OracleSilo.DailyOracleSilo.constructor` | server_oracle_silo.go:119-140 | A silo starts with no day in hand and no cached seal, over any directory. |
| `OracleSilo.DailyOracleSilo.OpenDay` | server_oracle_silo.go:143-152 | A new slice is empty, seeded by its day, and keeps the running total of dropped entries. |
| `OracleSilo.DailyOracleSilo.IngestSnapshot` | server_oracle_silo.go:172-256 | One snapshot, with rotation to an earlier or a later day: exactly when it succeeds, an intact directory stays intact and then only a nil snapshot fails; what the slice, the totals and the directory become in each case; a refusal changes neither slice nor directory. |
| `OracleSilo.DailyOracleSilo.AcceptEntry` | server_oracle_silo.go:205-256 | One entry goes through the two channels and is recorded as arrived. |
| `OracleSilo.DailyOracleSilo.TakeIn` | server_oracle_silo.go:205-251 | The in-place two-channel sampling equals its definition on values, which EveryStream is about. |
| `OracleSilo.SnapshotIsKept` | server_oracle_silo.go:184-203 | Day and second of an entry give back the instant of its snapshot, and it carries Degraded exactly below a health of 700 and Anomalies exactly from severity 3 on. |
| `OracleSilo.DailyOracleSilo.SealCurrentDay` | server_oracle_silo.go:259-396 | Succeeds exactly unless an unreadable file of that day is in the way of what is held; an intact directory stays intact, the cached seal stays the stored one, earlier days and the entries of all other days are untouched, the slice is empty afterwards, and what sampling left out is counted. |
| `OracleSilo.SealedAndRelinked` | server_oracle_silo.go:285-396 | Writing a day and relinking the later ones gives the promised directory, and an intact one if one link was open. |
| `OracleSilo.DailyOracleSilo.WriteDay` | server_oracle_silo.go:303-384 | The file written is the sealed file of the slice over the day on disk, linked to its readable predecessor. |
| `OracleSilo.KeptOrLeftOut` | server_oracle_silo.go:346-353 | Of the old and the fresh entries, each is kept in the sealed file or counted as left out. |
| `OracleSilo.DailyOracleSilo.SealHeader` | server_oracle_silo.go:354-384 | Bounds, flags, average, counts and link of the header. |
| `OracleSilo.DailyOracleSilo.RelinkSuccessors` | server_oracle_silo.go:463-493 | From a directory with one open link, ends with an intact one; the days up to the sealed one, all entries, and every unreadable day stay as they were; the cache follows. |
| `OracleSilo.DailyOracleSilo.PrevDaySeal` | server_oracle_silo.go:503-533 | The seal of the nearest earlier stored day, zero if there is none or if it can neither be read nor is cached. |
| `OracleSilo.DailyOracleSilo.StoredDays` | server_oracle_silo.go:444-451 | The stored days, each once, in increasing order. |
| `OracleSilo.DailyOracleSilo.VerifyOracleChain` | server_oracle_silo.go:558-588 | Reports exactly the days that cannot be read or whose link differs from the seal of a readable predecessor; nothing if and only if every file reads and links; nothing on an intact directory. |
| `SubRing.PushOneQueue` | router.go:53-62 | A push appends one event to the unread ones, or counts one drop when the ring is full; no unread event moves. |
| `SubRing.PushManyQueue` | corpus_router.go:132-154 | Pushing a list one by one keeps its longest prefix that fits, in order, and counts the rest. |
| `SubRing.TailOnlyDrops` | corpus_router.go:132-154 | Once the room is used up, further pushes touch no slot. |
| `SubRing.SubRing.constructor` | router.go:120-122 | A new ring is empty. |
| `SubRing.SubRing.Push` | router.go:53-62 | The whole new state after a push, and when it is refused. |
| `SubRing.SubRing.Pop` | router.go:65-73 | Takes the oldest unread event, or changes nothing when there is none. |
| `SubRing.SubRing.PopBatch` | router.go:76-94 | Takes the oldest events in order, as many as asked for, available and able to fit; the rest of the output buffer is untouched. |
| `SubRing.SubRing.PushBatch` | corpus_router.go:132-154 | One look at the room and one publication leave exactly the state that pushing the events one by one leaves, drop counter and slots included. |
| `CorpusRouter.CorpusRouter.DispatchFanoutBatch` | corpus_router.go:116-125 | Each of the six rings takes the batch as if it were alone, and the total returned is the sum of what each accepted. |
| `CorpusRouter.FanoutConserves` | corpus_router.go:109-125 | Placements accepted plus drops counted equal events times rings. |
| `RingInterleavings.EverySchedule` | router.go:53-94 | The invariant holds after every interleaving of the producer's and the consumer's load, slot and publish steps. |
| `RingInterleavings.ProducerStep` | router.go:53-62 | Each producer step keeps it. |
| `RingInterleavings.ConsumerStep` | router.go:65-94 | Each consumer step keeps it. |
| `RingInterleavings.RingIsFifo` | router.go:53-94 | Under every interleaving: what was popped is a prefix of what was accepted, the unread events are in their slots, occupancy stays within 256, and offered = accepted + dropped + still in the producer's hands. |
| `RingInterleavings.NoSlotRace` | router.go:53-94 | The slot being written is never the slot being copied. |
| `RingInterleavings.LenIsBounded` | router.go:97-104 | Len, whose two loads may be any number of steps apart, never exceeds 256. |
| `RingLosses.OnlyTheExcessIsLost` | router.go:53-62 | Read off the schedule alone: at every load of tail a push takes as much of its batch as fits above what the ring holds then, and loses exactly the excess; nothing else is ever lost. |
| `RingLosses.NothingIsWithheld` | router.go:65-94 | The consumer is handed, in order, exactly what it asked for as far as the ring holds it at each load of head. |
| `RingLosses.LossesOfSchedule` | corpus_router.go:132-154 | The same at any point of any schedule, with what is still in the hands of either side. |
| `RingAlone.PushAlone` | corpus_router.go:132-154 | A push that runs while the consumer takes no step leaves the ring that pushing its events one by one leaves. |
| `RingAlone.PopAlone` | router.go:65-94 | A pop that runs while the producer takes no step takes the oldest unread events, as many as it may. |
| `RingAlone.NeitherWaits` | router.go:53-94 | Whatever the other side is doing, a side in the middle of a call can take its next step. |
| `ArbitrationQueue.EverySchedule` | internal/cinetique/arbitre_slm.go:730-827 | The lock, close and count invariants hold after every interleaving of any number of submitters, the worker and any number of calls of Fermer. |
| `ArbitrationQueue.LockStep` | internal/cinetique/arbitre_slm.go:770-827 | Each step keeps readers and writer apart. |
| `ArbitrationQueue.CloseStep` | internal/cinetique/arbitre_slm.go:816-827 | Each step keeps the order of flag, close and wait under the once. |
| `ArbitrationQueue.CountStep` | internal/cinetique/arbitre_slm.go:770-812 | Each step keeps the accounting. |
| `ArbitrationQueue.NothingSentAfterClose` | internal/cinetique/arbitre_slm.go:770-791 | No schedule reaches a send on the closed channel. |
| `ArbitrationQueue.ExactAccounting` | internal/cinetique/arbitre_slm.go:730-827 | At every moment submitted + sent but not yet counted = arbitrated + errors + queued + in hand, the queue is within its capacity, and what was handled is a prefix of what was sent. |
| `ArbitrationAccounts.EachCounterIsExact` | internal/cinetique/arbitre_slm.go:770-812 | Read off the schedule alone: every dossier sent escalates, and they are sent in the order in which they met room; the ignored are exactly the nominal episodes that came to the filter, those set aside exactly the anomalous ones that met a full queue, and good and failed arbitrations are counted apart. |
| `ArbitrationAccounts.SubmitAlone` | internal/cinetique/arbitre_slm.go:770-791 | A call that runs alone: a closed queue refuses it, a nominal episode is only counted, an anomalous one is queued and counted if there is room and set aside otherwise; nothing else changes. |
| `ArbitrationQueue.FermerDrains` | internal/cinetique/arbitre_slm.go:814-827 | When a call of Fermer has returned, the queue is empty, everything sent has been handled in order, and TotalSoumis = TotalArbitres + TotalErreursArbitrage = the number sent. |
| `ArbitrationQueue.FermerNeverStuck` | internal/cinetique/arbitre_slm.go:816-827 | While a call of Fermer has not returned, some party already inside can take a step. |
| `ArbitrationProgress.EveryStepDecreases` | internal/cinetique/arbitre_slm.go:770-827 | Every step that starts no call uses up a measure of the parties inside, the queue and the worker. |
| `ArbitrationProgress.BoundedWithoutCalls` | internal/cinetique/arbitre_slm.go:770-827 | A schedule without new calls is no longer than the measure left. |
| `ArbitrationProgress.FermerReturns` | internal/cinetique/arbitre_slm.go:814-827 | From any moment on, without new calls, at most that many steps can be taken, in any order, and where none is left every call of Fermer has returned. |
| `ArbitrationProgress.FermerCanReturn` | internal/cinetique/arbitre_slm.go:814-827 | From any moment on some schedule without new calls brings a call of Fermer to its return. |
| `FlowWindows.AvancerFenetres` | encrypted_wire_eval.go:398-412 | The constant-time advance equals closing windows one at a time until the instant falls in the open one. |
| `FlowWindows.AdvanceIsOneByOne` | encrypted_wire_eval.go:398-412 | The same, on values, for every conversation and every instant not before the open window. |
| `FlowWindows.CloturerFenetre` | encrypted_wire_eval.go:414-428 | The step-by-step closing is the closing on values. |
| `FlowWindows.Accumuler` | encrypted_wire_eval.go:284-358 | One packet, a regressing timestamp counted as the latest one, and when it is counted as regressing. |
| `FlowWindows.TrackIsRun` | encrypted_wire_eval.go:284-358 | After every packet run the counters are those of the run: its clock, its last carrier direction, the packets of each direction, turns and upstream bytes of the open window, and the counts of the closed ones. |
| `FlowWindows.FinalCounts` | encrypted_wire_eval.go:496-501 | The verdict's counts over any run: observed = (last - first) / duration + 1; active and bidirectional count the windows of the run that are; the longest series is the longest run; bidirectional <= active <= observed. |
| `FlowWindows.LongestRunIsLongest` | encrypted_wire_eval.go:414-428 | No stretch of consecutive bidirectional windows is longer than the longest run, and one is as long. |
| `FlowWindows.RunBeforeIsMaximal` | encrypted_wire_eval.go:414-428 | The current series is the longest stretch of bidirectional windows ending at the current window. |
| `FlowBursts.BurstsAreRun` | encrypted_wire_eval.go:284-358 | After every packet run, regressing timestamps included, the burst counters and lists are those of the bursts of the run: stretches separated by the silence. |
| `FlowBursts.FinalBursts` | encrypted_wire_eval.go:385-396 | The verdict counts every burst, measures the upstream load of each carrying one and the time from each carrying one to the next, in order. |
| `FlowBursts.GapsAtLeastSilence` | encrypted_wire_eval.go:385-396 | Every measured gap is at least the silence, so the unsigned subtraction never wraps. |
| `FlowBursts.StartsApart` | encrypted_wire_eval.go:300-305 | Burst starts are at least the silence apart. |
| `FlowBursts.BurstsPartitionBytes` | encrypted_wire_eval.go:310-314 | Every upstream byte belongs to exactly one burst. |
| `FlowBursts.CarryingIncreases` | encrypted_wire_eval.go:385-396 | The carrying bursts are exactly those with at least 56 upstream bytes, each once, in order. |
| `FlowBursts.CloturerRafale` | encrypted_wire_eval.go:385-396 | The step-by-step closing is the closing on values. |
| `FlowBursts.AccumulerRafale` | encrypted_wire_eval.go:284-316 | The step-by-step packet is the packet on values. |
| `ConversationFlow.AccumulerPaquet` | encrypted_wire_eval.go:284-358 | One packet feeds the windows and the bursts of its conversation alike, and is counted as regressing exactly when it is older than the clock of the run. |
| `ConversationFlow.CloturerFlow` | encrypted_wire_eval.go:496-498 | A verdict closes the open burst and the open window. |
| `ConversationFlow.FinalFlow` | encrypted_wire_eval.go:496-501 | A closed conversation says of its whole run what FinalCounts and FinalBursts say. |
| `ConversationTable.EncryptedWireEvaluator.constructor` | encrypted_wire_eval.go:193-207 | An evaluator starts with an empty table. |
| `ConversationTable.EncryptedWireEvaluator.TrouverOuCreer` | encrypted_wire_eval.go:264-282 | For every hash: the error is returned if and only if the table holds as many keys as it has slots and the key is not one of them; a known key is found where it is and nothing changes; a new key takes one slot and is last in order. |
| `ConversationTable.EncryptedWireEvaluator.Observe` | encrypted_wire_eval.go:210-246 | The table is the map from keys to the windows and bursts of all their packets; one frame adds its packet to the run of its key and touches no other; every counter of frames, conversations and regressing timestamps is exact. |
| `ConversationTable.EncryptedWireEvaluator.FinalizeConversations` | encrypted_wire_hote.go:196-243 | Each key once, in order of first appearance, with the final window and burst counts of its whole run; the evaluator is then empty. |
| `ConversationTable.FreeMeansAbsent` | encrypted_wire_eval.go:264-282 | The first free slot of a probe proves that the key is nowhere in the table. |
| `ConversationTable.FullMeansAbsent` | encrypted_wire_eval.go:264-282 | A probe that meets only other keys proves that the key is absent and every slot is taken. |
| `ConversationTable.InsertKeepsTable` | encrypted_wire_eval.go:269-275 | Filling the first free slot of the probe keeps one slot per key and no gap before any key. |
| `ConversationTable.UpdateKeepsTable` | encrypted_wire_eval.go:284-358 | Replacing what a slot tracks leaves the map of keys alone. |
| `ConversationTable.RankOrder` | encrypted_wire_hote.go:200-208 | Sorting the occupied slots by rank lists the keys by first appearance. |
| `HostClusters.SameHostKey` | encrypted_wire_hote.go:33-60 | Two clients share a key if and only if they are one IPv4 host, plain or mapped, or IPv6 hosts of one /64. |
| `HostClusters.Balayer` | encrypted_wire_hote.go:274-299 | The sweep returns the first verdict of greatest persistence over the connected components of the overlap graph; the definition knows nothing of the sweep. |
| `HostClusters.SameClusterIffLinked` | encrypted_wire_hote.go:274-299 | Two conversations are in one cluster if and only if a chain of pairwise overlapping intervals links them. |
| `HostClusters.ComponentIffCluster` | encrypted_wire_hote.go:274-299 | The stretches the sweep isolates are exactly the connected components. |
| `HostClusters.ComponentsAreDisjointInTime` | encrypted_wire_hote.go:274-299 | Of two components, one is over before anything of the other starts. |
| `HostClusters.NoChainAcross` | encrypted_wire_hote.go:278-282 | No chain of overlaps crosses a point where the sweep cuts. |
| `HostClusters.CutIffPastEnd` | encrypted_wire_hote.go:278-282 | The test of the sweep, start after the latest end so far, holds exactly at the cuts. |
| `HostClusters.BestIsACluster` | encrypted_wire_hote.go:306-337 | A host verdict comes from one component, with at least two conversations and two distinct targets. |
| `HostClusters.OneBest` | encrypted_wire_hote.go:284-299 | The verdict so described is unique. |
| `HostClusters.ConstruireVerdictAmasHote` | encrypted_wire_hote.go:306-365 | A verdict if and only if two conversations and two distinct targets; then the bounds, sums, target count, synchrony, score and regime of the cluster. |
| `HostClusters.PersistanceOf` | encrypted_wire_hote.go:339-348 | Up to six times the upstream bytes the score is that of all bytes; past that point it is that of seven times the upstream bytes, whatever came down; with no upstream byte it is that of nothing. |
| `HostClusters.PersistanceBounds` | encrypted_wire_hote.go:339-348 | For every increasing score the persistence lies between those of one and of seven times the upstream bytes. |
| `HostClusters.AgregerCandidatsParHote` | encrypted_wire_hote.go:245-304 | At most one verdict per host, hosts in order of first appearance, each the best component of that host's conversations. |
| `HostClusters.HostsOnce` | encrypted_wire_hote.go:249-255 | The hosts listed are those of the candidates, each once. |
| `HostClusters.OneHostVerdict` | encrypted_wire_hote.go:257-303 | With distinct ranks the verdict of a host does not depend on the order of the candidates, although the sort is unstable. |
| `HostClusters.OneAggregate` | encrypted_wire_hote.go:245-304 | With distinct ranks the whole answer is determined by the candidates and the order in which their hosts appear. |
| `HostSynchrony.CalculerSynchronieAmas` | encrypted_wire_hote.go:367-424 | The two nested loops over the sorted activities compute the permille of active slices in which two distinct targets are active, defined on sets. |
| `HostSynchrony.SynchronyIsPermille` | encrypted_wire_hote.go:367-424 | Undefined exactly when nothing was active; never above 1000; 1000 exactly when every active slice has two targets. |
| `HostSynchrony.EnregistrerTranche` | encrypted_wire_hote.go:84-93 | One carrier packet records its 100 ms slice unless it is the last one recorded or 256 are. |
| `HostSynchrony.RecordedSlices` | encrypted_wire_hote.go:84-93 | Over a run whose clock does not go back, the slices of the run are recorded, each once and in order: all of them, or the first 256. |
| `RocAuc.ExactROCAUC` | encrypted_wire_lab.go:275-314 | The rank-sum computation returns the share of (hostile, benign) pairs that the hostile score wins, ties counting half; 0 when the lengths differ or a class is empty. |
| `RocAuc.RankSumIsPairCount` | encrypted_wire_lab.go:295-313 | Twice the sum of averaged ranks of the hostile is the pair count plus P(P + 1). |
| `RocAuc.TieRank` | encrypted_wire_lab.go:297-302 | Within a tie, what a score wins against everyone is twice its averaged rank less one. |
| `RocAuc.PairsShared` | encrypted_wire_lab.go:312-313 | The two sides of a comparison of two classes share exactly 2 for each pair. |
| `RocAuc.AucPermuted` | encrypted_wire_lab.go:294-313 | Permuting the samples changes nothing. |
| `RocAuc.AucInUnit` | encrypted_wire_lab.go:275-314 | The value is between 0 and 1. |
| `RocAuc.AucFlipped` | encrypted_wire_lab.go:275-314 | Flipping all labels gives 1 minus the value, both classes being present. |
| `RocAuc.AucIsOne` | encrypted_wire_lab.go:275-314 | The value is 1 if and only if every hostile score beats every benign one. |
| `RocAuc.AucOfOrder` | encrypted_wire_lab.go:275-314 | A strictly increasing change of scores changes nothing. |
| `StreamWindows.Worker.ScanFile` | cmd/c2scanner/main.go:437-582 | However the reads split the file: the windows written are, in order, the slices of the whole file at multiples of the stride, zero-padded, each with 1 + the newlines before it as its line; a scanned file is covered to its last byte, with at most one window too many; too large a file is an error, and the first error of the worker is kept. |
| `StreamWindows.Worker.Stream` | cmd/c2scanner/main.go:471-581 | The loop of fill, write and shift terminates, and every buffer index stays in range across shifts. |
| `StreamWindows.Worker.WriteRound` | cmd/c2scanner/main.go:511-553 | A full buffer gives its full windows, and shifts by the same amount in every round. |
| `StreamWindows.Worker.WriteRest` | cmd/c2scanner/main.go:506-578 | Once the end is in the buffer, the rest is written, whatever rounds came before. |
| `StreamWindows.ExactCount` | cmd/c2scanner/main.go:533-578 | A scan writes the fewest windows that cover the file, or one more; one more only on the sizes where the last full window of a full buffer ends with the file, and exactly on those when the file announces its end by a read of its own, as a regular file does. |
| `StreamWindows.SuperfluousIff` | cmd/c2scanner/main.go:533-553 | What is left after some rounds is one overlap exactly on those sizes. |
| `StreamWindows.OneTooMany` | cmd/c2scanner/main.go:533-553 | Such a file: one full buffer at stride 64; and two that are not. |
| `StreamWindows.Worker.Fill` | cmd/c2scanner/main.go:472-504 | Reads until the buffer is full or the end is known; more than the maximum is detected. |
| `StreamWindows.Worker.WriteFull` | cmd/c2scanner/main.go:511-539 | The full windows of the buffer, at successive strides. |
| `StreamWindows.Worker.WriteTail` | cmd/c2scanner/main.go:555-578 | The last window, when the file ends inside it. |
| `StreamWindows.Worker.Shift` | cmd/c2scanner/main.go:541-553 | What is left of the buffer moves to its front and stands for the same bytes of the file. |
| `StreamWindows.Worker.CountLines` | cmd/c2scanner/main.go:513-517 | The line counter follows the newlines of the whole file. |
| `StreamWindows.NewlinesAre` | cmd/c2scanner/main.go:513-517 | The count of newlines is the number of places that hold a line feed. |
| `StreamWindows.LineOfWindow` | cmd/c2scanner/main.go:513-517 | A window says the line it starts on, counted from 1. |
| `StreamWindows.ByteIsHeld` | cmd/c2scanner/main.go:432-436 | Every byte of a scanned file is in a window, at its place in the payload. |
| `StreamWindows.EveryByteIsInAWindow` | cmd/c2scanner/main.go:432-436 | Windows at strides of at most their width leave no gap. |
| `TemporalTracker.TemporalTracker.RecordQuery` | temporal_tracker.go:78-155 | The table refines a map from domains to histories. A query continues, restarts or begins the history of its domain; at most one other history is lost, and only for a new domain. That domain takes the first reusable probe, or, if all eight probes hold active histories of others, the first of those with the oldest last query; only the latter is counted as an eviction, and otherwise the history lost had been silent for an hour. The counts returned are those of the history. |
| `TemporalTracker.TemporalTracker.Chercher` | temporal_tracker.go:88-113 | The eight probes find the domain if and only if it is held anywhere; otherwise they give the first reusable slot, and the first of those with the oldest last query. |
| `TemporalTracker.TemporalTracker.Enregistrer` | temporal_tracker.go:116-146 | Expiry, ring and filter, in place, follow the history. |
| `TemporalTracker.StoreKeepsTable` | temporal_tracker.go:104-113 | Storing a domain in a slot of its probe sequence keeps one slot per domain and forgets only what the slot held. |
| `TemporalTracker.NotProbedMeansAbsent` | temporal_tracker.go:91-103 | A domain that none of its probes holds is in no slot at all. |
| `TemporalTracker.KnownSlot` | temporal_tracker.go:91-103 | A held domain is in one slot, which is in its probe sequence. |
| `TemporalTracker.ProbesDiffer` | temporal_tracker.go:89-92 | The eight probes are eight different slots, the step being odd and at most seven. |
| `TemporalTracker.RingTakes` | temporal_tracker.go:121-127 | Writing at the head keeps the last 16 instants in the ring. |
| `TemporalTracker.Reconstituer` | temporal_tracker.go:159-171 | The window handed to the jitter is exactly the last min(16, n) instants since the last reset, in nondecreasing order. |
| `TemporalTracker.EstimateAtMostDistinct` | temporal_tracker.go:129-146 | The estimate never exceeds the number of distinct subdomains recorded, and is 0 only if none was. |
| `TemporalTracker.EstimateWithinBits` | temporal_tracker.go:129-146 | Each count sets one or two new bits of 256, so the estimate is at most 256 and its 16 bits cannot wrap. |
| `TemporalTracker.SeenBits` | temporal_tracker.go:138-145 | A subdomain already recorded is never counted again. |
| `TemporalTracker.CountedIff` | temporal_tracker.go:129-146 | A subdomain is counted exactly when one of its two positions, its hash and its moved hash modulo 256, is one that no subdomain before it has. |
| `TemporalTracker.BitsArePositions` | temporal_tracker.go:129-146 | The bits set are exactly the positions of the subdomains recorded. |
| `TemporalTracker.GoesOnIff` | temporal_tracker.go:114-127 | A history goes on exactly while its queries come in order and less than an hour apart, and begins again otherwise. |

## Left out

General:

- Files, locks between processes, fsync and rename, HTTP, sockets, JSON, logs, command lines and dashboards. Writing a file by rename is one atomic step.
- The `internal/engine` and `c2slm` packages: vectors, SHA-256 and HMAC, decision heads. The 512-bit code of a snapshot is part of the entry; the seal is a function of header and entries.
- Floating-point scores: Welford accumulators, logarithms, regularity, the jitter value and the regime of a conversation.
- Wrap-around of 64-bit and 32-bit counters and timestamps: ring positions, statistics and nanosecond instants are unbounded. ObservedCount, day numbers, the snapshot's byte budget and the hash sums of the filter keep their widths.
- Memory orderings: each step of a protocol is atomic and sequentially consistent.

Reputation:

- ReputationNames.CleanDomain: lower-cases ASCII letters; Go also folds other code points, and trims other spaces, so names outside ASCII are not modelled.
- ReputationSyncer.Syncer.SyncOnce: the text of the joined source errors, the receipts and the callbacks are not modelled, nor is a nil table reference; of a source only the outcome is.
- `FNV1a64` itself, periodic scheduling, the parsing of domain lists and the fetching of a source.

Oracle silo:

- OracleSilo.DailyOracleSilo.constructor: the configuration, its defaults and the check of the key are not modelled.
- OracleSilo.DailyOracleSilo.IngestSnapshot: input and output do not fail, and every stored day has the current format version. The slice fields (entries, priority entries, their counters, dropped flags, sampler) are one value that is reassigned, so aliasing of the two slices is not captured.
- OracleSilo.DailyOracleSilo.SealCurrentDay: archives of older format versions, several silos sealing one directory, and input or output that fails in the middle are not modelled.
- OracleSilo.DailyOracleSilo.RelinkSuccessors: a write that fails in the middle of relinking is not modelled.
- OracleSilo.DailyOracleSilo.VerifyOracleChain: gives the days, not the text of the reasons, and knows no older format version.
- OracleSeal.ResealChangesNothing: for an ObservedCount within 32 bits and a seal with no sampling; with sampling the displaced are counted again.
- OracleChain.NewestSealCommits: assumes an injective seal, which stands for the absence of collisions.
- The cross-day baseline, log ingestion and statistics accessors.

DNS:

- DnsMessage.DNSMessage.ParseDNSMessage: the split of the query name into subdomain, parent and top level is not modelled.
- The pcap evaluators around the section walkers, which guarantee the twelve header bytes that the walkers require.

Flows:

- FlowWindows.Accumuler: has the window part of a packet; the cadence of upstream packets, the dispersion histogram, byte totals and QUIC tracking are not modelled.
- FlowBursts.CloturerRafale: the two Welford accumulators are the lists of measures handed to them.
- FlowBursts.AccumulerRafale: has the burst part of a packet; the downstream bytes of a burst are reset with it and read nowhere, and are not modelled.
- ConversationFlow.AccumulerPaquet: conversations are values held in the table's array, so the pointer that the source passes around is not captured; the windows and the bursts of one conversation are two records, each with its own packet count and clock.
- ConversationTable.EncryptedWireEvaluator.Observe: frames arrive decoded; the two QUIC statistics are not modelled.
- ConversationTable.EncryptedWireEvaluator.FinalizeConversations: an error of the visitor, after which the source leaves the table as it was, and the choice of host candidates (`estConversationCandidateHote`) are not modelled; capacities are at least 16 but need not be powers of two, the mask being a remainder.
- HostClusters.ConstruireVerdictAmasHote: the persistence score is an arbitrary function of the volume, and labels and reason follow from the regime.
- HostClusters.AgregerCandidatsParHote: requires that no candidate ends before it starts, which `FlowWindows.FinalCounts` proves of every verdict.
- HostSynchrony.CalculerSynchronieAmas: takes the recorded slices as they are; that they are those of the run is `HostSynchrony.RecordedSlices`, which the table does not carry.
- RocAuc.ExactROCAUC: scores are real numbers, so NaN and rounding do not occur.

Protocols:

- The dispatch of an event to a ring by its subsystem or corpus, and the worker loops.
- ArbitrationProgress.FermerReturns: for schedules without new calls; while calls keep coming a scheduler may starve any party.
- The arbitration itself, its callback and its veto; whether an episode calls for arbitration is a field of the dossier.

Streaming and tracking:

- StreamWindows.Worker.ScanFile: opening and inspecting the file do not fail. A file does not change while it is read, and a read of a non-empty buffer returns a byte, the end or an error, as `os.File` guarantees.
- The registry of files, the channel between producer and consumer, and the inspection of windows.
- TemporalTracker.TemporalTracker.RecordQuery: the four words of the filter are the set of their bits, and the mutex is not modelled; the window that the jitter is computed from is returned in place of the jitter.
