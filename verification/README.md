# A verified model of the browser's header chain, DNSSEC, DANE and TLSA logic

The repository contains a Handshake light client for browsers. This project models its hardest logic in Dafny and proves
what that logic is for. Code that updates state in place is modelled by classes and loops; each of those methods is
proved equal to a function, and the theorems are about the functions.

**Header chain.** A store holds headers by hash, a height-to-hash index and a best tip. `ChainModel` has the admission
rules and the store operations, `HeaderChain` the in-place store and chain. `ChainInvariant` shows that every run of
insertions, failing calls included, keeps the stored headers parent-closed, the best tip heaviest and the index equal to
the ancestry of the best tip, so the incremental promotions give what a full rebuild gives. `ChainBatch` compares a
batch with single insertions. `ChainRetarget` shows that the difficulty window always exists and what difficulty comes
out of it, over `Pow` and `CompactTargets`. `ChainConsensus` says which headers are admitted, rule by rule, and that
every stored header of every run meets the difficulty and the checkpoints; `ChainErrors` says what calls on broken
stores do.

**Snapshot publication.** `Snapshot` models the tables and the transactions, `SqliteHeaderStore` the same in place.
`SnapshotRefinement` proves that the conditional delta publisher installs exactly what the simple full publisher
installs. `LiveHandles` divides an insertion into the transactions its connection performs. `SnapshotProtocol` proves
safety of exactly those interleavings of any number of stagers and connections in which every promotion still fits the
live store; runs with undivided insertions are among them. `ProtocolConsensus` carries difficulty and checkpoints
through these runs, `LateJournals` is about journals started late, and `PublishSafety` says what a publication
guarantees of a stage that holds anything at all.

**DNSSEC.** `SignedData` and `SignedDataUnique` show that signed bytes and RRset content determine each other;
`CanonicalForms` gives the bytes and the orders themselves, `RecordForms` those of the records. `DnssecChain` validates
signatures and delegation chains. `DnssecSoundness` says what `Secure` means, first as a trust path of records, then as
content that an honest zone published; `DnssecComplete` says that every readable trust path is accepted,
`DnssecVerdicts` which verdict comes out otherwise, and `DnssecPlacement` which zones have to be honest. `Nsec`,
`NsecEncloser`, `Nsec3` and `DenialSoundness` do the same for denial of existence, `NsecComplete` and `Nsec3Complete`
say exactly which denials are accepted. `TypeBitmap` and `Base32Hex` are the two encodings involved. `Order` and `Dns`
hold the orders they share.

**DANE.** `Der` and `DerErrors` are the strict DER reader with its printer and the certificate walk, `TlsaPolicy` the
two policy evaluators, `TlsaVerdicts` all their answers on the fields of the records, `TlsaWalk` the bounded CNAME walk
to the TLSA records. `NameTree` is the epoch arithmetic of the name tree.

## What turned out false, and when exactly it holds

- Conditional publication can fail on a stage that the full publisher accepts. The journal check demands proof of work
  and, of a genesis, the zero parent, and the suffix check demands the zero parent of a suffix that starts at the
  genesis; inserting a genesis demands neither. `DeltaRefinesFull` proves that these are the only failures, and
  `JournalCheckBlocksFirst` that over a valid live chain the journal check alone decides. `BlockedGenesis` and
  `ParentedGenesis` are inputs, `RefusedGenesis` is the family. The genesis of the main network misses its own target,
  so `MainnetGenesisBlocked` applies to every stage that had to insert it.
- A journal that starts after the snapshot already took insertions can publish a header without its parent.
  `PublishedValidIff` gives the exact condition; `LiveIsReached`, `LateIsReached` and `LateJournal` give an example.
- An insertion promotes in a transaction of its own, on a best it read before. If another connection changes the best in
  between, best chainwork can fall and the index can mix two chains. `PromotionFitsIff` gives the exact condition for
  one promotion and `SoundIffOrderly` for whole runs; `DisturbedPromotion` is an example.
- Publication checks neither difficulty nor checkpoints of the rows it adds, as an insertion does. `JournalAcceptedIff`
  says what it checks instead; that is enough because stages are filled by insertions (`RunsKeepLiveConsensus`).
- Under the permissive policy a second, lighter root becomes best and best chainwork falls. `InsertGenesisValidIff` gives
  the exact condition; `LighterSecondRoot` is an input. The run theorems therefore fix the genesis header, which the
  mainnet policy enforces by itself.
- On equally heavy tips a batch keeps the last and single insertions the first, so their best hashes can differ.
  `BestAgreesIff` gives the exact condition; `TiedTips` is an input.
- A secure NSEC name error denies records at the query, not the name itself, and it denies only the wildcard at the
  encloser the caller names. `NameErrorDecided` tells from the covering link when the query is an empty non-terminal and
  when the encloser is the closest; `EmptyNonTerminalDenied` and `WildcardLeftUndenied` are inputs. It also denies names
  below a delegation, which are the child zone's to deny: `DelegationDecided` gives the exact condition, and
  `DelegatedNameDenied` is an input. The NSEC3 validator does not (`NameErrorWithinZone`).
- A chain validates although its zones do not lie above the target: no names are compared along it. With the three
  comparisons made, honesty of the zones above the target is enough (`SecureWhenPlaced`); without any one of them it is
  not (`UnplacedChain`, `StrayChainUnplaced`).
- The base32hex decoder accepts a spare zero digit. `EncodeInvertsDecodeIff` gives the exact condition on the length;
  `SpareDigit` is an input.
- The byte-wise proof-of-work check accepts the zero hash for a compact target that shifts down to zero, where the target
  itself is an error. `PowMatchesTarget` shows that this is the only difference; `ShiftedTarget` is an input.
- The certificate-only TLSA policy reports the usage of the first matching record, so its result depends on the order of
  the records. `CertificateOrderFreeIff` gives the exact condition; `OrderShows` is an input.

## Model

| member | source | states |
|---|---|---|
| `Pow.Quotient` | crates/hns-browser-primitives/src/pow.rs:134-141 | integer division fixed by its remainder bounds |
| `Pow.CompactTargetIff` | crates/hns-browser-primitives/src/pow.rs:105-132 | which compact forms are targets and which they are, and exactly which forms give each of the three errors |
| `Pow.WorkForBits` | crates/hns-browser-primitives/src/pow.rs:52-54 | every valid difficulty contributes at least one unit of work, so chainwork strictly rises along a chain |
| `Pow.PowMatchesTarget` | crates/hns-browser-primitives/src/pow.rs:183-217 | the byte-wise proof-of-work check is comparison with the compact target, with the same errors, save for a mantissa that a small exponent shifts out altogether |
| `Pow.ShiftedTarget` | crates/hns-browser-primitives/src/pow.rs:183-217 | exponent one and mantissa one: no target, and yet the zero hash passes |
| `Pow.WorkIff` | crates/hns-browser-primitives/src/pow.rs:134-141 | the work of a difficulty value is W if and only if it is a target t with W (t + 1) the greatest multiple of t + 1 within 2^256 |
| `Pow.TargetForWorkIff` | crates/hns-browser-primitives/src/pow.rs:143-155 | the target for a work W is t if and only if t + 1 is the greatest number of which W copies fit into 2^256; there is none exactly for zero work and for more than 2^256 |
| `CompactTargets.CompactRoundsDown` | crates/hns-browser-primitives/src/pow.rs:157-181 | every target has a compact form, which reads back as the target with its last bytes cleared; at least fifteen leading bits are kept |
| `ChainModel.Previous` | crates/hns-browser-chain/src/lib.rs:1954-1968 | a predecessor found is exactly one height below |
| `ChainRetarget.TimespanIs` | crates/hns-browser-chain/src/lib.rs:1898-1900 | the measured timespan is the later time minus the earlier: 21600 below that, 345600 above that, the difference in between |
| `ChainModel.LastMax` | crates/hns-browser-chain/src/lib.rs:1743-1748 | the chosen batch tip is the last header of maximal chainwork |
| `ChainInvariant.AncestorOfAncestor` | crates/hns-browser-chain/src/lib.rs:1936-1952 | ancestors compose: the ancestor of an ancestor is the ancestor |
| `ChainInvariant.AncestryStep` | crates/hns-browser-chain/src/lib.rs:186-194 | the index of a child is the index of its parent plus one entry, which is why promoting one tip is enough |
| `ChainInvariant.PathIsAncestry` | crates/hns-browser-chain/src/lib.rs:1970-1991 | on valid headers the walk to the root never fails and its index is the ancestry |
| `ChainInvariant.PromoteBestRebuilds` | crates/hns-browser-chain/src/lib.rs:1804-1807 | a full promotion leaves the index rebuilt from nothing |
| `ChainInvariant.AdmitOrdersAgree` | crates/hns-browser-chain/src/lib.rs:1637-1664 | the two check orders of single and batch insertion admit the same headers with the same result |
| `ChainInvariant.JoinRebuilds` | crates/hns-browser-chain/src/lib.rs:1665-1685 | storing one header, promoted incrementally or by rebuild, leaves exactly the rebuilt store and keeps the invariant |
| `ChainInvariant.InsertHeaderRebuilds` | crates/hns-browser-chain/src/lib.rs:1637-1685 | each outcome of a single insertion: errors change nothing, success gives the rebuilt store; nothing stored is lost and best chainwork never falls |
| `ChainInvariant.InsertGenesisRebuilds` | crates/hns-browser-chain/src/lib.rs:1622-1635 | inserting a root is refused exactly when the policy forbids it, its difficulty is no target or it is known; otherwise it is stored and promoted, never half-way |
| `ChainInvariant.InsertGenesisValidIff` | crates/hns-browser-chain/src/lib.rs:1622-1635 | a further root keeps the best tip heaviest if and only if it is refused, there is no best, or it is at least as heavy as the best |
| `ChainInvariant.AcceptedAreJoinable` | crates/hns-browser-chain/src/lib.rs:1696-1736 | the headers a batch accepts can all be stored, in order, and leave a parent-closed table |
| `ChainInvariant.PromoteTipsRebuilds` | crates/hns-browser-chain/src/lib.rs:42-47 | promoting a linked run tip by tip leaves the rebuilt index of its last header |
| `ChainInvariant.PromoteBatchRebuilds` | crates/hns-browser-chain/src/lib.rs:1742-1774 | both promotion paths of a batch leave the rebuilt store of the heaviest header |
| `ChainInvariant.JoinAllRebuilds` | crates/hns-browser-chain/src/lib.rs:1742-1774 | storing and promoting an accepted batch never fails and leaves the rebuilt store |
| `ChainInvariant.InsertHeadersRebuilds` | crates/hns-browser-chain/src/lib.rs:1687-1774 | a batch is all or nothing, and keeps the invariant, the stored headers and the best chainwork |
| `ChainInvariant.ApplyKeepsIndexed` | crates/hns-browser-chain/src/lib.rs:1622-1774 | every call keeps the index equal to the ancestry of the best, even while something heavier waits to be promoted, and adds nothing heavier than the best |
| `ChainInvariant.ApplyKeepsValid` | crates/hns-browser-chain/src/lib.rs:1622-1774 | every call, failing or not, keeps the invariant and one genesis, loses nothing, and any change of best strictly raises chainwork |
| `ChainInvariant.RunsKeepValid` | crates/hns-browser-chain/src/lib.rs:1622-1774 | every run of calls from an empty store ends in a valid store |
| `ChainBatch.EachTracksBatch` | crates/hns-browser-chain/src/lib.rs:1696-1736 | the pending overlay of a batch is the table single insertions would have built, and both succeed on the same input |
| `ChainBatch.BatchMatchesSingles` | crates/hns-browser-chain/src/lib.rs:1687-1774 | a batch succeeds exactly when inserting its unknown headers one at a time does, with the same headers and best chainwork; otherwise it changes nothing |
| `ChainBatch.EachLeavesFirst` | crates/hns-browser-chain/src/lib.rs:1665-1685 | single insertions leave the first heaviest header best, if it is heavier than the best before |
| `ChainBatch.BestAgreesIff` | crates/hns-browser-chain/src/lib.rs:1742-1774 | batch and single insertions leave the same best, and the same store, if and only if no two headers that the batch accepts share the greatest chainwork or none is heavier than the best |
| `ChainRetarget.AncestorFindsAt` | crates/hns-browser-chain/src/lib.rs:1936-1952 | the downward walk finds the ancestor at every height of a valid chain |
| `ChainRetarget.SuitableIsMedian` | crates/hns-browser-chain/src/lib.rs:1922-1934 | the suitable block is the stable median by time of the three blocks that end there |
| `ChainRetarget.WindowExists` | crates/hns-browser-chain/src/lib.rs:1873-1891 | from height 146 on the window walks never fail, both blocks are medians and are 142 to 146 heights apart |
| `ChainRetarget.EstimateBounds` | crates/hns-browser-chain/src/lib.rs:1893-1920 | the work estimate is the floor of 600 times the work difference over the clamped time difference, and within the factors 1/576 and 1/36 of the work difference |
| `ChainRetarget.LimitIs` | crates/hns-browser-chain/src/lib.rs:1913-1914 | the limit bits stand for the target 0xffff times 256 to the power 25 |
| `ChainRetarget.RetargetBitsIs` | crates/hns-browser-chain/src/lib.rs:1893-1920 | what the retarget answers to an estimate W: the limit bits if W is zero or its target 2^256 / W - 1 is above the limit, and otherwise bits that read back as that target rounded down |
| `ChainRetarget.ExpectedBitsIs` | crates/hns-browser-chain/src/lib.rs:1873-1891 | the bits expected of a child: the limit bits below height 146, and from there the answer for the medians that end at the parent and 144 heights below it |
| `ChainRetarget.RetargetIsBounded` | crates/hns-browser-chain/src/lib.rs:1873-1968 | for every parent in a valid store the window exists and the estimate is bounded |
| `ChainConsensus.AdmitIff` | crates/hns-browser-chain/src/lib.rs:1637-1664 | a header is admitted, as this row, if and only if its parent is stored below the greatest height, mainnet expects exactly its bits, its hash is within the target of its bits, and a mainnet checkpoint at its height is its hash |
| `ChainConsensus.RefusalIs` | crates/hns-browser-chain/src/lib.rs:1637-1664 | which error a refused header gets: that of the first rule it breaks, with the bits expected or the checkpoint wanted |
| `ChainConsensus.ExpectedBitsStable` | crates/hns-browser-chain/src/lib.rs:1873-1891 | what a table expects of a child every larger table expects |
| `ChainConsensus.AcceptedConsensus` | crates/hns-browser-chain/src/lib.rs:1696-1736 | the headers a batch accepts over pending headers meet difficulty and checkpoints in the table they end up in |
| `ChainConsensus.ApplyKeepsConsensus` | crates/hns-browser-chain/src/lib.rs:1622-1774 | every call keeps that all stored headers meet the difficulty their ancestry demands and the checkpoints |
| `ChainConsensus.RunsKeepConsensus` | crates/hns-browser-chain/src/lib.rs:1622-1774 | every run from an empty store ends in a valid store whose headers all meet difficulty and checkpoints |
| `ChainErrors.AncestorErrorIs` | crates/hns-browser-chain/src/lib.rs:1936-1968 | on any table the walk to an ancestor fails if and only if the height is above the row or a link on the way is broken: parent not stored, or at another height |
| `ChainErrors.PathErrorIs` | crates/hns-browser-chain/src/lib.rs:1970-1991 | the same for the walk to the root |
| `ChainErrors.GenesisErrors` | crates/hns-browser-chain/src/lib.rs:1622-1635 | a root is refused for its header, its difficulty or as known, in this order, and nothing changes |
| `ChainErrors.KnownRefused` | crates/hns-browser-chain/src/lib.rs:1637-1665 | a header that meets the rules but is known is refused without change |
| `ChainErrors.KnownBatch` | crates/hns-browser-chain/src/lib.rs:1687-1740 | a batch of known headers only succeeds and changes nothing |
| `ChainErrors.DanglingBest` | crates/hns-browser-chain/src/lib.rs:1665-1685 | with a best that is not stored a single header is stored and reported as an error, a batch stores nothing |
| `HeaderChain.MemoryHeaderStore.constructor` | crates/hns-browser-chain/src/lib.rs:51-56 | a new store is empty |
| `HeaderChain.MemoryHeaderStore.PutHeader` | crates/hns-browser-chain/src/lib.rs:169-176 | stores a new hash, refuses a known one without change |
| `HeaderChain.MemoryHeaderStore.PutHeaders` | crates/hns-browser-chain/src/lib.rs:33-38 | stores headers in order until one is refused |
| `HeaderChain.MemoryHeaderStore.PromoteCanonicalTip` | crates/hns-browser-chain/src/lib.rs:186-194 | sets one index entry and the best tip of a stored header |
| `HeaderChain.MemoryHeaderStore.PromoteCanonicalTips` | crates/hns-browser-chain/src/lib.rs:42-47 | promotes tips in order until one is refused |
| `HeaderChain.MemoryHeaderStore.ReplaceCanonicalChain` | crates/hns-browser-chain/src/lib.rs:196-213 | replaces the whole index by that of a stored chain, or changes nothing |
| `HeaderChain.HeaderChain.PreviousWithPending` | crates/hns-browser-chain/src/lib.rs:1954-1968 | looks up pending headers first: same as one table with the pending headers laid over it |
| `HeaderChain.HeaderChain.AncestorWithPending` | crates/hns-browser-chain/src/lib.rs:1936-1952 | the loop finds what the recursive walk over the overlaid table finds |
| `HeaderChain.HeaderChain.SuitableBlockWithPending` | crates/hns-browser-chain/src/lib.rs:1922-1934 | the median block over the overlaid table |
| `HeaderChain.HeaderChain.ExpectedMainnetBits` | crates/hns-browser-chain/src/lib.rs:1873-1891 | the retarget over the overlaid table |
| `HeaderChain.HeaderChain.ValidateDifficultyBits` | crates/hns-browser-chain/src/lib.rs:1847-1866 | the difficulty check over the overlaid table; `AdmitIff` and `RefusalIs` say which bits pass and with which error others fail |
| `HeaderChain.HeaderChain.CanonicalChainTo` | crates/hns-browser-chain/src/lib.rs:1970-1991 | the collected and reversed walk is the path from the root |
| `HeaderChain.HeaderChain.PromoteBestHash` | crates/hns-browser-chain/src/lib.rs:1804-1807 | full promotion, or an error without change |
| `HeaderChain.HeaderChain.InsertGenesis` | crates/hns-browser-chain/src/lib.rs:1622-1635 | the store and result the theorems about a root speak of |
| `HeaderChain.HeaderChain.InsertHeader` | crates/hns-browser-chain/src/lib.rs:1637-1685 | the store and result the theorems about single insertion speak of |
| `HeaderChain.HeaderChain.AdmitWithPending` | crates/hns-browser-chain/src/lib.rs:1701-1735 | the work remembered per difficulty value never changes a result |
| `HeaderChain.HeaderChain.AcceptBatch` | crates/hns-browser-chain/src/lib.rs:1696-1736 | the loop with pending map, seen set and work memory accepts what plain repeated admission accepts |
| `HeaderChain.HeaderChain.InsertHeaders` | crates/hns-browser-chain/src/lib.rs:1687-1774 | the store and result the theorems about batches speak of |
| `LiveHandles.PutAllIff` | crates/hns-browser-chain/src/lib.rs:1420-1454 | the rows of a call are committed if and only if their hashes are new and different |
| `LiveHandles.AcceptedFollow` | crates/hns-browser-chain/src/lib.rs:1696-1736 | accepted rows carry on from the table or from each other, whenever they are committed |
| `LiveHandles.LateTipsIff` | crates/hns-browser-chain/src/lib.rs:1531-1567 | promoting tips over a best that moved on leaves a proper index if and only if the current best lies on the tips' parent and no higher than the tips |
| `LiveHandles.LatePromotionIff` | crates/hns-browser-chain/src/lib.rs:1742-1774 | when a promotion decided on an earlier look leaves a proper index, and when it does not lower best chainwork |
| `LiveHandles.PromotionFitsIff` | crates/hns-browser-chain/src/lib.rs:1742-1774 | a promotion keeps the index proper and the store growing if and only if what it promotes is best already or heavier than the best, and fits the index if promoted tip by tip |
| `LiveHandles.FreshPromotion` | crates/hns-browser-chain/src/lib.rs:1742-1774 | if the best is still the one looked at, the divided call does what the undivided one does |
| `SnapshotRefinement.ScanFinds` | crates/hns-browser-chain/src/lib.rs:851-885 | the downward scan ends at the boundary between equal and different heights |
| `SnapshotRefinement.DivergenceScan` | crates/hns-browser-chain/src/lib.rs:851-885 | on two valid chains with one genesis the scan finds the least differing height, and every shared height from there differs |
| `SnapshotRefinement.DivergenceIsLeast` | crates/hns-browser-chain/src/lib.rs:851-885 | the divergence search never fails, reports nothing exactly on equal indexes and otherwise the least difference |
| `SnapshotRefinement.SuffixOfIndexed` | crates/hns-browser-chain/src/lib.rs:887-1010 | every suffix of an indexed chain passes all suffix checks, unless it starts at a genesis that names a parent |
| `SnapshotRefinement.JournalValidIff` | crates/hns-browser-chain/src/lib.rs:626-762 | the journal checks pass if and only if no journaled genesis lacks proof of work or names a parent |
| `SnapshotRefinement.JournalCheckBlocksFirst` | crates/hns-browser-chain/src/lib.rs:626-762 | over a valid live chain the suffix check never blocks what the journal check lets through |
| `SnapshotRefinement.FullInstallsStaged` | crates/hns-browser-chain/src/lib.rs:1179-1312 | full publication installs the union of headers and exactly the staged index and best |
| `SnapshotRefinement.SuffixInstallsStaged` | crates/hns-browser-chain/src/lib.rs:790-1060 | replacing only the suffix installs the whole staged index, except over a live store without a best when the genesis names a parent |
| `SnapshotRefinement.DeltaRefinesFull` | crates/hns-browser-chain/src/lib.rs:554-762 | delta publication commits exactly what full publication commits, and fails if and only if the genesis is blocked |
| `SnapshotProtocol.PublishOutcome` | crates/hns-browser-chain/src/lib.rs:350-429 | when exactly a conditional publication commits, that it then equals the full one, strictly raises the generation, keeps the index and loses nothing |
| `SnapshotProtocol.LiveStep` | crates/hns-browser-chain/src/lib.rs:362-429 | every step whose promotion, if it is one, fits the live store keeps the live index, loses no live header and never lowers best chainwork |
| `SnapshotProtocol.StepKeepsValid` | crates/hns-browser-chain/src/lib.rs:295-429 | every such step keeps the invariant that ties all stages and connections to the live database, and leaves only waiting rows heavier than the best |
| `SnapshotProtocol.RunsKeepSystemValid` | crates/hns-browser-chain/src/lib.rs:295-429 | the invariant holds after every interleaving of any number of stagers and connections in which every promotion fits |
| `SnapshotProtocol.QuietIsValid` | crates/hns-browser-chain/src/lib.rs:1637-1774 | when no stored row waits for its promotion, the live chain is valid in full: its best is heaviest |
| `SnapshotProtocol.UndividedRunsKeepValid` | crates/hns-browser-chain/src/lib.rs:295-429 | if every live insertion is undivided, the live chain is valid in full after every interleaving |
| `SnapshotProtocol.SoundIffOrderly` | crates/hns-browser-chain/src/lib.rs:295-429 | the live index stays proper and the live store grows at every moment of a run if and only if every promotion of the run fits |
| `SnapshotProtocol.LiveGrows` | crates/hns-browser-chain/src/lib.rs:295-429 | between any two moments of a run no live header is lost or changed and best chainwork does not fall |
| `SnapshotProtocol.BestHasNoAba` | crates/hns-browser-chain/src/lib.rs:362-429 | a best hash seen at two moments was the best hash at every moment in between |
| `ProtocolConsensus.PutKeepsConsensus` | crates/hns-browser-chain/src/lib.rs:1420-1454 | rows accepted on an earlier look may be committed later: they still meet difficulty and checkpoints |
| `ProtocolConsensus.UnionConsensus` | crates/hns-browser-chain/src/lib.rs:554-624 | merging two tables that do not conflict keeps that all headers meet difficulty and checkpoints |
| `ProtocolConsensus.RunsKeepLiveConsensus` | crates/hns-browser-chain/src/lib.rs:295-429 | after every orderly interleaving all live and staged headers meet difficulty and checkpoints, although publication checks neither |
| `LateJournals.JournalClosedIff` | crates/hns-browser-chain/src/lib.rs:554-624 | the merged headers are parent-closed if and only if every journaled parent arrives too |
| `LateJournals.PublishedStore` | crates/hns-browser-chain/src/lib.rs:554-624 | whatever the journal holds, a successful publication installs the staged index and best over the merged headers |
| `LateJournals.PublishedValidIff` | crates/hns-browser-chain/src/lib.rs:295-344 | a successful publication leaves a valid live chain if and only if every journaled parent arrives too |
| `PublishSafety.JournalAcceptedIff` | crates/hns-browser-chain/src/lib.rs:626-762 | whatever the stage holds, its journal is accepted if and only if every journaled row is staged, hashes to its key, shows its work, carries on from a staged row or is a root without parent, and agrees with the live row of its hash |
| `PublishSafety.PublishedRowsSound` | crates/hns-browser-chain/src/lib.rs:554-624 | a successful publication of any stage met the expected generation and best, adds exactly the journaled rows, all of them sound, changes no live row and raises the generation |
| `PublishSafety.IndexedIsProper` | crates/hns-browser-chain/src/lib.rs:1970-1991 | the index of every reachable store is linked from its best down to height zero |
| `PublishSafety.PublishedIndexProper` | crates/hns-browser-chain/src/lib.rs:790-1060 | whatever the stage holds, a successful publication leaves an index linked from the new best down to height zero where there was one |
| `PublishSafety.FullRefusesIff` | crates/hns-browser-chain/src/lib.rs:1179-1312 | the full publisher refuses exactly conflicting rows and index entries without a stored row of their height |
| `PublishSafety.BeginIff` | crates/hns-browser-chain/src/lib.rs:295-344 | a journal starts exactly on the expected generation and best, names them, is empty and changes nothing else |
| `PublishSafety.ConflictRefused` | crates/hns-browser-chain/src/lib.rs:626-660 | a journal with a row that differs from the live row of its hash is refused |
| `PublishSafety.WorklessRefused` | crates/hns-browser-chain/src/lib.rs:661-762 | a journaled row whose hash misses its target is refused |
| `PublishSafety.ParentedRootRefused` | crates/hns-browser-chain/src/lib.rs:958-1010 | a suffix that starts at a root which names a parent is refused |
| `SqliteHeaderStore.ContiguousRows` | crates/hns-browser-chain/src/lib.rs:893-916 | the row count of a suffix is enough to know that no height is missing |
| `SqliteHeaderStore.ScanDivergence` | crates/hns-browser-chain/src/lib.rs:863-884 | the loop is the recursive scan |
| `SqliteHeaderStore.ValidateJournalRows` | crates/hns-browser-chain/src/lib.rs:626-762 | the row loop accepts exactly the journals whose every row is valid |
| `SqliteHeaderStore.ValidateSuffix` | crates/hns-browser-chain/src/lib.rs:887-1010 | the row loop accepts exactly the contiguous, indexed and linked suffixes |
| `SqliteHeaderStore.SqliteHeaderStore.BeginSnapshotPublicationDelta` | crates/hns-browser-chain/src/lib.rs:295-344 | starts an empty journal on the expected state, or changes nothing |
| `SqliteHeaderStore.SqliteHeaderStore.Commit` | crates/hns-browser-chain/src/lib.rs:473-483 | new header rows are journaled once a baseline exists |
| `SqliteHeaderStore.SqliteHeaderStore.PublishSnapshotFromIfCurrent` | crates/hns-browser-chain/src/lib.rs:350-429 | the conditional publication the theorems speak of; on any other result the database is unchanged |
| `SqliteHeaderStore.SqliteHeaderStore.PublishCanonicalSuffix` | crates/hns-browser-chain/src/lib.rs:554-624 | the suffix replacement over the merged headers |
| `SqliteHeaderStore.SqliteHeaderStore.FirstCanonicalDivergence` | crates/hns-browser-chain/src/lib.rs:851-885 | the divergence search with its shortcuts for equal and missing tips |
| `SqliteHeaderStore.SqliteHeaderStore.PublishSnapshotFrom` | crates/hns-browser-chain/src/lib.rs:1179-1312 | the full publication, all or nothing |
| `Witnesses.BlockedGenesis` | crates/hns-browser-chain/src/lib.rs:626-762 | a genesis without proof of work, accepted by the full publisher and refused by the conditional one |
| `Witnesses.ParentedGenesis` | crates/hns-browser-chain/src/lib.rs:736-742 | a genesis with proof of work and a nonzero parent, accepted by the full publisher and refused by the conditional one |
| `Witnesses.RefusedGenesis` | crates/hns-browser-chain/src/lib.rs:626-762 | the same for every genesis that misses its target or names a parent |
| `Witnesses.MainnetGenesisMissesTarget` | crates/hns-browser-primitives/src/header.rs:223-230 | the genesis header of the main network does not meet its own target |
| `Witnesses.MainnetGenesisBlocked` | crates/hns-browser-chain/src/lib.rs:626-762 | with the hash of the main network no stage that inserted the genesis can be published conditionally, while the full path publishes all of them |
| `Witnesses.LighterSecondRoot` | crates/hns-browser-chain/src/lib.rs:1622-1635 | a second root that lowers best chainwork |
| `Witnesses.TiedTips` | crates/hns-browser-chain/src/lib.rs:1742-1774 | two equally heavy tips: the batch leaves the last best, single insertions the first |
| `Witnesses.LiveIsReached` | crates/hns-browser-chain/src/lib.rs:1622-1685 | the live database of the late journal is reached from an empty one |
| `Witnesses.LateIsReached` | crates/hns-browser-chain/src/lib.rs:295-344 | a stage whose journal started late is reachable by insertions |
| `Witnesses.LateJournal` | crates/hns-browser-chain/src/lib.rs:554-624 | publishing that stage succeeds and leaves a live header without its parent |
| `DisturbedRun.DisturbedPromotion` | crates/hns-browser-chain/src/lib.rs:1498-1529 | a connection that promotes after another one published lowers best chainwork and leaves an index that mixes two chains |
| `Order.LexicographicIsTotal` | crates/hns-browser-dnssec/src/lib.rs:1925-1942 | the lexicographic order over a total order is total |
| `Order.RingPartition` | crates/hns-browser-dnssec/src/lib.rs:1892-1908 | every element of a sorted ring's order is an owner covered by no link, or covered by exactly one link |
| `Dns.NamePrefixCode` | crates/hns-browser-dnssec/src/lib.rs:1521-1526 | encoded names are uniquely decodable, whatever follows them |
| `Dns.NamesTotallyOrdered` | crates/hns-browser-dnssec/src/lib.rs:1925-1942 | canonical name comparison is a strict total order |
| `Dns.CanonicalNameCompare` | crates/hns-browser-dnssec/src/lib.rs:1925-1942 | the loop from the top label down computes that order |
| `CanonicalForms.RdataLessIff` | crates/hns-browser-dnssec/src/lib.rs:1387-1428 | the order of canonical data: a proper prefix comes first, and otherwise the string whose first differing byte is smaller |
| `CanonicalForms.NamesLessIff` | crates/hns-browser-dnssec/src/lib.rs:1925-1942 | the canonical order of names: a name before the names below it, and otherwise the smaller label where they first differ from the top |
| `DnssecRecords.ComputeKeyTag` | crates/hns-browser-dnssec/src/lib.rs:491-502 | the loop sums the 16-bit words and folds the carry |
| `DnssecRecords.KeyTagFits` | crates/hns-browser-dnssec/src/lib.rs:491-502 | the 32-bit accumulator cannot overflow on record data |
| `RecordForms.TagIs` | crates/hns-browser-dnssec/src/lib.rs:491-502 | the key tag is the sum of the big-endian 16-bit words, an odd byte padded, with its carry added once |
| `RecordForms.ParseDnskeyIff` | crates/hns-browser-dnssec/src/lib.rs:288-306 | a DNSKEY parses if and only if it is flags, the protocol number three, algorithm and key, and gives these back |
| `RecordForms.ZoneKeyIff` | crates/hns-browser-dnssec/src/lib.rs:288-306 | a key is a zone key if and only if the last bit of its first byte is set |
| `RecordForms.ParseDsIff` | crates/hns-browser-dnssec/src/lib.rs:325-336 | a DS record parses if and only if it is key tag, algorithm, digest type and a digest that is not empty |
| `RecordForms.ParseRrsigIff` | crates/hns-browser-dnssec/src/lib.rs:347-384 | an RRSIG parses if and only if its eighteen bytes hold the fixed fields, a name follows and a signature that is not empty; its signed form is those bytes and the encoded name |
| `RecordForms.ParseNsecIff` | crates/hns-browser-dnssec/src/lib.rs:403-415 | an NSEC record parses if and only if it is a name and a valid bitmap that is not empty |
| `RecordForms.ParseNsec3Iff` | crates/hns-browser-dnssec/src/lib.rs:430-468 | an NSEC3 record parses if and only if it is the printed form of its fields with a next hash that is not empty and a valid bitmap |
| `DnssecRecords.ParseRrsig` | crates/hns-browser-dnssec/src/lib.rs:347-384 | every field of a parsed RRSIG but the signature is held by its signed form, which ends with the encoded signer |
| `DnssecRecords.ListsCutIff` | crates/hns-browser-dnssec/src/lib.rs:1772-1780 | a bitmap shows a delegation or a redirection if and only if its owner is one |
| `TypeBitmap.ContainsIffListed` | crates/hns-browser-dnssec/src/lib.rs:1866-1890 | the first-match scan is membership in the listed types, because windows strictly increase |
| `TypeBitmap.ValidateTypeBitMaps` | crates/hns-browser-dnssec/src/lib.rs:1844-1864 | the cursor loop accepts exactly the well-formed bitmaps |
| `TypeBitmap.ScanBlocks` | crates/hns-browser-dnssec/src/lib.rs:1866-1890 | the scan loop stays in bounds and finds what the recursive scan finds |
| `TypeBitmap.TypeBitMapsContain` | crates/hns-browser-dnssec/src/lib.rs:1866-1890 | malformed bitmaps are refused and all others answered by membership |
| `RecordForms.ValidBitmapIff` | crates/hns-browser-dnssec/src/lib.rs:1844-1864 | a bitmap is valid if and only if it is printed from blocks of one to thirty-two bytes with increasing windows |
| `RecordForms.BitsOfByte` | crates/hns-browser-dnssec/src/lib.rs:1866-1890 | the bits looked up in a byte are its binary digits, the most significant first |
| `SignedData.BuildSignedData` | crates/hns-browser-dnssec/src/lib.rs:1154-1176 | the check for repetitions and the append loop produce the canonical signed bytes |
| `SignedDataUnique.SortedSorts` | crates/hns-browser-dnssec/src/lib.rs:1387-1428 | sorting orders the canonical record data and keeps all of it |
| `SignedDataUnique.WiresInjective` | crates/hns-browser-dnssec/src/lib.rs:1387-1428 | concatenated record wires decode uniquely into owner, header and record data |
| `SignedDataUnique.SignedFieldsEqual` | crates/hns-browser-dnssec/src/lib.rs:347-384 | equal signed forms have equal fields, all but the signature |
| `SignedDataUnique.SignedRdataPrefix` | crates/hns-browser-dnssec/src/lib.rs:1154-1176 | the signed form of an RRSIG is uniquely decodable, whatever follows it |
| `SignedDataUnique.SignedBytesIffContent` | crates/hns-browser-dnssec/src/lib.rs:1154-1176 | signed bytes are equal if and only if the signed RRSIG fields, owner, type, class and set of canonical RDATA are |
| `SignedDataUnique.SignedBytesOrderFree` | crates/hns-browser-dnssec/src/lib.rs:1387-1428 | the order of the records changes neither whether signed bytes exist nor which they are |
| `SignedDataUnique.OwnerFixed` | crates/hns-browser-dnssec/src/lib.rs:1430-1459 | with the label count that verification demands, the canonical owner is the owner of every record |
| `CanonicalForms.CanonicalNameForms` | crates/hns-browser-dnssec/src/lib.rs:1480-1551 | the canonical data of NS, CNAME, SRV and NSEC records: their name re-encoded, the other bytes kept, nothing left over |
| `CanonicalForms.CanonicalSoaForm` | crates/hns-browser-dnssec/src/lib.rs:1489-1506 | the canonical data of SOA records: two names re-encoded and twenty bytes kept |
| `CanonicalForms.CanonicalOtherForms` | crates/hns-browser-dnssec/src/lib.rs:1461-1478 | RRSIG data has no canonical form, NSEC3 data must parse, and other data stands as it is |
| `CanonicalForms.WireBytes` | crates/hns-browser-dnssec/src/lib.rs:1387-1428 | the bytes of one signed record: owner, type, class, original TTL, length, data, each number big-endian |
| `CanonicalForms.SignedBytesIff` | crates/hns-browser-dnssec/src/lib.rs:1154-1176 | there are signed bytes, and these, if and only if the time is within the validity period, all records have the covered type, one class and one signed owner, and the bytes are the signed RRSIG fields and the records in strictly ascending order of their canonical data |
| `CanonicalForms.SignedBytesErrors` | crates/hns-browser-dnssec/src/lib.rs:1154-1176 | which error there is instead: outside the validity period first, then the shape of the set |
| `CanonicalForms.RecordErrors` | crates/hns-browser-dnssec/src/lib.rs:1387-1428 | a record of another type, class or signed owner is an error, and one without canonical data gives its own |
| `DnssecChain.ValidateRrsetSignature` | crates/hns-browser-dnssec/src/lib.rs:698-747 | the loops over signatures and keys give the verdict that `SignatureVerdict` spells out |
| `DnssecVerdicts.SignatureVerdict` | crates/hns-browser-dnssec/src/lib.rs:698-747 | the whole verdict once keys and signatures parse: secure if and only if a listed pair signs; otherwise bogus if and only if no pair that is tried gives an error, and else the error of such a pair; never an insecure delegation |
| `DnssecVerdicts.UnreadableVerdict` | crates/hns-browser-dnssec/src/lib.rs:698-715 | no records, keys that do not parse and signatures that do not are errors |
| `DnssecChain.ValidateDnssecChain` | crates/hns-browser-dnssec/src/lib.rs:613-681 | the loop over links, carrying owner and keys, decides as the recursive validation does |
| `DnssecSoundness.SecureIffSigned` | crates/hns-browser-dnssec/src/lib.rs:698-747 | an RRset is secure if and only if everything parses and some listed key made a listed signature over it, valid now |
| `DnssecSoundness.ZoneKeysTrusted` | crates/hns-browser-dnssec/src/lib.rs:546-582 | an authenticated key set is signed by one of its own keys that a DS record vouches for |
| `DnssecSoundness.VerifyDsIff` | crates/hns-browser-dnssec/src/lib.rs:504-536 | a DS record vouches for a key if and only if tag, algorithm, the zone bit and a SHA-1, SHA-256 or SHA-384 digest of owner and key agree; an unknown digest type is an error only then |
| `DnssecSoundness.ChainSound` | crates/hns-browser-dnssec/src/lib.rs:613-681 | secure over any number of links is a trust path from the given DS set to the target |
| `DnssecComplete.KeySetSecureIff` | crates/hns-browser-dnssec/src/lib.rs:546-582 | a zone's key set is accepted if and only if its records parse, no DS that names a key uses an unknown digest, and one of its DS-matching keys signs it now |
| `DnssecComplete.LinksSecureIff` | crates/hns-browser-dnssec/src/lib.rs:636-681 | the rest of a chain is accepted if and only if it can be read and is a trust path |
| `DnssecComplete.ChainSecureIff` | crates/hns-browser-dnssec/src/lib.rs:613-681 | a chain of any length is secure if and only if it can be read and is a trust path from the given DS set to the target |
| `DnssecVerdicts.ZoneInsecureIff` | crates/hns-browser-dnssec/src/lib.rs:546-582 | a zone is an insecure delegation if and only if its DS set holds no DS record |
| `DnssecVerdicts.LinksVerdict` | crates/hns-browser-dnssec/src/lib.rs:636-681 | the first link that is not secure gives the verdict of the chain, and if there is none the target's signature does |
| `DnssecVerdicts.ChainInsecureIff` | crates/hns-browser-dnssec/src/lib.rs:613-681 | a chain of any length is an insecure delegation if and only if some zone on it has no DS record and everything before that zone is secure |
| `DnssecSoundness.SignedIsPublished` | crates/hns-browser-dnssec/src/lib.rs:1178-1206 | what a genuine key of an honest zone verifies is content the zone published; nothing is assumed of other zones and keys |
| `DnssecSoundness.SecureTargetIsPublished` | crates/hns-browser-dnssec/src/lib.rs:613-747 | if the zones on the chain are honest, whatever other zones and keys do, a secure target has exactly the owner, type, class and RDATA set the last zone published |
| `DnssecSoundness.SecureOverSoundDelegations` | crates/hns-browser-dnssec/src/lib.rs:613-681 | the same whenever each DS set on the chain vouches only for genuine keys of its child |
| `DnssecPlacement.PlacedAbove` | crates/hns-browser-dnssec/src/lib.rs:636-681 | if children lie below their parents and the target in the last zone, all zones of the chain lie above the target |
| `DnssecPlacement.OwnDigestVouches` | crates/hns-browser-dnssec/src/lib.rs:504-536 | a DS set that holds digests of genuine keys of its owner vouches for no other key there |
| `DnssecPlacement.SecureWhenPlaced` | crates/hns-browser-dnssec/src/lib.rs:613-681 | with children below parents, DS sets at children and the target in the last zone, a secure target is published by a zone above it if only the zones above the target are honest |
| `ChainWitness.UnplacedChain` | crates/hns-browser-dnssec/src/lib.rs:636-681 | secure chains to an unpublished target, with all zones above the target honest: one through a zone that is not above it, one through a DS set of another name |
| `ChainWitness.StrayChainUnplaced` | crates/hns-browser-dnssec/src/lib.rs:636-681 | a secure chain to an unpublished target that starts at a zone which is not above it |
| `Base32Hex.DecodeInvertsEncode` | crates/hns-browser-dnssec/src/lib.rs:1799-1842 | decoding inverts encoding at every length |
| `Base32Hex.EncodeInvertsDecodeIff` | crates/hns-browser-dnssec/src/lib.rs:1820-1842 | an accepted string is, up to case, the encoding of its result if and only if fewer than five bits are left over |
| `Base32Hex.SpareDigit` | crates/hns-browser-dnssec/src/lib.rs:1820-1842 | a single zero digit is accepted as the empty string of bytes |
| `Base32Hex.AlphabetIs` | crates/hns-browser-dnssec/src/lib.rs:1799-1818 | the thirty-two characters, in lower case |
| `Base32Hex.ReadsEitherCase` | crates/hns-browser-dnssec/src/lib.rs:1820-1842 | a character stands for a digit if and only if it is that character in either case |
| `Base32Hex.DecodeInBuffer` | crates/hns-browser-dnssec/src/lib.rs:1820-1842 | an unmasked buffer of at least twelve bits decodes exactly, although high bits are dropped |
| `Base32Hex.DecodeNoPad` | crates/hns-browser-dnssec/src/lib.rs:1820-1842 | the 32-bit decoder |
| `Base32Hex.EncodeInBuffer` | crates/hns-browser-dnssec/src/lib.rs:1799-1818 | the same for the encoder |
| `Base32Hex.EncodeNoPad` | crates/hns-browser-dnssec/src/lib.rs:1799-1818 | the 32-bit encoder |
| `Nsec.RangeSound` | crates/hns-browser-dnssec/src/lib.rs:777-831 | a secure range comes with a record of the input that is a link of the honest ring and covers the query, which is no owner |
| `Nsec.RangeSecureIff` | crates/hns-browser-dnssec/src/lib.rs:777-831 | when all NSEC records parse, a range is secure if and only if one of them covers the query in an owner set that validates |
| `NsecComplete.InGapIff` | crates/hns-browser-dnssec/src/lib.rs:1892-1908 | a gap holds a query if and only if it lies strictly between owner and next in canonical order, beyond the end if next comes first, or anywhere else if both are one name |
| `NsecComplete.AtOwnerIs` | crates/hns-browser-dnssec/src/lib.rs:799-818 | the records validated together are exactly those of the type at the owner and class of the covering record |
| `NsecComplete.RangeVerdict` | crates/hns-browser-dnssec/src/lib.rs:777-831 | the whole verdict on a range whose NSEC records parse: secure if a covering record is signed, otherwise an error of a covering record's signatures if there is one, and otherwise bogus |
| `NsecComplete.NameErrorSecureIff` | crates/hns-browser-dnssec/src/lib.rs:833-869 | a name error is secure if and only if the encloser is above the query, its wildcard fits the wire, and both names lie in a signed gap with nothing unreadable before it |
| `NsecComplete.NameErrorVerdict` | crates/hns-browser-dnssec/src/lib.rs:833-869 | a name outside the encloser or missing records make it bogus, and it is never an insecure delegation |
| `Nsec.NameErrorSound` | crates/hns-browser-dnssec/src/lib.rs:833-869 | a secure name error means neither the query nor the wildcard at its encloser owns records |
| `Nsec.ExactlyOneLink` | crates/hns-browser-dnssec/src/lib.rs:1892-1908 | every name is an owner covered by no link or is covered by exactly one |
| `Nsec.DescendantsFollow` | crates/hns-browser-dnssec/src/lib.rs:1925-1942 | in canonical order the names below a name directly follow it |
| `Nsec.EmptyNonTerminalIff` | crates/hns-browser-dnssec/src/lib.rs:1892-1908 | a name that a link covers has owners below it if and only if the next owner of the link is below it |
| `Nsec.EmptyNonTerminalCovered` | crates/hns-browser-dnssec/src/lib.rs:1892-1908 | with records only at the apex and below a name, the link of the apex covers the name |
| `NsecEncloser.SuffixExistsIff` | crates/hns-browser-dnssec/src/lib.rs:1892-1923 | the suffixes of a covered query that exist are exactly those within the longer suffix it shares with the link's two names |
| `NsecEncloser.ClosestIff` | crates/hns-browser-dnssec/src/lib.rs:833-869 | an encloser is the closest if and only if it is that longer shared suffix |
| `NsecEncloser.NameErrorDecided` | crates/hns-browser-dnssec/src/lib.rs:833-869 | a secure name error comes with a covering record of the input that decides whether the query is an empty non-terminal and whether the caller's encloser is the closest; if it is, the query does not exist in the zone and no wildcard of the zone answers for it |
| `NsecEncloser.DelegatedIff` | crates/hns-browser-dnssec/src/lib.rs:1892-1908 | a cut lies above a covered name if and only if the owner of the covering link is a cut above it |
| `NsecEncloser.DelegationDecided` | crates/hns-browser-dnssec/src/lib.rs:833-869 | a secure name error is about a name below a delegation or redirection if and only if the covering record stands above the query and its bitmap shows one |
| `NsecWitness.EmptyNonTerminalDenied` | crates/hns-browser-dnssec/src/lib.rs:833-869 | a signed zone and a secure name error for a name with owners below it |
| `NsecWitness.WildcardLeftUndenied` | crates/hns-browser-dnssec/src/lib.rs:833-869 | a secure name error, with an encloser that is too short, for a query that a wildcard answers |
| `NsecWitness.DelegatedNameDenied` | crates/hns-browser-dnssec/src/lib.rs:833-869 | a secure name error for a name below a delegation |
| `NsecWitness.WitnessUnforgeable` | crates/hns-browser-dnssec/src/lib.rs:1178-1206 | that zone's key verifies only what the zone publishes, while every other key verifies anything |
| `Nsec3.CoveredIsAbsent` | crates/hns-browser-dnssec/src/lib.rs:1726-1755 | a name whose hash lies in an honest span without opt-out does not exist |
| `Nsec3.MatchedExists` | crates/hns-browser-dnssec/src/lib.rs:1714-1724 | a name whose hash is an honest ring owner exists, absent collisions under the parameters of the proof |
| `Nsec3.MatchingComplete` | crates/hns-browser-dnssec/src/lib.rs:1682-1696 | the search finds a matching proof exactly when a usable one with the expected parameters exists |
| `Nsec3.CoveringComplete` | crates/hns-browser-dnssec/src/lib.rs:1698-1712 | the search finds a covering proof exactly when a usable one with the expected parameters exists |
| `Nsec3.EncloserExists` | crates/hns-browser-dnssec/src/lib.rs:1608-1658 | an accepted closest encloser exists and is neither a delegation nor a redirection |
| `Nsec3.AuthoritativeIff` | crates/hns-browser-dnssec/src/lib.rs:1772-1780 | for a valid bitmap that lists the types of a name the check passes if and only if the name is no cut; a zone apex passes |
| `Nsec3.MatchedNoCut` | crates/hns-browser-dnssec/src/lib.rs:1772-1780 | a proof of an existing name that passes the check shows that the name is no cut; `AuthoritativeIff` has the other direction |
| `Nsec3.NextCloserAbsent` | crates/hns-browser-dnssec/src/lib.rs:1608-1658 | an accepted next closer name without opt-out does not exist |
| `Nsec3.WildcardAbsent` | crates/hns-browser-dnssec/src/lib.rs:897-944 | a denied wildcard does not exist |
| `Nsec3.NameErrorSound3` | crates/hns-browser-dnssec/src/lib.rs:897-944 | a secure name error means the encloser is the longest existing suffix of the query and no cut, and query and wildcard do not exist |
| `Nsec3.NameErrorWithinZone` | crates/hns-browser-dnssec/src/lib.rs:897-944 | a secure name error is about names of this zone: no existing name at or above the query is a cut |
| `Nsec3Complete.ProofsIff` | crates/hns-browser-dnssec/src/lib.rs:1660-1680 | the proofs of a set are exactly its NSEC3 records with SHA-1, no unknown flag, a hashed owner directly below the zone and hashes of one length |
| `Nsec3Complete.ProofsReadableIff` | crates/hns-browser-dnssec/src/lib.rs:1660-1680 | the proofs of a set can be read if and only if every NSEC3 record parses and every usable one has a hashed owner directly below the zone |
| `Nsec3Complete.InSpanIff` | crates/hns-browser-dnssec/src/lib.rs:1742-1755 | a span covers a hash of its length if and only if it lies strictly between owner and next, beyond the end if next comes first, or anywhere else if both are one hash |
| `Nsec3Complete.MatchingIsFirst` | crates/hns-browser-dnssec/src/lib.rs:1682-1696 | the search finds the first eligible proof that hashes to the name, if no eligible proof before it exceeds 2500 iterations |
| `Nsec3Complete.CoveringIsFirst` | crates/hns-browser-dnssec/src/lib.rs:1698-1712 | the same for the first eligible proof whose span holds the hash of the name |
| `Nsec3Complete.SearchErrors` | crates/hns-browser-dnssec/src/lib.rs:1682-1712 | the searches fail only on an eligible proof with more than 2500 iterations |
| `Nsec3Complete.EncloserIff` | crates/hns-browser-dnssec/src/lib.rs:1608-1658 | the first two proofs are accepted, as these, if and only if the closest encloser is matched by a proof that lists no cut and the next closer name is covered under the same parameters |
| `Nsec3Complete.NameErrorSecureIff3` | crates/hns-browser-dnssec/src/lib.rs:897-944 | a name error is secure if and only if the three sets validate and parse, the encloser is matched without a cut, and the first eligible covers of next closer name and wildcard do not opt out |
| `Nsec3Complete.NameErrorInsecureIff3` | crates/hns-browser-dnssec/src/lib.rs:897-944 | it is an insecure delegation if and only if encloser and next closer name are shown and one of the two covers opts out |
| `Nsec3Complete.ReadableVerdict` | crates/hns-browser-dnssec/src/lib.rs:897-944 | input that can be read gives a verdict, so whatever else is bogus |
| `DenialSoundness.ValidatedIsPublished` | crates/hns-browser-dnssec/src/lib.rs:698-747 | every record of a validated set has owner, type and canonical data of content the zone published |
| `DenialSoundness.PublishedRingIsHonest` | crates/hns-browser-dnssec/src/lib.rs:777-831 | a zone that publishes only links of its ring has only links of its ring validated |
| `DenialSoundness.NsecDenialSound` | crates/hns-browser-dnssec/src/lib.rs:833-869 | NSEC name errors from unforgeable signatures and published content alone |
| `DenialSoundness.PublishedTypesAreHonest` | crates/hns-browser-dnssec/src/lib.rs:777-831 | a zone that publishes the types of its owners has only such bitmaps validated |
| `DenialSoundness.PublishedZoneIsHonest` | crates/hns-browser-dnssec/src/lib.rs:1660-1680 | the same for NSEC3 records and hash rings |
| `DenialSoundness.Nsec3DenialSound` | crates/hns-browser-dnssec/src/lib.rs:897-944 | NSEC3 name errors from unforgeable signatures and published content alone |
| `Der.MinimalBytesOf` | crates/hns-browser-dane/src/lib.rs:1930-1945 | minimal big-endian bytes have no leading zero and read back as the number |
| `Der.BigEndianOf` | crates/hns-browser-dane/src/lib.rs:988-1024 | bytes without leading zero are the minimal bytes of their number |
| `Der.LengthReadsBack` | crates/hns-browser-dane/src/lib.rs:988-1024 | reading a printed length returns it and stops right behind it |
| `Der.LengthPrintsBack` | crates/hns-browser-dane/src/lib.rs:988-1024 | an accepted length prints to the very bytes it was read from |
| `Der.ReadDerLength` | crates/hns-browser-dane/src/lib.rs:988-1024 | the accumulating loop reads the big-endian length and rejects all non-minimal forms |
| `Der.ReadDerElement` | crates/hns-browser-dane/src/lib.rs:958-986 | the element and cursor of the reader, errors included |
| `Der.ReadInvertsPrint` | crates/hns-browser-dane/src/lib.rs:958-986 | reading a printed element returns its tag and value, at any length and position |
| `Der.PrintInvertsRead` | crates/hns-browser-dane/src/lib.rs:958-1024 | whatever the reader accepts is what the printer writes |
| `Der.SkipDerElements` | crates/hns-browser-dane/src/lib.rs:1026-1028 | skips that many elements or fails |
| `Der.ReadKeyInfo` | crates/hns-browser-dane/src/lib.rs:537-556 | the key info behind an optional version and five fields |
| `Der.ExtractSpkiDer` | crates/hns-browser-dane/src/lib.rs:524-556 | the certificate walk, every error case included |
| `Der.ExtractsFromCertificate` | crates/hns-browser-dane/src/lib.rs:524-556 | from every certificate of such fields, with or without version, exactly the key info comes back |
| `Der.ExtractedFromCertificate` | crates/hns-browser-dane/src/lib.rs:524-556 | everything it extracts from is such a certificate, and the result is its key info |
| `DerErrors.MissingKeyIff` | crates/hns-browser-dane/src/lib.rs:524-556 | the key info is reported missing if and only if the fields before it are there and nothing, or no sequence, follows; every other failure is a malformed certificate |
| `TlsaPolicy.ParseUsableIff` | crates/hns-browser-dane/src/lib.rs:191-227 | parsing accepts exactly the record data of usable records and gives the record back |
| `TlsaVerdicts.ParsedFields` | crates/hns-browser-dane/src/lib.rs:191-227 | which code points and lengths make a record usable, and which usage, selector and matching each code stands for |
| `TlsaVerdicts.MatchesIff` | crates/hns-browser-dane/src/lib.rs:229-248 | an end-entity record matches if and only if its association is the certificate, its SHA-256 or its SHA-512, or the same of the key info extracted from the certificate: six cases |
| `TlsaPolicy.EvaluateTlsaForChain` | crates/hns-browser-dane/src/lib.rs:299-327 | the loop reports the first authorizing record or one of three refusals; `MatchesIff` and `CertificateVerdict` say which on the record fields |
| `TlsaPolicy.Deduplicate` | crates/hns-browser-dane/src/lib.rs:465-474 | the loop keeps each record where it first occurs and gives up exactly beyond 64 distinct records |
| `TlsaPolicy.EvaluatePolicyWithPathVerifier` | crates/hns-browser-dane/src/lib.rs:451-522 | the policy the theorems speak of |
| `TlsaPolicy.DistinctOf` | crates/hns-browser-dane/src/lib.rs:465-474 | deduplication keeps the set of records and has its size |
| `TlsaPolicy.PathPolicyDependsOnSet` | crates/hns-browser-dane/src/lib.rs:451-522 | within 256 records neither order nor repetition shows in the result, given set-based verifiers |
| `TlsaPolicy.CertificatePolicyDependsOnSet` | crates/hns-browser-dane/src/lib.rs:403-431 | order and repetition can change the reported usage of a match and nothing else |
| `TlsaPolicy.CertificateOrderFreeIff` | crates/hns-browser-dane/src/lib.rs:299-327 | the certificate-only result is the same for every list of the same records if and only if the input is not secure, the key info fails, or all authorizing records have one usage |
| `TlsaPolicy.OrderShows` | crates/hns-browser-dane/src/lib.rs:299-327 | two matching records of different usages, reported by whichever comes first |
| `TlsaPolicy.TooManyIff` | crates/hns-browser-dane/src/lib.rs:461-474 | the limit error comes exactly for secure inputs beyond 256 records or 64 distinct ones |
| `TlsaPolicy.CertificateAcceptsIff` | crates/hns-browser-dane/src/lib.rs:299-343 | acceptance by certificate means secure records and an authorizing end-entity record |
| `TlsaPolicy.PathAcceptsIff` | crates/hns-browser-dane/src/lib.rs:451-522 | acceptance with a verifier means an authorizing end-entity record or an accepted trust anchor |
| `TlsaPolicy.PathReports` | crates/hns-browser-dane/src/lib.rs:446-522 | which usage is reported: DANE-EE before PKIX-EE before the verified anchors; and when exactly WebPKI is to blame |
| `TlsaPolicy.PathAcceptsWhatCertificateDoes` | crates/hns-browser-dane/src/lib.rs:403-522 | what the certificate-only policy accepts is accepted with any verifier if and only if it is within the limits |
| `TlsaPolicy.RejectingVerifierAgrees` | crates/hns-browser-dane/src/lib.rs:403-522 | with a verifier that rejects everything both policies accept the same inputs |
| `TlsaVerdicts.NoRecordsVerdict` | crates/hns-browser-dane/src/lib.rs:345-357 | without records strict mode is an error, and otherwise the WebPKI status decides between fallback, failure and no answer, in both policies |
| `TlsaVerdicts.InsecureVerdict` | crates/hns-browser-dane/src/lib.rs:403-460 | insecure records are refused as such, by the certificate-only policy after it has read the key info |
| `TlsaVerdicts.CertificateVerdict` | crates/hns-browser-dane/src/lib.rs:299-327 | every answer of the certificate-only policy on the record fields: the usage of the first record that fits and that WebPKI does not veto, and otherwise which of the three refusals |
| `TlsaVerdicts.AnchorsAre` | crates/hns-browser-dane/src/lib.rs:465-514 | the verifier is asked about the records of one usage, each once, in the order of first occurrence |
| `TlsaVerdicts.PathVerdict` | crates/hns-browser-dane/src/lib.rs:451-522 | every answer of the policy with a verifier on the record fields, in its order of priority |
| `TlsaVerdicts.PathErrors` | crates/hns-browser-dane/src/lib.rs:461-483 | beyond 256 records or 64 different ones the limit error, then the error of the key info if it is needed |
| `TlsaVerdicts.SingleFullRecord` | crates/hns-browser-dane/src/lib.rs:229-248 | one DANE end-entity record on the certificate: matched in both policies if and only if it equals the certificate, its SHA-256 or its SHA-512 |
| `TlsaVerdicts.SingleKeyRecord` | crates/hns-browser-dane/src/lib.rs:229-248 | one DANE end-entity record on the key info: the same of the key info extracted from the certificate |
| `TlsaWalk.TlsaRecords` | crates/hns-browser-gateway/src/chromium.rs:1077-1143 | the bounded loop is the recursive walk |
| `TlsaWalk.AliasIffStep` | crates/hns-browser-gateway/src/chromium.rs:1090-1140 | the walk follows an owner exactly when it has one fully parsed IN CNAME and no TLSA record |
| `TlsaWalk.AnswerIffTerminal` | crates/hns-browser-gateway/src/chromium.rs:1090-1119 | the walk answers at an owner exactly when it has only IN TLSA records with a usable one and no CNAME |
| `TlsaWalk.TerminalPathsUnique` | crates/hns-browser-gateway/src/chromium.rs:1085-1141 | a path that ends in an answer is determined by its first owner |
| `TlsaWalk.RecordsIffPath` | crates/hns-browser-gateway/src/chromium.rs:1077-1143 | records come back if and only if a path of at most eight CNAME steps leads to them, and they are the usable ones there |
| `TlsaWalk.EmptyIffAbsent` | crates/hns-browser-gateway/src/chromium.rs:1120-1133 | the empty answer comes back if and only if the first owner has neither type, whatever the class |
| `TlsaWalk.LoopIsError` | crates/hns-browser-gateway/src/chromium.rs:1085-1088 | a CNAME loop is an error |
| `NameTree.AuthorityIsGreatest` | crates/hns-browser-observability/src/lib.rs:51-57 | the authority height is the greatest height at or below the argument that introduces a root, and less than one interval below it |
| `NameTree.AuthorityMonotone` | crates/hns-browser-observability/src/lib.rs:51-57 | authority heights are monotone and idempotent |
| `NameTree.EpochAuthority` | crates/hns-browser-observability/src/lib.rs:33-57 | all heights of one interval have its first as their authority, with intervals of 36, 36, 5 and 2 |
| `NameTree.ReadyIffReached` | crates/hns-browser-observability/src/lib.rs:81-104 | ready means the local chain holds the header that introduced the target's root, local height zero included |
| `NameTree.BlocksAreLeast` | crates/hns-browser-observability/src/lib.rs:81-112 | the reported number of blocks is the least number of further headers that makes the assessment ready |
| `NameTree.BlocksReportedIff` | crates/hns-browser-observability/src/lib.rs:98-112 | a number is reported exactly when both heights are known and the target is past genesis |
| `NameTree.AuthoritiesReported` | crates/hns-browser-observability/src/lib.rs:81-97 | each reported authority is that of its own height, and none is reported at genesis |

## Left out

- Header hash, signature and digest algorithms, NSEC3 hash, SHA-256 and SHA-512: parameters of the model; what is assumed
  of them (unforgeability, absence of collisions) is stated in the lemmas that use it.
- SQLite itself, attached databases, write-ahead logging and timeouts: tables are maps and a transaction is one step. All
  storage failures of publication are one error value, and malformed column bytes are not modelled.
- The batch `put_headers` of the SQLite store is transactional where the in-memory default is a loop. The undivided
  insertions model the loop, and `AcceptedAreJoinable` shows that it never stops half-way on accepted headers; the
  divided ones model the transaction.
- The reads with which an insertion accepts its headers are one step of the protocol. Stored rows never change, so reads
  spread over time can only find more known headers.
- A connection that stops between storing and promoting: its rows wait forever, which the protocol allows, but recovery
  from it is not modelled.
- The unconditional publisher is not a step of the protocol, because it may install a shorter chain by design; it is the
  reference for the delta path.
- The checkpoint table is a parameter, and the proof-of-work byte comparison is on big-endian integers.
- Wire-name parsing and SVCB canonicalisation are parameters; record types are their numeric codes.
- NSEC no-data, and the NSEC3 validators for no-data, DS, wildcards and unsigned referrals: same finders, easier claims.
- Which algorithm errors a malformed key or signature raises: one parameter decides it before verification.
- The library sort in the signed data is modelled by insertion sort; sorted output of distinct items is unique.
- The stateless DANE evidence, certificate extensions and OID text, and the rest of the gateway.
- Status cross-field checks, runtime features, allowlists, the C header and the release tooling.
- KeyTagFits: speaks of record data up to 65535 bytes, the most a record can carry.
- PathPolicyDependsOnSet: assumes that a verifier looks only at the set of trust-anchor records it is given.
- PrintInvertsRead: speaks of inputs whose length fits the 64-bit machine word; lengths of more than eight bytes are
  refused by the reader, and narrower machine words are not modelled.
- Nsec3DenialSound: assumes that no other existing name shares the hash of the closest encloser under the parameters of
  the proofs given for it.
- RangeSecureIff: speaks of record lists whose NSEC records all parse, because the validator stops at one that does not;
  NameErrorSecureIff has no such restriction.
- ReadableVerdict: which of several errors an unreadable NSEC3 name error reports is not stated.
- MissingKeyIff: speaks of inputs whose length fits the 64-bit machine word, like PrintInvertsRead.
- TagIs: speaks of record data up to 65535 bytes, like KeyTagFits.
- SecureTargetIsPublished: assumes that DS sets which honest zones publish vouch only for genuine keys at every honest
  zone; SecureWhenPlaced derives this from digests, for chains whose DS sets stand at their children.
- NameErrorWithinZone: assumes that nothing exists below a cut, as a signer leaves such names out of the ring.
