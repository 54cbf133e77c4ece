# Verification models for MPC Autofill's evidence and voting pipeline

These Dafny modules model the algorithms that decide what the MPC Autofill server and its federation
hash tool conclude from card images: which artist an OCR text names, which cards seed the art-box
exemplars, which printing a card deductively gets, whether one card's extracted evidence may be copied to
another, what the channel roster says about the code base, and which local file matches which exported
card. Each module takes the form of the code it models: loops and in-place updates are methods and classes
proved against specification functions, expressions are functions, and what the code promises is proved
about those functions for every input, every run and every interruption.

| module | models |
|---|---|
| `ArtistText`, `ArtistReading`, `NarrowingCounterexample` | recovering an artist from OCR text: normal forms, joint credits, word windows, lexicon buckets, scoring, card-name narrowing, ranking, the two-text merge |
| `ArtistCredits`, `ArtistTokens`, `ArtistBars` | the same told from outside: credits as names between spaces and ampersands, windows as stretches of a line, and when a window is believed to name whom |
| `PrintingArtists` | the bounded per-expansion artist cache |
| `ArtistBackfill`, `ArtistFills` | the chunk-flushed fill of blank artist names, and which row gets which name |
| `ArtboxCoverage` over `Bits` | the two-bit-flip neighbour test and the coverage counts |
| `ExemplarSeeding`, `ExemplarContents` | the two-pass, limited, chunked, resumable exemplar seeder and its dry run, and what each seed holds |
| `DeductiveBackfill`, `DeductiveSelection` | the two deductive selectors, the batched writer, interruptions, reruns, and which printing each vote is for |
| `PrintingConsensus`, `PrintingOutcome`, `DeductiveGate` | how a group's printing votes resolve, and what that means for the backfill's live gate |
| `EvidenceTransfer`, `EvidenceContents`, `EvidenceProvenance`, `EvidenceCollisions` | fetch, persist, transfer and refusal as a state machine; what each writes, and where each row's evidence comes from over whole runs |
| `CallReachability`, `FieldGroups`, `EnclosingFunctions`, `SourceIndexing` | the roster's worklist closure, field-write scan, enclosing-def walk, string-constant index |
| `FederationHash`, `HexText`, `CropGeometry` | the federation tool's distance, on numbers and on the texts they are written in, its match list and crop arithmetic |

`Wrappers`, `Sorting`, `ByCard`, `Chunks`, `Offers` and `Currency` hold what several of these share: options and
results, a stable sort, rows keyed by card, work in chunks, a pass that offers something for each fitting item in
order, and the rule by which a stored row is current.

## Where the code and its description disagree

The code is modelled. Each disagreement is a lemma with the inputs that show it; beside it stands the condition
under which the promise holds.

- The deductive backfill's gate is said to be always quiet, because a card it writes to has no vote and machine
  votes alone never resolve (`MPCAutofill/cardpicker/deductive_backfill.py:231-252`). But a card resolves with the
  votes of its whole identity group, and a byte-identical sibling may have a human vote. `SiblingVoteTripsGate` is
  such a run under the settings as shipped; `QuietIffNoHumanAround` shows that the gate is quiet under every
  resolution that asks for a human if and only if no written card had a human vote in its group before.
- Card-name narrowing is tested and described as never changing which read won
  (`MPCAutofill/cardpicker/collector_line_artist.py:543-599`). It can, because it runs before the cap on the
  band: `NarrowingCanChangeTheRead` does it to any similarity that finds seven names alike enough, and
  `SevenNamesChangeTheRead` names seven. `NarrowingKeepsWinnerIff` shows that a narrowed winner is the full
  lexicon's winner if and only if its own band is within the cap; `NarrowingKeepsReadBelowCap` is the check to
  make beforehand. `NarrowingNeverLoses` is the part of the promise that holds of every text.
- The two-flip neighbours of a hash are looked up among hashes held as signed 64-bit integers, and flipping
  the top bit leaves that range. `StoredMembership` and `StoredCoverageExact` say exactly which pairs are
  found; `TopBitNeighbourMissed` gives every hash a neighbour that is missed.
- The description of `_enclosing_functions` attributes a nested def to itself; the walk attributes it to
  the outermost def (`EnclosingIsOutermost`, `NestedDefGoesToOuter`).
- Every field of an evidence row should come from an extraction under the row's checksum. Re-extracting only
  some fields after the card's checksum has changed restamps the others (`PartialRestampLosesProvenance`), and a
  row from before checksums were stamped stays current, so its values are carried forward unread under the new
  stamp (`LegacyCarryLosesProvenance`). `NewChecksumExplainedIff` says exactly when one persist is harmless and
  `FieldProvenance` that a run made only of harmless ones is.
- The sha256 check refuses a transfer between two cards whose sha256 differ, but a third card without one lets the
  evidence pass (`MissingShaBridgesCollision`). `ShaKeptIff` shows that over all runs on a catalogue nothing of the
  kind happens if and only if no image has both a card without a sha256 and two cards whose sha256 disagree.

## Model

| member | source | states |
|---|---|---|
| ArtistCredits.JointOfMany | MPCAutofill/cardpicker/collector_line_artist.py:402-426 | names with any spaces around them, between ampersands, decompose into exactly those names, and into nothing when fewer than two of them are not empty |
| ArtistCredits.EveryTextIsACredit | MPCAutofill/cardpicker/collector_line_artist.py:402-426 | every text is a credit of that kind, so the decomposition is described for all inputs |
| ArtistCredits.StripOfPadded | MPCAutofill/cardpicker/collector_line_artist.py:402-426 | stripping a name between spaces gives the name |
| ArtistCredits.NormalizeJoin | MPCAutofill/cardpicker/collector_line_artist.py:395-399 | the normal form of a text is that of its parts in order |
| ArtistCredits.NormalizeLetter | MPCAutofill/cardpicker/collector_line_artist.py:395-399 | small letters and digits stay and a capital becomes the small letter at its place in the alphabet |
| ArtistCredits.NormalizeOther | MPCAutofill/cardpicker/collector_line_artist.py:395-399 | no other character leaves anything, but for the two whose lower case has a plain letter in it |
| ArtistText.ComponentsArePlain | MPCAutofill/cardpicker/collector_line_artist.py:402-426 | no component of a joint credit is itself a joint credit |
| ArtistText.PlainCreditComparedDirectly | MPCAutofill/cardpicker/collector_line_artist.py:492-516 | an artist without an ampersand is compatible iff its normal form is among the reading's |
| ArtistCredits.JointExplainedByComponent | MPCAutofill/cardpicker/collector_line_artist.py:492-516 | a credit is compatible iff it is empty, read as a whole, or joint with one of its own names read |
| ArtistText.CompatibilityIsOneWay | MPCAutofill/cardpicker/collector_line_artist.py:492-516 | reading the joint credit does not explain one of its artists alone, and reading one does not explain the other, unless normal forms coincide |
| ArtistText.MoreNamesContradictLess | MPCAutofill/cardpicker/collector_line_artist.py:492-516 | enlarging a reading's names never creates a contradiction |
| ArtistReading.RecoveredCompatibility | MPCAutofill/cardpicker/collector_line_artist.py:402-516 | for a reading recovered with a built lexicon, an artist is compatible iff its own normal form or that of one of its components is read and not empty |
| ArtistReading.CandidateWindows | MPCAutofill/cardpicker/collector_line_artist.py:519-540 | the nested loops build the specified window list, narrow windows first |
| ArtistReading.WindowOfLine | MPCAutofill/cardpicker/collector_line_artist.py:519-540 | every window is a stopword-free stretch of one to four words with the truncation flag of its position |
| ArtistReading.EveryStretchIsAWindow | MPCAutofill/cardpicker/collector_line_artist.py:519-540 | and every such stretch is a window |
| ArtistTokens.WindowExact | MPCAutofill/cardpicker/collector_line_artist.py:519-540 | a window is in the list iff it is one to four neighbouring words, none a stopword, joined by spaces, and is flagged iff it ends the line with nothing, a stopword or at most three characters before it |
| ArtistTokens.StopwordOfDotted | MPCAutofill/cardpicker/collector_line_artist.py:519-540 | a token is a stopword iff its lower case without the dots at its ends is in the list |
| ArtistTokens.JoinMore | MPCAutofill/cardpicker/collector_line_artist.py:519-540 | words are joined by one space |
| ArtistReading.BuildArtistLexicon | MPCAutofill/cardpicker/collector_line_artist.py:455-465 | buckets hold the names with that first normal character in their order, and names that normalize to nothing are nowhere |
| ArtistReading.PoolExact | MPCAutofill/cardpicker/collector_line_artist.py:449-452 | a candidate's pool is exactly the lexicon names sharing its first character |
| ArtistReading.ScorePool | MPCAutofill/cardpicker/collector_line_artist.py:564-584 | the scoring loop yields the specified hits and the first maximum with its floor |
| ArtistReading.TopIsFirstMaximum | MPCAutofill/cardpicker/collector_line_artist.py:564-584 | the top ratio is the greatest, and the floor that decides is that of the first entry reaching it |
| ArtistReading.BandExact | MPCAutofill/cardpicker/collector_line_artist.py:566-588 | a band holds exactly the comparable lexicon names within the band of the greatest ratio over all of them |
| ArtistBars.BandIff | MPCAutofill/cardpicker/collector_line_artist.py:543-588 | a window has a band iff its normal form has five characters and the first lexicon name to reach the greatest similarity meets its own bar: 0.92 for a longer name, 0.92 for one word, 0.85 for several |
| ArtistBars.BandContents | MPCAutofill/cardpicker/collector_line_artist.py:566-588 | the band is sorted and holds each compared name within 0.15 of that leader as often as the lexicon does |
| ArtistBars.NarrowContents | MPCAutofill/cardpicker/collector_line_artist.py:585-594 | if any name of the band is wanted exactly the wanted ones stay, else all do |
| ArtistBars.AllowedSetExact | MPCAutofill/cardpicker/collector_line_artist.py:602-613 | the names allowed are the non-empty normal forms of those given, and none of them means no narrowing |
| ArtistBars.ReadIff | MPCAutofill/cardpicker/collector_line_artist.py:543-599 | a window reads iff its leader meets its bar and at most six names are left, with the leader's similarity and the text's length |
| ArtistBars.TextReadsIff | MPCAutofill/cardpicker/collector_line_artist.py:616-655 | a text reads iff some window of it does |
| ArtistReading.ScoreCandidate | MPCAutofill/cardpicker/collector_line_artist.py:543-599 | one window's reading: bar, band, narrowing, cap, in that order |
| ArtistReading.BestReading | MPCAutofill/cardpicker/collector_line_artist.py:616-655 | the scan over lines and windows computes the best of the text's windows |
| ArtistReading.BestIsFirstMaximum | MPCAutofill/cardpicker/collector_line_artist.py:616-655 | the best reading is the lexicographic maximum of ratio and length, earliest on ties, and there is none exactly when no window reads |
| ArtistReading.OnlyOneWins | MPCAutofill/cardpicker/collector_line_artist.py:616-655 | that maximum is unique: whatever window satisfies it is the one chosen |
| ArtistReading.BestAppend | MPCAutofill/cardpicker/collector_line_artist.py:678-714 | reading two texts apart and merging equals scanning one after the other |
| ArtistReading.RecoverFromCardText | MPCAutofill/cardpicker/collector_line_artist.py:678-714 | the two-text recovery is the best over the legal line's untruncated windows, then the collector line's |
| ArtistTokens.LegalLineWinsTies | MPCAutofill/cardpicker/collector_line_artist.py:678-714 | the collector line's reading is taken only where its similarity, or at equal similarity its length, is strictly greater |
| ArtistReading.RecoveredNamesAreLexiconNames | MPCAutofill/cardpicker/collector_line_artist.py:468-490 | every recovered name, the canonical one included, is a lexicon name verbatim with a non-empty normal form |
| ArtistReading.NarrowingOneWindow | MPCAutofill/cardpicker/collector_line_artist.py:585-599 | narrowing keeps ratio and length, only takes names away, reads whenever the full lexicon does, and reads where that does not exactly when the band was over the cap |
| ArtistReading.NarrowingNeverLoses | MPCAutofill/cardpicker/collector_line_artist.py:543-655 | over a whole text the narrowed best key is never below the full lexicon's |
| ArtistReading.NarrowingKeepsWinnerIff | MPCAutofill/cardpicker/collector_line_artist.py:585-599 | the narrowed winner is the full lexicon's winner iff its own band is within the cap |
| ArtistReading.NarrowingKeepsReadBelowCap | MPCAutofill/cardpicker/collector_line_artist.py:585-655 | where no window's band is over the cap, narrowing leaves the winning window and its key alone |
| NarrowingCounterexample.NarrowingCanChangeTheRead | MPCAutofill/cardpicker/collector_line_artist.py:585-599 | under any similarity that finds more than six names alike enough there are texts on which narrowing reads a different artist |
| NarrowingCounterexample.SevenNamesChangeTheRead | MPCAutofill/cardpicker/collector_line_artist.py:585-599 | seven concrete names and two concrete words, with nothing asked of the similarity but their seven ratios |
| ArtistReading.TruncationGuard | MPCAutofill/cardpicker/collector_line_artist.py:519-599 | a reading that names someone longer than its text is the clipped tail of a collector line with a droppable left neighbour and at least seven letters |
| ArtistReading.LegalLineNeverTruncates | MPCAutofill/cardpicker/collector_line_artist.py:616-655 | a legal-line reading never names anyone longer than its text |
| PrintingArtists.PrintingArtistLookup.Call | MPCAutofill/cardpicker/collector_line_artist.py:813-822 | a lookup answers what asking the table directly would |
| PrintingArtists.PrintingArtistLookup.ArtistsForExpansion | MPCAutofill/cardpicker/collector_line_artist.py:824-841 | a hit leaves the cache alone, a miss loads the table's map and evicts the oldest of a full cache |
| PrintingArtists.LoadedAnswersDirectly | MPCAutofill/cardpicker/collector_line_artist.py:813-841 | the loaded map answers like the last matching row of the table |
| PrintingArtists.AnyLookupsKeepFaithful | MPCAutofill/cardpicker/collector_line_artist.py:788-841 | after any sequence of lookups at most 64 expansions are held, each with the table's own map |
| PrintingArtists.HoldsLatest | MPCAutofill/cardpicker/collector_line_artist.py:824-841 | the cache holds exactly the expansions queried for last, up to 64 |
| PrintingArtists.OneQueryPerExpansion | MPCAutofill/cardpicker/collector_line_artist.py:788-841 | lookups over at most 64 expansions cost exactly one query for each |
| ArtistBackfill.Judge | MPCAutofill/cardpicker/collector_line_artist.py:986-1011 | per row: no reading, ambiguous, or the one name to fill, as the recovery function says |
| ArtistBackfill.EvidenceTable.RunBackfill | MPCAutofill/cardpicker/collector_line_artist.py:926-1027 | for every chunk size and limit the final table is the row-wise map of the first one, counters included; there is one write per chunk of names to fill, and after the k-th `filled` is k chunks or everything and counts exactly the rows written |
| ArtistBackfill.EvidenceTable.Flush | MPCAutofill/cardpicker/collector_line_artist.py:972-984 | a flush writes exactly the pending rows and only then counts them |
| ArtistBackfill.StagedWritesTarget | MPCAutofill/cardpicker/collector_line_artist.py:972-1013 | bulk-updating the staged rows takes the table from one written prefix to the next |
| ArtistBackfill.CountsAddUp | MPCAutofill/cardpicker/collector_line_artist.py:986-1013 | considered = no reading + ambiguous + would fill, and is the number of eligible rows capped by the limit |
| ArtistBackfill.FinalTable | MPCAutofill/cardpicker/collector_line_artist.py:893-1027 | non-blank artists never change, no other column does, and a stored name is the single lexicon name its row reads as |
| ArtistFills.FinalRowExact | MPCAutofill/cardpicker/collector_line_artist.py:893-1027 | after a write run a row has the one name its best reading leaves iff it waited, came within the limit and its reading leaves one; all else is as before |
| ArtistFills.LongNameFromCollector | MPCAutofill/cardpicker/collector_line_artist.py:893-1011 | a stored name longer than the text it was read from was read on the clipped tail of the row's collector line |
| ArtistFills.CountersExact | MPCAutofill/cardpicker/collector_line_artist.py:986-1013 | each counter is the number of rows with that outcome |
| Bits.FlipArithmetic | MPCAutofill/cardpicker/artbox_exemplar_backfill.py:351-361 | an exclusive or with one bit adds or subtracts that power of two, for negative numbers too |
| ArtboxCoverage.RadiusTwoVariants | MPCAutofill/cardpicker/artbox_exemplar_backfill.py:351-361 | the generator yields the specified list |
| ArtboxCoverage.VariantsExact | MPCAutofill/cardpicker/artbox_exemplar_backfill.py:351-361 | it holds exactly the numbers differing in at most two of the low bits and nowhere else |
| ArtboxCoverage.VariantsCount | MPCAutofill/cardpicker/artbox_exemplar_backfill.py:351-361 | there are 1 + n + n(n-1)/2 of them, 2,081 at 64 bits |
| ArtboxCoverage.VariantsDistinct | MPCAutofill/cardpicker/artbox_exemplar_backfill.py:351-361 | none comes twice |
| ArtboxCoverage.StoredDistance | MPCAutofill/cardpicker/utils.py:57-68 | holding hashes as signed integers does not change how many bits differ |
| ArtboxCoverage.UnsignedMembership | MPCAutofill/cardpicker/artbox_exemplar_backfill.py:371-408 | among unsigned hashes the lookup finds exactly those at most two bits away |
| ArtboxCoverage.SignedMembership | MPCAutofill/cardpicker/artbox_exemplar_backfill.py:371-408 | among signed hashes it finds exactly those at most two bits away with the same sign |
| ArtboxCoverage.StoredMembership | MPCAutofill/cardpicker/artbox_exemplar_backfill.py:371-408 | so a stored pair is found iff it is at most two bits apart and agrees in the top bit |
| ArtboxCoverage.TopBitNeighbourMissed | MPCAutofill/cardpicker/artbox_exemplar_backfill.py:351-408 | every stored hash has a neighbour one bit away that the lookup misses |
| ArtboxCoverage.UnsignedCoverageExact | MPCAutofill/cardpicker/artbox_exemplar_backfill.py:371-408 | on unsigned hashes the fast count equals the brute-force count over all pairs, and d0 <= d2 <= considered |
| ArtboxCoverage.StoredCoverageExact | MPCAutofill/cardpicker/artbox_exemplar_backfill.py:371-408 | on signed hashes it is the same-sign count, never above the brute-force count and equal to it iff every near candidate has a near exemplar of its own sign |
| ArtboxCoverage.ExactMatchesCounted | MPCAutofill/cardpicker/artbox_exemplar_backfill.py:371-408 | the other count is that of the candidates which no bit tells from some exemplar |
| ExemplarSeeding.ExemplarTable.BulkCreate | MPCAutofill/cardpicker/artbox_exemplar_backfill.py:238-257 | all rows are inserted, or none when a card is taken or comes twice |
| ExemplarSeeding.JoinKeyBatches | MPCAutofill/cardpicker/artbox_exemplar_backfill.py:172-235 | for every batch size the batches together are the admissible votes of cards not seeded, in pk order, and the skips are counted |
| ExemplarSeeding.QueryThenFilter | MPCAutofill/cardpicker/artbox_exemplar_backfill.py:186-201 | excluding seeded cards in the query and freshly seeded ones in memory is excluding both at once |
| ExemplarSeeding.ExemplarTable.WriteBatches | MPCAutofill/cardpicker/artbox_exemplar_backfill.py:307-323 | cutting batch after batch to the remaining limit writes the whole offer cut to the limit |
| ExemplarSeeding.ExemplarTable.RunBackfill | MPCAutofill/cardpicker/artbox_exemplar_backfill.py:270-332 | for every batch size and limit the table gains exactly the plan under this run's identifier and the result counts it, a dry run changes nothing, and a card planned twice ends the run with an error and a prefix of the plan |
| ExemplarSeeding.HumanTakesPriority | MPCAutofill/cardpicker/artbox_exemplar_backfill.py:172-332 | a planned card was not seeded before, and a card with a human candidate is never machine-seeded |
| ExemplarSeeding.NoCardPlannedTwice | MPCAutofill/cardpicker/artbox_exemplar_backfill.py:128-235 | with one current row and one join-key vote per card no run plans a card twice |
| ExemplarSeeding.LimitedPlanIsPrefix | MPCAutofill/cardpicker/artbox_exemplar_backfill.py:270-332 | a limited run seeds the beginning of what an unlimited one would |
| ExemplarSeeding.PlanAfterPrefix | MPCAutofill/cardpicker/artbox_exemplar_backfill.py:128-332 | once a prefix is in the table, the plan is the rest of it |
| ExemplarSeeding.ResumedRunsReachFullTable | MPCAutofill/cardpicker/artbox_exemplar_backfill.py:270-332 | any sequence of limited runs, finished, gives the table of one unlimited run |
| ExemplarSeeding.FullTableIsFinal | MPCAutofill/cardpicker/artbox_exemplar_backfill.py:270-332 | after an unlimited run another run writes nothing |
| ExemplarSeeding.DryRunCandidateHashes | MPCAutofill/cardpicker/artbox_exemplar_backfill.py:335-348 | the dry run lists exactly the hashes an unlimited run stores, in its order |
| ExemplarContents.HumanInOrder | MPCAutofill/cardpicker/artbox_exemplar_backfill.py:86-169 | the human pass offers, in evidence order, one seed for each current evidence row of a resolved, illustrated card not seeded yet, with that row's two hashes, the card's printing, its illustration and its md5 or own group |
| ExemplarContents.MachineInOrder | MPCAutofill/cardpicker/artbox_exemplar_backfill.py:172-235 | the machine pass offers, in vote order, one seed for each confident join-key vote of a card with current evidence, with the vote's printing, illustration, pk, confidence and group and that evidence's two hashes |
| ExemplarContents.PlanSourced | MPCAutofill/cardpicker/artbox_exemplar_backfill.py:270-332 | every planned row is such a seed of some evidence row or some vote |
| ExemplarContents.StoredSeeds | MPCAutofill/cardpicker/artbox_exemplar_backfill.py:238-332 | and so is every row a run adds to the table, under its own card |
| ExemplarContents.LimitIsShared | MPCAutofill/cardpicker/artbox_exemplar_backfill.py:270-332 | a limit that is not negative seeds exactly the first so many rows of both passes together |
| ExemplarContents.DryRunHashes | MPCAutofill/cardpicker/artbox_exemplar_backfill.py:335-348 | the k-th hash of the dry run is the art-box hash of the current evidence of the k-th planned card |
| DeductiveBackfill.CandidatesExact | MPCAutofill/cardpicker/deductive_backfill.py:102-206 | a selector offers exactly the eligible cards for which its rule leaves one printing |
| DeductiveSelection.OfferExact | MPCAutofill/cardpicker/deductive_backfill.py:102-206 | a vote is offered iff an open card deduces its printing: its only match, or of several matches the only one of the hinted expansion |
| DeductiveSelection.OfferInOrder | MPCAutofill/cardpicker/deductive_backfill.py:147-206 | a selector offers one such vote per open card with a deduction, in card order |
| DeductiveSelection.ByExpansionExact | MPCAutofill/cardpicker/deductive_backfill.py:184-206 | the expansion filter leaves one printing iff exactly one is of the hinted expansion, and then that one |
| DeductiveBackfill.TiersDisjoint | MPCAutofill/cardpicker/deductive_backfill.py:147-206 | no card is offered by both selectors, even if they see different votes |
| DeductiveBackfill.SelectionIsFresh | MPCAutofill/cardpicker/deductive_backfill.py:102-216 | a limited selection never names a card twice nor one that has a vote |
| DeductiveBackfill.LazySecondSelector | MPCAutofill/cardpicker/deductive_backfill.py:209-216 | the second selector, run after some of the first one's votes are in, offers what it would have offered before |
| DeductiveBackfill.VoteTable.Flush | MPCAutofill/cardpicker/deductive_backfill.py:301-327 | a flush adds exactly its batch, purges nothing, and counts by tier |
| DeductiveBackfill.FlushKeepsVotes | MPCAutofill/cardpicker/vote_write.py:74-134 | the purge before the insert finds no vote to remove |
| DeductiveSelection.PurgeExact | MPCAutofill/cardpicker/models.py:1128-1167 | the purge removes this calculator's votes, of any version, on the given cards and no other |
| DeductiveBackfill.VoteTable.RunBackfill | MPCAutofill/cardpicker/deductive_backfill.py:264-349 | for every batch size the votes gain exactly the selection, the counters equal the votes by tier, the tables after each transaction are exactly those with the first batch, the first two and so on, and the gate names exactly the written cards whose group resolves |
| DeductiveSelection.AddedVotesExact | MPCAutofill/cardpicker/deductive_backfill.py:264-349 | an unlimited run adds one row for every open card and asked-for rule that deduces a printing, with that printing, the rule's confidence and this run's identifier, and no other |
| DeductiveSelection.TierCounts | MPCAutofill/cardpicker/deductive_backfill.py:316-327 | the tier counters count the votes of each tier |
| DeductiveBackfill.VerifyZeroResolutions | MPCAutofill/cardpicker/deductive_backfill.py:231-261 | the chunked gate reports exactly the written cards whose identity group resolves |
| PrintingConsensus.ResolutionNeedsHuman | MPCAutofill/cardpicker/vote_consensus.py:287-554 | with any settings, group and weights, pooled or not, nothing resolves unless a human voted somewhere in the group |
| PrintingOutcome.ResolvesIff | MPCAutofill/cardpicker/vote_consensus.py:493-554 | a tally resolves to an outcome iff that is the earliest side of greatest weight, has the quorum, the share and a human vote |
| PrintingOutcome.OnlyHumansIff | MPCAutofill/cardpicker/vote_consensus.py:493-540 | machines are left out iff humans contradict each other or one side has the quorum without them |
| PrintingOutcome.WeightsAdd | MPCAutofill/cardpicker/vote_consensus.py:493-540 | a side's human and machine weights are the sums over its votes |
| PrintingOutcome.PoolExact | MPCAutofill/cardpicker/vote_consensus.py:353-376 | after pooling an agent that argues for two outcomes is gone, every other one has one vote, its heaviest, and votes without an agent are untouched |
| PrintingOutcome.TuplesExact | MPCAutofill/cardpicker/printing_consensus.py:680-762 | each vote counts for its printing or for none, with its source's weight, zero for the frozen run, under its agent's name when pooled |
| PrintingOutcome.FamilyExact | MPCAutofill/cardpicker/models.py:1064-1073 | an identifier is a calculator's iff it is a family, -v and a number, and the family names the agent |
| DeductiveGate.QuietIffNoHumanAround | MPCAutofill/cardpicker/deductive_backfill.py:231-261 | the gate stays quiet under every resolution that needs a human iff before the run no written card had a human vote in its identity group |
| DeductiveGate.ResolutionStaysQuiet | MPCAutofill/cardpicker/printing_consensus.py:765-821 | in that case the actual resolution leaves every written card unresolved |
| DeductiveGate.SiblingVoteTripsGate | MPCAutofill/cardpicker/deductive_backfill.py:231-261 | a card without votes whose sibling has a human and a machine vote is selected, voted for, and then resolves |
| DeductiveBackfill.OneVoteEach | MPCAutofill/cardpicker/deductive_backfill.py:264-349 | a written card ends with exactly the run's one vote and no other card's votes change |
| DeductiveBackfill.RerunCompletes | MPCAutofill/cardpicker/deductive_backfill.py:264-349 | a rerun after an interruption at any point selects exactly what is missing and, but for the run identifiers, ends with one uninterrupted run's votes |
| DeductiveBackfill.AnyHistoryConverges | MPCAutofill/cardpicker/deductive_backfill.py:102-216 | after any mixture of tiers, limits and interruptions, finishing both tiers brings exactly the complete run's votes, one per card |
| EvidenceTransfer.NewestSiblingExact | MPCAutofill/cardpicker/evidence_transfer.py:138-168 | the sibling query returns the most recently saved eligible row, or none exactly when there is none |
| EvidenceTransfer.LookupExact | MPCAutofill/cardpicker/evidence_transfer.py:199-266 | each outcome of the source lookup, source, refusal with its reason, or nothing, occurs under the stated circumstances only |
| EvidenceTransfer.EvidenceStore.FindTransferSource | MPCAutofill/cardpicker/evidence_transfer.py:171-266 | the lookup returns the specified source and logs one anomaly on a refusal, nothing otherwise |
| EvidenceTransfer.EvidenceStore.TransferEvidence | MPCAutofill/cardpicker/evidence_transfer.py:269-309 | copying field by field saves the source's evidence under the target's own identity and checksums |
| EvidenceTransfer.EvidenceStore.PersistEvidence | MPCAutofill/cardpicker/image_evidence.py:1863-1914 | a result merges what it carried and found into the row of the hash and card it was fetched for, stamps the checksums read then, and logs its skips; without a hash nothing is written |
| EvidenceTransfer.AttemptTransfer | MPCAutofill/cardpicker/management/commands/run_image_evidence_cohort.py:597-608 | one attempt is one step of the state machine; a dry run reports a source and copies nothing |
| EvidenceContents.TransferCopies | MPCAutofill/cardpicker/evidence_transfer.py:269-309 | a transfer leaves the target one row with the source's fields and versions and its own identity and checksums; other rows stay, and any other attempt changes none |
| EvidenceContents.FetchCarries | MPCAutofill/cardpicker/image_evidence.py:1143-1168 | a fetch keeps the fields of the card's current row whose extractor has run at the present version, each with its stored value, and nothing without such a row |
| EvidenceContents.PersistMerges | MPCAutofill/cardpicker/image_evidence.py:1863-1914 | each field of the saved row has the value found, else the one carried, else the row's own unless it was to be carried; versions likewise |
| EvidenceProvenance.FieldProvenance | MPCAutofill/cardpicker/evidence_transfer.py:138-309 | over any run in which a changed stamp keeps no value that was not found anew, every stored or carried value, through any chain of transfers, was found in the row's pixels under the row's checksum |
| EvidenceProvenance.NewChecksumExplainedIff | MPCAutofill/cardpicker/image_evidence.py:1863-1914 | a persist under a new checksum keeps every field explained iff it keeps no value that was not found anew |
| EvidenceProvenance.PartialRestampLosesProvenance | MPCAutofill/cardpicker/image_evidence.py:1863-1914 | runs in which a partial re-extraction leaves a field under a checksum it was never extracted under |
| EvidenceProvenance.LegacyCarryLosesProvenance | MPCAutofill/cardpicker/image_evidence.py:1156-1168 | runs in which an unstamped row's values are carried forward unread and stamped with the card's checksum |
| EvidenceProvenance.RowProvenance | MPCAutofill/cardpicker/evidence_transfer.py:138-309 | when every pass finds anew what its row had, whatever fields that is, each row as a whole is one real extraction with its hash and checksum |
| EvidenceCollisions.ShaKeptIff | MPCAutofill/cardpicker/evidence_transfer.py:224-266 | on fixed metadata every run keeps evidence compatible with the sha256 of the card it is on iff no image has both a card without a sha256 and two cards whose sha256 disagree |
| EvidenceCollisions.MissingShaBridgesCollision | MPCAutofill/cardpicker/evidence_transfer.py:224-266 | a card without a sha256 carries evidence between any two cards of its image whose direct transfer is refused as a collision |
| EvidenceTransfer.RunsKeepStamps | MPCAutofill/cardpicker/evidence_transfer.py:138-309 | in every run there is one row per card and hash, transferred rows are stamped, complete and from another card, and the log only grows |
| CallReachability.EntrypointsByFunction | MPCAutofill/cardpicker/channel_roster.py:970-980 | the worklist ends on every finite graph and lists a module for a function iff one of its entry points reaches it by call edges |
| CallReachability.Mark | MPCAutofill/cardpicker/channel_roster.py:971-980 | one entry point's walk adds its module to exactly what it reaches |
| CallReachability.ClosedUnderCalls | MPCAutofill/cardpicker/channel_roster.py:974-980 | a set closed under calls holds everything a path from it ends at |
| FieldGroups.ExtractorFieldGroups | MPCAutofill/cardpicker/channel_roster.py:586-642 | the maps are exactly the positional attribution of the sorted stores: groups by "before, with no switch from version to field", members by run |
| FieldGroups.Scan | MPCAutofill/cardpicker/channel_roster.py:625-642 | the indexed scan with its resetting pending set computes that attribution |
| FieldGroups.RunSharesBlock | MPCAutofill/cardpicker/channel_roster.py:586-642 | the keys of one run share their fields |
| FieldGroups.NoFieldLost | MPCAutofill/cardpicker/channel_roster.py:586-642 | a field write is attributed iff some version store follows it |
| FieldGroups.GroupsByLine | MPCAutofill/cardpicker/channel_roster.py:586-642 | the attribution can be read off the line numbers of the unordered stores |
| EnclosingFunctions.EnclosingMap.constructor | MPCAutofill/cardpicker/channel_roster.py:307-327 | the recursive walk fills the map with each outermost def's claims |
| EnclosingFunctions.NestedDefsClaimNothing | MPCAutofill/cardpicker/channel_roster.py:315-323 | below a def the walk adds nothing |
| EnclosingFunctions.EnclosingIsOutermost | MPCAutofill/cardpicker/channel_roster.py:307-327 | for every tree, shared nodes included, the map covers exactly the nodes with some place inside a def and sends each to the outermost def of such a place under its dotted class path |
| EnclosingFunctions.EnclosingOfOnePlace | MPCAutofill/cardpicker/channel_roster.py:307-327 | a node with one place belongs to the outermost def around it, or to none |
| EnclosingFunctions.OwnerExact | MPCAutofill/cardpicker/channel_roster.py:307-327 | the owner of a place is the first def on the way down, named by the classes passed before it and its own name, joined by dots |
| EnclosingFunctions.LineExact | MPCAutofill/cardpicker/channel_roster.py:307-327 | that way is the nodes reached after one step, two steps and so on |
| EnclosingFunctions.FirstClaimWins | MPCAutofill/cardpicker/channel_roster.py:315-323 | of several outermost defs that hold a shared node, the first in document order has it |
| EnclosingFunctions.NestedDefGoesToOuter | MPCAutofill/cardpicker/channel_roster.py:309-323 | a def in a def belongs to the outer one, whatever the names |
| SourceIndexing.SourceIndex.constructor | MPCAutofill/cardpicker/channel_roster.py:236-254 | the index holds every string and site of each name and flags exactly the names whose declarations disagree |
| SourceIndexing.DisagreeStep | MPCAutofill/cardpicker/channel_roster.py:246-251 | comparing with the union of earlier declarations detects a disagreement exactly when there is one |
| SourceIndexing.AmbiguityIgnoresOrder | MPCAutofill/cardpicker/channel_roster.py:236-254 | which names are ambiguous does not depend on the scan order |
| FederationHash.HammingIsBitDistance | federation-hash-tool/hash_my_cards.py:131-136 | the distance of two hex texts is the number of bits their values differ in |
| FederationHash.HammingIsMetric | federation-hash-tool/hash_my_cards.py:131-136 | it is a metric: zero iff equal, symmetric, triangle inequality |
| HexText.ParsesIffHex | federation-hash-tool/hash_my_cards.py:131-136 | a text parses iff it is not empty and has a hexadecimal digit everywhere |
| HexText.ValueBits | federation-hash-tool/hash_my_cards.py:131-136 | bit 4k + j of the value is bit j of the k-th digit from the right |
| HexText.DistanceOfDigits | federation-hash-tool/hash_my_cards.py:131-136 | texts of one length are as far apart as their digits, place by place |
| HexText.ZeroIffEqual | federation-hash-tool/hash_my_cards.py:131-136 | texts of one length in small letters are at distance zero iff equal |
| FederationHash.FindMatches | federation-hash-tool/hash_my_cards.py:146-165 | every file gets its nearest list, and the call raises iff some distance does |
| FederationHash.NearestExact | federation-hash-tool/hash_my_cards.py:146-165 | a file's list holds exactly the hashed records within the threshold with their distances, ordered by distance, ties in export order, and fails iff a record cannot be compared |
| HexText.MatchesByDigits | federation-hash-tool/hash_my_cards.py:146-165 | a record whose hash is as long as the local one is listed, with that distance, iff their digits differ in at most the threshold's number of bits; the search raises iff a text to compare is not hexadecimal |
| FederationHash.WidenedThresholdKeepsMatch | federation-hash-tool/hash_my_cards.py:131-165 | a record within t of one hash is within t + k of any hash k away |
| CropGeometry.ClassesAreBands | federation-hash-tool/hash_my_cards.py:62-75 | the two classes are adjoining bands of the aspect ratio cut halfway, a tie going to trimmed |
| CropGeometry.RescaleKeepsPosition | federation-hash-tool/hash_my_cards.py:78-98 | a remapped edge is the same millimetre on the trimmed card, clamped to it, and edge order is kept |
| CropGeometry.NormalizedEdges | federation-hash-tool/hash_my_cards.py:78-98 | only a trimmed image has its box moved, left and right to the same millimetre of 63, top and bottom of 88; the other classes keep it |
| CropGeometry.ArtBoxFits | federation-hash-tool/hash_my_cards.py:101-112 | for every image size and class the pixel box is inside the image, within a pixel of the exact edges, and non-empty iff the image is at least two pixels each way |

## Left out

- The Django ORM, SQL, transactions and cursors: a table is a sequence or a map, a query a filter over it, a bulk insert one atomic step; deleted votes' archive table is not part of this model.
- `difflib.SequenceMatcher.ratio` is a parameter: a function of two texts into the reals, asked to lie in [0, 1] and to be 1 on equal texts only where a lemma says so.
- The tokeniser's pattern and `splitlines` (a text is its lines of tokens), `CandidateNameIndex`, printing resolution, `iexact` on set codes and `_normalize_collector_number` are parameters.
- Unicode case folding: `str.lower` is modelled as far as it can produce ASCII letters and digits, which is all `_normalize` keeps.
- Hex texts: plain digits only; the sign, prefix, underscore and surrounding-space forms that Python's `int` also reads are not modelled and count as malformed.
- Floating point: ratios, thresholds and crop fractions are exact reals.
- ArtistBackfill.EvidenceTable.RunBackfill: the loop takes the per-row judgement as the function that `Judge` is proved to compute, and does not call the method; a negative limit, which slicing the query refuses with an exception, is not modelled, nor is the audit sample. The loop's second look at the artist column never finds anything in rows the query let through, so it has no branch.
- ExemplarSeeding.ExemplarTable.RunBackfill: `machine_skipped` is stated for unlimited runs only, because under a limit the code stops between batches and the figure depends on the batch size.
- ExemplarSeeding.JoinKeyBatches: the generator runs to its end before the writes start; what it yields is a function of the snapshot it reads.
- ExemplarSeeding.NoCardPlannedTwice: asks for at most one current evidence row and one join-key vote per card, which the tables' own keys provide; without it `RunBackfill` still says what happens, a refused insert.
- DeductiveBackfill.VoteTable.RunBackfill: a limit is a natural number, a chunk of the gate has the default size, the generated run identifier is a parameter, and which cards the gate names is stated, not in what order.
- PrintingOutcome.FamilyExact: an identifier's version is in the digits 0 to 9 and the identifier on one line; Python's pattern also takes other Unicode digits and a final line break, which no identifier in use has.
- The identity group of a card (equal file checksum or equal current art-box hash) is a parameter of the catalogue; the tally of a group is modelled by functions, and the moderation co-sign that printings never ask for is not.
- EvidenceTransfer.AttemptTransfer: the lookup and the copy are one step, as if nothing happened to the tables between them; a fetch and its persist are two.
- EvidenceTransfer.EvidenceStore.FindTransferSource: rows saved at the very same `updated_at` are ordered by when they were saved, where the database may pick either.
- EvidenceProvenance.FieldProvenance: one direction over whole runs; the converse holds step by step where the checksum is new to the pixels (`NewChecksumExplainedIff`).
- The derivation of the call graph from imports and call expressions in `build_reachability`, and the other roster derivations (votes, abstentions, skip reasons): the closure takes the finished graph.
- `imagehash.phash`, Pillow, `ast.parse`, folder walking, the export download, command lines, printing and timing.
- The reports, statistics and external-link caches beside these files, which are counts and plumbing.
