# Proofs about the object reading library

This project models four parts of the library in Dafny and proves what they promise.
`dafny verify dfyconfig.toml` checks all of it.

- **Substring search** (`src/str-two-way.h`, `src/strcasestr.c`, `src/strcasecmp.c`). `Words`
  proves the critical factorization theorem; `MaximalSuffix` and `TwoWayShort` prove the two
  passes, the factorization and the short-needle search; `LongSearch`, `TwoWayLong` and
  `Strcasestr` prove the search with the shift table and `strcasestr`. The reference is the
  first index at which the needle stands in the string, up to the case of ASCII letters
  (`CaseFold`, `Charmap`).
- **OMF data records** (`src/omf/omfmunge.c`, `src/omf/omfload.c`; TIS Relocatable Object Module
  Format Specification v1.1). `OmfBlocks` gives the meaning of LIDATA block trees, `OmfClones`
  that of the fixups in them, `OmfLidata` proves sizing and expansion, `OmfQueue` the list of
  clones. `OmfWork` is the pending-work machine as a function on states, `OmfOverlay`,
  `OmfContents` and `OmfHistory` prove what whole runs leave in the segments, `OmfMunge` refines the machine by
  methods on the file handle. `OmfAccept` says which records are accepted, `OmfRelocs` which
  relocations whole runs leave. `OmfFixupp`, `OmfThreads` and `OmfLoad` treat FIXUPP records and their threads,
  `OmfTables` the growing tables and the section list.
- **COFF import objects** (`src/coff/coffimpl.c`, `src/coff/coffload.c`, `src/coff/cofflwlv.c`;
  Microsoft PE Format specification, sections "Import Library Format", "COFF Symbol Table" and
  "COFF String Table"). `CoffFormat`, `CoffNames`, `CoffLib` and `CoffImage` describe records,
  names, building and layout; `CoffLoad` and `CoffReader` the loader; `CoffRoundTrip`,
  `CoffImport`, `CoffSynthesis` and `CoffCreate` prove that the loader recovers what the
  synthesis wrote, `CoffThunks` reads the import tables from the recovered file.
- **Hash multimap** (`src/orlhash.c`). `HashTable` says what it means, `HashChains` is the
  linked structure.

## Conventions

- Words of the C code are integers; SIZE_MAX in its role of "before the first index" is -1.
  32-bit cuts are written out where a value is used for room, pointers, sizes or sums.
- C strings are byte sequences that end with their only NUL. The case fold is ASCII, which is
  what the table in `src/strcasecmp.c` and `tolower` in the C locale compute.
- Where a step of the source reads or writes outside the objects it owns, the model says
  `Undefined` (or `Overflow`, `None` or `false`) instead of giving it a meaning.
- The bounds on the search count the comparisons of the two comparison loops, and separately
  the bytes that AVAILABLE looks at and the steps of the preparation; `Strcasestr.StrCaseStr`
  adds them all up.
- A method of the source that is long is proved in pieces; a piece carries the name of what it
  does, and the method that calls the pieces carries the source's name.

## Where the code and its intent differ

- Long-needle search (`src/str-two-way.h:330-342`): `memory` is cleared only inside the inner
  `if`. `ResetRule` keeps both readings. As written the search can report a position where
  the needle does not occur (`Strcasestr.AlternatingNeedleFails`); it is right on all
  haystacks exactly when `LongSearch.MemoryCanGoStale` does not hold of the needle. With the
  reset on every shift it is right for every needle.
- Cloned fixups (`src/omf/omfmunge.c:546`) keep the `next` pointer of their source. The list
  of clones ends properly exactly under the condition of `OmfQueue.CloneQueueEndsIff`; otherwise
  the step is `Undefined` (`OmfQueue.ExpandUndefinedIff`, and for example
  `OmfQueue.ReversedFixupsFail`). Fixups in ascending order meet the condition.
- LIDATA staging (`src/omf/omfmunge.c:958`): the raw record is copied to where its expansion
  goes. The meaning of a record therefore is the raw image followed by the expansion; the raw
  bytes are invisible exactly when the record is not longer than its expansion.
- An expansion that is abandoned because a fixup points at a header is reported, except when
  backpatches are queued: then their result is returned instead, and the contents can be wrong
  (`OmfContents.HiddenRunIsWrong`). They are right whenever work is settled exactly in the runs
  that `OmfOverlay.NeverLeftWrong` describes (`OmfOverlay.SettledRightIff`): where such an
  expansion is hidden, the bytes it left are by accident those it stands for. What every run
  leaves in the end, and when that is right, is `OmfHistory.AnyRunContents` and
  `OmfHistory.ModuleContentsIff`.
- Table counts are 16 bits wide, so segments and names are found under their indices exactly
  while fewer than 2^16 exist.
- An empty symbol name is read from the size of the string table, and a short section name with
  a leading slash is taken for an offset; `CoffNames.EmptySymbolNameIff` and
  `CoffNames.SectionNameIff` say exactly when such names come back all the same. The synthesis
  passes only constant section names, without a slash; its exported name can be empty.

## Model

| member | source | states |
|---|---|---|
| `CaseFold.FoldsIdentifySamePairs` | src/strcasecmp.c:37-75 | both folds, to lower case for comparisons and to upper case for the hash, identify exactly the capital and the small form of each ASCII letter; one yields no capitals, the other no small letters |
| `Charmap.LowerIsCharmap` | src/strcasecmp.c:42-75 | the fold is the table, for all 256 entries |
| `CaseFold.FoldIsSameText` | src/strcasecmp.c:37-41 | folded strings are equal exactly if the strings are equal up to the case of ASCII letters, byte by byte |
| `CaseFold.Strcasecmp` | src/strcasecmp.c:77-86 | zero exactly for strings that are equal up to the case of ASCII letters, byte by byte; otherwise the difference of the folded characters at the first difference |
| `CaseFold.Strncasecmp` | src/strcasecmp.c:88-102 | zero exactly when the first n characters, up to the NUL, are equal up to the case of ASCII letters; otherwise the difference of the folded characters at the first difference; at most n comparisons |
| `Words.LocalPeriodsArePeriods` | src/str-two-way.h:67-89 | critical factorization theorem: where the later of the two greatest suffixes starts, every local repetition is a period of the whole word and longer than the left half |
| `Words.MaxSuffixUnique` | src/str-two-way.h:110-177 | a word has one greatest suffix for each order, so that the passes have one right answer |
| `Words.PeriodicNeedle` | src/str-two-way.h:213-217 | if the left half continues the period of the right half, that period is the least period of the needle |
| `Words.AperiodicNeedle` | src/str-two-way.h:248-252 | otherwise every period of the needle exceeds both halves, which justifies the maximal shift |
| `MaximalSuffix.Inside` | src/str-two-way.h:114-142 | invariant of a pass: a suffix that starts inside the part read is already below the leader, or only repeats it so far |
| `MaximalSuffix.EqualStep` | src/str-two-way.h:125-135 | invariant of a pass, equal bytes: the period goes on, and wraps after one period |
| `MaximalSuffix.SmallerStep` | src/str-two-way.h:118-124 | invariant of a pass, smaller byte: everything read since the leader becomes one block without a shorter period |
| `MaximalSuffix.LargerStep` | src/str-two-way.h:136-141 | invariant of a pass, larger byte: the suffix after j beats every earlier one |
| `MaximalSuffix.PassResult` | src/str-two-way.h:114-142 | when the needle is read, the leader starts its greatest suffix and p is the least period of that suffix |
| `MaximalSuffix.MaxSuffixPass` | src/str-two-way.h:110-177 | both passes: the start of the greatest suffix under the order or its reverse, its least period, in fewer than 2 N iterations |
| `TwoWayShort.FactorizationIsCritical` | src/str-two-way.h:179-184 | at the index chosen, local periods and global periods are the same and all exceed the left half |
| `TwoWayShort.FactorizationUnique` | src/str-two-way.h:179-184 | the two passes determine one index and one period |
| `TwoWayShort.CriticalFactorization` | src/str-two-way.h:90-185 | every local repetition at the returned index is a period of the needle and longer than the left half; *period is the least period of the right half; fewer than 4 N iterations |
| `TwoWayShort.Available` | src/strcasestr.c:84-86 | AVAILABLE: true exactly when the window lies inside the string; the known length only grows, stays a lower bound, no index passes the NUL, and each byte is looked at once |
| `TwoWayShort.LeftHalfContinues` | src/str-two-way.h:213 | the comparison that selects the periodic search succeeds exactly when the left half repeats the period |
| `TwoWayShort.ShiftsAreSafe` | src/str-two-way.h:213-275 | the period of a periodic needle, and MAX(suffix, needle_len - suffix) + 1 otherwise, never exceed a period of the needle |
| `Search.RightMismatch` | src/str-two-way.h:241-245 | after a mismatch at i in the right half no occurrence starts within i - suffix positions |
| `Search.LeftMismatch` | src/str-two-way.h:229-239 | after a mismatch in the left half no occurrence starts closer than the least period |
| `Search.FirstOccurrenceUnique` | src/str-two-way.h:187-189 | there is one right answer to a search: the first occurrence, or none |
| `Search.MemoryAfterPeriod` | src/str-two-way.h:236-239 | after a shift by the period all but the last period of the new window is known to match |
| `Search.CompareFindsOrShifts` | src/str-two-way.h:256-274 | one round: a full match is the first occurrence, and a shift passes none |
| `Search.CompareKeepsMemory` | src/str-two-way.h:218-246 | one round of the periodic search keeps the meaning of memory: that prefix of the window equals that prefix of the needle |
| `TwoWayShort.BudgetAfterRound` | src/str-two-way.h:193-196 | the comparisons of each loop are paid for by the positions the window has passed |
| `TwoWayShort.CompareWindow` | src/str-two-way.h:222-235 | the two comparison loops compute the outcome of a round and stay within its budget |
| `TwoWayShort.ShortPeriodic` | src/str-two-way.h:213-247 | periodic search: the first occurrence, in at most 2 H - N comparisons of the two loops |
| `TwoWayShort.ShortAperiodic` | src/str-two-way.h:248-276 | search for a needle with distinct halves: the first occurrence, in at most 2 H - N comparisons of the two loops |
| `TwoWayShort.TwoWayShortNeedle` | src/str-two-way.h:197-277 | exactly the smallest offset where the folded needle occurs, none exactly when there is none; at most 2 H - N comparisons of the two loops, and at most H + 1 minus the known length bytes looked at by AVAILABLE |
| `LongSearch.DistanceIsLast` | src/str-two-way.h:306-313 | the table entry of a byte measures from its last occurrence to the end of the needle |
| `LongSearch.TableMove` | src/str-two-way.h:327-341 | a move by the shift table passes no occurrence |
| `LongSearch.MemoryMove` | src/str-two-way.h:332-339 | with a live memory a last byte out of place lets the window pass all that is remembered: an occurrence in between would force that byte to match |
| `LongSearch.LongRunCorrect` | src/str-two-way.h:320-369 | the long-needle loop returns the first occurrence if memory is reset on every table shift, or cannot go stale |
| `LongSearch.AsWrittenCorrectIff` | src/str-two-way.h:330-342 | as written, with the reset only inside the inner if, the loop is right on every haystack exactly when the needle has no left half, no live memory, or contains every canonical byte |
| `LongSearch.StaleMatch` | src/str-two-way.h:330-342 | for every other needle the haystack on which the stale memory reports a position where the needle does not occur |
| `TwoWayLong.BuildShiftTable` | src/str-two-way.h:306-313 | the filled table holds, for all 256 bytes, the distance of the last occurrence to the end |
| `TwoWayLong.LongRound` | src/str-two-way.h:325-406 | one iteration of the loop, table move or comparison, is the step of the search function |
| `TwoWayLong.BudgetAfterStep` | src/str-two-way.h:285-290 | table moves and rounds keep the comparison budget, stale memory included |
| `TwoWayLong.LongLoop` | src/str-two-way.h:317-408 | both loops of the long search compute the search function, in at most 2 H - N comparisons, AVAILABLE looking at each byte once |
| `TwoWayLong.LongPlanIsSafe` | src/str-two-way.h:304-375 | what two_way_long_needle settles on is a safe plan for the needle |
| `TwoWayLong.TwoWayLongNeedle` | src/str-two-way.h:291-409 | the first occurrence under the intended reset; as written, for the needles whose memory cannot go stale; the same bounds, and fewer than 6 N + 256 steps of preparation |
| `Strcasestr.FirstOccurrenceMeans` | src/strcasestr.c:92-94 | the first occurrence in the folded strings is the first offset where the needle stands in the string itself, up to the case of ASCII letters |
| `Strcasestr.StrCaseStr` | src/strcasestr.c:93-149 | strcasestr: the first offset where find stands in s up to the case of ASCII letters, the start for an empty needle, none exactly if there is none; indices never pass the NUL of the string; all loops together take linear time |
| `Strcasestr.StrcasestrAsWrittenIff` | src/strcasestr.c:93-149 | for long needles strcasestr as written is right on every string exactly when the memory cannot go stale |
| `Strcasestr.AlternatingNeedleFails` | src/str-two-way.h:330-342 | a concrete failure: sixteen times "ab" is reported in a string where it does not occur |
| `OmfBlocks.PositiveMeansBytes` | src/omf/omfmunge.c:769-785 | a record whose counts and lengths are all positive stands for at least one byte |
| `OmfBlocks.SizingIsExact` | src/omf/omfmunge.c:742-790 | below 2^32 the sizing function is the length of the denotation, and 0 exactly when some part is empty |
| `OmfBlocks.SizingAllIsExact` | src/omf/omfmunge.c:769-776 | the same for the blocks of a node |
| `OmfLidata.CalcLIDataLength` | src/omf/omfmunge.c:742-790 | consumes exactly the block it sizes; 0 for a block that is cut short or has an empty part |
| `OmfLidata.CalcBlocks` | src/omf/omfmunge.c:769-776 | the loop over the blocks of a node, which gives up at the first of size 0 |
| `OmfWork.SizedRecord` | src/omf/omfmunge.c:925-938 | a record that the sizing loop accepts parses completely, has positive counts and lengths, and below 2^32 its size is the length of its expansion |
| `OmfClones.ExpansionReadsRecord` | src/omf/omfmunge.c:526-537 | every byte of the expansion is the record byte at its traced offset |
| `OmfClones.ClonesFollowTrace` | src/omf/omfmunge.c:541-566 | for every emitted byte the clones that point at it are exactly the fixups that point at the byte it was copied from, in order |
| `OmfClones.NoHitEmitsMeaning` | src/omf/omfmunge.c:466-575 | if no fixup points at a header, what is written is the denotation and its clones |
| `OmfClones.EmitsNoMore` | src/omf/omfmunge.c:466-575 | hit or not, no more is written than the block stands for |
| `OmfLidata.FindMatchingFixup` | src/omf/omfmunge.c:450-463 | the first fixup of the list that points into the range |
| `OmfLidata.CloneFixups` | src/omf/omfmunge.c:541-563 | the clones of one copy of a leaf, appended in list order at their places in the expansion |
| `OmfLidata.WriteLeaf` | src/omf/omfmunge.c:527-571 | the repeat loop of a leaf |
| `OmfLidata.WriteAndFixupLIData` | src/omf/omfmunge.c:466-575 | fails if the record ends before the counts, and otherwise exactly when a fixup points at a header it visits; if not, writes the meaning of the block, queues its clones and consumes exactly its bytes |
| `OmfLidata.WriteNode` | src/omf/omfmunge.c:514-525 | the repeat loop of a node, which goes on after a failing repetition and reports the last result |
| `OmfLidata.WriteKids` | src/omf/omfmunge.c:519-524 | the loop over the blocks of one repetition, which stops at the first failure |
| `OmfLidata.WriteRecord` | src/omf/omfmunge.c:614-619 | the loop over a record terminates, and leaves the section with the expansion laid over it from its write offset |
| `OmfQueue.CloneQueueEndsIff` | src/omf/omfmunge.c:541-566 | the clone list is well formed exactly when the last leaf with fixups has the last queued fixup, because a clone keeps the next pointer of its source |
| `OmfQueue.ExpandUndefinedIff` | src/omf/omfmunge.c:541-651 | an expansion that fits, hits no header and resolves all clones follows a stale pointer exactly when the last leaf with fixups does not have the last queued fixup |
| `OmfQueue.ReversedFixupsFail` | src/omf/omfmunge.c:546-562 | a concrete failure: two leaves of one byte whose fixups come in the wrong order |
| `OmfQueue.AscendingQueueEnds` | src/omf/omfmunge.c:541-566 | so it is for fixups given in ascending order inside the record |
| `OmfWork.FinishSettles` | src/omf/omfmunge.c:718-739 | after finishPrevWork no record is pending, ADD_BAKPAT is clear and bakpat is null |
| `OmfWork.StepKeepsInv` | src/omf/omfmunge.c:897-1151 | every step keeps the invariant: ADD_BAKPAT exactly while there is a bakpat queue, a pending record fits the allocation and was accepted by sizing |
| `OmfOverlay.ImageReflects` | src/omf/omfmunge.c:997-998 | storing bytes adds one image to the overlay |
| `OmfOverlay.PatchedAdds` | src/omf/omfmunge.c:685-697 | what is done to a word of 8, 16 or 32 bits is the addition of the displacement to the number its bytes stand for |
| `OmfOverlay.AddedValue` | src/omf/omfmunge.c:685-697 | that addition is modulo 2^8, 2^16 or 2^32 |
| `OmfOverlay.PatchReflects` | src/omf/omfmunge.c:685-697 | a backpatch adds its displacement to the word and changes no other byte: contents that were right stay right, and contents that were wrong stay wrong |
| `OmfOverlay.QueueReflects` | src/omf/omfmunge.c:671-707 | each queued backpatch is applied exactly once, in order: right before if and only if right after |
| `OmfOverlay.AfterWritingReflects` | src/omf/omfmunge.c:604-620 | an expansion, abandoned or not, leaves the right bytes exactly if those it wrote, with those that lay behind them, are those it stands for |
| `OmfOverlay.FinishReflects` | src/omf/omfmunge.c:718-739 | when finishPrevWork succeeds the contents are right exactly unless backpatches hid an abandoned expansion that left wrong bytes |
| `OmfOverlay.StepReflects` | src/omf/omfmunge.c:897-1151 | each record adds its meaning to the writes done and the writes still owed |
| `OmfOverlay.RunReflects` | src/omf/omfmunge.c:897-1151 | the same over every run in which no hidden abandoned expansion leaves a wrong byte |
| `OmfOverlay.SettledRightIff` | src/omf/omfmunge.c:718-739 | over every successful run: the contents are right whenever pending work is settled if and only if no hidden abandoned expansion leaves a wrong byte |
| `OmfOverlay.ModuleContents` | src/omf/omfmunge.c:1637-1645 | after any successful run that ends with MODEND, nothing is pending, and every byte is that of the last writer among record images and backpatches, on zeros; in all runs that meet the exact condition of SettledRightIff |
| `OmfHistory.FinishWrites` | src/omf/omfmunge.c:718-739 | finishing the pending work adds what the expansion writes, abandoned or not, and the backpatches |
| `OmfHistory.AnyRunContents` | src/omf/omfmunge.c:897-1151 | after every successful run that ends with MODEND, without exception, nothing is pending and every byte is that of the last writer, an abandoned expansion writing only what comes before the header that a fixup points at |
| `OmfHistory.ModuleContentsIff` | src/omf/omfmunge.c:718-739 | the contents of a module are what its records mean if and only if the effects and the meaning of the records leave the same bytes |
| `OmfHistory.EffectsAreMeant` | src/omf/omfmunge.c:512-513 | effects and meaning are the same when no fixup points at a header of its LIDATA record |
| `OmfOverlay.StagingInvisibleIff` | src/omf/omfmunge.c:957-958 | the raw record staged in the section never shows, whatever was there before, exactly when it is no longer than its expansion |
| `OmfContents.CleanContents` | src/omf/omfmunge.c:897-1002 | if every LIDATA record is no longer than its expansion, the segments of a module hold data, expansions and backpatches in order, last writer winning, on zeros: no staged byte remains |
| `OmfOverlay.AbandonedExpansion` | src/omf/omfmunge.c:718-739 | an expansion abandoned at a header makes the next step fail, unless backpatches are queued and succeed: their result replaces it |
| `OmfOverlay.AbandonedLeavesRaw` | src/omf/omfmunge.c:512-513 | an expansion abandoned at its first header leaves the raw record in the section |
| `OmfContents.HiddenRunIsWrong` | src/omf/omfmunge.c:724-738 | a concrete run that succeeds although its expansion was abandoned: a backpatch elsewhere hides the error, and the segment holds a raw byte where the records mean another |
| `OmfMunge.OmfFile.WritePending` | src/omf/omfmunge.c:578-620 | bytes and clones of the pending record are written as the machine says; an expansion that is not abandoned restores the write offset |
| `OmfMunge.OmfFile.ExpandPrevLIData` | src/omf/omfmunge.c:578-651 | expandPrevLIData refines the machine, and restores the write offset whenever it succeeds |
| `OmfMunge.OmfFile.ApplyBakpats` | src/omf/omfmunge.c:654-715 | applyBakpats refines the machine; the queue is gone whatever happened |
| `OmfMunge.OmfFile.FinishPrevWork` | src/omf/omfmunge.c:718-739 | finishPrevWork refines the machine |
| `OmfMunge.OmfFile.StoreRecord` | src/omf/omfmunge.c:793-816 | room, bytes, write offset and current segment of a data record |
| `OmfMunge.OmfFile.AddLEData` | src/omf/omfmunge.c:967-1002 | OmfAddLEData refines the machine |
| `OmfMunge.OmfFile.AddLIData` | src/omf/omfmunge.c:897-964 | OmfAddLIData refines the machine |
| `OmfMunge.OmfFile.AddFixupp` | src/omf/omfmunge.c:1110-1285 | OmfAddFixupp refines the machine: queued while a record is pending, resolved otherwise |
| `OmfMunge.OmfFile.AddBakpat` | src/omf/omfmunge.c:1051-1107 | OmfAddBakpat refines the machine |
| `OmfMunge.OmfFile.ModEnd` | src/omf/omfmunge.c:1637-1645 | OmfModEnd refines the machine, and leaves nothing pending |
| `OmfAccept.RoomGranted` | src/omf/omfmunge.c:793-816 | room is granted exactly up to the declared size of the segment, in whole blocks of 4096 bytes |
| `OmfAccept.LedataAccepted` | src/omf/omfmunge.c:967-1002 | an LEDATA record is accepted exactly if it lies in its segment, and refused exactly otherwise |
| `OmfAccept.RecordIsSized` | src/omf/omfmunge.c:925-938 | a record that parses without an empty part is sized, below 2^32 as long as its expansion |
| `OmfAccept.LidataAccepted` | src/omf/omfmunge.c:897-964 | a LIDATA record is refused exactly if it does not parse, has an empty part, or its expansion does not lie in its segment |
| `OmfAccept.QueueAccepted` | src/omf/omfmunge.c:671-707 | a queue of backpatches is applied to its end exactly if every word lies in allocated bytes |
| `OmfAccept.BakpatAccepted` | src/omf/omfmunge.c:1051-1107 | location types 0, 1, 2 and 9 queue a backpatch of one, two and four bytes behind the others; all other types are refused |
| `OmfAccept.InsideIsNeverRefused` | src/omf/omfmunge.c:897-1002 | over every run: a module whose data records stay inside their segments has none of them refused |
| `OmfRelocs.ResolveIff` | src/omf/omfmunge.c:1158-1284 | a fixup becomes one relocation: of the kind for location and mode, at the record offset plus its own, with the symbols that target and frame methods and indices name; and no other |
| `OmfRelocs.ResolvesIff` | src/omf/omfmunge.c:1158-1284 | it resolves exactly if location and target method are known and the indices name something |
| `OmfRelocs.FixupAfterData` | src/omf/omfmunge.c:1110-1285 | a FIXUPP behind an LEDATA record appends exactly that relocation at the offset of the record, or is refused exactly if it does not resolve |
| `OmfRelocs.ExpandPlaced` | src/omf/omfmunge.c:622-651 | a settled LIDATA record appends the relocations of its clones, each at the offset of the record plus the place of the clone in the expansion |
| `OmfRelocs.RunPlaced` | src/omf/omfmunge.c:897-1285 | over every successful run: the relocations are exactly those of its fixups and clones, in order and at their places |
| `OmfRelocs.ModuleRelocs` | src/omf/omfmunge.c:897-1285 | the same from the start of a module |
| `OmfFixupp.ResolveCanon` | src/omf/omfmunge.c:1222-1281 | a fixup resolves like its canonical form, whichever way "frame as target" was settled |
| `OmfFixupp.ExplicitSaysTheSame` | src/omf/omfload.c:240-294 | a thread reference and its stored method and index make fixups that say the same, by both routes of FRAME_TARG |
| `OmfFixupp.ExplicitAllSaysTheSame` | src/omf/omfload.c:918-937 | the same for a whole record, with the threads it redefines |
| `OmfFixupp.IndexRoundTrip` | src/omf/omfload.c:184-209 | indices of one and two bytes are read back |
| `OmfFixupp.SWordRoundTrip` | src/omf/omfload.c:95-113 | signed displacements of 16 and 32 bits are read back |
| `OmfFixupp.FixRoundTrip` | src/omf/omfload.c:240-294 | a FIXUP subrecord, bit fields and optional parts included, is read back from its encoding |
| `OmfFixupp.ThreadRoundTrip` | src/omf/omfload.c:318-340 | so is a THREAD subrecord |
| `OmfFixupp.SubsRoundTrip` | src/omf/omfload.c:918-937 | decoding an encoded record gives its subrecords back |
| `OmfLoad.Samples` | src/omf/omfload.c:212-295 | two subrecords decoded byte by byte, in 16 and in 32 bits |
| `OmfFixupp.ParsedIsValid` | src/omf/omfload.c:212-342 | what a complete record decodes to can be encoded again |
| `OmfThreads.AllCanon` | src/omf/omfmunge.c:541-566 | cloning commutes with putting fixups in canonical form |
| `OmfThreads.ExpandCanon` | src/omf/omfmunge.c:578-651 | a deferred expansion does the same with canonical fixups |
| `OmfThreads.StepCanon` | src/omf/omfmunge.c:897-1285 | so does every step of the machine |
| `OmfThreads.ThreadsAreTransparent` | src/omf/omfload.c:212-342 | over whole modules, deferred LIDATA included: the module rewritten, byte for byte, without threads has the same outcome, section bytes and relocations |
| `OmfLoad.CompleteRecord` | src/omf/omfload.c:900-938 | a complete FIXUPP record has the effect of its fixups, in order, up to the first that fails |
| `OmfLoad.LoadIndex` | src/omf/omfload.c:184-209 | reads exactly the index that the reference decoder reads, one byte or two, and fails exactly when the record ends inside it |
| `OmfLoad.Reader.ProcessThreadFixup` | src/omf/omfload.c:298-342 | stores the method always and the index only if one is present, in the frame or the target register that is named; no other register changes |
| `OmfLoad.Reader.DecodeFixup` | src/omf/omfload.c:240-293 | method and index of frame and target come from the record or from a register, as the subrecord says; the fixup is the one the registers give it |
| `OmfLoad.Reader.ProcessExplicitFixup` | src/omf/omfload.c:212-295 | one fixup, decoded with the current registers, is handed to the machine; the registers stay |
| `OmfLoad.Reader.DoFIXUPP` | src/omf/omfload.c:900-938 | a record of any number of subrecords has the effect of executing them in order up to the first that fails, on file handle and registers |
| `OmfTables.FoundIff` | src/omf/omfmunge.c:194-202 | every entry is found under its index exactly while fewer than 2^16 were added, the counts having 16 bits |
| `OmfTables.CheckArraySize` | src/omf/omfmunge.c:94-119 | capacity for one more entry, always a multiple of 256, old entries preserved, new ones zero |
| `OmfTables.Table.Append` | src/omf/omfmunge.c:292-301 | growing, storing and counting keeps the table: its capacity and what it holds |
| `OmfTables.Table.Lookup` | src/omf/omfmunge.c:194-202 | findSegment, findGroup, findComDat and OmfGetLName return the entry added under the index |
| `OmfTables.Sections.NewSection` | src/omf/omfmunge.c:225-261 | the list keeps num_sections nodes ending at last_sec; indices stay pairwise distinct exactly if no section has the index asked for |
| `OmfTables.Sections.NewSegSection` | src/omf/omfmunge.c:286-305 | a new segment joins list and table and carries its number |
| `OmfTables.Sections.NewComDatSection` | src/omf/omfmunge.c:264-283 | the same for a COMDAT |
| `OmfTables.Sections.FindSegment` | src/omf/omfmunge.c:194-202 | returns the section that was added under the index since the count was last 0, and nothing for 0 or an index beyond the count |
| `OmfTables.Sections.SegmentsFoundIff` | src/omf/omfmunge.c:194-202 | findSegment(seg_id) is the segment itself, for all segments, exactly while fewer than 2^16 exist |
| `OmfTables.Sections.ReservedSection` | src/omf/omfmunge.c:1005-1020 | a section with a reserved index is created once |
| `CoffFormat.FileHeaderRoundTrip` | include/coff/coff.h:34-42 | a file header is read back from its bytes |
| `CoffFormat.SectionHeaderRoundTrip` | include/coff/coff.h:48-59 | a section header is read back from its bytes |
| `CoffFormat.SymbolRoundTrip` | include/coff/coff.h:75-88 | a symbol record is read back from its bytes |
| `CoffFormat.RelocRoundTrip` | include/coff/coff.h:63-67 | a relocation record is read back from its bytes |
| `Bytes.WordsAreLittleEndian` | include/coff/coff.h:34-88 | words are the numbers their bytes stand for, the least significant first |
| `CoffNames.SymbolNameRoundTrip` | src/coff/cofflwlv.c:77-91 | a symbol name, below, equal to or above 8 bytes, is read back; an empty one as the string at the start of the string table |
| `CoffNames.EmptySymbolNameIff` | src/coff/cofflwlv.c:77-79 | an empty symbol name comes back exactly when the low byte of the size of the string table is 0 |
| `CoffNames.SectionNameIff` | src/coff/coffload.c:517-524 | a section name is read back exactly unless it is short, starts with a slash, and is not itself what stands at the offset the rest of it denotes |
| `CoffNames.SlashNameIsLost` | src/coff/coffload.c:519-523 | a section called "/x" is always lost |
| `CoffNames.SlashNameSurvives` | src/coff/coffload.c:519-523 | a section called "/12" is read back if a stored name ends like it at that offset |
| `CoffNames.DecimalValue` | src/coff/coffimpl.c:157 | atoi undoes the %i of a long section name |
| `CoffLib.NamesRoundTrip` | src/coff/coffimpl.c:127-224 | after any sequence of AddCoffSection, AddCoffSymbol and AddCoffSymSec every name reads back as it was added, in order, with the exact exceptions |
| `CoffLib.HeldNamesRead` | src/coff/coffimpl.c:127-224 | the same for any library whose names are held |
| `CoffImage.BodiesStand` | src/coff/coffimpl.c:280-292 | every precomputed rawdata_ptr and reloc_ptr is the offset at which those bytes are appended later |
| `CoffImage.RelocsRead` | src/coff/coffimpl.c:304-310 | relocation records that stand one behind the other are read back |
| `CoffImage.ImageParts` | src/coff/coffimpl.c:280-317 | the headers, section data, symbols (at sym_table) and strings of an image stand where the header says |
| `CoffRoundTrip.ImageLoads` | src/coff/coffload.c:369-526 | the loader accepts every complete image for a known machine and recovers section names, sizes and contents |
| `CoffLoad.UninitialisedIff` | src/coff/coffload.c:165-183 | a section counts as uninitialised exactly if of the four content flags only that for uninitialised data is set |
| `CoffLoad.BytesInFile` | src/coff/coffload.c:459-465 | an uninitialised section needs no bytes in the file, every other section all of its bytes |
| `CoffLoad.FurthestSection` | src/coff/coffload.c:459-465 | the buffer ends exactly where the furthest section with bytes in the file does |
| `CoffRoundTrip.ImageSymbols` | src/coff/cofflwlv.c:54-206 | it recovers every symbol at its slot, with its name, the rest of its record and its auxiliary record |
| `CoffRoundTrip.SymbolsRead` | src/coff/cofflwlv.c:65-206 | the walk over the symbol table visits exactly the symbols that are not auxiliary |
| `CoffRoundTrip.ImageRelocs` | src/coff/coffimpl.c:280-310 | the relocations of every section are read back from the place that its header gives |
| `CoffImport.CoffLibFile.AddCoffString` | src/coff/coffimpl.c:127-143 | appends the name and its NUL after at most one doubling, or does not fit |
| `CoffImport.CoffLibFile.AddCoffSection` | src/coff/coffimpl.c:145-167 | adds a section, keeping all names readable |
| `CoffImport.CoffLibFile.AddCoffSymbol` | src/coff/coffimpl.c:169-196 | adds a symbol, keeping all names readable, and returns its slot |
| `CoffImport.CoffLibFile.AddCoffSymSec` | src/coff/coffimpl.c:198-224 | adds a section symbol with its auxiliary record |
| `CoffImport.DefinitionRead` | src/coff/coffimpl.c:210-221 | the auxiliary record of a section symbol is read back: length, number of relocations, associated section and selection |
| `CoffImport.CoffLibFile.PlaceSections` | src/coff/coffimpl.c:282-290 | the pointer loop computes the layout, in 32 bits |
| `CoffImport.CoffLibFile.CreateCoffFileHeader` | src/coff/coffimpl.c:280-292 | pointers first, then the header with the symbol table offset |
| `CoffImport.CoffLibFile.AddSectionBody` | src/coff/coffimpl.c:304-310 | section data followed by 10 bytes for each relocation |
| `CoffSynthesis.GetImportName` | src/coff/coffimpl.c:319-367 | the import name: without suffix for undecorated names, and without the prefix for those and for names without prefix; for all names and types |
| `CoffSynthesis.SuffixIsCut` | src/coff/coffimpl.c:345-357 | the suffix is the last "@" with the digits behind it, and is cut only if nothing else is behind it |
| `CoffSynthesis.ImportNameIs` | src/coff/coffimpl.c:339-366 | the import name is the part of the exported name between prefix and suffix, as the type says |
| `CoffSynthesis.AddTextOnly` | src/coff/coffimpl.c:405-409 | sections (name, size, relocations, flags) and symbols (slot, name, section, class) of an Alpha or x86 import, or failure exactly when a name does not fit |
| `CoffSynthesis.AddPowerPC` | src/coff/coffimpl.c:411-428 | the same for a PowerPC import |
| `CoffSynthesis.AddImportTables` | src/coff/coffimpl.c:440-468 | the same for the import tables, by ordinal and by name; the slots returned are those the relocations need |
| `CoffCreate.BodiesFit` | src/coff/coffimpl.c:480-551 | the bytes and relocations appended for each section are those its header declared |
| `CoffCreate.UsualNamesFit` | src/coff/coffimpl.c:127-143 | every name and library of at most 200 bytes fits |
| `CoffCreate.RelocsRefer` | src/coff/coffimpl.c:478-551 | every relocation of the object carries the slot of the symbol whose name it should refer to |
| `CoffCreate.ImportSymbolsRead` | src/coff/cofflwlv.c:65-206 | the symbols read from an import object are those meant exactly if the exported name is not empty or the low byte of the size of the string table is 0 |
| `CoffCreate.ImportRecovered` | src/coff/coffimpl.c:369-562 | the loader recovers from the object what the import stands for (sections with contents, flags and relocations, and symbols) exactly if the exported name is not empty or the low byte of the length of the library name plus 25 is 0 |
| `CoffCreate.WriteImage` | src/coff/coffimpl.c:472-560 | headers, data, symbols and strings are appended in an order and with sizes that make up the image |
| `CoffCreate.CoffCreateImport` | src/coff/coffimpl.c:369-562 | for every supported processor and import type an object is created exactly when its names fit; exactly if the exported name is not empty or happens to be read back, the loader recovers its sections with contents and flags, its symbols with slot, name, section, class and auxiliary record, and every relocation stands where the header says and refers to the symbol of the right name |
| `CoffThunks.ThunksRead` | src/coff/coffimpl.c:516-524 | in every recovered object the entries of .idata$5 and .idata$4 are the ordinal with the top bit set for an import by ordinal, and 0 otherwise |
| `CoffThunks.HintRead` | src/coff/coffimpl.c:545-550 | for an import by name .idata$6 holds the ordinal, the import name with its NUL, and no more than what makes its size even |
| `CoffReader.CoffFile.LoadSecHandles` | src/coff/coffload.c:248-367 | a handle for every section, for the relocations of each that has some, and for the two tables |
| `CoffReader.CoffFile.FillContents` | src/coff/coffload.c:502-508 | contents pointers of all sections but the last; handles are otherwise unchanged |
| `CoffReader.CoffFile.ResolveNames` | src/coff/coffload.c:516-524 | all names that point into the string table are replaced in place, or one of them leaves it |
| `CoffReader.CoffFile.LoadFileStructure` | src/coff/coffload.c:397-526 | the loops over handles compute the loaded file: header, handles with names and contents, string table; and fail exactly when the machine is unknown, the file ends too early or a pointer leaves it |
| `CoffReader.CreateSymbolHandles` | src/coff/cofflwlv.c:65-206 | the loop that skips auxiliary records makes the handles that the recursive reading of the table gives |
| `HashTable.HashStep` | src/orlhash.c:59-67 | a step of hash_encode stays below 2^28 |
| `HashTable.HashEncode` | src/orlhash.c:55-69 | hash_encode computes the hash of the, possibly folded, bytes, below the table size |
| `HashTable.KnownHash` | src/orlhash.c:55-69 | the hash of "syscall" before the remainder is taken |
| `HashTable.IgnoringCase` | src/orlhash.c:50-53 | keys are equal without regard to case exactly if their strings are equal up to the case of ASCII letters |
| `HashTable.SameKeysHashAlike` | src/orlhash.c:40-84 | keys that compare equal hash alike, although the case folds differ |
| `HashTable.QueryAfterInsert` | src/orlhash.c:97-113 | in a bucket an insertion adds to the answer for equal keys, behind what was there, and to no other |
| `HashTable.QueryIsMatching` | src/orlhash.c:86-126 | over every insert sequence a query yields exactly the data inserted under equal keys, in insertion order |
| `HashChains.HashEntry.Append` | src/orlhash.c:100-104 | the data entry is linked behind the last one |
| `HashChains.Table.Find` | src/orlhash.c:98-99 | the walk along a bucket finds the first entry with an equal key |
| `HashChains.Table.Query` | src/orlhash.c:116-126 | ORLHashTableQuery returns the list of the matching data |
| `HashChains.Table.Insert` | src/orlhash.c:86-114 | ORLHashTableInsert keeps the linked structure equal to what its insertions mean |
| `HashChains.Table.AppendTo` | src/orlhash.c:98-106 | insertion under a key that is there |
| `HashChains.Table.PushFront` | src/orlhash.c:108-113 | insertion under a new key |

## Left out

- The size-optimised quadratic version of `strcasestr` (`src/strcasestr.c:99-116`).
- Allocation failure, client callbacks and freeing of memory: allocation succeeds, a file is a
  byte sequence, and `ORLHashTableFree` has no counterpart. Every object has its own fields,
  whatever size was asked for it (`src/orlhash.c:110`).
- COMDAT records as targets of data, fixups and NBKPAT backpatches: only ordinary segments.
- Record framing, checksums and the other OMF record types; the segment table of `OmfFile` is
  given, since SEGDEF records come before data.
- Symbol and group objects: a relocation names its segment, group or external by index, and
  which externals have a symbol is a parameter (`Tables`).
- FIXUPP records that end inside a subrecord: the source reads on behind them.
- `calcLIDataLength` reads one byte behind a record that ends at its length byte; the model
  treats that record as refused, which is what the size test then does.
- Wrap-around of a segment's allocation in `checkSegmentLength`, and of the number of sections.
- The relocation handles of `CoffCreateRelocs` (the records themselves are read back), the symbol
  types and bindings derived from a symbol's record, the has_bf flag, auxiliary
  records other than those of section symbols, and the section kinds derived from flags, apart from the test for uninitialised data.
- PE images (the MZ header and the optional header's contents) and the decoding of the short
  import record; the strings, type, machine and time it holds are the input.
- The `.drectve` parsers, ELF, byte swapping, and the format dispatch.
- `strlen` on an eight-byte name field runs into the next field; the model stops at the field,
  as the result does.
- White space and signs in front of the number in a section name, which `atoi` would skip.
- OmfMunge.OmfFile.AddLEData: COMDAT data records are not modelled; COMDATs are looked up in a
  second table in the same way, and the rest of the code is the same.
- OmfMunge.OmfFile.AddLIData: the same.
- OmfMunge.OmfFile.AddBakpat: NBKPAT backpatches, which name a COMDAT by a symbol, are not modelled.
- OmfMunge.OmfFile.ApplyBakpats: the same.
- OmfLidata.WriteAndFixupLIData: beyond the size test it expects a block that sizing accepted;
  the source reads past the record if a leaf is cut short.
- CoffReader.CreateSymbolHandles: types, bindings and the has_bf flag are not modelled; they are
  table look-ups in a symbol's record, which the handle keeps.
- TwoWayLong.TwoWayLongNeedle: promises the first occurrence for the code as written only if the
  needle's memory cannot go stale, because otherwise it is false (`LongSearch.AsWrittenCorrectIff`).
