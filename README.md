# crossword — a verified model of the grid, the lexicon and the search

The Go package `crossword` fills a crossword grid by treating it as a constraint problem. This project models its core in Dafny:

- **Grid and slots** (`crossword.go`).
  - `NewCrossword` parses the text of a structure file into a boolean occupancy matrix: `_` is open, anything else is blocked.
  - `ComputeVariables` scans the matrix into slots (`Variable`s). A slot is a maximal run of two or more open cells, across or down. It records its anchor, direction, length and cells, and starts with every word of its length as its domain.
  - `Overlaps`, `InitNeighbors`, `InitDomain`, `IndexOfCell`, `GetVariable`, `Equals` and `copy2DSlice` are the slot bookkeeping.
- **Lexicon** (`lexicon.go`).
  - `ReadAllWords` files each line's word (its text before the first `;`) under its length.
  - `NewLexicon` builds, for every word length L, L layers of 26 bitsets. Bit i of layer p for letter c is set iff word i has c at position p.
- **Search** (`generate.go`).
  - `EnforceArcConsistency` filters a domain against one crossing.
  - `AC3` is the worklist loop over a queue of slots.
  - `BacktrackAC3` is the recursive search with undo.
  - `SelectUnassignedVariable`, `AllAssignmentsComplete`, `Enqueue` and `Dequeue` are its helpers.

Files:
- `wrappers.dfy`: Option and Result.
- `text.dfy`: `strings.Split` with a one-character separator.
- `lexicon.dfy`
- `crossword.dfy`
- `crossword_facts.dfy`: what the slot scan and the neighbour maps guarantee.
- `generate.dfy`
- `fixtures.dfy`: the scenario of `crossword_test.go`.
- `shared_anchor.dfy`: the 2×2 open grid, where looking a neighbour up by its anchor alone finds the wrong slot.

The package's globals (`Structure`, `Variables`, `AllWords`, `Lexicon`) become:
- fields of the classes `Crossword.Crossword` and `Lexicon.Dictionary`;
- explicit parameters of the search.

Go maps that are updated in place become `map` fields. The grid is an `array2<bool>` that the scan clears in place. The assignment map of the search is the object `Generate.Assignment`.

Behaviour of the source that the model keeps:
- **AC3 never shortens its queue.** `Dequeue` leaves its argument as it is, and the queue `Enqueue` returns is dropped. So every pass of `AC3` filters a fresh copy of the same front slot. It answers `false` once that copy's domain is empty. Otherwise it repeats the same pass for ever.
  - The model bounds the number of passes with a `fuel` parameter and answers `OutOfFuel` when the passes run out.
  - `Generate.AC3` proves that the answer is `true` exactly for the empty queue. It is `false` exactly when the front slot has neighbours and no word of its domain survives all of them.
  - It works on copies only: no slot of the slot list changes.
- **BacktrackAC3 ignores the answer of AC3.** So the search never backs up because of a crossing. `Generate.SearchTakesFirstWords` proves that it completes the assignment with the first word of every slot's domain, and answers nil exactly when some open slot has an empty domain.
  - `Fixtures.SearchFixture` and `Fixtures.CrossingFixture` show this on the test grid. Slots 0 and 2 get "cat", and "cat" puts both 't' and 'c' into the cell (0, 3) they share.
- **Neighbour maps are keyed by anchor.** An across slot and a down slot can share an anchor. A slot only crosses slots of the other direction (`CrosswordFacts.ScanOverlapsSymmetric`), so the key names the crossing slot only together with that direction. `Overlaps` answers nil for two slots with the same anchor, even when they cross there.
  - `GetVariable` (crossword.go:207-214) looks the neighbour up by its anchor alone and returns the first slot with it, which is the across one. When the neighbour is a down slot sharing its anchor with an across slot, the crossing cell is not in the slot found, and the look-up at generate.go:36 is out of range (see Findings).
  - The model of AC3 looks a neighbour up by its anchor and the crossing direction (`Generate.Crossing`).

## Model

| member | source | states |
|---|---|---|
| Text.Split | lexicon.go:45 | `strings.Split` with a one-character separator: at least one piece, no piece contains the separator |
| Text.JoinSplit | lexicon.go:45 | joining the pieces of a split with the separator gives back the text |
| Text.SplitJoin | lexicon.go:45 | splitting the join of separator-free pieces gives back the pieces |
| Text.SplitNoSeparator | lexicon.go:47 | text without the separator splits into itself alone |
| Text.SplitAfterPiece | lexicon.go:45 | a piece followed by the separator splits off as the first piece |
| Text.FirstField | lexicon.go:47 | the text before the first `;` of a line contains no `;` |
| Text.FirstFieldIsPrefix | lexicon.go:47 | that text is a prefix of the line, and it is the whole line or is followed by the separator |
| Lexicon.LetterIndex | lexicon.go:63 | `letter - 'a'` lies in 0..25 exactly for lowercase letters, and the letter with that index is the character itself |
| Lexicon.LetterInjective | lexicon.go:63 | distinct alphabet indices are distinct letters |
| Lexicon.NewBitArray | lexicon.go:30 | a bitset of the requested capacity with no bit set |
| Lexicon.SetBit | lexicon.go:65 | fails with an out-of-range error iff the index is not below the capacity; otherwise the same capacity and exactly the old bits plus that one, so a bitset whose bits are below its capacity stays so |
| Lexicon.NewLayer | lexicon.go:27-34 | a layer of 26 empty bitsets, each with the requested capacity |
| Lexicon.AddLinesGroups | lexicon.go:45-50 | after the lines are filed, the class of each length is the old class followed by that length's words in line order; a class exists iff it existed or some line adds to it |
| Lexicon.LinesOfLengthHaveLength | lexicon.go:47-49 | the words filed under length L all have length L |
| Lexicon.AddLinesWellKeyed | lexicon.go:45-50 | filing lines keeps every word under its own length |
| Lexicon.Dictionary.ReadAllWords | lexicon.go:38-51 | the word classes become the old classes with the data's lines filed, and the lexicon is untouched |
| Lexicon.Dictionary.AppendLayers | lexicon.go:57-59 | `Lexicon[wlen]` gets `wlen` fresh empty layers of the class's size appended, and exists afterwards iff it existed or `wlen` > 0; other lengths are untouched |
| Lexicon.Dictionary.IndexWords | lexicon.go:61-69 | starting from fresh layers, no SetBit fails and afterwards bit i of layer p for letter c is set iff word i has that letter at p; for the empty-word class, which has no entry, nothing changes; the set of lengths and the other lengths are untouched |
| Lexicon.Dictionary.NewLexicon | lexicon.go:54-72 | the word classes are unchanged and lengths without words keep their layers; starting with no layers for the indexed lengths, it returns nil, the lexicon gains an entry for every word length except 0, and every class of non-empty words is indexed exactly |
| Lexicon.CandidatesEmptyIff | lexicon.go:61-69 | in a finished index, length L has L layers, and the bitset of a letter at a position is empty iff no word of length L has that letter there |
| Lexicon.FreshLayersIndexNothing | lexicon.go:29-32 | fresh layers are the index of no letters yet |
| Lexicon.RecordLetter | lexicon.go:63-65 | setting the bit of one letter extends a partial index by that letter |
| Lexicon.NextWord | lexicon.go:61-62 | a word whose letters are all recorded completes the index up to the next word |
| Lexicon.LexiconScenario | lexicon_test.go:14-33 | for the test's words, 's' at position 3 of length 4 selects word 1, and 'a' at position 0 selects words 0 and 1 of lengths 4 and 3 |
| Crossword.Crossword.NewCrossword | crossword.go:39-54 | one row per line and `len(lines[0])` columns; a cell is true iff its character is `_` |
| Crossword.Crossword.Copy2DSlice | crossword.go:227-236 | a fresh array of the same size holding the same cells |
| Crossword.Crossword.ComputeVariables | crossword.go:59-120 | appends exactly the scan's slots in scan order; in the caller's grid a cell stays open iff it was open and the cell above was not |
| Crossword.Crossword.ScanRow | crossword.go:64-117 | one row of the scan appends that row's slots; the copy changes only in that row |
| Crossword.Crossword.ScanAcross | crossword.go:65-89 | appends the across slot anchored at the cell, if there is one, and clears the rest of its run in the copy |
| Crossword.Crossword.ScanDown | crossword.go:91-116 | appends the down slot anchored at the cell, if there is one, and clears the rest of its run in the caller's grid |
| Crossword.RunAcrossExact | crossword.go:70-78 | the across run from a cell ends exactly at the first blocked cell |
| Crossword.RunDownExact | crossword.go:96-104 | the down run from a cell ends exactly at the first blocked cell |
| Crossword.GridAfterScan | crossword.go:93-100 | after the whole scan, a cell of the caller's grid is open iff it was open and the cell above was not |
| Crossword.FirstSharedSpec | crossword.go:127-133 | the nested search finds nothing iff no cell of v1 is in v2, else the earliest such cell of v1 |
| Crossword.Overlaps | crossword.go:125-136 | nil for equal anchors; otherwise nil iff no cell is shared, else a cell of v1 that is in v2 |
| Crossword.IndexIn | crossword.go:217-224 | -1 iff the point is absent, else the first index holding it |
| Crossword.IndexOfCell | crossword.go:217-224 | -1 iff the point is not a cell of the slot, else the first index holding it |
| Crossword.GetVariable | crossword.go:207-214 | the zero Variable if no slot has that anchor, else the first slot with it |
| Crossword.Equals | crossword.go:156-204 | true iff the two slots agree in every field, the neighbour maps included |
| Crossword.Crossword.InitNeighbors | crossword.go:139-146 | slot i's neighbours become the overlaps with every slot in list order, every other slot unchanged |
| Crossword.Crossword.InitDomain | crossword.go:151-154 | slot i's domain becomes the words of its length, every other slot unchanged |
| CrosswordFacts.RunAcrossSpan | crossword.go:70-78 | the across run is all open and is followed by a blocked cell |
| CrosswordFacts.RunDownSpan | crossword.go:96-104 | the down run is all open and is followed by a blocked cell |
| CrosswordFacts.SlotAtIsSlot | crossword.go:66-114 | a slot the scan builds is a maximal run of at least two open cells, with consecutive cells from the anchor, the words of its length and no neighbours |
| CrosswordFacts.SlotIsSlotAt | crossword.go:66-114 | every such run is built by the scan at its anchor |
| CrosswordFacts.CellSlotsMembers | crossword.go:65-115 | the slots emitted at one cell are exactly the maximal runs anchored there |
| CrosswordFacts.RowSlotsMembers | crossword.go:64-117 | one row of the scan yields exactly the slots anchored in that row |
| CrosswordFacts.GridSlotsMembers | crossword.go:63-117 | the first rows of the scan yield exactly the slots anchored in them |
| CrosswordFacts.RowSlotsOrdered | crossword.go:64-116 | one row of the scan yields its slots in column order, all anchored in that row |
| CrosswordFacts.GridSlotsOrdered | crossword.go:63-116 | the first rows of the scan yield their slots in row-major order, all anchored in those rows |
| CrosswordFacts.ScanSlotsExact | crossword.go:63-117 | on a rectangular grid, a Variable is emitted by the scan iff it is a maximal run of two or more open cells with the words of its length |
| CrosswordFacts.ScanSlotsOrdered | crossword.go:63-116 | slots come in row-major anchor order with across before down at the same anchor, so none is emitted twice |
| CrosswordFacts.AnchorOfCell | crossword.go:70-74 | every cell of a slot has that slot's anchor as the start of its run |
| CrosswordFacts.ScanSlotsDisjoint | crossword.go:74 | two different slots of one direction share no cell: each open cell lies in at most one across and one down slot |
| CrosswordFacts.FirstSharedSymmetric | crossword.go:127-133 | for runs of cells crossing in at most one cell, the search finds the same cell from either side |
| CrosswordFacts.ScanOverlapsSymmetric | crossword.go:125-136 | for slots of one scan, Overlaps(v, w) equals Overlaps(w, v), and a found cell means different directions |
| CrosswordFacts.NeighborsFromKeys | crossword.go:139-146 | the keys of the neighbour map are exactly the anchors of slots that overlap v1, and v1's own anchor is never one |
| CrosswordFacts.LastOverlap | crossword.go:141-143 | the last slot in list order with that anchor that overlaps v1, or -1 |
| CrosswordFacts.NeighborsFromValues | crossword.go:139-146 | each value is the overlap cell with the last overlapping slot of that anchor, a cell of both slots |
| Fixtures.NewSlotsFixture | crossword_test.go:57-114 | the slots built at the seven anchors of the test grid are the test's slots |
| Fixtures.ScanFixture | crossword_test.go:37-114 | the scan of the test grid gives exactly the seven slots the test lists, in its order |
| Fixtures.OverlapsFixture0 | crossword_test.go:57-65 | the overlaps of slot 0 with every slot of the test |
| Fixtures.NeighborsFixture | crossword_test.go:51-120 | InitNeighbors gives every slot of the test grid the neighbour map the test expects |
| Fixtures.SearchFixture | generate.go:65-97 | on the test grid, the search from the empty assignment answers the first word of every slot |
| Fixtures.CrossingFixture | crossword_test.go:57-80 | that answer puts different letters into the cell slots 0 and 2 share |
| Generate.SelectUnassignedVariable | generate.go:4-11 | the first slot in list order without a value; the zero Variable when every slot has one |
| Generate.AllAssignmentsComplete | generate.go:14-25 | true iff the keys are exactly the slots (size equal to the slot count and every slot a key) |
| Generate.IndicesCardinality | generate.go:15 | there are as many slot keys as slots |
| Generate.Enqueue | generate.go:99-102 | the queue with v added at the back |
| Generate.Dequeue | generate.go:104-112 | the front of the queue, or the zero Variable for an empty queue |
| Generate.EnqueueDequeue | generate.go:99-112 | first in, first out: after any enqueues, Dequeue gives the old front, or the first enqueued slot if the queue was empty |
| Generate.ArcFilter | generate.go:32-42 | the filter never grows the domain |
| Generate.EnforceArcConsistency | generate.go:31-43 | var1's domain becomes the filter of its domain against the crossing with var2; every other field and var2 are unchanged |
| Generate.ArcFilterSubsequence | generate.go:33-40 | the filtered domain is a subsequence of the domain, in the same order |
| Generate.ArcFilterMembers | generate.go:35-39 | a word stays iff it was in the domain and its letter at the overlap has a non-empty candidate bitset |
| Generate.ArcFilterIdempotent | generate.go:31-43 | filtering twice against one crossing gives the same domain as filtering once |
| Generate.ArcFilterMeaning | generate.go:35-39 | with a lexicon that indexes the word classes, a word stays iff some word of var2's length class, not of var2's domain, has the same letter at var2's overlap index |
| Generate.SurvivorsMembers | generate.go:53-60 | the words that survive a set of crossings are those that have support across each |
| Generate.FilterOneMore | generate.go:53-56 | filtering the survivors of some crossings against one more gives the survivors of all of them, whatever the order |
| Generate.SurvivorsShrink | generate.go:57-58 | no survivors against some crossings means no survivors against more |
| Generate.PassStep | generate.go:53-56 | one step of a pass is in range and adds one crossing to those filtered |
| Generate.Crossing | generate.go:54 | the slot an arc leads to: the first slot anchored at the neighbour key that runs the other way from v1, or the zero Variable when there is none |
| Generate.CrossingLookupDefined | generate.go:35-36 | on a scanned grid, every neighbour entry of a linked slot leads to a slot of the list anchored there that runs the other way, and the entry's cell lies in both slots, so both indices of the look-up are in range |
| Generate.LinkedArcsDefined | generate.go:53-56 | on a scanned grid with a slot linked to its neighbours and given the words of its length, and a lexicon that indexes the word classes, every arc out of that slot is in range for every word of its domain |
| Generate.FilterPass | generate.go:53-60 | one pass answers empty iff the slot has neighbours and no word survives them all |
| Generate.AC3 | generate.go:49-63 | `true` iff the queue is empty; `false` iff, within the passes allowed, the front slot has neighbours and no word of its domain survives them all |
| Generate.Search | generate.go:65-97 | what the search answers: the assignment once complete, else the first success over the first open slot's saved domain in order |
| Generate.Assignment.constructor | generate.go:65 | an assignment map with the given entries |
| Generate.BacktrackAC3 | generate.go:65-97 | when the slots the search can select have their arcs in range: the result is the assignment object itself, completed as Search says, or nil exactly when Search fails, with every entry it tried deleted again |
| Generate.EmptyOpenSlotStopsSearch | generate.go:72-96 | when the first slot without a value has an empty domain the search answers nil at once; that slot is the only one it can select, and its arcs need nothing of the lexicon |
| Generate.SearchSound | generate.go:65-97 | a found assignment is complete, keeps the values it started from and takes every new value from its slot's domain |
| Generate.TryValuesSound | generate.go:76-95 | the same for the loop over the saved domain |
| Generate.SearchTakesFirstWords | generate.go:65-97 | the search gives every open slot the first word of its domain, and answers nil iff some open slot's domain is empty |
| Generate.TryValuesStep | generate.go:76-90 | one turn of the value loop: that value's result when the recursion succeeds, else the rest of the loop |
| Generate.TryValuesFirst | generate.go:76-96 | the loop answers nil iff every remaining value fails; otherwise it answers the result of the first value that succeeds, every value before it having failed |
| Generate.TryValuesFail | generate.go:76-96 | once another open slot has an empty domain, no value of the selected slot succeeds |
| Generate.RawRuneIndexOutOfRange | generate.go:36 | as written, the bitset index of a lowercase letter is at least 26, so the look-up is out of range |
| Generate.FirstUnassignedAsWritten | generate.go:4-11 | as written, the first slot whose pointer is not a key |
| Generate.SlotKeys | generate.go:16 | the pointers to the slots: a key is one iff it is the pointer to a slot of the list |
| Generate.AllAssignmentsCompleteAsWritten | generate.go:14-25 | as written, complete iff the keys are exactly the pointers to the slots |
| Generate.AsWrittenAgreesOnSlotKeys | generate.go:14-25 | while every key is a slot pointer, the pointer-keyed test agrees with the index-keyed AllAssignmentsComplete |
| Generate.PointerKeysNeverComplete | generate.go:78 | as written, an assignment holding only local-copy keys is never complete, and slot 0 is selected again |
| SharedAnchor.SquareScan | crossword.go:59-120 | the scan of the 2×2 open grid gives four slots: across at (0, 0), down at (0, 0), down at (0, 1), across at (1, 0) |
| SharedAnchor.MissedCrossingUndefined | generate.go:35-36 | when the slot found for a neighbour does not contain the crossing cell, the arc is out of range for every word of a non-empty domain |
| SharedAnchor.AnchorLookupMissesCrossing | generate.go:54 | as written, on the 2×2 open grid the across slot of row 1 has neighbour (0, 0), GetVariable returns the across slot of row 0, which lacks the crossing cell (1, 0), so the arc is out of range; the look-up by direction finds the down slot, whose cell 1 it is |

## Left out

- File and process I/O: reading the structure and word files, `fmt.Printf`, `os.Exit` and `main.go`. `NewCrossword` and `ReadAllWords` take the file's text as a parameter.
- The bitarray library is not part of this model. A bitset is its capacity plus the set of its set bits. The library's rounding of the capacity up to whole blocks is not modelled.
- Runes versus bytes. Words and grid lines are taken to be ASCII, so a character, a byte and a rune coincide.
- `MostConstrainedVariable` is not part of this model: the test file calls it, but no source file defines it.
- The unused constant `NUM_WORDS`.
- Pointer aliasing of `Variables` (`[]*Variable`). Slots are values. `InitNeighbors` and `InitDomain` update, through the pointer, a slot of the list; the model passes that slot's index. `EnforceArcConsistency` returns the updated copy; its only caller, `AC3`, passes the addresses of local copies (generate.go:56).
- Go panics (an index out of range, a missing map class) appear as preconditions, not as a modelled crash. `NewCrossword` requires every line to be at least as long as the first, so a trailing newline in a non-empty grid, which gives an empty last line and a panic, is excluded. `NewLexicon` requires lowercase words filed under their own lengths. `EnforceArcConsistency` and `AC3` require the look-ups of their slot to be in range. `BacktrackAC3` requires this only for the slots the search can select (`Generate.Selectable`): a slot without a value such that no earlier slot without a value has an empty domain. A search that stops at an empty domain never looks up a later slot's arcs (`Generate.EmptyOpenSlotStopsSearch`). `Generate.LinkedArcsDefined` shows that the look-ups are in range for a slot of a scanned grid linked to its neighbours, once the look-up goes by direction (see Findings), provided every slot's length has words in the word file and the lexicon indexes the word classes.
- Lexicon.Dictionary.NewLexicon: its result is stated only when the lexicon has no layers yet for the lengths being indexed. A second call appends further layers, and sets bits in the old ones again; that case is modelled but not specified.
- Generate.AC3: `fuel` bounds the number of passes. On a non-empty queue whose front slot keeps words, the source loops for ever, where the model answers `OutOfFuel`.
- Generate.BacktrackAC3: uses slot indices as keys (see Findings). Its call of AC3 is given one pass, and the answer is ignored as the source ignores it. Where the source's AC3 would never return, the model goes on.
- Go's randomized iteration over a neighbour map is a nondeterministic choice of key. Every order gives the same answer (`Generate.FilterOneMore`).

## Findings

| source | as written | input that shows it | evidently intended | confidence | as-written member | corrected member |
|---|---|---|---|---|---|---|
| generate.go:36 | the 26 bitsets of a layer are indexed by the rune itself | any domain word with a lowercase letter at the overlap, e.g. "cat" at (0, 3) on the test grid: 't' is 116, beyond the 26 entries, so the look-up panics | index by `letter - 'a'`, as lexicon.go:63 does when building the bitsets | high; not executed | Generate.RawRuneIndexOutOfRange | Generate.EnforceArcConsistency |
| generate.go:54 | the neighbour is looked up by its anchor alone (`GetVariable`, crossword.go:207-214), which returns the first slot with that anchor | the 2×2 open grid, with AC3 called on a queue whose front is the across slot of row 1, or with BacktrackAC3 once its keys are fixed (as written it only ever runs AC3 on slot 0, whose look-ups by anchor are right): that slot has the down slot at (0, 0) as neighbour, but the look-up returns the across slot at (0, 0), which does not contain the crossing cell (1, 0); `IndexOfCell` answers -1 and the bitset look-up at generate.go:36 panics | look the neighbour up by its anchor and the direction that crosses the slot | high; not executed | SharedAnchor.AnchorLookupMissesCrossing | Generate.CrossingLookupDefined |
| generate.go:78 | the assignment is keyed by `&var1`, the address of a local copy, which never equals a pointer in `Variables` | any grid with at least one slot: from the empty map, every key is a local address, so `AllAssignmentsComplete` is never true and slot 0 is selected again in every frame | key the assignment by the slot itself (here its index) | high; not executed | Generate.PointerKeysNeverComplete | Generate.BacktrackAC3 |
