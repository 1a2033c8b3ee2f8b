# The line editor of Linux System Manager, verified

This Dafny project models the command line of the system manager and proves properties of
it.  Most of it is about the line editor of `cli/linenoise.c`: an edit buffer with a cursor
and a growing capacity, up to 16 folded ranges that hide pasted text, a history with an
editing index, a streaming decoder of bracketed pastes, and the UTF-8 stepping all of them
rely on.  Smaller modules cover the suggestion menu, the tokenizer, the filtered kernel
log, the thread-per-client echo server and the reader of `/proc/<pid>/stat`.

The main results, each over all inputs, runs or interleavings:

- **A simple editor.** For every run of keys on plain text, the byte buffer, cursor, fold
  ranges, capacity and history behave as a list of atoms, each a character or a whole
  fold, with a cursor between atoms; every key is the plain list operation
  (`Refinement.RunRefines`).  Whatever bytes spell the keys, the reading loop has exactly
  that effect (`Dispatch.BlockingEdit`), and what each byte does is said in the terms of a
  user (`KeyEffects`).
- **Folds.** They stay sorted, disjoint, non-empty and inside the text, the cursor stays
  outside them and every newline inside them (`Program.EveryDocument`); what is
  shown is the text with markers for folds and the cursor in its place
  (`Render.RenderedEditor`), and the visible slice of it fits the terminal
  (`Window.TrimLine`).
- **Pastes.** The decoder stops at the first terminator and keeps exactly what precedes it;
  the edit is all or nothing (`Paste.PasteStopsAtFirstEnd`, `Zipper.PasteIsAllOrNothing`).
- **UTF-8.** Both decoders agree, both cluster steppers land on boundaries, one undoes the
  other under an exact condition, and every run keeps the line well-formed
  (`Utf8.BackAgreesWithForward`, `Clusters.LeftUndoesRight`, `Session.Run`).  A base with
  marks and joined characters, or a pair of flag letters, is one step of every key and takes
  the columns of its first character (`ClusterShapes.ClusterIsOneStep`,
  `ClusterShapes.FlagIsOneStep`, `TextWidth.ClusterText`).
- **History.** It is a bounded end of a deduplicated log, a zipper under navigation, and
  its file gives it back exactly under a stated condition (`History.InterleavedIsEndOfLog`,
  `Zipper.BackAndForth`, `HistoryFile.ProgramFileRoundTrip`).
- **Around it.** The sizes passed to realloc at a prompt sum to at most three times the
  final length, colour codes have no width, the tokenizer and the process parser invert
  what writes their input, the log ring holds the last 20 matches, no interleaving of the
  server closes, frees or uses anything it does not own, and from any of its states a whole
  session echoes every byte and leaves nothing behind (`EchoSessions.WholeSession`).

## How it is laid out

`Seqs` holds facts about cutting sequences.  `Utf8`, `Clusters`, `Width` and `Capacity`
model the helpers.  `Document` has the editing operations on a text with cursor and folds,
`Paste` the decoder, `History` the store and its file, `Session` the state machine of one
prompt.  `Atoms` and `Refinement` relate these to the simple editor, `Zipper` proves the
history laws, `Program` and `HistoryFile` follow prompt after prompt, `Cursor`, `CursorRuns`
and `FoldRuns` follow cursor and folds on text that is not plain, `ClusterShapes`, `TextWidth`
and `KeyEffects` say what steps, columns and keys are on characters and bytes given by their
numbers, `Counterexamples` holds keys that reach the failing cases, and `Render`, `Screen` and
`Window` follow the line to the terminal.
`LineEditor.EditLine` is the structure of `cli/linenoise.h` with its arrays, changed in
place by loops and copies; each of its methods is proved to be the operation of the same
meaning on its value, and `Dispatch` reads its keys from bytes.  `Suggestions`,
`Tokenizer`, `DmesgLog`, `EchoServer` with `EchoSessions`, and `ProcStat` are independent.

`dafny verify dfyconfig.toml` checks everything.

A byte is an integer from 0 to 255, a C string a sequence without NUL, and reading past
the end of a text yields its NUL.  Text is plain when it has no grapheme extender (the
zero-width joiner is one) and no regional indicator; ASCII text is plain.

## What does not hold, and how it is reached

Where the program can get to a case in which a law fails, a lemma exhibits the input, and an
equivalence says when the law holds.

- A step left does not undo a step right from a position at an extender
  (`Clusters.LeftUndoesRight`); an accent, Home and a letter get there
  (`Counterexamples.LeftGoesPastRight`).
- A cluster can reach across the edge of a fold, and then the cursor enters it
  (`Counterexamples.CursorEntersFold`).  In a line without joiners and flags a step does so
  exactly when only extenders stand between the cursor and the fold, and the fold has a base
  after its first character (`Cursor.RightKeepsOutside`, `Cursor.LeftKeepsOutside`); over a
  whole run the cursor stays outside exactly when no such step is taken
  (`CursorRuns.OutsideIff`), and on plain text none is (`Program.EveryDocument`).
- Ctrl-J puts a newline outside every fold (`Program.NewlineOutsideFold`); no other typed
  character does (`Program.TypingKeepsNewlines`).
- A history with two equal neighbours is not what its file gives back
  (`HistoryFile.ProgramFileRoundTrip`); an entry overwritten while browsing makes one
  (`Counterexamples.NeighboursBecomeEqual`).  A CR would be lost too (`History.FileRoundTrip`),
  but none gets into a line.
- A suggestion can leave a fold beyond the end of the line (`Suggestions.StaleFolds`,
  `Suggestions.SuggestionLeavesFold`); the folds stay fit for rendering all the same
  (`FoldRuns.RunKeepsSorted`).
- A short `send` of the echo server loses bytes (`EchoServer.EchoIsExact`,
  `EchoServer.ShortSendLosesBytes`).
- Text glued before an opening quote is dropped by the tokenizer
  (`Tokenizer.GluedTextIsDropped`); arguments come back exactly when each is a word
  (`Tokenizer.DirectCommandRoundTrip`).

Two conditions concern buffers the program never has: `linenoiseEditGrow` can pass a maximum
below 16 from an empty buffer (`Capacity.GrowthBounds`), and the sizes passed to realloc can
pass three times the final length from a very small one (`Capacity.ThriceFinalIff`,
`Capacity.ReallocCanPassThrice`).

## Model

| member | source | states |
|---|---|---|
| Refinement.RunRefines | cli/linenoise.c:2081-2312 | For every run of typing, pastes, history recall, Left/Right/Home/End, Delete, Backspace, Ctrl-W, Ctrl-T, Ctrl-K, Ctrl-U, Enter, Ctrl-C, Ctrl-D and ESC on plain text, the concrete state and outcome are the concretion of what the same keys do to a list of atoms (characters and whole folds) with a cursor between atoms |
| Refinement.ReachableDocument | cli/linenoise.c:959-1203 | From any well-formed editor over atoms, in every state such a run reaches: folds sorted, disjoint, non-empty, inside the text, at most 16; the cursor never strictly inside a fold; every newline inside a fold |
| Program.FreshPrompt | cli/linenoise.c:1889-1930 | The state linenoiseEditStart leaves, with any history of plain entries, is the concretion of the empty editor over atoms |
| Program.PromptRefines | cli/repl.c:812-850 | One whole prompt, its added line included, does to the history what the simple editor does to a list of plain texts |
| Program.PromptsRefine | cli/repl.c:801-850 | So does any run of prompts |
| Program.EveryDocument | cli/linenoise.c:2329-2352 | After any prompts from linenoiseEditStart on, every state the keys of the next one reach has valid folds, the cursor outside them and all newlines inside them |
| Counterexamples.CursorEntersFold | cli/linenoise.c:1748-1754 | A letter, a folded paste that begins with a combining accent, Home and Right put the cursor inside the fold; the step is one that enters by the condition of `Cursor.EntersRight` |
| Cursor.RightKeepsOutside | cli/linenoise.c:1098-1109 | In any line without joiners and flags, with the cursor outside all folds, Right keeps it outside exactly when no fold has only extenders from behind the cursor's character up to and with its own first one, and a base after that |
| Cursor.LeftKeepsOutside | cli/linenoise.c:1113-1124 | Left keeps it outside exactly when no fold has only extenders between its end and the cursor, and a base after its first character |
| CursorRuns.KeyKeepsOutside | cli/linenoise.c:2120-2311 | Any other key keeps the cursor outside always; Left and Right exactly under that condition |
| CursorRuns.OutsideIff | cli/linenoise.c:2329-2352 | Over every run of keys without joiners and flags the cursor is outside all folds in every state exactly when no Left or Right is pressed where a fold meets the condition |
| CursorRuns.PromptOutsideIff | cli/linenoise.c:1889-1930 | In particular from the start of every prompt |
| Program.InsertKeepsNewlines | cli/linenoise.c:1685-1702 | Unfolded text inserted with the cursor outside all folds keeps every newline inside a fold exactly when it has none |
| Program.TypingKeepsNewlines | cli/linenoise.c:2267-2284 | A typed character that fits does so exactly when it is not a newline |
| Program.NewlineOutsideFold | cli/linenoise.c:2267-2284 | Ctrl-J at a fresh prompt leaves a newline outside every fold |
| Refinement.KeyRefines | cli/linenoise.c:2120-2311 | One key is one list operation on atoms, with the same outcome, and keeps the state well-formed |
| Refinement.EditRefines | cli/linenoise.c:1739-1863 | Cursor keys, deletions, Ctrl-T, Ctrl-K and Ctrl-U are the plain list operations on atoms |
| Refinement.TypeRefines | cli/linenoise.c:2267-2284 | Typing puts one character atom at the cursor, or changes nothing when the buffer cannot grow to hold it |
| Refinement.PasteRefines | cli/linenoise.c:1982-2059 | A paste puts its normalised characters at the cursor, as one fold when it has a newline or 200 bytes, or changes nothing when it does not fit or no fold is free |
| Refinement.PasteInNumbers | cli/linenoise.c:1982-2059 | In numbers: a paste of 1 to 1048576 bytes that with the line stays within the maximum (the buffer when there is none) while fewer than sixteen folds are stored puts one fold (a newline or 200 bytes) or its characters at the cursor; any other changes nothing |
| Refinement.BrowseRefines | cli/linenoise.c:1776-1814 | Up and Down replace the atoms by those of the recalled entry, folded in the middle when it is long or multi-line |
| Atoms.ConcreteInv | cli/linenoise.c:1005-1023 | Any list of atoms with at most 16 folds concretises to a document with well-formed text and valid folds |
| Atoms.RightIsRight | cli/linenoise.c:1098-1109 | One step right crosses exactly one atom: a character, or a whole fold |
| Atoms.LeftIsLeft | cli/linenoise.c:1113-1124 | One step left crosses exactly one atom |
| Atoms.StepRightIsAtom | cli/linenoise.c:1098-1109 | The step right from between two atoms is the byte size of the next atom |
| Atoms.StepLeftIsAtom | cli/linenoise.c:1113-1124 | The step left is the byte size of the previous atom |
| Atoms.HomeIsHome | cli/linenoise.c:1757-1763 | Home puts the cursor before the first atom |
| Atoms.DeleteIsDelete | cli/linenoise.c:1819-1829 | Delete removes the atom after the cursor, a fold as one unit |
| Atoms.BackspaceIsBackspace | cli/linenoise.c:1832-1843 | Backspace removes the atom before the cursor |
| Atoms.DeleteWordIsDropEnd | cli/linenoise.c:1847-1863 | Ctrl-W removes spaces and then non-spaces backwards, atom by atom, judging a fold by its last byte |
| Atoms.KillEndIsCut | cli/linenoise.c:2291-2296 | Ctrl-K keeps exactly the atoms before the cursor |
| Atoms.TransposeIsExchange | cli/linenoise.c:2152-2171 | Ctrl-T exchanges the two atoms around the cursor and moves past them; next to a fold it changes nothing |
| Atoms.OverlapsIffFolded | cli/linenoise.c:1157-1166 | The overlap test before Ctrl-T succeeds exactly when one of the two atoms is a fold |
| Atoms.InsertIsPut | cli/linenoise.c:1685-1702 | Inserted text becomes character atoms at the cursor; every fold keeps its text |
| Atoms.InsertFoldedIsPut | cli/linenoise.c:2046-2054 | A folded paste becomes one fold atom at the cursor |
| Atoms.RecalledIsRecall | cli/linenoise.c:959-1000 | A recalled entry becomes its first characters, one fold and its last characters, or one whole fold, or plain characters |
| Document.Insert | cli/linenoise.c:1685-1702 | An insertion at the cursor keeps well-formed UTF-8, the cursor on a boundary, and all folds sorted, disjoint and inside the text |
| Document.InsertFolded | cli/linenoise.c:2046-2054 | A folded insertion keeps the invariant |
| Document.Delete | cli/linenoise.c:1819-1829 | Delete keeps the invariant |
| Document.Backspace | cli/linenoise.c:1832-1843 | Backspace keeps the invariant |
| Document.DeleteWord | cli/linenoise.c:1847-1863 | Ctrl-W keeps the invariant |
| Document.Transpose | cli/linenoise.c:2152-2171 | Ctrl-T keeps the invariant, clusters longer than its 32-byte buffer included |
| Document.KillEnd | cli/linenoise.c:2291-2296 | Ctrl-K keeps the invariant |
| Document.FoldsAfterInsert | cli/linenoise.c:1170-1184 | After an insertion the folds split into those before it, in place, and those after it, moved; a fold around the place is gone; all are valid in the new text |
| Document.FoldsAfterDelete | cli/linenoise.c:1188-1203 | After a deletion the folds that touched it are gone and the others, moved, are valid in the new text |
| Document.FoldAddedBetween | cli/linenoise.c:1127-1140 | A new fold goes between the folds before and after it and is never lost while a place is free |
| Document.StepRightLands | cli/linenoise.c:1098-1109 | The step right is positive and lands on a character boundary inside the text |
| Document.StepLeftLands | cli/linenoise.c:1113-1124 | The step left lands on a character boundary |
| Document.SkipLeftLands | cli/linenoise.c:1852-1857 | The loops of Ctrl-W stop on a character boundary |
| Document.RecalledInv | cli/linenoise.c:959-1000 | The context scan folds a recalled entry at character boundaries, so the new line keeps the invariant |
| LineEditor.EditLine.constructor | cli/linenoise.c:1889-1930 | A new prompt is the empty line with an empty entry at the end of the history, and keeps the invariant |
| LineEditor.EditLine.FoldRemove | cli/linenoise.c:1148-1154 | Removes exactly the j-th range from the two arrays |
| LineEditor.EditLine.AdjustFoldsAfterInsert | cli/linenoise.c:1170-1184 | The loop over the fold arrays computes the shifted folds |
| LineEditor.EditLine.AdjustFoldsAfterDelete | cli/linenoise.c:1188-1203 | The loop over the fold arrays computes the folds after a deletion |
| LineEditor.EditLine.FoldAdd | cli/linenoise.c:1127-1140 | The shifting loop puts the range at its sorted place, or leaves everything when empty or full |
| LineEditor.EditLine.GetRenderFolds | cli/linenoise.c:1005-1023 | Exactly the stored ranges that are non-empty and end inside the text, in order |
| LineEditor.EditLine.EditNextLen | cli/linenoise.c:1098-1109 | The length of the fold that starts here, otherwise of the next cluster |
| LineEditor.EditLine.EditPrevLen | cli/linenoise.c:1113-1124 | The length of the fold that ends here, otherwise of the previous cluster |
| LineEditor.EditLine.RangeOverlapsFold | cli/linenoise.c:1157-1166 | True exactly when some fold meets the range |
| LineEditor.EditLine.Grow | cli/linenoise.c:1652-1680 | Succeeds exactly when the text fits the maximum; the text survives the new allocation |
| LineEditor.EditLine.SpliceBytes | cli/linenoise.c:1691-1699 | The two copies in the buffer put the new bytes at the cursor and keep all others |
| LineEditor.EditLine.CutBytes | cli/linenoise.c:1824-1826 | The copy in the buffer removes exactly the given bytes |
| LineEditor.EditLine.EditInsert | cli/linenoise.c:1685-1702 | Text, cursor, folds and capacity become those of the insertion, or nothing changes |
| LineEditor.EditLine.EditMoveLeft | cli/linenoise.c:1739-1745 | Moves one step left |
| LineEditor.EditLine.EditMoveRight | cli/linenoise.c:1748-1754 | Moves one step right |
| LineEditor.EditLine.EditMoveHome | cli/linenoise.c:1757-1763 | Moves to the start |
| LineEditor.EditLine.EditMoveEnd | cli/linenoise.c:1766-1772 | Moves to the end |
| LineEditor.EditLine.EditDelete | cli/linenoise.c:1819-1829 | The whole state after Delete |
| LineEditor.EditLine.EditBackspace | cli/linenoise.c:1832-1843 | The whole state after Backspace |
| LineEditor.EditLine.SkipBack | cli/linenoise.c:1852-1857 | The two loops stop where the recursive definition does |
| LineEditor.EditLine.EditDeletePrevWord | cli/linenoise.c:1847-1863 | The whole state after Ctrl-W |
| LineEditor.EditLine.KillToEnd | cli/linenoise.c:2291-2296 | The whole state after Ctrl-K |
| LineEditor.EditLine.KillWholeLine | cli/linenoise.c:2285-2290 | The whole state after Ctrl-U |
| LineEditor.EditLine.EditTranspose | cli/linenoise.c:2152-2171 | The whole state after Ctrl-T |
| LineEditor.EditLine.SwapBytes | cli/linenoise.c:2165-2167 | The three copies through the temporary exchange the two neighbouring pieces |
| LineEditor.EditLine.LeaveContextRight | cli/linenoise.c:967-979 | How far the visible head of a folded entry reaches, and whether it met a newline |
| LineEditor.EditLine.LeaveContextLeft | cli/linenoise.c:981-992 | How far the visible tail reaches |
| LineEditor.EditLine.BuildHistoryFold | cli/linenoise.c:959-1000 | Whether a recalled entry is folded, and which part |
| LineEditor.EditLine.Show | cli/linenoise.c:1798-1811 | The entry, cut only when the buffer cannot grow, in the buffer with its fold and the cursor at the end |
| LineEditor.EditLine.EditHistoryNext | cli/linenoise.c:1776-1814 | Writes the line back, moves the index in range, shows the entry |
| LineEditor.EditLine.PasteBufferAppend | cli/linenoise.c:1965-1978 | Stores the chunk or refuses it whole; the edit buffer grows for the text to come |
| LineEditor.EditLine.ReadPaste | cli/linenoise.c:1995-2022 | The streaming loop keeps what the matcher keeps and leaves the rest of the input |
| LineEditor.EditLine.EditPaste | cli/linenoise.c:1982-2059 | The whole state after a paste, all or nothing |
| LineEditor.EditLine.FoldMarker | cli/linenoise.c:942-953 | The marker that stands for a folded range |
| LineEditor.EditLine.RenderedSize | cli/linenoise.c:1052-1058 | The length computed first is the length of the shown text and never goes below zero |
| LineEditor.EditLine.CopyFold | cli/linenoise.c:1063-1085 | One round: the gap, the marker, and the cursor when it is met |
| LineEditor.EditLine.RenderBuffer | cli/linenoise.c:1030-1094 | The shown text, NUL-terminated at the precomputed length, and the translated cursor, for any sorted folds, stale ones included |
| Session.Run | cli/linenoise.c:2329-2352 | Over every run of keys: well-formed UTF-8, cursor on a boundary, valid folds, history index in range, entries that fit |
| Session.Apply | cli/linenoise.c:2120-2311 | Every key keeps that invariant |
| Session.NavigatedInv | cli/linenoise.c:1776-1814 | Recalling an entry keeps the invariant |
| Session.PasteScanned | cli/linenoise.c:1987-1993 | A paste is too long exactly when its bytes exceed the room left in the line, the 1 MiB of a paste, or no fold is free |
| Zipper.NavigationKeepsView | cli/linenoise.c:1776-1814 | Up and Down never change the history with the edited line in its slot |
| Zipper.ShowsEntry | cli/linenoise.c:1776-1814 | One step in range moves the index by one and shows that entry with the cursor at its end |
| Zipper.BackAndForth | cli/linenoise.c:1776-1814 | k steps up and k steps down in range restore index, view and text |
| Zipper.EditsOwnSlot | cli/linenoise.c:1776-1814 | Every other key changes only the slot of the edited line |
| Zipper.PasteIsAllOrNothing | cli/linenoise.c:1982-2058 | On any text: a paste of 1 to 1048576 bytes that with the line stays within the maximum (the buffer when there is none) while fewer than sixteen folds are stored gives before + normalised payload + after, the cursor behind it, and one more fold exactly when it has a newline or 200 bytes; otherwise the document is unchanged |
| Zipper.TypingHolds | cli/linenoise.c:2267-2284 | A typed character goes in at the cursor exactly when line and character stay within the maximum (the buffer when there is none), and nothing changes otherwise |
| Zipper.PopNeverUnderflows | cli/linenoise.c:2121-2147 | Over any number of prompts the entry popped by Enter and Ctrl-D exists, and the index stays in range |
| Zipper.Prompts | cli/repl.c:801-850 | A run of prompts, each adding its line to the history, keeps the history within its maximum and well-formed |
| Dispatch.BlockingEdit | cli/linenoise.c:2329-2352 | Whatever bytes spell a list of keys, feeding them has exactly the effect and outcome of those keys |
| Dispatch.TextSpellsKeys | cli/linenoise.c:2120-2311 | Every well-formed text without ESC spells keys, one for each character |
| Dispatch.EditFeed | cli/linenoise.c:2081-2312 | One call consumes exactly the bytes of one key and has its effect |
| Dispatch.ReadParameter | cli/linenoise.c:2205-2219 | The loop keeps at most eight digits and the byte after them |
| Dispatch.FeedNumeric | cli/linenoise.c:2204-2226 | ESC [ 3 ~ deletes, ESC [ 200 ~ pastes, any other parameter of at most seven digits is read with its final byte and ignored, and of a longer one the first eight digits are read and ignored |
| Dispatch.FeedEscape | cli/linenoise.c:2188-2266 | The escape sequences |
| Dispatch.FeedPaste | cli/linenoise.c:1982-2059 | A bracketed paste leaves the input right after its terminator |
| Dispatch.FeedChar | cli/linenoise.c:2267-2284 | One character is read by the length its first byte announces |
| Dispatch.FeedControl | cli/linenoise.c:2120-2312 | The keys of one byte |
| Dispatch.ScanIgnoresRest | cli/linenoise.c:1995-2022 | Bytes after the terminator do not change what a paste stores |
| KeyEffects.ToTheEnds | cli/linenoise.c:2245-2302 | Bytes 1 and 5, ESC [ H, ESC O H, ESC [ F and ESC O F go to the start and the end of the line |
| KeyEffects.OverOne | cli/linenoise.c:2172-2244 | Bytes 2 and 6, ESC [ D and ESC [ C go over one character or whole fold |
| KeyEffects.RemoveBefore | cli/linenoise.c:2137-2140 | Bytes 127 and 8 remove the character or whole fold before the cursor |
| KeyEffects.RemoveAfter | cli/linenoise.c:2141-2151 | Byte 4 and ESC [ 3 ~ remove the one after it |
| KeyEffects.RemoveMany | cli/linenoise.c:2285-2296 | Byte 21 removes the line, byte 11 its part after the cursor |
| KeyEffects.RemoveNothing | cli/linenoise.c:2303-2306 | Byte 12 changes nothing |
| KeyEffects.ExchangeTwo | cli/linenoise.c:2152-2171 | Byte 20 exchanges the two characters around the cursor and goes over both |
| KeyEffects.RemoveWord | cli/linenoise.c:2307-2309 | Byte 23 removes the spaces before the cursor and the word before them |
| KeyEffects.EndingKeys | cli/linenoise.c:2121-2151 | Byte 13 hands over the text up to a NUL and pops the history, byte 3 and a lone ESC leave all, byte 4 on an empty line pops and ends the input |
| KeyEffects.TypedLine | cli/repl.c:812-850 | Any characters typed at a fresh prompt, then Enter: the history grows by exactly that line unless it is empty, begins with a slash or repeats the last one; the oldest makes room |
| KeyEffects.RecalledLine | cli/linenoise.c:959-1000 | A plain single line under 200 bytes is recalled as it is, a longer one with its first and last eight characters around one fold |
| KeyEffects.RecalledLines | cli/linenoise.c:959-1000 | One with newlines shows eight characters on each side that has no newline there around the fold; with at most 16 bytes, or when nothing would be left to hide, all of it is the fold |
| Paste.PasteStopsAtFirstEnd | cli/linenoise.c:1995-2022 | The matcher stops at the first place where ESC [ 201 ~ stands and keeps exactly the bytes before it, partial and restarted terminators included, or reports overflow exactly when they are too many |
| Paste.PastePayload | cli/linenoise.c:1995-2022 | A payload without terminator, then the terminator: the payload is kept whole, the rest of the input left |
| Paste.PasteKeeps | cli/linenoise.c:1995-2022 | What is kept of a payload, too long or not: the pieces of it that fit, up to the first that does not, where a piece is one byte or an ESC with what follows it like the terminator |
| Paste.ScanToEnd | cli/linenoise.c:1995-2022 | When the input ends first, only a begun terminator at the very end is dropped |
| Paste.NormaliseInPlace | cli/linenoise.c:2031-2044 | The loop with two indices rewrites CR LF and CR to LF in place |
| Paste.NormalisedHasNoCr | cli/linenoise.c:2031-2044 | No CR is left |
| Paste.NormaliseKeeps | cli/linenoise.c:2031-2044 | Text without CR is unchanged |
| Paste.NormaliseLines | cli/linenoise.c:2031-2044 | Lines ended by CR, LF or CR LF in any mixture come out as the same lines ended by LF |
| Paste.NormaliseEncoded | cli/linenoise.c:2031-2044 | On encoded text it is the same rewriting of code points |
| Capacity.GrowthLoop | cli/linenoise.c:1664-1671 | The doubling loop ends with the first doubling that suffices, or with the maximum when one more doubling would pass it |
| Capacity.GrowthBounds | cli/linenoise.c:1652-1680 | After a real growth needed <= new; new <= max except from an empty buffer with a maximum below 16; new < 2 * needed except from an empty buffer with at most 8 needed |
| Capacity.GrowsToLimit | cli/linenoise.c:1652-1680 | A non-empty buffer can grow exactly up to its limit |
| Capacity.GrownTwice | cli/linenoise.c:1652-1680 | Growing in two steps ends with the same capacity as growing at once |
| Capacity.ReallocIsLinear | cli/linenoise.c:1652-1680 | Over any run from a non-empty buffer the sizes passed to realloc, each one more than the new length, sum to at most three times the final length and one byte for each call |
| Capacity.ThriceFinalIff | cli/linenoise.c:1652-1680 | They sum to at most three times the final length in every run exactly when all single steps up to the maximum do |
| Capacity.ReallocAtMostThrice | cli/linenoise.c:1652-1680 | From a buffer of 29 bytes up, and so at every prompt, they do |
| Capacity.ReallocCanPassThrice | cli/linenoise.c:1675-1675 | A buffer of one byte that grows to seventeen passes 52 to realloc, more than three times 17 |
| Capacity.PasteBufferReserve | cli/linenoise.c:1934-1961 | The paste buffer grows exactly when needed, to at most max(64, 2 * length) and at most 1 MiB |
| Utf8.Utf8DecodePrev | cli/linenoise.c:247-260 | At the end of any character of any text it yields that character and its length |
| Utf8.BackAgreesWithForward | cli/linenoise.c:247-260 | At every boundary after the first, backward decoding equals forward decoding of the sequence that ends there |
| Utf8.DecodeEncoded | cli/linenoise.c:180-208 | Forward decoding inverts the encoding of RFC 3629 |
| Utf8.ShortestEncoding | cli/linenoise.c:180-208 | The encoding is the shortest: a leading byte that announces fewer bytes decodes to a smaller code point |
| Utf8.KnownEncodings | cli/linenoise.c:180-208 | The examples of section 7 of RFC 3629 |
| Utf8.DecodeBackEncoded | cli/linenoise.c:247-260 | Backward decoding inverts the encoding |
| Utf8.SplitText | cli/linenoise.c:178-208 | A boundary splits well-formed text into two well-formed texts |
| Clusters.Utf8NextCharLen | cli/linenoise.c:324-369 | The forward loop computes the cluster length |
| Clusters.Utf8PrevCharLen | cli/linenoise.c:268-320 | The backward loop computes the cluster length |
| Clusters.NextLenCounts | cli/linenoise.c:324-369 | On well-formed text it is the byte length of a number of whole code points decided by the code points alone |
| Clusters.PrevLenCounts | cli/linenoise.c:268-320 | The same for the backward step |
| Clusters.NextLands | cli/linenoise.c:324-369 | The forward step is positive, in range and lands on a boundary |
| Clusters.PrevLands | cli/linenoise.c:268-320 | The backward step is positive, in range and lands on a boundary |
| Clusters.LeftUndoesRight | cli/linenoise.c:268-369 | Without joiners and flags, a step back after a step forward has the same length exactly at the start of the text or when not at an extender |
| Document.RightThenLeft | cli/linenoise.c:1739-1754 | In a line without folds Right and then Left change nothing exactly at the start or when not at an extender |
| Counterexamples.LeftGoesPastRight | cli/linenoise.c:1739-1754 | An accent, Home and a letter put the cursor where Right and then Left do not come back |
| Clusters.PlainSteps | cli/linenoise.c:268-369 | In plain text both steps are one code point |
| ClusterShapes.ClusterIsOneStep | cli/linenoise.c:210-369 | For any base, any extenders and any characters joined to it by U+200D: up to the end, a base or a flag one Right crosses all of it and one Delete removes it; unless a joiner stands before it one Left crosses all of it and one Backspace removes it |
| ClusterShapes.FlagIsOneStep | cli/linenoise.c:229-369 | Two regional indicators, with what extends them, are one step both ways; a third is not taken forwards |
| ClusterShapes.LoneFlagForward | cli/linenoise.c:324-369 | One regional indicator that no other follows is one step forward with what extends it |
| ClusterShapes.TrailingJoiner | cli/linenoise.c:324-369 | A joiner at the end of the text belongs to the cluster before it, both ways |
| ClusterShapes.FamilyIsOneStep | cli/linenoise.c:268-369 | The joined family U+1F468 U+1F469 U+1F467, 18 bytes, is one step of Right, Left, Delete and Backspace |
| ClusterShapes.ClustersSwap | cli/linenoise.c:2152-2171 | Between two such clusters Ctrl-T exchanges them exactly when neither has more than 32 bytes |
| Width.AnsiEscapeLen | cli/linenoise.c:436-444 | The loop measures an escape sequence |
| Width.Utf8StrWidth | cli/linenoise.c:452-489 | The loop computes the width |
| Width.RunWidth | cli/linenoise.c:452-489 | The width of a run of code points, after a joiner or not, adds to the width of what follows |
| Width.EscapeMeasured | cli/linenoise.c:436-444 | Every control sequence of section 5.4 of ECMA-48 is measured to its last byte |
| Width.WidthIgnoresColour | cli/linenoise.c:452-489 | Control sequences before, between and after pieces of text, after a joiner too, leave the width unchanged |
| TextWidth.NarrowText | cli/linenoise.c:380-428 | Text of printable ASCII, Latin, Greek, Cyrillic and the like takes one column a character |
| TextWidth.BroadText | cli/linenoise.c:380-428 | Text of CJK, Hangul, fullwidth and emoji characters takes two columns a character |
| TextWidth.SilentText | cli/linenoise.c:380-428 | Control characters and marks take none |
| TextWidth.AsciiText | cli/linenoise.c:452-489 | Bytes of printable ASCII take one column each |
| TextWidth.SideBySide | cli/linenoise.c:452-489 | Texts side by side take the sum of their columns unless a joiner stands between |
| TextWidth.ClusterText | cli/linenoise.c:452-489 | A cluster with joined characters and marks takes the columns of its first character |
| TextWidth.OnlySequences | cli/linenoise.c:436-444 | Nothing but a whole control sequence of section 5.4 of ECMA-48 is skipped |
| TextWidth.LoneEscape | cli/linenoise.c:452-489 | An ESC that starts no sequence takes no column and hides nothing |
| Render.RenderedAtoms | cli/linenoise.c:1030-1094 | The shown text is the characters and markers of the atoms, in order |
| Render.RenderedEditor | cli/linenoise.c:1030-1094 | For an editor over atoms the shown cursor stands between the shown halves, and no newline is shown |
| Render.RenderedLength | cli/linenoise.c:1052-1058 | The shown length is the text without hidden bytes plus the markers, with no subtraction below zero |
| Render.RenderedPosMonotone | cli/linenoise.c:1061-1086 | The shown cursor is monotone in the cursor and inside the shown text |
| Render.CursorIsExact | cli/linenoise.c:1061-1086 | Outside folds, what is shown before the cursor is exactly the rendering of the text before it |
| Render.CursorInsideFold | cli/linenoise.c:1061-1086 | Anywhere inside or at the end of a fold the cursor is shown right after its marker |
| Render.LiveFoldsFit | cli/linenoise.c:1005-1023 | Sorted folds, stale ones filtered out, fit the text |
| Render.MarkerFits | cli/linenoise.c:942-953 | The marker fits its 64-byte field, so nothing is cut |
| Render.FoldCountLines | cli/linenoise.c:927-933 | The loop counts one more than there are newlines |
| Render.MarkerShows | cli/linenoise.c:942-953 | A fold with k > 0 newlines is shown as [... k+1 pasted lines ...], one without as [... n pasted chars ...] with its number of bytes, and the numeral shown reads as that number |
| Render.NumeralReadsBack | cli/linenoise.c:948-950 | The decimal numeral of a number reads back to it and has no leading zero |
| Render.LiveFoldsAre | cli/linenoise.c:1005-1023 | The shown folds are the non-empty ones that end inside the text |
| Window.TrimLine | cli/linenoise.c:1407-1453 | Both loops end without underflow; the slice contains the cursor and fits the columns beside the prompt; the part dropped on the left is the shortest run of whole clusters that works, then the one kept is the longest; prompt and line of printable ASCII with together at most as many bytes as columns, and the cursor before the end, are shown whole |
| Screen.EditorCanBeTrimmed | cli/linenoise.c:1425-1431 | What the editor renders on plain text without ESC meets what the trimming loops need |
| History.CStr | cli/linenoise.c:1784-1785 | The copy of a line ends at its first NUL |
| History.Store.Add | cli/linenoise.c:2501-2528 | Drops the oldest line when full, refuses an adjacent duplicate and a maximum of zero |
| History.Store.SetMaxLen | cli/linenoise.c:2534-2560 | Keeps the newest lines |
| History.Store.Pop | cli/linenoise.c:2121-2123 | Removes the newest line |
| History.Store.Save | cli/linenoise.c:2564-2585 | The bytes written: each line with LF as CR, then LF |
| History.Store.Load | cli/linenoise.c:2592-2615 | Adds the lines of the file one by one |
| History.ReadLine | cli/linenoise.c:2385-2423 | One record: the bytes up to the next LF or the end of the file |
| History.RestoreNewlines | cli/linenoise.c:2602-2605 | The loop turns CR back into LF |
| History.HistoryIsEndOfLog | cli/linenoise.c:2501-2528 | After any additions the history is the newest lines of the adjacent-deduplicated log |
| History.InterleavedIsEndOfLog | cli/linenoise.c:2501-2560 | Additions and resizings in any order keep it an end of that log |
| History.RecordsOfSaved | cli/linenoise.c:2564-2615 | The lines read back are the saved ones with CR as LF, empty and multi-line ones included |
| History.LoadOfSaved | cli/linenoise.c:2564-2615 | Loading into an empty history of maximum m gives the newest m lines of the deduplicated saved ones |
| History.FileRoundTrip | cli/linenoise.c:2564-2615 | The file gives back the same history exactly when no line has a CR, neighbours differ and all fit |
| HistoryFile.PromptsKeepNoCr | cli/linenoise.c:2120-2311 | No key of any prompt brings a CR into a line of the history |
| HistoryFile.RecordsHaveNoCr | cli/linenoise.c:2592-2615 | Nor does a file |
| HistoryFile.ProgramFileRoundTrip | cli/repl.c:801-850 | So after any prompts from a loaded history, its file gives it back exactly when no two neighbours are equal |
| Counterexamples.NeighboursBecomeEqual | cli/linenoise.c:1784-1785 | Three prompts whose history, an entry overwritten while browsing, has equal neighbours and is not given back |
| Suggestions.SuggestionLine.SuggestionNext | cli/linenoise.c:1259-1301 | The index, saved query, line and cursor after an arrow key, and whether the key was used |
| Suggestions.GetSuggestionMatches | cli/linenoise.c:1303-1334 | The first 16 commands of the context that match the query |
| Suggestions.SavedQueryFinds | cli/linenoise.c:1264-1273 | The query cut to the saved copy finds the same commands |
| Suggestions.After | cli/linenoise.c:1254-1301 | The index stays between -1 and the number of matches, whatever is pressed, edited and pasted |
| Suggestions.PressesShow | cli/linenoise.c:1259-1301 | For a query that fits, the line after any presses is the query or the match at the index, and the index moves around a cycle |
| Suggestions.AroundRestores | cli/linenoise.c:1269-1296 | For any palette, one press of Down more than there are matches restores the query exactly when it fits the saved copy and the buffer less one byte |
| Suggestions.AroundAlwaysRestores | cli/linenoise.c:1259-1301 | When every command is shorter than 127 bytes, as all of the palette are, and the buffer has at least 128, it always restores the query |
| Suggestions.StaleFolds | cli/linenoise.c:1290-1298 | The folds left in place stay sorted and render safely, but the invariant of the line holds exactly when the last fold still ends inside the new text |
| Suggestions.SuggestionLeavesFold | cli/linenoise.c:1290-1298 | With any palette that offers file and process first, from the line /, Down, a folded paste and Down leave a fold that ends past the line |
| Suggestions.FirstOffers | cli/palette.c:15-18 | A palette that begins with those two entries of the current context offers them first |
| FoldRuns.OperationKeepsSorted | cli/linenoise.c:1127-1203 | Whatever the text is, stale folds included, every insertion, folded insertion, deletion, clearing and recall keeps the folds sorted, disjoint, non-empty and at most sixteen |
| FoldRuns.RunKeepsSorted | cli/linenoise.c:1290-1298 | So does any run of them, suggestions between, and the folds that are shown fit a text of any length, which is what rendering needs |
| FoldRuns.KeyIsOperation | cli/linenoise.c:2120-2311 | What each key does to the folds is one of these operations |
| Suggestions.MatchMeans | cli/linenoise.c:1303-1334 | In its own context a query finds exactly the commands that begin with it in either case, and package by what begins packet |
| Suggestions.OfferedAre | cli/linenoise.c:1303-1334 | At most sixteen commands are offered, each a matching one of the palette, and below sixteen none is missed |
| Suggestions.UpUndoesDown | cli/linenoise.c:1269-1286 | Up undoes Down before the last match, and Down undoes Up |
| Tokenizer.ParserTokenize | cli/parser.c:14-65 | The loop over the writable copy yields the arguments the definition by cases does |
| Tokenizer.JoinArguments | app/main.c:137-147 | The command line is the arguments with single spaces between |
| Tokenizer.QuotingRoundTrip | cli/parser.c:14-65 | Quoting tokens without quotes and joining them with spaces tokenises back to the first max_args of them, empty ones and ones with spaces included |
| Tokenizer.WordsComeBack | cli/parser.c:14-65 | Joined words come back, the first max_args of them |
| Tokenizer.SpacedWordsComeBack | cli/parser.c:14-65 | Words with any of the six white-space bytes, any number of them, before, between and after come back, the first max_args of them |
| Tokenizer.DirectCommandRoundTrip | app/main.c:137-151 | The joined arguments come apart into the same list exactly when each is non-empty, without quotes and without white space |
| Tokenizer.GluedTextIsDropped | cli/parser.c:36-38 | Text right before an opening quote is dropped |
| DmesgLog.ContainsKeyword | modules/kernel/kernel_mgr.c:55-72 | True exactly when the lowered keyword occurs in the lowered line |
| DmesgLog.RelevantMeans | modules/kernel/kernel_mgr.c:350-350 | A line is kept exactly when it says system_monitor or sysmgr in either case |
| DmesgLog.RowsConcat | modules/kernel/kernel_mgr.c:346-356 | The rows of an output in two parts are those of the first and then those of the second |
| DmesgLog.RowsOfOne | modules/kernel/kernel_mgr.c:350-355 | One line gives its row when it is relevant and none otherwise |
| DmesgLog.SucceedsMeans | modules/kernel/kernel_mgr.c:346-371 | A run succeeds exactly when it exits with 0 and no line says permission denied or not permitted in either case |
| DmesgLog.RowIs | modules/kernel/kernel_mgr.c:351-353 | A row is the line up to its newline, cut to 511 bytes when it is longer |
| DmesgLog.RunDmesgFiltered | modules/kernel/kernel_mgr.c:344-371 | The ring holds the last 20 matching lines cut to 511 bytes, the counter counts all of them, and the result tells a denied run |
| DmesgLog.Unroll | modules/kernel/kernel_mgr.c:394-407 | The unrolling prints the ring in arrival order |
| DmesgLog.ShowLog | modules/kernel/kernel_mgr.c:373-410 | The printed lines are the last 20 matching ones of the run that succeeded, with the fallback tried only after a failure |
| EchoServer.StepKeeps | modules/socket/socket_multi_server.c:29-84 | Every step of the accept loop or of a session thread keeps the ownership and stream invariant |
| EchoServer.RunKeeps | modules/socket/socket_multi_server.c:134-172 | So does every interleaving of any number of threads |
| EchoServer.Ownership | modules/socket/socket_multi_server.c:134-172 | In every interleaving, with descriptor numbers reused: nothing closed or freed twice or used by another connection, every open descriptor and session has exactly one owner, and nothing is left when the server is at rest |
| EchoServer.EchoIsExact | modules/socket/socket_multi_server.c:29-56 | Between sends, what was echoed on a connection is what was received, in order, exactly when every send of the run on it took all its bytes and none failed |
| EchoServer.FullAfterRun | modules/socket/socket_multi_server.c:29-56 | The flag of a connection says whether all its sends so far were full |
| EchoServer.ShortSendLosesBytes | modules/socket/socket_multi_server.c:44-50 | A run in which a short send loses a byte |
| EchoServer.AcceptorResources | modules/socket/socket_multi_server.c:134-172 | What the accept loop holds at each of its steps |
| EchoServer.ThreadIsSafe | modules/socket/socket_multi_server.c:29-84 | A thread takes away only its own descriptor and session, and finds them in place |
| EchoSessions.AllEchoed | modules/socket/socket_multi_server.c:32-54 | From any reachable state with a thread in its loop, any chunks of 1 to 511 bytes are received and sent back one by one, the thread in its loop after each; nothing else in the server changes |
| EchoSessions.LoopEndsOnly | modules/socket/socket_multi_server.c:32-54 | In every run a thread is past its loop only after its own recv ended or its own send failed |
| EchoSessions.WholeSession | modules/socket/socket_multi_server.c:134-172 | From any reachable state with an idle accept loop a session of any chunks runs from accept to the end of its thread: all bytes go back, and descriptors, sessions and threads are as before |
| EchoSessions.RefusedSession | modules/socket/socket_multi_server.c:141-165 | When malloc or pthread_create fails, nothing but the counted connection is left |
| EchoSessions.EndsAfterSend | modules/socket/socket_multi_server.c:44-84 | After a failed send the thread leaves nothing behind, and the stream is marked incomplete |
| ProcStat.ProcStatRoundTrip | modules/process/process_mgr.c:534-595 | For any process name, spaces and parentheses included, the parser returns the name cut to 255 bytes, the state, the parent and the priority |
| ProcStat.CommFound | modules/process/process_mgr.c:555-560 | The first opening and the last closing parenthesis are those around the name |
| ProcStat.FieldsScanned | modules/process/process_mgr.c:579-592 | The format reads the first and the fifteenth number after the state |

## Left out

- Suggestions inside the runs of `Session`, `Dispatch` and `Refinement`: the arrow keys there are those of a line for which the palette has no match, because a suggestion can leave stale folds behind (`Suggestions.StaleFolds`); the walk through suggestions is its own machine.
- Mask mode, multi-line mode, hints and Tab completion (`cli/linenoise.c:738-880, 1207-1244, 1510-1616`): the model has no completion callback installed, so Tab is an ordinary character.
- Terminal work: raw mode, window size, signals, and everything written to the terminal except the shown line; a read is the next byte of an input sequence, and ESC stands alone when it is the last byte of the input.
- Allocation failure, and failing reads, writes and closes.
- Ill-formed UTF-8 as typed, pasted or recalled text: the source assumes well-formed input; the decoders themselves are modelled on all bytes.
- Typed Ctrl-J and NUL in the runs of `Refinement`: they put a raw newline (`Program.NewlineOutsideFold`) or a NUL into the line outside any fold; `Session`, `Dispatch` and `CursorRuns` include them.
- Refinement.RunRefines: stated for plain text, because a cluster of several code points can straddle the edge of a fold and take the cursor inside it (`Counterexamples.CursorEntersFold`); Up and Down recall history also on a line that begins with a slash, where the code walks the palette if it has a match.
- Refinement.ReachableDocument: stated for plain text and for the same Up and Down, for which the code can leave a stale fold (`Suggestions.SuggestionLeavesFold`); what holds with suggestions is `FoldRuns.RunKeepsSorted`.
- Program.EveryDocument: the same.
- Program.PromptRefines: plain text, and Up and Down that recall history on every line.
- Program.PromptsRefine: the same.
- CursorRuns.OutsideIff: stated for text without joiners and flags, where the cluster steps follow rules a caller can check, and for the same Up and Down.
- CursorRuns.PromptOutsideIff: the same.
- HistoryFile.ProgramFileRoundTrip: the file is well-formed UTF-8 and none of its lines is longer than a prompt can hold.
- Dispatch.BlockingEdit: the input is a sequence of spelled keys; ill-formed UTF-8, and an escape sequence or a paste that the end of the input cuts off, are left out.
- Dispatch.EditFeed: the same.
- Dispatch.FeedNumeric: a parameter that the end of the input cuts off is left out.
- ClusterShapes.ClusterIsOneStep: the keys on a line without folds; next to a fold a step is the fold's.
- KeyEffects.OverOne, like the other keys of `KeyEffects` on atoms: plain text.
- Window.TrimLine: stated for shown text without ESC, joiners and regional indicators and for a prompt narrower than the terminal, the inputs on which cluster widths add up.
- Session.Run: every recalled entry fits the buffer at its largest, so none is cut in a run; `LineEditor.EditLine.Show` includes the cut.
- Zipper.BackAndForth: restores the text up to its first NUL, since that is all the history keeps.
- `size_t` and `int` are unbounded naturals and integers, except for the explicit `SIZE_MAX` tests of the growth.
- DmesgLog.RunDmesgFiltered: each result of `fgets` is one line of the input, and forking, waiting and the results -1 are left out.
- EchoServer: threads are atomic between system calls, `shutdown` only uses the descriptor, and the listening socket and the log are left out.
- ProcStat.ParseProcStat: the memory size, read from another file, and the widths of `long` and `pid_t` are left out.
- Suggestions.SuggestionLine.SuggestionNext: drawing the menu is left out.
- The REPL's dispatch of commands, the other managers, the menus, the kernel module, scripts and demos: foreign calls or text output.
