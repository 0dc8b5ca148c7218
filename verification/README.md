# Completion cycling for a line editor, in Dafny

This project models the completion engine in `complete.c` of `input`, a
small line-reading front end. `complete` has the shape of a libedit
completion callback: it takes the editor handle and returns a libedit result
code. The files here contain no code that binds it to a key, and no code that
calls `initcomp`, `addcomp` or `complete`. Each call of `complete` (a
*press*) does one of two things:

- **Fresh press.** It takes the *input*, meaning the whole line or the word
  after the last space. It asks a candidate source for completions and
  remembers the cursor as the *base*. It then inserts the part of the first
  candidate that lies past the base.
- **Repeat press.** The input is unchanged since the last press. It deletes
  the cursor - base characters before the cursor and inserts the next
  candidate instead. Those characters are what the last press inserted only
  if the cursor has not moved since.

The model is purely functional:

- The editor is a `Line`: the buffer and the cursor. It has two primitives, `Delete` (n characters
  before the cursor) and `Insert` (text at the cursor).
- The C file's static variables become an explicit `Session`. It holds the
  candidate list, the index of the candidate applied last, the recorded
  input and the base cursor.
- `Complete` is a step function. It returns the new session, the new line
  and the result code: `CC_REFRESH`, `CC_ERROR`, or a failed `assert()`
  (modelled as `Abort`).
- The candidate source (`compfn`) is a parameter. It is a function from the
  input to the strings it hands to `addcomp`. No concrete candidate source
  exists in these files, so it stays abstract.

Modules:

- `Options`: optional values, standing for C values that may be NULL.
- `CStrings`: NUL-terminated strings and the `strlen`/`strncmp` view of them.
- `Editor`: the line and its two primitives.
- `Fragment`: `getin` and `memrchr`.
- `CompList`: `addcomp` and `nxtcomp` on the head-fixed list, held as its
  traversal order.
- `Cycle`: `initcomp`, `freecomps` and `complete`.
- `CycleProps`: what sequences of presses do.
- `StaleInput`: the finding below.

The model follows the code as written in these places:

- Word scope looks for the last space in the whole line, not only before the
  cursor.
- On a repeat press with a single candidate, the cursor - base characters
  before the cursor are deleted and nothing is re-inserted. The next press
  is fresh again only if the earlier press had inserted something. If it had
  not (the offset was at or past the candidate's end), the line is unchanged
  and the next press is a repeat again.
- When the insertion offset is past the candidate's end, the candidate is
  recorded as applied but the list does not advance within that press.
- A fresh press with no candidates keeps the previously recorded input
  (see Findings).

## Model

| member | source | states |
|---|---|---|
| Fragment.GetIn | complete.c:26-45 | Line scope: the input is the whole buffer from offset 0, wherever the cursor is. Word scope: the input is a space-free suffix of the line that starts at 0 or right after a space. |
| Fragment.LastIndexOf | complete.c:38 | The memrchr result is the index of an occurrence of the character with none after it, or none when the character does not occur. |
| Fragment.WordStartUnique | complete.c:38-44 | The word-scope start is the only offset where a space-free suffix of the line begins at 0 or after a space (both directions). |
| Fragment.InputIgnoresCursor | complete.c:32-44 | In both scopes, the input depends only on the buffer, not on where the cursor is. |
| Fragment.WordScopeSearchesWholeLine | complete.c:32-44 | With the cursor inside the first word of "foo bar", the word-scope input is still "bar". |
| Fragment.FooBarExample | complete.c:26-45 | For "foo bar", word scope gives "bar" starting at 4 and line scope gives the whole line. |
| CompList.AddComp | complete.c:77-94 | The first candidate becomes the head. Each later one is placed right after the head, and the rest of the list keeps its order. |
| CompList.AddAll | complete.c:87-93 | Handing a sequence of strings to addcomp one by one grows the list by exactly one node per string. |
| CompList.AddAllOrder | complete.c:87-93 | Adding a0, a1, ..., an to an empty list gives the traversal order a0, an, ..., a1. |
| CompList.AddAllAfterHead | complete.c:87-93 | Adding to a non-empty list keeps the head and the old tail, and puts the new candidates between them in reverse. |
| CompList.NxtComp | complete.c:47-59 | nxtcomp on an existing node gives the index (i + 1) mod n. It gives none exactly when the list has one element. |
| CompList.FullRound | complete.c:52-58 | With two or more candidates, n successors from any node come back to it. |
| CompList.AdvanceWithin | complete.c:52-58 | Short of the end, m successors from i reach i + m. Exactly at the end, they wrap to the head. |
| CStrings.CStr | complete.c:155-159 | The recorded copy is the input up to its first NUL, which is also all that strlen sees. |
| CStrings.StrnEqual | complete.c:121 | The strncmp model reports equality whenever the first n characters agree. For NUL-free strings, it reports equality only when they agree. |
| CStrings.StrnEqualIff | complete.c:121 | When the recorded string has no NUL and the same length as the input, strncmp over the input's length reports equality exactly when the strings are equal. |
| Cycle.InitComp | complete.c:96-101 | initcomp installs the candidate source and picks word scope exactly when the flag is non-zero. |
| Cycle.FreeComps | complete.c:61-75 | freecomps leaves the candidate list empty and changes nothing else. |
| Cycle.IsFresh | complete.c:121 | A press is fresh when nothing is recorded, when the input's length differs from the record's strlen, or when strncmp over the input's length finds a difference. |
| Cycle.FreshIff | complete.c:121 | A press is fresh exactly when nothing is recorded or the input differs from the record. |
| Cycle.InsertOffset | complete.c:141-145 | The offset is the base cursor, minus the input's start in word scope. It is absent exactly when that subtraction would wrap below zero. |
| Cycle.Remainder | complete.c:147-149 | Text is inserted only when the offset is below the candidate's length. The inserted text is non-empty and completes the candidate's prefix up to the offset. |
| Cycle.Apply | complete.c:141-162 | Exactly the candidate's remainder is inserted at the cursor, or nothing when it has none. Then the input of the edited line is recorded and the candidate is marked as applied. The list and the base do not change. |
| Cycle.Complete | complete.c:103-163 | State validity is kept. CC_ERROR is returned exactly on a fresh press whose source yields nothing, and then the line is unchanged and the list is empty. An assertion fails exactly on a repeat with the cursor behind the base or with no applied candidate. |
| CycleProps.FreshPress | complete.c:121-131 | A fresh press with candidates stores them in addcomp order, sets the base to the cursor, applies the head and inserts its remainder. |
| CycleProps.RepeatPressSingle | complete.c:132-138 | A repeat with one candidate deletes cursor - base characters, inserts nothing, keeps the state and returns CC_REFRESH. |
| CycleProps.RepeatPressNext | complete.c:132-150 | A repeat with two or more candidates deletes cursor - base characters, applies the successor and inserts its remainder. |
| CycleProps.NextPressRepeats | complete.c:152-162 | After a press that reaches the recording step on a NUL-free line, the record equals the new input, so the next press is a repeat. |
| CycleProps.EditBreaksCycle | complete.c:121 | In line scope, any change to the line's contents between presses, even one that keeps its length, makes the next press fresh. |
| CycleProps.FirstPressStartsCycle | complete.c:121-162 | In line scope, the first press of a session applies the head at the base line and starts a cycling state. |
| CycleProps.RepeatPressCycles | complete.c:132-162 | In line scope with two or more candidates, a repeat restores the base line and applies the successor there. |
| CycleProps.SingleCandidateToggles | complete.c:133-138 | In line scope with one candidate, a repeat returns to the base line with the state unchanged. The following press is fresh exactly when something had been inserted. |
| CycleProps.RunCycles | complete.c:132-162 | In line scope with two or more candidates, m repeats advance the applied candidate m times and stay in the cycling state. |
| CycleProps.FullCycleRestores | complete.c:132-162 | In line scope with n >= 2 candidates, n repeats after the first press bring back exactly the line and state that the first press produced. |
| CycleProps.SpaceInCandidateSkipsSuccessor | complete.c:141-148 | Example: in word scope with candidates "a b" and "ac" on the line "a", the presses alternate between "a b" and "a", and "ac" never reaches the line. |
| CycleProps.SpaceMovesWordStart | complete.c:38-44 | In word scope, inserting text that contains a space moves the input start past the old cursor, so an offset taken from that cursor as the base wraps below zero. |
| CycleProps.SpaceSkipsSuccessor | complete.c:132-148 | In word scope, for every session with two or more candidates: a repeat on the base line plus inserted text containing a space returns to the base line, applies the successor and inserts nothing. |
| Editor.Delete | complete.c:135 | el_deletestr removes exactly n characters before the cursor and moves the cursor back by n. The text on either side is kept. |
| Editor.Insert | complete.c:149 | el_insertstr puts the text at the cursor and moves the cursor past it. The text on either side is kept. |
| Editor.DeleteUndoesInsert | complete.c:133-149 | Deleting as many characters as were inserted restores the line. |
| StaleInput.CompleteFixed | complete.c:121-127 | Corrected controller: CC_ERROR also clears the record. A record then always comes with an applied candidate, and the only assertion left is the one on the cursor. |
| StaleInput.StaleInputAborts | complete.c:121-137 | A concrete sequence of presses and edits makes the original controller fail its nxtcomp assertion. |
| StaleInput.StaleInputFixed | complete.c:121-127 | The same sequence with the corrected controller ends in a fresh press that reports CC_ERROR. |
| StaleInput.FixedAgreesWhileCycling | complete.c:132-162 | During a line-scope cycle, the corrected controller behaves exactly like the original. |

## Left out

- `input.c` is not part of this model. It uses linenoise, not libedit: it registers its own callback `comp` with `linenoiseSetCompletionCallback` (input.c:156), and `comp` hands the lines found by a `grep` subprocess to `linenoiseAddCompletion` (input.c:89). It never calls `initcomp`, `addcomp` or `complete`. The rest of it is argument parsing, history load/save, and signal and terminal handling. No `compfn` is defined anywhere in these files, so the candidate source is the abstract parameter `Config.source`.
- Multi-byte text is not modelled. The model is ASCII-only, so one `base` field stands for both `bbcur` (bytes) and `bccur` (characters).
- The line editor's internals are out of scope. `Delete` and `Insert` are the abstract primitives behind `el_deletestr` and `el_insertstr`, and `Delete` requires what the engine always guarantees: no more characters than lie before the cursor.
- Allocation failures (`malloc`, `strdup`) and the fatal exit when `el_insertstr` fails are left out. Allocation and insertion always succeed in the model.
- The `ch` argument of `complete` is ignored, as in the source.
- Assertions are modelled as enabled: a failed `assert()` is the `Abort` code. Builds with `NDEBUG` would dereference NULL or delete a wrapped count instead.
- Cycle.InsertOffset: the wrapped `size_t` value is not computed. Any wrapped value exceeds the length of every candidate that fits in memory, so the model skips insertion directly.
- CycleProps.FullCycleRestores: proved for line scope only. In word scope, a candidate containing a space breaks the cycle (see CycleProps.SpaceSkipsSuccessor). It also requires a NUL-free starting line: with a NUL in the input, the recorded copy is cut at the NUL, the next press is fresh, and no cycle starts (as for CycleProps.NextPressRepeats).
- CycleProps.NextPressRepeats: stated for NUL-free lines only. With a NUL in the input, the recorded copy is cut at the NUL, and the next press is fresh.

## Findings

| source | as written | input that shows it | evidently intended | confidence | as-written member | corrected member |
|---|---|---|---|---|---|---|
| complete.c:121-127 | A fresh press that finds no candidates returns CC_ERROR. It has already cleared `lcomp`, but it keeps `linput` from the previous session. | Line scope, word list {"abc"}. Press on "ab" (inserts "c"), type "d", press (CC_ERROR), delete the "d", press. The last press matches the stale record, takes the repeat path and fails `assert(lcomp)` in `nxtcomp`. | A failed fetch leaves no session behind, so the next press starts fresh. | high, not executed | StaleInput.StaleInputAborts | StaleInput.CompleteFixed |

`StaleInput.CompleteFixed` differs from `Cycle.Complete` only on CC_ERROR.
`StaleInput.FixedAgreesWhileCycling` shows the two agree during a cycle, so
the cycle properties in `CycleProps` hold for the corrected controller as
well.
