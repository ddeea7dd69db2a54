# FHCode editor session, modelled in Dafny

FHCode is an Android source-code editor. Its main activity holds, besides the Android plumbing,
the editing-session logic this project models and proves:

- **Edit history.** A change watcher captures the buffer before every change. After the change
  it pushes that snapshot onto an undo stack, but only if the text really changed. The stack is
  capped at 100 entries by dropping the oldest, and the redo stack is cleared. Undo and redo
  move one snapshot between the stacks and put the cursor at the end. While they replace the
  buffer, a flag stops the watcher from recording. New file and open clear both stacks.
- **Language resolution.** The language identifier (a file extension) maps to one of eleven
  highlighting rule sets, with aliases and a Java fallback. The identifier comes from the
  text in column 2 of the document provider's query row (the part after its last '.'), from
  the document's MIME type when the query gives no cursor, or is "java" when there is no
  document.
- **Cursor position and go-to-line.** The status bar shows "Ln L, Col C" for the cursor offset.
  Go-to-line reads a number and moves the cursor to the start of that line when the line exists.
  Otherwise it does nothing.
- **Structural inserts.** The tab, `{` and `}` actions insert one character at the cursor
  through the normal change path.

Files (one module each):

- `wrappers.dfy`: `Option`.
- `language.dfy`: `Lang`, `ResolveLanguage`, `Split`/`ExtOf` (Kotlin's `split(".").last()`),
  `ExtFromUri`, and the identifier restored on activity creation.
- `numbers.dfy`: decimal formatting of the status numbers, and Kotlin's `toIntOrNull` as
  `ParseInt`.
- `lines.dfy`: the newline-based line index, `CursorPos`, `StatusText` and `GoToLineTarget`.
- `history.dfy`: the history as a value. Edit, undo and redo steps, the 100-entry cap, runs of
  events, and the invariant |undo| + |redo| <= 100.
- `session.dfy`: class `EditorSession`. Its fields are the buffer, cursor, both stacks, the
  restore flag, the captured text, the modified flag and the language identifier. The watcher's
  two hooks are methods. Every buffer change goes through `ApplyText`, which runs them around the
  change. Each method's new state is tied to the pure steps of `history.dfy`.

Points of the code's behaviour worth knowing:

- The code matches identifiers exactly; nothing lower-cases them, so "PY" falls back to Java.
- The code trims only the undo stack. Redo pushes onto undo without trimming. The cap still
  holds, because the two stacks together never exceed 100 (`EditHistory.RunBounded`).
- The stacks are growable lists trimmed by hand, not ring buffers.
- Without saved state the creation code stores the identifier "null" (see "## Findings");
  `EditorSession`'s constructor keeps that value, which selects the Java rules.

## Model

| member | source | states |
|---|---|---|
| Language.ResolveLanguage | app/src/main/java/com/fredhappyface/fhcode/ActivityMain.kt:91-104 | Total. An identifier listed under a rule set selects that rule set, and any result other than Java comes from its alias list. |
| Language.UnknownFallsBackToJava | app/src/main/java/com/fredhappyface/fhcode/ActivityMain.kt:91-104 | An identifier no branch names resolves to Java, exactly as "java" does. |
| Language.AliasesSelectTheirLanguage | app/src/main/java/com/fredhappyface/fhcode/ActivityMain.kt:93-103 | Each listed alias (cpp/c/h/hpp, csharp/cs, go, java, json/jsonc, php..phtml, py/pyc/pyo, rb, swift, ts/js, xml/xsd/xsl) selects its own rule set. |
| Language.AliasesDisjoint | app/src/main/java/com/fredhappyface/fhcode/ActivityMain.kt:92-104 | No identifier is listed under two rule sets, so branch order is irrelevant. |
| Language.Split | app/src/main/java/com/fredhappyface/fhcode/ActivityMain.kt:277 | `split(".")` yields at least one piece, every piece is dot-free, and joining the pieces with '.' gives back the input. |
| Language.ExtOf | app/src/main/java/com/fredhappyface/fhcode/ActivityMain.kt:277 | The extension is the longest dot-free suffix of the name. It is the whole name when there is no '.' and empty after a trailing '.'. |
| Language.ExtOfDotted | app/src/main/java/com/fredhappyface/fhcode/ActivityMain.kt:277 | Any name base + "." + ext with a dot-free ext has extension ext. |
| Language.ExampleExtension | app/src/test/java/com/fredhappyface/fhcode/ActivityMainUnitTest.kt:45-52 | "example.py" has extension "py", which selects Python. |
| Language.ExtFromUri | app/src/main/java/com/fredhappyface/fhcode/ActivityMain.kt:270-284 | "java" without a URI, the extension of the text in column 2 when the query returns a cursor, otherwise the MIME extension rendered by `toString()` ("null" when there is none). |
| Language.UnknownDocumentIsJava | app/src/main/java/com/fredhappyface/fhcode/ActivityMain.kt:279-283 | A missing URI, or a document with no name and no MIME extension, is highlighted as Java. |
| Language.LanguageIdOnCreateAsWritten | app/src/main/java/com/fredhappyface/fhcode/ActivityMain.kt:77 | As written, it agrees with the intended identifier whenever a saved bundle exists, and always selects the same rule set. |
| Language.LanguageIdOnCreate | app/src/main/java/com/fredhappyface/fhcode/ActivityMain.kt:76-77 | The saved identifier when there is one, else "java". |
| Language.FreshStartLanguageId | app/src/main/java/com/fredhappyface/fhcode/ActivityMain.kt:77 | On a fresh start the code as written stores "null" instead of "java". Both resolve to Java. |
| Numbers.Decimal | app/src/main/java/com/fredhappyface/fhcode/ActivityMain.kt:340 | The status numbers print as digits only, with no leading zero. |
| Numbers.DecimalValue | app/src/main/java/com/fredhappyface/fhcode/ActivityMain.kt:340 | Reading the printed digits back gives the number. |
| Numbers.ParseInt | app/src/main/java/com/fredhappyface/fhcode/ActivityMain.kt:355 | `toIntOrNull`: a result exists exactly when the text is an optional sign followed by at least one digit (leading zeros allowed) whose signed value fits in Int, and it is that value. |
| Numbers.ParseDecimal | app/src/main/java/com/fredhappyface/fhcode/ActivityMain.kt:355 | Every non-negative Int round-trips through its decimal text. |
| Numbers.ParseSignedDecimal | app/src/main/java/com/fredhappyface/fhcode/ActivityMain.kt:355 | "-n" reads as -n down to Int.MIN_VALUE, and "+n" reads as n. |
| Numbers.ParseRejectsNonDigit | app/src/main/java/com/fredhappyface/fhcode/ActivityMain.kt:355 | Text with a character that is neither a digit nor a leading sign reads as null. |
| Lines.LineStart | app/src/main/java/com/fredhappyface/fhcode/ActivityMain.kt:357-358 | Line k starts at offset 0 or just after a newline, with exactly k newlines before it. |
| Lines.LineCount | app/src/main/java/com/fredhappyface/fhcode/ActivityMain.kt:356 | There is always at least one line, and exactly one when the text holds no newline. |
| Lines.LineOf | app/src/main/java/com/fredhappyface/fhcode/ActivityMain.kt:338 | The 0-based line of an offset is below the line count, the end of the text is on the last line, and the next offset is one line further exactly when the character at the offset is a newline. |
| Lines.StatusText | app/src/main/java/com/fredhappyface/fhcode/ActivityMain.kt:340 | The text is "Ln ", a digit run, ", Col " and a digit run, with no leading zeros, and the two runs read back as the cursor's line and column. |
| Lines.CursorPos | app/src/main/java/com/fredhappyface/fhcode/ActivityMain.kt:332-341 | Line = newlines before the offset + 1, at most the line count. Column - 1 = the characters since the line start, so it is >= 1 and at most the line length + 1. |
| Lines.GoToLineTarget | app/src/main/java/com/fredhappyface/fhcode/ActivityMain.kt:354-361 | A target exists iff the input parses to n with 1 <= n <= line count. The target is then reported as line n, column 1. |
| Lines.GoToTypedLine | app/src/main/java/com/fredhappyface/fhcode/ActivityMain.kt:355-360 | Typing the number of any existing line reaches that line's start. |
| Lines.GoToOutOfRange | app/src/main/java/com/fredhappyface/fhcode/ActivityMain.kt:355-356 | Zero, negatives and numbers past the last line give no target. |
| Lines.CursorAfterHello | app/src/androidTest/java/com/fredhappyface/fhcode/ActivityMainInstrumentedTest.kt:187-195 | "Hello" with the cursor at 5 shows "Ln 1, Col 6". |
| Lines.CursorAtWorld | app/src/main/java/com/fredhappyface/fhcode/ActivityMain.kt:338-340 | "Hello\nWorld" with the cursor at 6 shows "Ln 2, Col 1". |
| Lines.CursorAfterWorld | app/src/androidTest/java/com/fredhappyface/fhcode/ActivityMainInstrumentedTest.kt:199-207 | "Hello\nWorld" with the cursor at 11 shows "Ln 2, Col 6". |
| Lines.GoToLineExamples | app/src/androidTest/java/com/fredhappyface/fhcode/ActivityMainInstrumentedTest.kt:230-297 | On a four-line buffer, "3" reaches line 3, and "100" and "0" do nothing. |
| EditHistory.Pushed | app/src/main/java/com/fredhappyface/fhcode/ActivityMain.kt:156-160 | The snapshot goes on top. Below it is the old stack if it held fewer than 100 entries, else the old stack minus its oldest entry. The result never exceeds 100 entries. |
| EditHistory.PushedIsNewest | app/src/main/java/com/fredhappyface/fhcode/ActivityMain.kt:156-160 | Recording keeps exactly the newest 100 snapshots. |
| EditHistory.Edit | app/src/main/java/com/fredhappyface/fhcode/ActivityMain.kt:152-163 | A change records the old text and clears redo. An unchanged text leaves both stacks alone. The bound is kept. |
| EditHistory.Undo | app/src/main/java/com/fredhappyface/fhcode/ActivityMain.kt:371-384 | A no-op on an empty stack. Otherwise the newest undo snapshot becomes the text and the current text goes onto redo. The total stack size is kept. |
| EditHistory.Redo | app/src/main/java/com/fredhappyface/fhcode/ActivityMain.kt:389-402 | The mirror image of undo, pushing onto undo without trimming. The total stack size is kept. |
| EditHistory.RedoAfterUndo | app/src/main/java/com/fredhappyface/fhcode/ActivityMain.kt:371-402 | Undo then redo restores the text and both stacks. |
| EditHistory.UndoAfterRedo | app/src/main/java/com/fredhappyface/fhcode/ActivityMain.kt:371-402 | Redo then undo restores the text and both stacks. |
| EditHistory.RunBounded | app/src/main/java/com/fredhappyface/fhcode/ActivityMain.kt:156-162 | No sequence of edits, undos and redos takes the two stack sizes together above 100, so undo stays within its cap although redo never trims. |
| EditHistory.EditsKeepNewest | app/src/main/java/com/fredhappyface/fhcode/ActivityMain.kt:156-162 | After changing edits, undo holds the newest 100 of the old entries plus the replaced texts, and redo is empty. |
| EditHistory.HundredFiftyEdits | app/src/main/java/com/fredhappyface/fhcode/ActivityMain.kt:158-160 | 150 changing edits from empty leave exactly the 100 most recent pre-edit texts. |
| EditHistory.TypeUndoRedo | app/src/main/java/com/fredhappyface/fhcode/ActivityMain.kt:371-402 | "abc", then typing "abcd", undo gives "abc", and redo gives "abcd". |
| EditHistory.EditAfterUndoClearsRedo | app/src/main/java/com/fredhappyface/fhcode/ActivityMain.kt:161-162 | A new edit after an undo empties the redo stack that the undo filled. |
| Session.Spliced | app/src/main/java/com/fredhappyface/fhcode/ActivityMain.kt:407-432 | Inserting s at c grows the text by the length of s, keeps everything before and after, and puts s at c. |
| Session.SplicedRemoval | app/src/main/java/com/fredhappyface/fhcode/ActivityMain.kt:407-432 | Removing the inserted text restores the original, and a non-empty insert always changes the text. |
| Session.EditorSession.constructor | app/src/main/java/com/fredhappyface/fhcode/ActivityMain.kt:55-63 | A fresh session holds the blank text, the cursor at 0, no history, unmodified, and the identifier "null" that the creation code stores without saved state, which selects the Java rules. |
| Session.EditorSession.BeforeTextChanged | app/src/main/java/com/fredhappyface/fhcode/ActivityMain.kt:145-150 | Captures the buffer unless a restore is running. |
| Session.EditorSession.AfterTextChanged | app/src/main/java/com/fredhappyface/fhcode/ActivityMain.kt:152-168 | Outside a restore, a real change records the captured text (capped) and clears redo. Otherwise neither stack changes. Always marks the session modified. |
| Session.EditorSession.ApplyText | app/src/main/java/com/fredhappyface/fhcode/ActivityMain.kt:145-168 | A buffer change with both hooks around it. During a restore nothing is recorded; outside one it is exactly an `Edit` step. |
| Session.EditorSession.UserEdit | app/src/main/java/com/fredhappyface/fhcode/ActivityMain.kt:145-168 | A typed change is an `Edit` step on the session state and keeps the invariant. |
| Session.EditorSession.Undo | app/src/main/java/com/fredhappyface/fhcode/ActivityMain.kt:371-384 | The state becomes `EditHistory.Undo` of the old state, so the restore is not recorded. On success the cursor is at the end and the flag is down again. On an empty stack nothing changes. |
| Session.EditorSession.Redo | app/src/main/java/com/fredhappyface/fhcode/ActivityMain.kt:389-402 | The state becomes `EditHistory.Redo` of the old state. The cursor and flag behave as for undo. |
| Session.EditorSession.InsertAtCursor | app/src/main/java/com/fredhappyface/fhcode/ActivityMain.kt:407-432 | The buffer becomes the splice at the cursor, and the cursor moves past the insert. The old buffer is recorded and redo cleared. |
| Session.EditorSession.InsertTab | app/src/main/java/com/fredhappyface/fhcode/ActivityMain.kt:407-412 | Inserts "\t" at the cursor and records the old buffer. |
| Session.EditorSession.InsertLeftBrace | app/src/main/java/com/fredhappyface/fhcode/ActivityMain.kt:417-422 | Inserts "{" at the cursor and records the old buffer. |
| Session.EditorSession.InsertRightBrace | app/src/main/java/com/fredhappyface/fhcode/ActivityMain.kt:427-432 | Inserts "}" at the cursor and records the old buffer. |
| Session.EditorSession.GoToLine | app/src/main/java/com/fredhappyface/fhcode/ActivityMain.kt:354-361 | A valid line number moves the cursor to that line's start, which is reported as that line. Anything else leaves the cursor. The buffer and history never change. |
| Session.EditorSession.NewFile | app/src/main/java/com/fredhappyface/fhcode/ActivityMain.kt:495-505 | Afterwards: the blank text, cursor 0, both stacks empty, the "java" identifier, unmodified. |
| Session.EditorSession.OpenFile | app/src/main/java/com/fredhappyface/fhcode/ActivityMain.kt:555-569 | Afterwards: the document's content, cursor 0, both stacks empty, unmodified, and the identifier taken from the URI. |

## Left out

- Highlighting (`TextHighlight`, the `LanguageRules` classes, the `Colours` themes) is not part of this model. Their source is not included; only the rule-set tag that selects them is modelled.
- The Android lifecycle and UI are left out: view wiring, text size and `recreate()`, menus, `updateTitle`, `onSaveInstanceState`, and `ActivityStart`. The confirmation dialogs of new file and open are modelled by their confirmed path only.
- File and storage I/O are platform calls and are left out: `readTextFromUri` (with its 1 MiB "File too large!" sentinel), `writeTextToUri`, `getInitialUri`, `buildDocumentUri` and `getFilenameFromURI`. `OpenFile` takes the content that was read as a parameter. `ExtFromUri` takes the text in column 2 of the query row, or the MIME table's answer, as a parameter.
- Language.ExtFromUri: does not model the failures of `getExtFromURI`. When the query returns an empty cursor, or column 2 holds null, `getString(2)` or the `split` after it throws and the activity fails; the model assumes the column holds text.
- Save and save-as (`doFileSave`, `completeFileSaveAs`, `showDialogMessageSave`) are left out. They write through the platform. Only save-as re-derives the identifier from the new URI (ActivityMain.kt:616); plain save keeps it. Both end in the "saved" dialog, whose button clears the modified flag and calls `recreate()` (ActivityMain.kt:318-325). The recreated activity starts with empty undo and redo stacks, so saving discards the edit history; the model does not show this loss.
- Lines are the pieces between '\n' characters. Android's layout can also soft-wrap a long line, which changes `getLineForOffset`, `getLineStart` and `lineCount`; that is not modelled. The case of a missing layout, where the status is not updated, is not modelled either.
- The cursor is a single offset (`selectionStart`); selection ranges are not modelled. After a typed change the platform supplies the cursor as a parameter. After a whole-text replacement it is 0. After an insert at the cursor it sits after the inserted text, as Android's point selection does.
- Offsets count Dafny characters, which are Unicode scalar values, while the source counts UTF-16 code units. A character outside the Basic Multilingual Plane (an emoji, say) is one character here and two code units in the source, so `CursorPos` columns and `GoToLineTarget` offsets after such a character differ from the source's. A lone surrogate, which a Kotlin string can hold, cannot be represented at all.
- Numbers.ParseInt: accepts only the ASCII digits '0'-'9', while Kotlin's `toIntOrNull` also accepts other Unicode decimal digits. The dialog's numeric keyboard produces ASCII digits.
- The `isModified` flag is modelled as a boolean. The "Modified" label that displays it is not.

## Findings

| source | as written | input that shows it | evidently intended | confidence | as-written member | corrected member |
|---|---|---|---|---|---|---|
| app/src/main/java/com/fredhappyface/fhcode/ActivityMain.kt:77 | The bundle lookup uses a safe call, and the plain `toString()` after it turns a null result into the text "null". So without a saved bundle the stored identifier is "null", not the "java" default given to `getString`. | A fresh start of the activity, with no saved instance state | "java" | high; not executed. Harmless: "null" falls back to the Java rule set (`Language.FreshStartLanguageId`) | Language.LanguageIdOnCreateAsWritten | Language.LanguageIdOnCreate |
