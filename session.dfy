/**
 * The editing session of the main activity: the text buffer with its cursor, the undo and redo
 * stacks, the "undo/redo in progress" flag, the text the change watcher captured before the
 * current change, the "Modified" flag and the language identifier.
 *
 * Every change to the buffer, whether typed, inserted by a menu action or set by undo, redo,
 * new file or open, runs the watcher's two hooks around it (`ApplyText`). The hooks record
 * history only while no undo or redo is in progress; undo and redo raise the flag around their
 * own buffer replacement, and the proofs below show that it is therefore never recorded.
 */
module Session {
  import opened Wrappers
  import opened Language
  import opened Numbers
  import opened Lines
  import opened EditHistory

  /** The text after inserting s at offset c. */
  function Spliced(text: string, c: nat, s: string): (r: string)
    requires c <= |text|
    ensures |r| == |text| + |s|
    ensures r[..c] == text[..c] && r[c..c + |s|] == s && r[c + |s|..] == text[c..]
  {
    text[..c] + s + text[c..]
  }

  /** Taking the inserted text out again gives back the original; a non-empty insert changes it. */
  lemma SplicedRemoval(text: string, c: nat, s: string)
    requires c <= |text|
    ensures Spliced(text, c, s)[..c] + Spliced(text, c, s)[c + |s|..] == text
    ensures |s| > 0 ==> Spliced(text, c, s) != text
  {
  }

  class EditorSession {
    var buffer: string
    var cursor: nat
    var undo: seq<string>
    var redo: seq<string>
    /** True only while undo or redo replaces the buffer. */
    var restoring: bool
    /** The text the watcher captured before the change in progress. */
    var beforeText: string
    var modified: bool
    var languageId: string

    /** Between events: the cursor lies in the buffer, the stacks respect the cap, no restore runs. */
    ghost predicate Valid()
      reads this
    {
      cursor <= |buffer| && Bounded(State()) && !restoring
    }

    /** The buffer with its history, as a value. */
    function State(): History
      reads this
    {
      History(buffer, undo, redo)
    }

    /** The rule set the buffer is highlighted with. */
    function Rules(): Lang
      reads this
    {
      ResolveLanguage(languageId)
    }

    /**
     * A fresh start: the blank-file text, the cursor at 0, empty history, and the identifier the
     * creation code stores without saved state ("null", which selects the Java rules).
     */
    constructor (blank: string)
      ensures Valid()
      ensures State() == History(blank, [], []) && cursor == 0
      ensures !modified && languageId == LanguageIdOnCreateAsWritten(FreshStart)
      ensures Rules() == Java
    {
      FreshStartLanguageId();
      buffer := blank;
      cursor := 0;
      undo, redo := [], [];
      restoring := false;
      beforeText := "";
      modified := false;
      languageId := LanguageIdOnCreateAsWritten(FreshStart);
    }

    /** The watcher's before-change hook: capture the text unless a restore is running. */
    method BeforeTextChanged()
      modifies this`beforeText
      ensures beforeText == if restoring then old(beforeText) else buffer
    {
      if !restoring {
        beforeText := buffer;
      }
    }

    /**
     * The watcher's after-change hook: unless a restore is running, a change that really
     * altered the text records the captured text (capped) and empties redo; either way the
     * session is marked modified.
     */
    method AfterTextChanged()
      modifies this`undo, this`redo, this`modified
      ensures modified
      ensures !restoring && beforeText != buffer ==> undo == Pushed(old(undo), beforeText) && redo == []
      ensures restoring || beforeText == buffer ==> undo == old(undo) && redo == old(redo)
    {
      if !restoring {
        if beforeText != buffer {
          undo := Pushed(undo, beforeText);
          redo := [];
        }
      }
      modified := true;
    }

    /**
     * A replacement of the buffer as the text widget performs it: the before hook, the new text
     * and selection, the after hook. Outside a restore this is exactly a recorded edit.
     */
    method ApplyText(newText: string, newCursor: nat)
      requires newCursor <= |newText|
      modifies this`buffer, this`cursor, this`beforeText, this`undo, this`redo, this`modified
      ensures buffer == newText && cursor == newCursor && modified
      ensures restoring ==> undo == old(undo) && redo == old(redo) && beforeText == old(beforeText)
      ensures !restoring ==> beforeText == old(buffer) && State() == Edit(old(State()), newText)
    {
      BeforeTextChanged();
      buffer, cursor := newText, newCursor;
      AfterTextChanged();
    }

    /** A change typed by the user, leaving the cursor at newCursor. */
    method UserEdit(newText: string, newCursor: nat)
      requires Valid() && newCursor <= |newText|
      modifies this`buffer, this`cursor, this`beforeText, this`undo, this`redo, this`modified
      ensures Valid()
      ensures State() == Edit(old(State()), newText)
      ensures cursor == newCursor && modified
    {
      ApplyText(newText, newCursor);
    }

    /**
     * The undo action: nothing when the undo stack is empty; otherwise the newest snapshot
     * replaces the buffer under the restore flag (so nothing is recorded), the replaced text
     * goes onto redo, and the cursor moves to the end of the text.
     */
    method Undo()
      requires Valid()
      modifies this`buffer, this`cursor, this`beforeText, this`undo, this`redo, this`modified,
        this`restoring
      ensures Valid()
      ensures State() == EditHistory.Undo(old(State()))
      ensures old(undo) == [] ==> cursor == old(cursor) && modified == old(modified)
      ensures old(undo) != [] ==> cursor == |buffer| && modified
    {
      if undo != [] {
        var currentText := buffer;
        var previousText := undo[|undo| - 1];
        undo := undo[..|undo| - 1];
        redo := redo + [currentText];
        restoring := true;
        ApplyText(previousText, 0);
        cursor := |buffer|;
        restoring := false;
      }
    }

    /** The redo action, the mirror image of undo; it pushes onto undo without trimming. */
    method Redo()
      requires Valid()
      modifies this`buffer, this`cursor, this`beforeText, this`undo, this`redo, this`modified,
        this`restoring
      ensures Valid()
      ensures State() == EditHistory.Redo(old(State()))
      ensures old(redo) == [] ==> cursor == old(cursor) && modified == old(modified)
      ensures old(redo) != [] ==> cursor == |buffer| && modified
    {
      if redo != [] {
        var currentText := buffer;
        var nextText := redo[|redo| - 1];
        redo := redo[..|redo| - 1];
        undo := undo + [currentText];
        restoring := true;
        ApplyText(nextText, 0);
        cursor := |buffer|;
        restoring := false;
      }
    }

    /**
     * Inserting s at the cursor through the text widget: the text is spliced, the cursor ends
     * after the inserted text, and the change is recorded like any other edit.
     */
    method InsertAtCursor(s: string)
      requires Valid()
      modifies this`buffer, this`cursor, this`beforeText, this`undo, this`redo, this`modified
      ensures Valid()
      ensures buffer == Spliced(old(buffer), old(cursor), s) && cursor == old(cursor) + |s|
      ensures State() == Edit(old(State()), buffer)
      ensures |s| > 0 ==> undo == Pushed(old(undo), old(buffer)) && redo == []
    {
      SplicedRemoval(buffer, cursor, s);
      ApplyText(Spliced(buffer, cursor, s), cursor + |s|);
    }

    /** The tab action. */
    method InsertTab()
      requires Valid()
      modifies this`buffer, this`cursor, this`beforeText, this`undo, this`redo, this`modified
      ensures Valid()
      ensures buffer == Spliced(old(buffer), old(cursor), "\t") && cursor == old(cursor) + 1
      ensures undo == Pushed(old(undo), old(buffer)) && redo == []
    {
      InsertAtCursor("\t");
    }

    /** The left-brace action. */
    method InsertLeftBrace()
      requires Valid()
      modifies this`buffer, this`cursor, this`beforeText, this`undo, this`redo, this`modified
      ensures Valid()
      ensures buffer == Spliced(old(buffer), old(cursor), "{") && cursor == old(cursor) + 1
      ensures undo == Pushed(old(undo), old(buffer)) && redo == []
    {
      InsertAtCursor("{");
    }

    /** The right-brace action. */
    method InsertRightBrace()
      requires Valid()
      modifies this`buffer, this`cursor, this`beforeText, this`undo, this`redo, this`modified
      ensures Valid()
      ensures buffer == Spliced(old(buffer), old(cursor), "}") && cursor == old(cursor) + 1
      ensures undo == Pushed(old(undo), old(buffer)) && redo == []
    {
      InsertAtCursor("}");
    }

    /**
     * The go-to-line dialog's "Go" button with the typed text: a valid line number moves the
     * cursor to that line's start, reported as that line and column 1; anything else changes
     * nothing. The buffer and history are never touched.
     */
    method GoToLine(input: string)
      requires Valid()
      modifies this`cursor
      ensures Valid()
      ensures GoToLineTarget(buffer, input).Some? ==> cursor == GoToLineTarget(buffer, input).value
      ensures GoToLineTarget(buffer, input).Some? ==> CursorPos(buffer, cursor).line == ParseInt(input).value
      ensures GoToLineTarget(buffer, input).None? ==> cursor == old(cursor)
    {
      match GoToLineTarget(buffer, input)
      case Some(p) => cursor := p;
      case None =>
    }

    /**
     * Confirming "new file": the blank text replaces the buffer (through the watcher), the
     * identifier returns to "java", and the session is unmodified with both stacks empty.
     */
    method NewFile(blank: string)
      requires Valid()
      modifies this
      ensures Valid()
      ensures State() == History(blank, [], []) && cursor == 0
      ensures languageId == DefaultLanguageId && Rules() == Java && !modified
    {
      ApplyText(blank, 0);
      languageId := DefaultLanguageId;
      modified := false;
      undo, redo := [], [];
    }

    /**
     * A document picked in the open dialog: the identifier comes from its URI, its content
     * replaces the buffer (through the watcher), and the session is unmodified with both stacks
     * empty.
     */
    method OpenFile(uri: DocumentUri, content: string)
      requires Valid()
      modifies this
      ensures Valid()
      ensures State() == History(content, [], []) && cursor == 0
      ensures languageId == ExtFromUri(uri) && Rules() == ResolveLanguage(ExtFromUri(uri)) && !modified
    {
      languageId := ExtFromUri(uri);
      ApplyText(content, 0);
      modified := false;
      undo, redo := [], [];
    }
  }

  /**
   * A client of the session: type "d" after "abc", undo, redo; then undo and type something
   * else, which leaves nothing to redo.
   */
  method UndoRedoScenario()
  {
    var session := new EditorSession("abc");
    session.UserEdit("abcd", 4);
    assert session.undo == ["abc"] by { assert "abcd" != "abc" by { assert |"abcd"| == 4; } }
    session.Undo();
    assert session.buffer == "abc" && session.cursor == 3;
    session.Redo();
    assert session.buffer == "abcd" && session.redo == [];
    session.Undo();
    assert session.redo == ["abcd"];
    session.UserEdit("abcx", 4);
    assert session.redo == [] by { assert "abcx" != "abc" by { assert |"abcx"| == 4; } }
  }
}
