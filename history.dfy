/**
 * The edit history as values: the buffer text with its undo and redo stacks of whole-buffer
 * snapshots (the top of a stack is its last element).
 *
 * A recorded edit pushes the text from before the edit onto undo, dropping the oldest entry
 * when undo grows past 100, and empties redo. Undo and redo each move one snapshot from one
 * stack to the other, exchanging it with the current text. Redo pushes onto undo without the
 * 100-entry trim; the cap still holds because |undo| + |redo| never exceeds 100.
 */
module EditHistory {

  /** The undo stack's capacity. */
  const MaxUndo: nat := 100

  datatype History = History(text: string, undo: seq<string>, redo: seq<string>)

  /** The invariant every operation keeps: both stacks together hold at most 100 snapshots. */
  predicate Bounded(h: History)
  {
    |h.undo| + |h.redo| <= MaxUndo
  }

  /** The last (newest) 100 entries of s, or all of s when it is shorter. */
  function Newest(s: seq<string>): (r: seq<string>)
    ensures |r| == if |s| <= MaxUndo then |s| else MaxUndo
    ensures r == s[|s| - |r|..]
  {
    if |s| <= MaxUndo then s else s[|s| - MaxUndo..]
  }

  /**
   * The undo stack after recording a snapshot: the snapshot is on top; below it is the old
   * stack when that held fewer than 100 entries, or the old stack without its oldest entry.
   */
  function Pushed(undo: seq<string>, snapshot: string): (r: seq<string>)
    ensures |r| >= 1 && r[|r| - 1] == snapshot
    ensures |undo| < MaxUndo ==> r[..|r| - 1] == undo
    ensures |undo| >= MaxUndo ==> r[..|r| - 1] == undo[1..]
    ensures |undo| <= MaxUndo ==> |r| <= MaxUndo
  {
    var grown := undo + [snapshot];
    assert grown[..|undo|] == undo;
    if |grown| > MaxUndo then
      assert grown[1..][..|undo| - 1] == undo[1..];
      grown[1..]
    else
      grown
  }

  /** Recording keeps exactly the 100 newest snapshots. */
  lemma PushedIsNewest(undo: seq<string>, snapshot: string)
    requires |undo| <= MaxUndo
    ensures Pushed(undo, snapshot) == Newest(undo + [snapshot])
  {
  }

  /** Trimming early or late keeps the same newest entries. */
  lemma NewestOfNewest(a: seq<string>, b: seq<string>)
    ensures Newest(Newest(a) + b) == Newest(a + b)
  {
    if |a| > MaxUndo {
      var na := Newest(a);
      var x, y := Newest(na + b), Newest(a + b);
      assert |x| == |y| == MaxUndo;
      forall i | 0 <= i < MaxUndo
        ensures x[i] == y[i]
      {
        var k := |b| + i;
        assert x[i] == (na + b)[k];
        assert y[i] == (a + b)[|a| - MaxUndo + k];
        if k < MaxUndo {
          assert (na + b)[k] == na[k] == a[|a| - MaxUndo + k];
        } else {
          assert (na + b)[k] == b[k - MaxUndo];
        }
      }
    }
  }

  /**
   * A text change outside undo/redo: when the new text differs from the text before the edit,
   * that text is recorded on undo and redo is emptied; when it is the same, neither stack
   * changes (not even redo).
   */
  function Edit(h: History, newText: string): (r: History)
    ensures r.text == newText
    ensures newText != h.text ==> r.undo == Pushed(h.undo, h.text) && r.redo == []
    ensures newText == h.text ==> r == h
    ensures Bounded(h) ==> Bounded(r)
  {
    if newText != h.text then History(newText, Pushed(h.undo, h.text), []) else h
  }

  /**
   * Undo: nothing on an empty undo stack; otherwise the newest undo snapshot becomes the text
   * and the current text goes on top of redo. The stacks together keep their size.
   */
  function Undo(h: History): (r: History)
    ensures h.undo == [] ==> r == h
    ensures h.undo != [] ==> r.text == h.undo[|h.undo| - 1] && r.undo + [r.text] == h.undo
    ensures h.undo != [] ==> r.redo == h.redo + [h.text]
    ensures |r.undo| + |r.redo| == |h.undo| + |h.redo|
  {
    if h.undo == [] then h
    else History(h.undo[|h.undo| - 1], h.undo[..|h.undo| - 1], h.redo + [h.text])
  }

  /** Redo, the mirror image of undo. */
  function Redo(h: History): (r: History)
    ensures h.redo == [] ==> r == h
    ensures h.redo != [] ==> r.text == h.redo[|h.redo| - 1] && r.redo + [r.text] == h.redo
    ensures h.redo != [] ==> r.undo == h.undo + [h.text]
    ensures |r.undo| + |r.redo| == |h.undo| + |h.redo|
  {
    if h.redo == [] then h
    else History(h.redo[|h.redo| - 1], h.undo + [h.text], h.redo[..|h.redo| - 1])
  }

  /** Undo followed by redo restores the text and both stacks. */
  lemma RedoAfterUndo(h: History)
    requires h.undo != []
    ensures Redo(Undo(h)) == h
  {
  }

  /** Redo followed by undo restores the text and both stacks. */
  lemma UndoAfterRedo(h: History)
    requires h.redo != []
    ensures Undo(Redo(h)) == h
  {
  }

  /** The user-level events of an editing session. */
  datatype Op = EditOp(newText: string) | UndoOp | RedoOp

  function Step(h: History, op: Op): History
  {
    match op
    case EditOp(t) => Edit(h, t)
    case UndoOp => Undo(h)
    case RedoOp => Redo(h)
  }

  /** The history after a sequence of events, applied first to last. */
  function Run(h: History, ops: seq<Op>): History
    decreases |ops|
  {
    if ops == [] then h else Run(Step(h, ops[0]), ops[1..])
  }

  /** No sequence of edits, undos and redos ever lets the stacks hold more than 100 snapshots. */
  lemma {:induction false} RunBounded(h: History, ops: seq<Op>)
    requires Bounded(h)
    ensures Bounded(Run(h, ops))
    ensures |Run(h, ops).undo| <= MaxUndo
    decreases |ops|
  {
    if ops != [] {
      RunBounded(Step(h, ops[0]), ops[1..]);
    }
  }

  /** Each text differs from the one before it (the first from `previous`). */
  predicate EachChanges(previous: string, ts: seq<string>)
  {
    && (|ts| > 0 ==> ts[0] != previous)
    && forall i :: 1 <= i < |ts| ==> ts[i] != ts[i - 1]
  }

  /** The events of typing the texts ts one after another. */
  function Edits(ts: seq<string>): (ops: seq<Op>)
    ensures |ops| == |ts| && forall i :: 0 <= i < |ts| ==> ops[i] == EditOp(ts[i])
  {
    seq(|ts|, i requires 0 <= i < |ts| => EditOp(ts[i]))
  }

  /**
   * After a run of changing edits, undo holds the newest 100 of the old undo entries followed by
   * every text the edits replaced, and redo is empty.
   */
  lemma {:induction false} EditsKeepNewest(h: History, ts: seq<string>)
    requires |h.undo| <= MaxUndo && EachChanges(h.text, ts)
    ensures Run(h, Edits(ts)).text == if ts == [] then h.text else ts[|ts| - 1]
    ensures Run(h, Edits(ts)).undo == Newest(h.undo + ([h.text] + ts)[..|ts|])
    ensures ts != [] ==> Run(h, Edits(ts)).redo == []
    decreases |ts|
  {
    if ts == [] {
      assert h.undo + ([h.text] + ts)[..0] == h.undo;
    } else {
      var rest := ts[1..];
      var h1 := Edit(h, ts[0]);
      FirstEdit(h, ts);
      EditsKeepNewest(h1, rest);
      var replaced := ([ts[0]] + rest)[..|rest|];
      PushedIsNewest(h.undo, h.text);
      NewestOfNewest(h.undo + [h.text], replaced);
      ReplacedTexts(h.undo, h.text, ts);
    }
  }

  /** Unfolding a run of edits by its first edit. */
  lemma FirstEdit(h: History, ts: seq<string>)
    requires ts != [] && EachChanges(h.text, ts)
    ensures Edit(h, ts[0]) == History(ts[0], Pushed(h.undo, h.text), [])
    ensures Run(h, Edits(ts)) == Run(Edit(h, ts[0]), Edits(ts[1..]))
    ensures EachChanges(ts[0], ts[1..])
  {
    assert Edits(ts)[1..] == Edits(ts[1..]);
    forall i | 1 <= i < |ts| - 1 ensures ts[1..][i] != ts[1..][i - 1] {
      assert ts[i + 1] != ts[i];
    }
  }

  lemma ReplacedTexts(undo: seq<string>, t: string, ts: seq<string>)
    requires ts != []
    ensures undo + [t] + ([ts[0]] + ts[1..])[..|ts| - 1] == undo + ([t] + ts)[..|ts|]
  {
    assert [ts[0]] + ts[1..] == ts;
  }

  /**
   * From an empty history, 150 changing edits leave exactly 100 undo entries: the texts the last
   * 100 edits replaced. The 50 older snapshots are gone.
   */
  lemma HundredFiftyEdits(t0: string, ts: seq<string>)
    requires |ts| == 150 && EachChanges(t0, ts)
    ensures |Run(History(t0, [], []), Edits(ts)).undo| == MaxUndo
    ensures Run(History(t0, [], []), Edits(ts)).undo == ([t0] + ts)[50..150]
  {
    EditsKeepNewest(History(t0, [], []), ts);
    assert [] + ([t0] + ts)[..150] == ([t0] + ts)[..150];
  }

  /** A round trip: type "d" after "abc", undo, redo. */
  lemma TypeUndoRedo()
    ensures var typed := Edit(History("abc", [], []), "abcd");
      && typed.text == "abcd"
      && Undo(typed).text == "abc"
      && Redo(Undo(typed)).text == "abcd"
  {
  }

  /** A new edit after an undo discards what could have been redone. */
  lemma EditAfterUndoClearsRedo(h: History, t: string)
    requires h.undo != [] && t != Undo(h).text
    ensures Undo(h).redo != [] && Edit(Undo(h), t).redo == []
  {
  }
}
