/**
 * Cursor line and column, and the go-to-line command.
 *
 * The status bar shows "Ln L, Col C" for the cursor offset: L is the 1-based number of the line
 * holding the offset and C is one more than the distance from that line's start. Go-to-line
 * reads a number from the dialog and, when it names an existing line, moves the cursor to that
 * line's start; anything else leaves the cursor where it was. Lines here are the pieces of the
 * buffer between '\n' characters, so a buffer with k newlines has k + 1 lines.
 */
module Lines {
  import opened Wrappers
  import opened Numbers

  /** The number of '\n' characters in s. */
  function NewlinesIn(s: string): nat
  {
    if s == [] then 0 else (if s[0] == '\n' then 1 else 0) + NewlinesIn(s[1..])
  }

  lemma {:induction false} NewlinesConcat(a: string, b: string)
    ensures NewlinesIn(a + b) == NewlinesIn(a) + NewlinesIn(b)
  {
    if a == [] {
      assert a + b == b;
    } else {
      assert (a + b)[1..] == a[1..] + b;
      NewlinesConcat(a[1..], b);
    }
  }

  /** Text without newlines has no '\n' anywhere. */
  lemma {:induction false} NoNewlines(s: string)
    requires NewlinesIn(s) == 0
    ensures forall i :: 0 <= i < |s| ==> s[i] != '\n'
  {
    if s != [] {
      NoNewlines(s[1..]);
      assert forall i :: 1 <= i < |s| ==> s[i] == s[1..][i - 1];
    }
  }

  /** The line count the go-to-line check compares with; an empty buffer has one line. */
  function LineCount(s: string): (n: nat)
    ensures n >= 1
    ensures n == 1 <==> '\n' !in s
  {
    NoNewlinesIff(s);
    NewlinesIn(s) + 1
  }

  /** The newline count is zero exactly when no '\n' occurs. */
  lemma NoNewlinesIff(s: string)
    ensures NewlinesIn(s) == 0 <==> '\n' !in s
  {
    if NewlinesIn(s) == 0 {
      NoNewlines(s);
    }
    if '\n' !in s {
      NewlineFree(s);
    }
  }

  /**
   * The 0-based line holding offset p: the newlines before it. It is below the line count, the
   * end of the buffer is on the last line, and the next offset is one line further exactly when
   * the character at p is a newline.
   */
  function LineOf(s: string, p: nat): (r: nat)
    requires p <= |s|
    ensures r < LineCount(s)
    ensures p == |s| ==> r == LineCount(s) - 1
    ensures p < |s| ==> NewlinesIn(s[..p + 1]) == if s[p] == '\n' then r + 1 else r
  {
    assert s == s[..p] + s[p..];
    NewlinesConcat(s[..p], s[p..]);
    if p < |s| then
      assert s[..p + 1] == s[..p] + [s[p]];
      NewlinesConcat(s[..p], [s[p]]);
      NewlinesIn(s[..p])
    else
      NewlinesIn(s[..p])
  }

  /** Offset i begins a line: it is the buffer start or follows a '\n'. */
  predicate StartsLine(s: string, i: nat)
    requires i <= |s|
  {
    i == 0 || s[i - 1] == '\n'
  }

  /**
   * The offset where 0-based line k begins: the start of the buffer for line 0, else just
   * after the k-th newline.
   */
  function LineStart(s: string, k: nat): (r: nat)
    requires k < LineCount(s)
    ensures r <= |s| && StartsLine(s, r)
    ensures NewlinesIn(s[..r]) == k
  {
    if k == 0 then
      0
    else
      assert s != [];
      var k' := if s[0] == '\n' then k - 1 else k;
      var r' := LineStart(s[1..], k');
      assert s[..1 + r'] == [s[0]] + s[1..][..r'];
      NewlinesConcat([s[0]], s[1..][..r']);
      1 + r'
  }

  /** The end of the line holding offset i: the first '\n' at or after i, or the buffer end. */
  function LineEnd(s: string, i: nat): (r: nat)
    requires i <= |s|
    ensures i <= r <= |s|
    ensures r == |s| || s[r] == '\n'
    ensures forall j :: i <= j < r ==> s[j] != '\n'
    decreases |s| - i
  {
    if i == |s| || s[i] == '\n' then i else LineEnd(s, i + 1)
  }

  /** A reported cursor position, both numbers 1-based. */
  datatype Pos = Pos(line: nat, col: nat)

  /**
   * The status-bar position of offset p: the line holding p, and the column p - start of that
   * line, both plus one. The column counts exactly the characters between the last newline
   * before p (or the buffer start) and p, so it never exceeds the line's length plus one.
   */
  function CursorPos(s: string, p: nat): (c: Pos)
    requires p <= |s|
    ensures 1 <= c.line <= LineCount(s) && c.line - 1 == NewlinesIn(s[..p])
    ensures 1 <= c.col <= p + 1
    ensures StartsLine(s, p - (c.col - 1))
    ensures forall j :: p - (c.col - 1) <= j < p ==> s[j] != '\n'
    ensures c.col - 1 <= LineEnd(s, p - (c.col - 1)) - (p - (c.col - 1))
  {
    var line := LineOf(s, p);
    assert s == s[..p] + s[p..];
    NewlinesConcat(s[..p], s[p..]);
    var start := LineStart(s, line);
    StartBeforeOffset(s, p, start);
    assert s[..p] == s[..start] + s[start..p];
    NewlinesConcat(s[..start], s[start..p]);
    NoNewlines(s[start..p]);
    assert forall j :: start <= j < p ==> s[j] == s[start..p][j - start];
    Pos(line + 1, p - start + 1)
  }

  /** The start of the line holding p is at or before p. */
  lemma StartBeforeOffset(s: string, p: nat, start: nat)
    requires p <= |s| && start <= |s| && StartsLine(s, start)
    requires NewlinesIn(s[..start]) == NewlinesIn(s[..p])
    ensures start <= p
  {
    if start > p {
      assert s[..start] == s[..p] + s[p..start];
      NewlinesConcat(s[..p], s[p..start]);
      assert s[p..start] == s[p..start - 1] + [s[start - 1]];
      NewlinesConcat(s[p..start - 1], [s[start - 1]]);
      assert false;
    }
  }

  /** The status-bar text, "Ln <line>, Col <column>". */
  function StatusText(s: string, p: nat): (r: string)
    requires p <= |s|
    ensures exists i :: StatusFieldsAt(r, i, CursorPos(s, p))
  {
    var c := CursorPos(s, p);
    var a, b := Decimal(c.line), Decimal(c.col);
    var t := "Ln " + a + ", Col " + b;
    DecimalValue(c.line);
    DecimalValue(c.col);
    assert t[3..3 + |a|] == a && t[3 + |a|..3 + |a| + 6] == ", Col " && t[3 + |a| + 6..] == b;
    assert StatusFieldsAt(t, 3 + |a|, c);
    t
  }

  /**
   * Status text split at offset i: "Ln " and a digit run that reads as the line, then ", Col "
   * at i and a digit run that reads as the column; neither run has a leading zero.
   */
  predicate StatusFieldsAt(r: string, i: int, c: Pos)
  {
    && 3 < i && i + 6 < |r|
    && r[..3] == "Ln " && r[i..i + 6] == ", Col "
    && AllDigits(r[3..i]) && DigitsValue(r[3..i]) == c.line
    && AllDigits(r[i + 6..]) && DigitsValue(r[i + 6..]) == c.col
    && (i > 4 ==> r[3] != '0') && (|r| > i + 7 ==> r[i + 6] != '0')
  }

  /**
   * Where go-to-line puts the cursor: the start of line n when the input reads as a number n
   * with 1 <= n <= line count, and nowhere (the command does nothing) otherwise. The cursor it
   * gives is reported on line n, column 1.
   */
  function GoToLineTarget(s: string, input: string): (r: Option<nat>)
    ensures r.Some? <==> ParseInt(input).Some? && 1 <= ParseInt(input).value <= LineCount(s)
    ensures r.Some? ==> r.value <= |s| && CursorPos(s, r.value) == Pos(ParseInt(input).value, 1)
  {
    match ParseInt(input)
    case Some(n) =>
      if 0 < n <= LineCount(s) then
        Some(LineStart(s, n - 1))
      else None
    case None => None
  }

  /** Typing the number of any existing line moves the cursor to the start of that line. */
  lemma GoToTypedLine(s: string, n: nat)
    requires 1 <= n <= LineCount(s) && n <= IntMax
    ensures GoToLineTarget(s, Decimal(n)).Some?
    ensures CursorPos(s, GoToLineTarget(s, Decimal(n)).value) == Pos(n, 1)
  {
    ParseDecimal(n);
  }

  /** Line 0, negative numbers and numbers past the last line are ignored. */
  lemma GoToOutOfRange(s: string, n: int)
    requires n <= 0 || n > LineCount(s)
    requires IntMin <= n <= IntMax
    ensures GoToLineTarget(s, if n < 0 then "-" + Decimal(-n) else Decimal(n)) == None
  {
    if n < 0 {
      ParseSignedDecimal(-n);
    } else {
      ParseDecimal(n);
    }
  }

  /** Text with no '\n' character has no newlines to count. */
  lemma {:induction false} NewlineFree(s: string)
    requires '\n' !in s
    ensures NewlinesIn(s) == 0
  {
    if s != [] {
      assert '\n' !in s[1..] by {
        assert forall j :: 0 <= j < |s| - 1 ==> s[1..][j] == s[j + 1];
      }
      NewlineFree(s[1..]);
    }
  }

  // The status text after typing "Hello", at the start of a second line, and after "\nWorld".

  lemma CursorAfterHello()
    ensures CursorPos("Hello", 5) == Pos(1, 6)
    ensures StatusText("Hello", 5) == "Ln 1, Col 6"
  {
  }

  lemma CursorAtWorld(s: string)
    requires s == "Hello\nWorld"
    ensures CursorPos(s, 6) == Pos(2, 1)
    ensures StatusText(s, 6) == "Ln 2, Col 1"
  {
    PosAtWorld(s);
    StatusOfPos(s, 6, 2, 1);
    assert Decimal(2) == "2" && Decimal(1) == "1";
  }

  /** The status text of an offset whose position is known. */
  lemma StatusOfPos(s: string, p: nat, line: nat, col: nat)
    requires p <= |s| && CursorPos(s, p) == Pos(line, col)
    ensures StatusText(s, p) == "Ln " + Decimal(line) + ", Col " + Decimal(col)
  {
  }

  lemma PosAtWorld(s: string)
    requires s == "Hello\nWorld"
    ensures CursorPos(s, 6) == Pos(2, 1)
  {
    assert s[..6] == "Hello" + "\n";
    NewlineFree("Hello");
    NewlinesConcat("Hello", "\n");
    assert s[5] == '\n';
  }

  lemma CursorAfterWorld(s: string)
    requires s == "Hello\nWorld"
    ensures CursorPos(s, 11) == Pos(2, 6)
    ensures StatusText(s, 11) == "Ln 2, Col 6"
  {
    PosAfterWorld(s);
    StatusOfPos(s, 11, 2, 6);
    assert Decimal(2) == "2" && Decimal(6) == "6";
  }

  lemma PosAfterWorld(s: string)
    requires s == "Hello\nWorld"
    ensures CursorPos(s, 11) == Pos(2, 6)
  {
    assert s[..11] == s;
    assert s == "Hello" + "\n" + "World";
    NewlineFree("Hello");
    NewlineFree("World");
    NewlinesConcat("Hello", "\n");
    NewlinesConcat("Hello" + "\n", "World");
    assert s[5] == '\n';
    assert forall i :: 0 <= i < 11 && i != 5 ==> s[i] != '\n';
  }

  /** A buffer of four newline-free lines has four lines. */
  lemma FourLines(a: string, b: string, c: string, d: string)
    requires '\n' !in a && '\n' !in b && '\n' !in c && '\n' !in d
    ensures LineCount(a + "\n" + b + "\n" + c + "\n" + d) == 4
  {
    NewlineFree(a); NewlineFree(b); NewlineFree(c); NewlineFree(d);
    NewlinesConcat(a, "\n");
    NewlinesConcat(a + "\n", b);
    NewlinesConcat(a + "\n" + b, "\n");
    NewlinesConcat(a + "\n" + b + "\n", c);
    NewlinesConcat(a + "\n" + b + "\n" + c, "\n");
    NewlinesConcat(a + "\n" + b + "\n" + c + "\n", d);
  }

  /**
   * Go-to-line on any four-line buffer (the test uses "Line 1" ... "Line 4"): "3" moves the
   * cursor to the start of line 3; "100" and "0" leave it where it is.
   */
  lemma GoToLineExamples(a: string, b: string, c: string, d: string)
    requires '\n' !in a && '\n' !in b && '\n' !in c && '\n' !in d
    ensures var s := a + "\n" + b + "\n" + c + "\n" + d;
      && GoToLineTarget(s, "3").Some?
      && CursorPos(s, GoToLineTarget(s, "3").value) == Pos(3, 1)
      && GoToLineTarget(s, "100") == None
      && GoToLineTarget(s, "0") == None
  {
    var s := a + "\n" + b + "\n" + c + "\n" + d;
    FourLines(a, b, c, d);
    assert Decimal(3) == "3" && Decimal(100) == "100" && Decimal(0) == "0";
    GoToTypedLine(s, 3);
    GoToOutOfRange(s, 100);
    GoToOutOfRange(s, 0);
  }
}
