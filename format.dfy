/**
 * The formatter's layout of parsed lines: blank lines and labels cut the
 * file into blocks, each block is rendered as rows without comments,
 * aligned, given its comments back at fixed columns, and aligned again.
 * The column aligner (a tab writer) is a parameter.
 */
module Format {
  import opened Wrappers
  import opened GoStrings
  import opened Quotes
  import opened Tokens
  import opened Parsing
  import opened Iter

  type Block = seq<Line>

  predicate IsLabel(l: Line) {
    l.token.Some? && l.token.value.Label?
  }

  // ---------------------------------------------------------------------
  // Block segmentation
  // ---------------------------------------------------------------------

  /** newBlock: opens a new block unless the last block is still empty. */
  function NewBlock(blocks: seq<Block>): (r: seq<Block>)
    requires blocks != []
    ensures r != [] && r[|r| - 1] == []
    ensures blocks[|blocks| - 1] == [] ==> r == blocks
    ensures blocks[|blocks| - 1] != [] ==> r == blocks + [[]]
  {
    if blocks[|blocks| - 1] != [] then blocks + [[]] else blocks
  }

  /** addToBlock: appends a line to the last block. */
  function AddToBlock(blocks: seq<Block>, l: Line): (r: seq<Block>)
    requires blocks != []
    ensures |r| == |blocks| && r[..|r| - 1] == blocks[..|blocks| - 1]
    ensures r[|r| - 1] == blocks[|blocks| - 1] + [l]
  {
    blocks[..|blocks| - 1] + [blocks[|blocks| - 1] + [l]]
  }

  /** What the loop of format does with one line. */
  function Place(blocks: seq<Block>, l: Line): seq<Block>
    requires blocks != []
  {
    if l.IsEmpty() then NewBlock(blocks)
    else if IsLabel(l) then AddToBlock(NewBlock(blocks), l)
    else AddToBlock(blocks, l)
  }

  /** The blocks of a file: one empty block to start with, then each line placed in turn. */
  function Segment(lines: seq<Line>): (r: seq<Block>)
    ensures r != []
  {
    if lines == [] then [[]]
    else Place(Segment(lines[..|lines| - 1]), lines[|lines| - 1])
  }

  /**
   * Every block but possibly the last has lines, no block holds an empty
   * line, and a label only ever opens its block.
   */
  ghost predicate WellFormed(blocks: seq<Block>) {
    && blocks != []
    && (forall i :: 0 <= i < |blocks| - 1 ==> blocks[i] != [])
    && (forall i, j :: 0 <= i < |blocks| && 0 <= j < |blocks[i]| ==> !blocks[i][j].IsEmpty())
    && (forall i, j :: 0 <= i < |blocks| && 0 < j < |blocks[i]| ==> !IsLabel(blocks[i][j]))
  }

  lemma PlaceKeepsWellFormed(blocks: seq<Block>, l: Line)
    requires WellFormed(blocks)
    ensures WellFormed(Place(blocks, l))
  {
    NewBlockKeepsWellFormed(blocks);
    if !l.IsEmpty() {
      if IsLabel(l) {
        AddKeepsWellFormed(NewBlock(blocks), l);
      } else {
        AddKeepsWellFormed(blocks, l);
      }
    }
  }

  lemma NewBlockKeepsWellFormed(blocks: seq<Block>)
    requires WellFormed(blocks)
    ensures WellFormed(NewBlock(blocks))
  {
    if blocks[|blocks| - 1] != [] {
      var n := blocks + [[]];
      assert forall i :: 0 <= i < |blocks| ==> n[i] == blocks[i];
    }
  }

  /** A non-empty line may join the last block, and a label only an empty one. */
  lemma AddKeepsWellFormed(blocks: seq<Block>, l: Line)
    requires WellFormed(blocks) && !l.IsEmpty()
    requires IsLabel(l) ==> blocks[|blocks| - 1] == []
    ensures WellFormed(AddToBlock(blocks, l))
  {
    var r := AddToBlock(blocks, l);
    forall i | 0 <= i < |r| - 1
      ensures r[i] == blocks[i]
    {
      assert r[..|r| - 1][i] == blocks[..|blocks| - 1][i];
    }
  }

  /** The blocks format builds are well formed. */
  lemma {:induction false} SegmentWellFormed(lines: seq<Line>)
    ensures WellFormed(Segment(lines))
  {
    if lines != [] {
      SegmentWellFormed(lines[..|lines| - 1]);
      PlaceKeepsWellFormed(Segment(lines[..|lines| - 1]), lines[|lines| - 1]);
    }
  }

  /** The blocks run together. */
  function Flatten(blocks: seq<Block>): seq<Line> {
    if blocks == [] then [] else Flatten(blocks[..|blocks| - 1]) + blocks[|blocks| - 1]
  }

  /** The lines that are not empty, in order. */
  function NonEmpty(lines: seq<Line>): seq<Line> {
    if lines == [] then []
    else
      var l := lines[|lines| - 1];
      NonEmpty(lines[..|lines| - 1]) + (if l.IsEmpty() then [] else [l])
  }

  lemma FlattenNewBlock(blocks: seq<Block>)
    requires blocks != []
    ensures Flatten(NewBlock(blocks)) == Flatten(blocks)
  {
    var b := blocks + [[]];
    if blocks[|blocks| - 1] != [] {
      assert b[..|b| - 1] == blocks;
    }
  }

  lemma FlattenAddToBlock(blocks: seq<Block>, l: Line)
    requires blocks != []
    ensures Flatten(AddToBlock(blocks, l)) == Flatten(blocks) + [l]
  {
    var r := AddToBlock(blocks, l);
    assert r[..|r| - 1] == blocks[..|blocks| - 1];
  }

  /** Placing a line adds it at the end of the flattened blocks, unless it is empty. */
  lemma FlattenPlace(blocks: seq<Block>, l: Line)
    requires blocks != []
    ensures Flatten(Place(blocks, l)) == Flatten(blocks) + (if l.IsEmpty() then [] else [l])
  {
    if l.IsEmpty() {
      FlattenNewBlock(blocks);
    } else if IsLabel(l) {
      FlattenNewBlock(blocks);
      FlattenAddToBlock(NewBlock(blocks), l);
    } else {
      FlattenAddToBlock(blocks, l);
    }
  }

  /** Segmentation loses and reorders nothing: the blocks run together are the non-empty lines. */
  lemma {:induction false} SegmentFlatten(lines: seq<Line>)
    ensures Flatten(Segment(lines)) == NonEmpty(lines)
  {
    if lines == [] {
      assert Flatten([[]]) == Flatten([]) + [];
    } else {
      var init := lines[..|lines| - 1];
      SegmentFlatten(init);
      FlattenPlace(Segment(init), lines[|lines| - 1]);
    }
  }

  /** format's first loop: walks the lines with an iterator, cutting blocks as it goes. */
  method SegmentBlocks(lines: seq<Line>) returns (blocks: seq<Block>)
    ensures blocks == Segment(lines)
  {
    blocks := [[]];
    var iter := new LineIterator(lines);
    var more := iter.Next();
    while more
      invariant iter.Valid() && iter.lines == lines
      invariant 0 <= iter.lineIdx <= |lines|
      invariant more <==> iter.lineIdx < |lines|
      invariant blocks == Segment(lines[..iter.lineIdx])
      decreases |lines| - iter.lineIdx
    {
      var line := iter.Current();
      ghost var k := iter.lineIdx;
      ghost var before := blocks;
      blocks := PlaceLine(blocks, line);
      SegmentStep(lines, k, before, blocks);
      more := iter.Next();
    }
    assert lines[..|lines|] == lines;
  }

  /** Placing line k after the blocks of the first k lines gives the blocks of the first k + 1. */
  lemma SegmentStep(lines: seq<Line>, k: nat, before: seq<Block>, after: seq<Block>)
    requires k < |lines| && before == Segment(lines[..k]) && after == Place(before, lines[k])
    ensures after == Segment(lines[..k + 1])
  {
    assert lines[..k + 1][..k] == lines[..k];
  }

  /** The body of format's first loop: a blank line closes the block, a label opens one. */
  method PlaceLine(blocks: seq<Block>, line: Line) returns (r: seq<Block>)
    requires blocks != []
    ensures r == Place(blocks, line)
  {
    r := blocks;
    if line.IsEmpty() {
      if r[|r| - 1] != [] {
        r := r + [[]];
      }
      return;
    }
    if line.token.Some? && line.token.value.Label? {
      if r[|r| - 1] != [] {
        r := r + [[]];
      }
    }
    r := r[..|r| - 1] + [r[|r| - 1] + [line]];
  }

  // ---------------------------------------------------------------------
  // Rows without comments
  // ---------------------------------------------------------------------

  /** The row of one line before comments: the token, instructions indented by insIndent spaces. */
  function Row(l: Line, insIndent: nat): string {
    if l.IsEmpty() || l.token.None? then ""
    else (if l.token.value.Instruction? then Spaces(insIndent) else "") + l.token.value.String()
  }

  function Rows(lines: seq<Line>, insIndent: nat): (r: seq<string>)
    ensures |r| == |lines|
  {
    seq(|lines|, i requires 0 <= i < |lines| => Row(lines[i], insIndent))
  }

  /** writeLinesNoComment: one row per line, filled in by line number. */
  method WriteLinesNoComment(lines: seq<Line>, insIndent: nat) returns (rows: seq<string>)
    ensures rows == Rows(lines, insIndent)
  {
    ghost var want := Rows(lines, insIndent);
    var strs := new string[|lines|](_ => "");
    var iter := new LineIterator(lines);
    var more := iter.Next();
    while more
      invariant iter.Valid() && iter.lines == lines
      invariant 0 <= iter.lineIdx <= |lines|
      invariant more <==> iter.lineIdx < |lines|
      invariant strs[..iter.lineIdx] == want[..iter.lineIdx]
      invariant forall j :: iter.lineIdx <= j < |lines| ==> strs[j] == ""
      decreases |lines| - iter.lineIdx
    {
      var line := iter.Current();
      ghost var k := iter.lineIdx;
      if !line.IsEmpty() {
        var s := BuildRow(line, insIndent);
        strs[iter.LineNum()] := s;
      } else {
        assert want[k] == "";
      }
      assert strs[..k + 1] == strs[..k] + [want[k]];
      assert want[..k + 1] == want[..k] + [want[k]];
      more := iter.Next();
    }
    rows := strs[..];
    assert rows == strs[..|lines|];
  }

  /** The row of a non-empty line, built up piece by piece. */
  method BuildRow(line: Line, insIndent: nat) returns (s: string)
    requires !line.IsEmpty()
    ensures s == Row(line, insIndent)
  {
    s := "";
    if line.token.Some? {
      if line.token.value.Instruction? {
        s := s + Spaces(insIndent);
      }
      s := s + line.token.value.String();
    }
  }

  /** An instruction row is the indent, then the instruction; a label row is the label; a comment-only row is empty. */
  lemma RowShape(l: Line, insIndent: nat)
    ensures l.token.Some? && l.token.value.Instruction? ==>
      |Row(l, insIndent)| == insIndent + |l.token.value.String()| &&
      (forall k :: 0 <= k < insIndent ==> Row(l, insIndent)[k] == ' ') &&
      Row(l, insIndent)[insIndent..] == l.token.value.String()
    ensures l.token.Some? && l.token.value.Label? ==> Row(l, insIndent) == l.token.value.name + ":"
    ensures l.token.None? ==> Row(l, insIndent) == ""
  {
    if l.token.Some? && l.token.value.Instruction? {
      var s := Spaces(insIndent);
      assert Row(l, insIndent) == s + l.token.value.String();
    }
  }

  /** Indenting an instruction row does not change what it parses to. */
  lemma RowReparses(l: Line, insIndent: nat)
    requires l.token.Some? && l.token.value.Instruction?
    requires var t := l.token.value;
      t.instr != [] && !IsSpace(t.instr[0]) && Unquoted(t.instr) &&
      (forall i :: 0 <= i < |t.instr| ==> !IsRegexSpace(t.instr[i])) &&
      t.args != [] && forall i :: 0 <= i < |t.args| ==> IsTrimmed(t.args[i]) && ',' !in t.args[i]
    ensures ParseInstructionToken(Row(l, insIndent)) == Step(l.token, "")
  {
    var t := l.token.value;
    var text := t.String();
    RowShape(l, insIndent);
    assert text[0] == t.instr[0];
    IndentedTrim(insIndent, text);
    assert Row(l, insIndent) == Spaces(insIndent) + text;
    InstructionRoundTrip(t.instr, t.args);
    TrimLeftSpaceIndependent(Spaces(insIndent) + text, text);
  }

  /** Left-trimming spaces put before text that starts with a non-blank gives back the text. */
  lemma {:induction false} IndentedTrim(n: nat, text: string)
    requires text != [] && !IsSpace(text[0])
    ensures TrimLeftSpace(Spaces(n) + text) == text
  {
    if n > 0 {
      var rest := Spaces(n - 1) + text;
      assert Spaces(n) == Repeat(" ", n - 1) + " ";
      assert Spaces(n) + text == [' '] + rest by {
        forall k | 0 <= k < n ensures Spaces(n)[k] == ' ' { }
        assert Spaces(n) == [' '] + Spaces(n - 1);
      }
      IndentedTrim(n - 1, text);
      assert ([' '] + rest)[1..] == rest;
    } else {
      assert Spaces(0) + text == text;
    }
  }

  /** The instruction parser looks at its input only through the left-trimmed text. */
  lemma TrimLeftSpaceIndependent(a: string, b: string)
    requires TrimLeftSpace(a) == b
    requires b != [] && !IsSpace(b[0])
    ensures ParseInstructionToken(a) == ParseInstructionToken(b)
  {
    assert TrimLeftSpace(b) == b;
  }

  // ---------------------------------------------------------------------
  // The comment pass of writeBlock
  // ---------------------------------------------------------------------

  /** The number of spaces between a commented instruction row and its comment. */
  function InstructionPad(s: string, commentIndent: int): (n: nat)
    ensures n >= 1
    ensures |s| + n == Max(commentIndent - 1, |s| + 1)
  {
    var indent := commentIndent - (|s| + 1);
    if indent < 1 then 1 else indent
  }

  /** The indent of a comment-only row: under the comment of the row above, when it has one. */
  function CommentOnlyPad(rows: seq<string>, i: nat): string
    requires i < |rows|
  {
    if i > 0 && rows[i - 1] != "" then
      var ix := IndexOf(Mask(rows[i - 1], Filler), '#');
      if ix != -1 then Spaces(ix) else ""
    else ""
  }

  /** Row i with the comment of line l added, given the rows as rewritten so far. */
  function Placed(rows: seq<string>, i: nat, l: Line, commentIndent: int): string
    requires i < |rows|
  {
    var s := rows[i];
    if l.comment == NoComment then s
    else
      var pad :=
        if l.token.Some? then
          if l.token.value.Instruction? then Spaces(InstructionPad(s, commentIndent)) else "\t"
        else CommentOnlyPad(rows, i);
      s + pad + l.comment.String()
  }

  /** The rows after the first n have been given their comments. */
  function PassUpTo(rows: seq<string>, block: Block, commentIndent: int, n: nat): (r: seq<string>)
    requires n <= |rows| && n <= |block|
    ensures |r| == |rows|
  {
    if n == 0 then rows
    else
      var p := PassUpTo(rows, block, commentIndent, n - 1);
      p[n - 1 := Placed(p, n - 1, block[n - 1], commentIndent)]
  }

  /** The comment pass: every row that has a line in the block. */
  function CommentPass(rows: seq<string>, block: Block, commentIndent: int): (r: seq<string>)
    ensures |r| == |rows|
  {
    PassUpTo(rows, block, commentIndent, Min(|rows|, |block|))
  }

  /** Rows from n on are not yet touched. */
  lemma {:induction false} PassUpToAhead(rows: seq<string>, block: Block, commentIndent: int, n: nat, j: nat)
    requires n <= |rows| && n <= |block| && n <= j < |rows|
    ensures PassUpTo(rows, block, commentIndent, n)[j] == rows[j]
  {
    if n > 0 {
      PassUpToAhead(rows, block, commentIndent, n - 1, j);
    }
  }

  /** Once a row is rewritten, later steps leave it alone. */
  lemma {:induction false} PassUpToSettled(rows: seq<string>, block: Block, commentIndent: int, n: nat, j: nat)
    requires n <= |rows| && n <= |block| && j < n
    ensures PassUpTo(rows, block, commentIndent, n)[j] == PassUpTo(rows, block, commentIndent, j + 1)[j]
  {
    if n > j + 1 {
      PassUpToSettled(rows, block, commentIndent, n - 1, j);
    }
  }

  /**
   * Row j of the comment pass is row j placed against the rows as they
   * stand at that point: the earlier rows already rewritten, row j itself
   * as it came in.
   */
  lemma PassRow(rows: seq<string>, block: Block, commentIndent: int, j: nat)
    requires j < |rows| && j < |block|
    ensures var r := CommentPass(rows, block, commentIndent);
      var p := PassUpTo(rows, block, commentIndent, j);
      r[j] == Placed(p, j, block[j], commentIndent) && p[j] == rows[j] &&
      (j > 0 ==> p[j - 1] == r[j - 1])
  {
    var m := Min(|rows|, |block|);
    PassUpToSettled(rows, block, commentIndent, m, j);
    PassUpToAhead(rows, block, commentIndent, j, j);
    if j > 0 {
      PassUpToSettled(rows, block, commentIndent, m, j - 1);
      PassUpToSettled(rows, block, commentIndent, j, j - 1);
    }
  }

  /** Rows without a comment, and rows past the end of the block, come out as they went in. */
  lemma PassKeepsUncommented(rows: seq<string>, block: Block, commentIndent: int, j: nat)
    requires j < |rows|
    requires j >= |block| || block[j].comment == NoComment
    ensures CommentPass(rows, block, commentIndent)[j] == rows[j]
  {
    if j >= |block| {
      PassUpToAhead(rows, block, commentIndent, Min(|rows|, |block|), j);
    } else {
      PassRow(rows, block, commentIndent, j);
    }
  }

  /** A commented instruction row: its comment starts at column max(commentIndent - 1, |row| + 1). */
  lemma PassInstructionComment(rows: seq<string>, block: Block, commentIndent: int, j: nat)
    requires j < |rows| && j < |block|
    requires block[j].comment != NoComment && block[j].token.Some? && block[j].token.value.Instruction?
    ensures var r := CommentPass(rows, block, commentIndent)[j];
      var col := Max(commentIndent - 1, |rows[j]| + 1);
      col <= |r| && r[..col] == rows[j] + Spaces(col - |rows[j]|) &&
      r[col..] == block[j].comment.String()
  {
    PassRow(rows, block, commentIndent, j);
    var pad := Spaces(InstructionPad(rows[j], commentIndent));
    var r := rows[j] + pad + block[j].comment.String();
    assert r[..|rows[j]| + |pad|] == rows[j] + pad;
  }

  /** A commented label row: a tab, then the comment. */
  lemma PassLabelComment(rows: seq<string>, block: Block, commentIndent: int, j: nat)
    requires j < |rows| && j < |block|
    requires block[j].comment != NoComment && IsLabel(block[j])
    ensures CommentPass(rows, block, commentIndent)[j] == rows[j] + "\t" + block[j].comment.String()
  {
    PassRow(rows, block, commentIndent, j);
  }

  /**
   * A comment-only row is indented to the unquoted `#` of the row above,
   * as that row reads after its own comment was added; without one it is
   * not indented.
   */
  lemma PassCommentOnly(rows: seq<string>, block: Block, commentIndent: int, j: nat)
    requires j < |rows| && j < |block|
    requires block[j].comment != NoComment && block[j].token.None?
    ensures var r := CommentPass(rows, block, commentIndent);
      var ix := if j > 0 && r[j - 1] != "" then FirstUnquoted(r[j - 1], '#') else -1;
      r[j] == rows[j] + (if ix >= 0 then Spaces(ix) else "") + block[j].comment.String()
  {
    PassRow(rows, block, commentIndent, j);
  }

  /** The comment loop of writeBlock: rewrites the aligned rows in place, stopping at the end of the block. */
  method AddComments(lines: array<string>, block: Block, commentIndent: int)
    modifies lines
    ensures lines[..] == CommentPass(old(lines[..]), block, commentIndent)
  {
    ghost var rows := lines[..];
    var i := 0;
    while i < lines.Length
      invariant 0 <= i <= lines.Length && i <= |block|
      invariant lines[..] == PassUpTo(rows, block, commentIndent, i)
    {
      if i >= |block| {
        break;
      }
      var prev := if i > 0 then lines[i - 1] else "";
      var s := CommentedRow(lines[..], i, lines[i], prev, block[i], commentIndent);
      lines[i] := s;
      i := i + 1;
    }
  }

  /** The body of the comment loop: row i with the comment of its line added, given the row above as it now reads. */
  method CommentedRow(ghost p: seq<string>, i: nat, s: string, prev: string, line: Line, commentIndent: int)
    returns (r: string)
    requires i < |p| && p[i] == s && (i > 0 ==> p[i - 1] == prev)
    ensures r == Placed(p, i, line, commentIndent)
  {
    r := s;
    if line.comment == NoComment {
      return;
    }
    if line.token.Some? {
      if line.token.value.Instruction? {
        var indent := commentIndent - (|s| + 1);
        if indent < 1 {
          indent := 1;
        }
        r := r + Spaces(indent);
      } else {
        r := r + "\t";
      }
    } else if i > 0 && prev != "" {
      var noq := NoQuotes(prev, Filler);
      var commentIx := IndexOf(noq, '#');
      if commentIx != -1 {
        r := r + Spaces(commentIx);
      }
    }
    r := r + line.comment.String();
  }

  // ---------------------------------------------------------------------
  // Blocks and files
  // ---------------------------------------------------------------------

  /** What writeBlock writes for one block, given the aligner. */
  function BlockOutput(block: Block, insIndent: nat, commentIndent: int, valign: seq<string> -> string): string {
    valign(CommentPass(Split(valign(Rows(block, insIndent)), '\n'), block, commentIndent))
  }

  /** writeBlock: rows without comments, aligned, split, given their comments, aligned again. */
  method WriteBlock(block: Block, insIndent: nat, commentIndent: int, valign: seq<string> -> string)
    returns (out: string)
    ensures out == BlockOutput(block, insIndent, commentIndent, valign)
  {
    var rows := WriteLinesNoComment(block, insIndent);
    var split := Split(valign(rows), '\n');
    var lines := new string[|split|](i requires 0 <= i < |split| => split[i]);
    assert lines[..] == split;
    AddComments(lines, block, commentIndent);
    out := valign(lines[..]);
  }

  /** Each row followed by a newline: the text a tab writer fed one row at a time gives back, before padding. */
  function Terminated(rows: seq<string>): (r: string)
    ensures |r| >= |rows|
  {
    if rows == [] then "" else Terminated(rows[..|rows| - 1]) + rows[|rows| - 1] + "\n"
  }

  /** Rows each ended by a newline read as the rows joined by newlines, with one empty piece after them. */
  lemma {:induction false} TerminatedJoin(rows: seq<string>)
    ensures Terminated(rows) == Join(rows + [""], "\n")
    decreases |rows|
  {
    if rows != [] {
      var init := rows[..|rows| - 1];
      var last := rows[|rows| - 1];
      TerminatedJoin(init);
      assert rows == init + [last];
      JoinSnoc(init + [""], last, "\n");
      if init == [] {
        assert Join([""] + [last], "\n") == "" + "\n" + last;
      } else {
        JoinSnoc(init, "", "\n");
        JoinSnoc(init, last, "\n");
      }
      JoinSnoc(rows, "", "\n");
    }
  }

  /**
   * When the aligner writes one newline-ended row per row it is given,
   * splitting its output at newlines yields one row more than the block
   * has lines, and that last row is empty and gets no comment: each block
   * is written with a blank row after it, labelled or not.
   */
  lemma BlockEndsWithBlankRow(block: Block, insIndent: nat, commentIndent: int,
                              valign: seq<string> -> string, aligned: seq<string>)
    requires |aligned| == |block| && forall k :: 0 <= k < |aligned| ==> '\n' !in aligned[k]
    requires valign(Rows(block, insIndent)) == Terminated(aligned)
    ensures var rows := CommentPass(Split(valign(Rows(block, insIndent)), '\n'), block, commentIndent);
      |rows| == |block| + 1 && rows[|block|] == ""
  {
    var parts := aligned + [""];
    TerminatedJoin(aligned);
    assert forall k :: 0 <= k < |parts| ==> '\n' !in parts[k] by {
      forall k | 0 <= k < |parts| ensures '\n' !in parts[k] {
        if k < |aligned| {
          assert parts[k] == aligned[k];
        }
      }
    }
    JoinSplit(parts, '\n');
    PassKeepsUncommented(parts, block, commentIndent, |block|);
  }

  /** The output of every block, one after the other. */
  function Concat(blocks: seq<Block>, insIndent: nat, commentIndent: int, valign: seq<string> -> string): string {
    if blocks == [] then ""
    else
      Concat(blocks[..|blocks| - 1], insIndent, commentIndent, valign) +
      BlockOutput(blocks[|blocks| - 1], insIndent, commentIndent, valign)
  }

  /** What format writes: nothing but the error when a line does not parse. */
  function FormatOutput(input: seq<string>, insIndent: nat, commentIndent: int, valign: seq<string> -> string):
    Result<string, LineError>
  {
    var (lines, err) := ParseAll(input);
    if err.Some? then Err(err.value)
    else Ok(Concat(Segment(lines), insIndent, commentIndent, valign))
  }

  /** format: parse, cut into blocks, write each block. */
  method Format(input: seq<string>, insIndent: nat, commentIndent: int, valign: seq<string> -> string)
    returns (r: Result<string, LineError>)
    ensures r == FormatOutput(input, insIndent, commentIndent, valign)
  {
    var lines, err := Parse(input);
    if err.Some? {
      return Err(err.value);
    }
    var blocks := SegmentBlocks(lines);
    var out := "";
    for i := 0 to |blocks|
      invariant out == Concat(blocks[..i], insIndent, commentIndent, valign)
    {
      var b := WriteBlock(blocks[i], insIndent, commentIndent, valign);
      assert blocks[..i + 1][..i] == blocks[..i];
      out := out + b;
    }
    assert blocks[..|blocks|] == blocks;
    return Ok(out);
  }

  /** format writes something exactly when every line parses; otherwise it reports the first line that does not. */
  lemma FormatFailsAtFirstBadLine(input: seq<string>, insIndent: nat, commentIndent: int, valign: seq<string> -> string)
    ensures FormatOutput(input, insIndent, commentIndent, valign).Ok? <==>
      forall k :: 0 <= k < |input| ==> Classify(input[k]).Ok?
    ensures FormatOutput(input, insIndent, commentIndent, valign).Err? ==>
      var e := FormatOutput(input, insIndent, commentIndent, valign).error;
      0 < e.lineNum <= |input| && Classify(input[e.lineNum - 1]) == Err(e.cause) &&
      forall k :: 0 <= k < e.lineNum - 1 ==> Classify(input[k]).Ok?
  {
    FormatOutputError(input, insIndent, commentIndent, valign);
    ParseAllSucceeds(input);
    if ParseAll(input).1.Some? {
      ParseAllStops(input);
    }
  }

  /** format fails exactly when Parse does, and with Parse's error. */
  lemma FormatOutputError(input: seq<string>, insIndent: nat, commentIndent: int, valign: seq<string> -> string)
    ensures FormatOutput(input, insIndent, commentIndent, valign).Ok? <==> ParseAll(input).1.None?
    ensures FormatOutput(input, insIndent, commentIndent, valign).Err? ==>
      FormatOutput(input, insIndent, commentIndent, valign).error == ParseAll(input).1.value
  {
  }
}
