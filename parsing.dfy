/**
 * The line driver: one line is offered to the token parsers in a fixed
 * order, and a whole file is parsed line by line, stopping at the first
 * line that fails.
 */
module Parsing {
  import opened Wrappers
  import opened GoStrings
  import opened Quotes
  import opened Tokens

  /** Why a line could not be parsed: the text that was left over. */
  datatype ParseError = UnknownToken(text: string) | ExcessText(text: string)

  /** A failed line and its 1-based number. */
  datatype LineError = LineError(lineNum: nat, cause: ParseError)

  /** The variables the parser loop of parseLine carries from one parser to the next. */
  datatype LoopState = LoopState(token: Option<Token>, line: string, comment: CommentToken)

  /**
   * The parser loop over the parsers still to run: a comment is recorded and
   * the loop goes on with the text before it; any other token, or nothing
   * left to parse, ends the loop.
   */
  function RunParsers(parsers: seq<TokenParser>, st: LoopState): (r: LoopState)
    ensures parsers == [] ==> r == st
    decreases |parsers|
  {
    if parsers == [] then st
    else
      var step := parsers[0].Run(st.line);
      if step.token.Some? && step.token.value.Comment? then
        RunParsers(parsers[1..], LoopState(step.token, step.rest, step.token.value.comment))
      else if step.token.Some? || step.rest == "" then
        LoopState(step.token, step.rest, st.comment)
      else
        RunParsers(parsers[1..], LoopState(step.token, step.rest, st.comment))
  }

  /** What the parser loop of parseLine leaves behind, turned into parseLine's result. */
  function LoopOutcome(text: string): (r: Result<Line, ParseError>)
    ensures text == "" ==> r == Ok(EmptyLine)
  {
    if text == "" then Ok(EmptyLine)
    else
      var st := RunParsers(TokenParsers, LoopState(None, text, NoComment));
      if st.line != "" then
        if st.token.None? then Err(UnknownToken(st.line)) else Err(ExcessText(st.line))
      else Ok(Line(st.token, st.comment))
  }

  /**
   * What parseLine makes of one line, stated directly: split off the
   * comment, then either a label, which must take the whole remaining code,
   * or an instruction.
   */
  function Classify(text: string): Result<Line, ParseError> {
    if text == "" then Ok(EmptyLine)
    else
      var c := ParseCommentToken(text);
      var comment := if c.token.Some? then c.token.value.comment else NoComment;
      var code := c.rest;
      var l := ParseLabelToken(code);
      if l.token.Some? then
        if l.rest == "" then Ok(Line(l.token, comment)) else Err(ExcessText(l.rest))
      else Ok(Line(ParseInstructionToken(code).token, comment))
  }

  /** The parser loop and the direct statement agree on every line. */
  lemma LoopIsDirect(text: string)
    ensures LoopOutcome(text) == Classify(text)
  {
    if text != "" {
      var c := ParseCommentToken(text);
      var comment := if c.token.Some? then c.token.value.comment else NoComment;
      RunComment(text);
      RunCode(c.rest, c.token, comment);
    }
  }

  /** The comment parser always hands the text before any `#` on to the label parser. */
  lemma RunComment(text: string)
    requires text != ""
    ensures var c := ParseCommentToken(text);
      var comment := if c.token.Some? then c.token.value.comment else NoComment;
      RunParsers(TokenParsers, LoopState(None, text, NoComment)) ==
      RunParsers([LabelParser, InstructionParser], LoopState(c.token, c.rest, comment))
  {
    assert TokenParsers[1..] == [LabelParser, InstructionParser];
  }

  /** After the comment: a label ends the loop; otherwise the instruction parser takes the rest. */
  lemma RunCode(code: string, token: Option<Token>, comment: CommentToken)
    ensures var st := RunParsers([LabelParser, InstructionParser], LoopState(token, code, comment));
      var l := ParseLabelToken(code);
      if l.token.Some? then st == LoopState(l.token, l.rest, comment)
      else st == LoopState(ParseInstructionToken(code).token, "", comment)
  {
    var l := ParseLabelToken(code);
    if l.token.Some? {
      RunLabel(code, token, comment);
    } else if code == "" {
      RunNothing(token, comment);
    } else {
      RunUnlabelled(code, token, comment);
    }
  }

  lemma RunLabel(code: string, token: Option<Token>, comment: CommentToken)
    requires ParseLabelToken(code).token.Some?
    ensures var l := ParseLabelToken(code);
      RunParsers([LabelParser, InstructionParser], LoopState(token, code, comment)) ==
      LoopState(l.token, l.rest, comment)
  {
  }

  lemma RunNothing(token: Option<Token>, comment: CommentToken)
    ensures RunParsers([LabelParser, InstructionParser], LoopState(token, "", comment)) ==
      LoopState(None, "", comment)
  {
    assert ParseLabelToken("") == Step(None, "");
  }

  lemma RunUnlabelled(code: string, token: Option<Token>, comment: CommentToken)
    requires code != "" && ParseLabelToken(code).token.None?
    ensures RunParsers([LabelParser, InstructionParser], LoopState(token, code, comment)) ==
      LoopState(ParseInstructionToken(code).token, "", comment)
  {
    assert [LabelParser, InstructionParser][1..] == [InstructionParser];
    RunInstruction(code, None, comment);
  }

  lemma RunInstruction(code: string, token: Option<Token>, comment: CommentToken)
    ensures RunParsers([InstructionParser], LoopState(token, code, comment)) ==
      LoopState(ParseInstructionToken(code).token, "", comment)
  {
    var step := ParseInstructionToken(code);
    assert step.token.Some? ==> !step.token.value.Comment?;
  }

  /** parseLine: runs the token parsers over the line in order and checks that nothing is left. */
  method ParseLine(text: string) returns (r: Result<Line, ParseError>)
    ensures r == Classify(text)
  {
    LoopIsDirect(text);
    if text == "" {
      return Ok(EmptyLine);
    }
    var token: Option<Token> := None;
    var line := text;
    var comment := NoComment;
    ghost var final := RunParsers(TokenParsers, LoopState(None, text, NoComment));
    for i := 0 to |TokenParsers|
      invariant RunParsers(TokenParsers[i..], LoopState(token, line, comment)) == final
    {
      assert TokenParsers[i..][1..] == TokenParsers[i + 1..];
      var step := TokenParsers[i].Run(line);
      token, line := step.token, step.rest;
      if token.Some? && token.value.Comment? {
        comment := token.value.comment;
        continue;
      }
      if token.Some? || line == "" {
        assert LoopState(token, line, comment) == final;
        break;
      }
    }
    if line != "" {
      if token.None? {
        return Err(UnknownToken(line));
      }
      return Err(ExcessText(line));
    }
    return Ok(Line(token, comment));
  }

  /** The "unknown token" error never happens: the instruction parser takes whatever is left. */
  lemma NoUnknownToken(text: string)
    ensures LoopOutcome(text).Err? ==> LoopOutcome(text).error.ExcessText?
  {
    LoopIsDirect(text);
  }

  /**
   * A parsed line holds no comment token in its token slot, a label or a
   * non-empty mnemonic otherwise, and renders as nothing exactly when it is empty.
   */
  lemma ParsedLineShape(text: string)
    requires Classify(text).Ok?
    ensures var l := Classify(text).value;
      (l.token.None? || l.token.value.Label? || l.token.value.Instruction?) &&
      (l.token.Some? && l.token.value.Instruction? ==> l.token.value.instr != []) &&
      (l.String() == "" <==> l.IsEmpty())
  {
    LineStringEmpty(Classify(text).value);
  }

  /** A line of nothing but white space is an empty line. */
  lemma BlankLine(text: string)
    requires forall i :: 0 <= i < |text| ==> IsSpace(text[i])
    ensures Classify(text) == Ok(EmptyLine)
  {
    if text != "" {
      assert Unquoted(text);
      MaskUnquoted(text, "x");
      assert FirstUnquoted(text, '#') == -1;
      assert FirstUnquoted(text, ':') == -1;
      InstructionNone(text);
    }
  }

  /** A line of `#`s alone carries the zero comment, so it is an empty line. */
  lemma HashOnlyLine(text: string)
    requires text != [] && forall i :: 0 <= i < |text| ==> text[i] == '#'
    ensures Classify(text) == Ok(EmptyLine)
  {
    HashOnlyComment(text);
    assert FirstUnquoted("", ':') == -1;
    InstructionNone("");
  }

  lemma HashOnlyComment(text: string)
    requires text != [] && forall i :: 0 <= i < |text| ==> text[i] == '#'
    ensures ParseCommentToken(text) == Step(Some(Comment(NoComment)), "")
  {
    assert Unquoted(text);
    MaskUnquoted(text, "x");
    assert FirstUnquoted(text, '#') == 0;
    var after := text[1..];
    assert Leading(after, '#') == |after|;
  }

  /** A label followed by code on the same line is an error: the code is reported as excess text. */
  lemma LabelWithCode(name: string, code: string)
    requires IsTrimmed(name) && Unquoted(name) && ':' !in name && '#' !in name
    requires IsTrimmed(code) && code != "" && Unquoted(code) && '#' !in code && '[' !in code && ']' !in code
    ensures Classify(name + ":" + code) == Err(ExcessText(code))
  {
    var text := name + ":" + code;
    assert Unquoted(text) && '#' !in text;
    MaskUnquoted(text, "x");
    assert FirstUnquoted(text, '#') == -1;
    LabelRoundTrip(name, code);
  }

  /** Registers with no comma between them are still an instruction: the first run is the mnemonic, the rest one operand. */
  lemma RegistersAreAnInstruction(text: string)
    requires text == "$t0 $t1 $t2"
    ensures Classify(text) == Ok(Line(Some(Instruction("$t0", ["$t1 $t2"])), NoComment))
  {
    assert Unquoted(text) && '#' !in text && ':' !in text;
    ClassifyPlain(text);
    RegistersParse(text);
  }

  /** Quote-free text without `#` or `:` is handed whole to the instruction parser. */
  lemma ClassifyPlain(text: string)
    requires text != "" && Unquoted(text) && '#' !in text && ':' !in text
    ensures Classify(text) == Ok(Line(ParseInstructionToken(text).token, NoComment))
  {
    MaskUnquoted(text, "x");
    assert FirstUnquoted(text, '#') == -1;
    assert FirstUnquoted(text, ':') == -1;
  }

  /** An indented comment-only line is inline: the flag comes from the `#`'s index in the raw line. */
  lemma IndentedCommentIsInline(text: string)
    requires text == "  # hi"
    ensures ParseCommentToken(text) == Step(Some(Comment(CommentToken("hi", true))), "  ")
    ensures Classify(text) == Ok(Line(None, CommentToken("hi", true)))
  {
    assert "  " + CommentToken("hi", true).String() == text;
    CommentAfterBlank("  ", CommentToken("hi", true));
  }

  /** A comment after nothing but blanks classifies as a comment-only line, inline exactly when the blanks are there. */
  lemma CommentAfterBlank(code: string, c: CommentToken)
    requires forall i :: 0 <= i < |code| ==> IsSpace(code[i])
    requires c.text == [] || c.text[0] != ' '
    ensures ParseCommentToken(code + c.String()) == Step(Some(Comment(CommentToken(c.text, code != []))), code)
    ensures Classify(code + c.String()) == Ok(Line(None, CommentToken(c.text, code != [])))
  {
    assert Unquoted(code);
    assert '#' !in code;
    CommentRoundTrip(code, c);
    BlankCode(code);
  }

  /** Blank code before a comment is neither a label nor an instruction. */
  lemma BlankCode(code: string)
    requires forall i :: 0 <= i < |code| ==> IsSpace(code[i])
    ensures ParseLabelToken(code) == Step(None, code)
    ensures ParseInstructionToken(code).token.None?
  {
    assert Unquoted(code);
    MaskUnquoted(code, "x");
    assert FirstUnquoted(code, ':') == -1;
    InstructionNone(code);
  }

  /** A colon inside a comment never makes a label. */
  lemma ColonInComment(code: string, cmt: string)
    requires Unquoted(code) && '#' !in code && ':' !in code
    ensures Classify(code + "#" + cmt).Ok?
    ensures Classify(code + "#" + cmt).value.token.None? ||
      Classify(code + "#" + cmt).value.token.value.Instruction?
  {
    var text := code + "#" + cmt;
    FirstUnquotedAfter(code, '#', cmt);
    assert text[..|code|] == code;
    MaskUnquoted(code, "x");
    assert FirstUnquoted(code, ':') == -1;
  }

  /** What parseLine makes of each line of a file. */
  function Classified(input: seq<string>): (rs: seq<Result<Line, ParseError>>)
    ensures |rs| == |input|
  {
    if input == [] then [] else [Classify(input[0])] + Classified(input[1..])
  }

  /** The result for line k is parseLine's result for that line. */
  lemma {:induction false} ClassifiedAt(input: seq<string>, k: nat)
    requires k < |input|
    ensures Classified(input)[k] == Classify(input[k])
  {
    if k > 0 {
      ClassifiedAt(input[1..], k - 1);
    }
  }

  /** The parsed lines from index i on, stopping at the first failure, numbered from 1. */
  function ParseFrom(rs: seq<Result<Line, ParseError>>, i: nat): (r: (seq<Line>, Option<LineError>))
    requires i <= |rs|
    ensures |r.0| <= |rs| - i
    decreases |rs| - i
  {
    if i == |rs| then ([], None)
    else
      match rs[i]
      case Err(e) => ([], Some(LineError(i + 1, e)))
      case Ok(l) =>
        var rest := ParseFrom(rs, i + 1);
        ([l] + rest.0, rest.1)
  }

  /** What Parse returns for a whole file. */
  function ParseAll(input: seq<string>): (seq<Line>, Option<LineError>) {
    ParseFrom(Classified(input), 0)
  }

  /**
   * Without an error every line is parsed, in order; with an error at
   * 1-based line n, the lines before it are parsed and line n is the first
   * that fails.
   */
  lemma {:induction false} ParseFromOutcome(rs: seq<Result<Line, ParseError>>, i: nat)
    requires i <= |rs|
    ensures var (ls, err) := ParseFrom(rs, i);
      (err.None? <==> forall k :: i <= k < |rs| ==> rs[k].Ok?) &&
      (err.None? ==>
        |ls| == |rs| - i && forall k :: i <= k < |rs| ==> rs[k] == Ok(ls[k - i])) &&
      (err.Some? ==>
        i < err.value.lineNum <= |rs| && |ls| == err.value.lineNum - 1 - i &&
        rs[err.value.lineNum - 1] == Err(err.value.cause) &&
        forall k :: i <= k < err.value.lineNum - 1 ==> rs[k] == Ok(ls[k - i]))
    decreases |rs| - i
  {
    if i < |rs| && rs[i].Ok? {
      ParseFromOutcome(rs, i + 1);
    }
  }

  /** A whole file parses without error exactly when every line does. */
  lemma ParseAllSucceeds(input: seq<string>)
    ensures ParseAll(input).1.None? <==> forall k :: 0 <= k < |input| ==> Classify(input[k]).Ok?
  {
    var rs := Classified(input);
    ParseFromOutcome(rs, 0);
    var err := ParseFrom(rs, 0).1;
    if err.Some? {
      var n := err.value.lineNum - 1;
      ClassifiedAt(input, n);
    } else {
      forall k | 0 <= k < |input|
        ensures Classify(input[k]).Ok?
      {
        ClassifiedAt(input, k);
      }
    }
  }

  /** Without an error, the parsed lines are the lines of the file, in order. */
  lemma ParseAllLines(input: seq<string>)
    requires ParseAll(input).1.None?
    ensures var ls := ParseAll(input).0;
      |ls| == |input| && forall k :: 0 <= k < |input| ==> Classify(input[k]) == Ok(ls[k])
  {
    var rs := Classified(input);
    ParseFromOutcome(rs, 0);
    var ls := ParseFrom(rs, 0).0;
    forall k | 0 <= k < |input|
      ensures Classify(input[k]) == Ok(ls[k])
    {
      ClassifiedAt(input, k);
      assert rs[k] == Ok(ls[k - 0]);
    }
  }

  /** With an error, it names the first line that fails, and the lines before it are returned parsed. */
  lemma ParseAllStops(input: seq<string>)
    requires ParseAll(input).1.Some?
    ensures var ls, e := ParseAll(input).0, ParseAll(input).1.value;
      0 < e.lineNum <= |input| && |ls| == e.lineNum - 1 &&
      Classify(input[e.lineNum - 1]) == Err(e.cause) &&
      forall k :: 0 <= k < |ls| ==> Classify(input[k]) == Ok(ls[k])
  {
    var rs := Classified(input);
    ParseFromOutcome(rs, 0);
    var (ls, err) := ParseFrom(rs, 0);
    ClassifiedAt(input, err.value.lineNum - 1);
    forall k | 0 <= k < |ls|
      ensures Classify(input[k]) == Ok(ls[k])
    {
      ClassifiedAt(input, k);
      assert rs[k] == Ok(ls[k - 0]);
    }
  }

  /**
   * The parser's cursor over the input lines: the line last scanned, at
   * most one line read ahead by Peek, and the lines parsed so far.
   */
  class Parser {
    const input: seq<string>
    var pos: nat
    var curr: string
    var next: Option<string>
    var lines: seq<Line>

    ghost predicate Valid()
      reads this
    {
      pos <= |input| && (next.Some? ==> 0 < pos && next.value == input[pos - 1])
    }

    /** The lines Scan has still to return, the read-ahead one first. */
    ghost function Pending(): seq<string>
      reads this
      requires Valid()
    {
      (if next.Some? then [next.value] else []) + input[pos..]
    }

    constructor(input: seq<string>)
      ensures Valid() && this.input == input
      ensures curr == "" && next.None? && lines == [] && Pending() == input
    {
      this.input := input;
      pos := 0;
      curr := "";
      next := None;
      lines := [];
    }

    /** Scan: makes the next pending line current, or reports that there is none. */
    method Scan() returns (ok: bool)
      requires Valid()
      modifies this
      ensures Valid() && lines == old(lines)
      ensures ok == (old(Pending()) != [])
      ensures ok ==> curr == old(Pending())[0] && Pending() == old(Pending())[1..]
      ensures !ok ==> curr == "" && Pending() == []
      ensures old(next).Some? ==> pos == old(pos) && curr == old(next).value
      ensures old(next).None? && old(pos) < |input| ==> pos == old(pos) + 1 && curr == input[old(pos)]
      ensures old(next).None? && old(pos) == |input| ==> pos == old(pos)
      ensures next.None?
    {
      if next.Some? {
        curr := next.value;
        next := None;
        return true;
      }
      if pos < |input| {
        pos := pos + 1;
        curr := input[pos - 1];
        return true;
      }
      curr := "";
      return false;
    }

    /** Text: the current line. */
    function Text(): (r: string)
      reads this
      ensures r == curr
    {
      curr
    }

    /** Peek: the next line, read ahead once and kept until Scan takes it. */
    method Peek() returns (text: string, ok: bool)
      requires Valid()
      modifies this
      ensures Valid() && Pending() == old(Pending())
      ensures curr == old(curr) && lines == old(lines)
      ensures ok == (Pending() != [])
      ensures ok ==> text == Pending()[0] && next == Some(text)
      ensures !ok ==> text == ""
    {
      if next.Some? {
        return next.value, true;
      }
      if pos < |input| {
        pos := pos + 1;
        text := input[pos - 1];
        next := Some(text);
        return text, true;
      }
      return "", false;
    }

    /** PrevLine: the line parsed last, if any. */
    function PrevLine(): (r: Option<Line>)
      reads this
      ensures r.None? <==> lines == []
      ensures r.Some? ==> r.value == lines[|lines| - 1]
    {
      if |lines| == 0 then None else Some(lines[|lines| - 1])
    }
  }

  /** Peeking twice gives the same line, and the next Scan makes exactly that line current. */
  method PeekThenScan(p: Parser) returns (first: string, second: string, scanned: string)
    requires p.Valid() && p.Pending() != []
    modifies p
    ensures first == second == scanned == old(p.Pending())[0]
    ensures p.Valid() && p.Pending() == old(p.Pending())[1..]
  {
    var ok;
    first, ok := p.Peek();
    second, ok := p.Peek();
    ok := p.Scan();
    scanned := p.Text();
  }

  /** Parse: numbers the lines from 1 and stops at the first line that fails. */
  method Parse(input: seq<string>) returns (lines: seq<Line>, err: Option<LineError>)
    ensures (lines, err) == ParseAll(input)
  {
    ghost var rs := Classified(input);
    ghost var whole := ParseAll(input);
    var parser := new Parser(input);
    var lineIdx := 0;
    var more := parser.Scan();
    ParseFromStart(rs, whole);
    while more
      invariant parser.Valid() && parser.input == input && parser.next.None?
      invariant lineIdx <= |input|
      invariant more ==> lineIdx < |input| && parser.pos == lineIdx + 1 && parser.curr == input[lineIdx]
      invariant !more ==> lineIdx == |input|
      invariant whole == (parser.lines + ParseFrom(rs, lineIdx).0, ParseFrom(rs, lineIdx).1)
      decreases |input| - lineIdx
    {
      var r := ParseLine(parser.Text());
      ClassifiedAt(input, lineIdx);
      if r.Err? {
        ParseFromFails(rs, lineIdx, parser.lines, whole);
        return parser.lines, Some(LineError(lineIdx + 1, r.error));
      }
      ParseFromAdvance(rs, lineIdx, parser.lines, whole);
      parser.lines := parser.lines + [r.value];
      lineIdx := lineIdx + 1;
      more := parser.Scan();
    }
    ParseFromEnd(rs, parser.lines, whole);
    return parser.lines, None;
  }

  lemma ParseFromStart(rs: seq<Result<Line, ParseError>>, whole: (seq<Line>, Option<LineError>))
    requires whole == ParseFrom(rs, 0)
    ensures whole == ([] + ParseFrom(rs, 0).0, ParseFrom(rs, 0).1)
  {
    assert [] + whole.0 == whole.0;
  }

  /** A parsed line joins the lines before it. */
  lemma ParseFromAdvance(rs: seq<Result<Line, ParseError>>, i: nat, ls: seq<Line>, whole: (seq<Line>, Option<LineError>))
    requires i < |rs| && rs[i].Ok?
    requires whole == (ls + ParseFrom(rs, i).0, ParseFrom(rs, i).1)
    ensures whole == ((ls + [rs[i].value]) + ParseFrom(rs, i + 1).0, ParseFrom(rs, i + 1).1)
  {
    var rest := ParseFrom(rs, i + 1);
    assert ParseFrom(rs, i) == ([rs[i].value] + rest.0, rest.1);
    assert ls + ([rs[i].value] + rest.0) == (ls + [rs[i].value]) + rest.0;
  }

  /** A failing line ends the parse with the lines before it. */
  lemma ParseFromFails(rs: seq<Result<Line, ParseError>>, i: nat, ls: seq<Line>, whole: (seq<Line>, Option<LineError>))
    requires i < |rs| && rs[i].Err?
    requires whole == (ls + ParseFrom(rs, i).0, ParseFrom(rs, i).1)
    ensures whole == (ls, Some(LineError(i + 1, rs[i].error)))
  {
    assert ls + [] == ls;
  }

  /** Past the last line nothing more is parsed. */
  lemma ParseFromEnd(rs: seq<Result<Line, ParseError>>, ls: seq<Line>, whole: (seq<Line>, Option<LineError>))
    requires whole == (ls + ParseFrom(rs, |rs|).0, ParseFrom(rs, |rs|).1)
    ensures whole == (ls, None)
  {
    assert ls + [] == ls;
  }
}
