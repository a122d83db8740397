/**
 * The tokens of one line of SPIM assembly, the three token parsers and the
 * renderers that turn tokens and lines back into text.
 */
module Tokens {
  import opened Wrappers
  import opened GoStrings
  import opened Quotes

  /** A `#` comment. `inline` records whether code came before the `#`. */
  datatype CommentToken = CommentToken(text: string, inline: bool)
  {
    /** Inline comments render with one `#`, whole-line comments with two. */
    function String(): (r: string)
      ensures |r| == |text| + (if inline then 2 else 3)
      ensures r[0] == '#' && (r[1] == ' ' <==> inline)
      ensures inline ==> r[..2] == "# "
      ensures !inline ==> r[..3] == "## "
      ensures r[|r| - |text|..] == text
    {
      (if inline then "# " else "## ") + text
    }
  }

  /** The zero value of a comment: no text, not inline. */
  const NoComment := CommentToken("", false)

  datatype Token =
    | Label(name: string)
    | Instruction(instr: string, args: seq<string>)
    | Comment(comment: CommentToken)
  {
    function String(): (r: string)
      ensures Label? ==> |r| == |name| + 1 && r[..|name|] == name && r[|name|] == ':'
      ensures Instruction? ==> |instr| <= |r| && r[..|instr|] == instr
      ensures Instruction? ==> (args == [] <==> |r| == |instr|)
      ensures Instruction? && args != [] ==> |instr| < |r| && r[|instr|] == '\t'
      ensures Comment? ==> r == comment.String()
    {
      match this
      case Label(name) => name + ":"
      case Instruction(instr, args) =>
        if |args| > 0 then instr + "\t" + Join(args, ", ") else instr
      case Comment(c) => c.String()
    }
  }

  /** One source line: at most one code token plus a comment. */
  datatype Line = Line(token: Option<Token>, comment: CommentToken)
  {
    /** No token and the zero comment: the one line equal to the zero line. */
    predicate IsEmpty()
      ensures IsEmpty() <==> this == EmptyLine
    {
      token.None? && comment == NoComment
    }

    /** The token, a tab, the comment; a tab left at the end is dropped. */
    function String(): (r: string)
      ensures comment == NoComment ==> r == (if token.Some? then token.value.String() else "")
      ensures comment != NoComment && !EndsInTab(comment.text) ==>
        r == (if token.Some? then token.value.String() + "\t" else "") + comment.String()
    {
      var code := if token.Some? then token.value.String() + "\t" else "";
      var cmt := if comment != NoComment then comment.String() else "";
      assert comment != NoComment && !EndsInTab(comment.text) ==> (code + cmt)[|code + cmt| - 1] != '\t';
      TrimSuffix(code + cmt, "\t")
    }
  }

  const EmptyLine := Line(None, NoComment)

  predicate EndsInTab(s: string) {
    s != [] && s[|s| - 1] == '\t'
  }

  /** What a token parser returns: the token it found, if any, and the text it leaves. */
  datatype Step = Step(token: Option<Token>, rest: string)

  /** The three token parsers. */
  datatype TokenParser = CommentParser | LabelParser | InstructionParser
  {
    /**
     * Only the comment parser yields comment tokens, which is what lets the
     * parser loop tell a comment from a code token; and the instruction
     * parser, last in the list, always takes the whole line.
     */
    function Run(line: string): (r: Step)
      ensures r.token.Some? ==> (r.token.value.Comment? <==> this == CommentParser)
      ensures this == InstructionParser ==> r.rest == ""
    {
      match this
      case CommentParser => ParseCommentToken(line)
      case LabelParser => ParseLabelToken(line)
      case InstructionParser => ParseInstructionToken(line)
    }
  }

  /** The order in which a line is offered to the parsers. */
  const TokenParsers: seq<TokenParser> := [CommentParser, LabelParser, InstructionParser]

  /** The index of the first occurrence of c outside a quoted span, or -1. */
  function FirstUnquoted(line: string, c: char): (r: int)
    requires c != 'x'
    ensures -1 <= r < |line|
    ensures 0 <= r ==> line[r] == c
  {
    var noq := Mask(line, "x");
    MaskPointwise(line, "x");
    IndexOf(noq, c)
  }

  /** After quote-free text without c, the first unquoted c is the one that follows it. */
  lemma FirstUnquotedAfter(pre: string, c: char, post: string)
    requires Unquoted(pre) && c !in pre && c != 'x' && c !in QuoteChars
    ensures FirstUnquoted(pre + [c] + post, c) == |pre|
  {
    var line := pre + [c] + post;
    assert Unquoted(pre + [c]);
    MaskUnquotedPrefix(pre + [c], post, "x");
    assert line == (pre + [c]) + post;
    var noq := Mask(line, "x");
    assert noq[..|pre| + 1] == pre + [c];
    IndexOfUnique(noq, c, |pre|);
  }

  /** ParseCommentToken: splits off everything from the first unquoted `#`. */
  function ParseCommentToken(line: string): (r: Step)
    ensures FirstUnquoted(line, '#') < 0 ==> r == Step(None, line)
    ensures 0 <= FirstUnquoted(line, '#') ==>
      r.token.Some? && r.token.value.Comment? && r.rest == line[..FirstUnquoted(line, '#')] &&
      (r.token.value.comment.inline <==> r.rest != [])
  {
    var idx := FirstUnquoted(line, '#');
    if idx == -1 then Step(None, line)
    else
      var cmt := TrimLeftChar(TrimLeftChar(line[idx + 1..], '#'), ' ');
      Step(Some(Comment(CommentToken(cmt, idx > 0))), line[..idx])
  }

  /** The comment text is what follows the `#`, less its leading `#`s and then its leading spaces. */
  lemma CommentText(line: string)
    requires 0 <= FirstUnquoted(line, '#')
    ensures var after := line[FirstUnquoted(line, '#') + 1..];
      var text := ParseCommentToken(line).token.value.comment.text;
      |text| <= |after| && after[|after| - |text|..] == text &&
      (forall i :: 0 <= i < |after| - |text| ==> after[i] == '#' || after[i] == ' ') &&
      (forall i, j :: 0 <= i < j < |after| - |text| && after[i] == ' ' ==> after[j] == ' ') &&
      (text != [] ==> text[0] != ' ') &&
      (text != [] && text[0] == '#' ==> |text| < |after| && after[|after| - |text| - 1] == ' ')
  {
    var after := line[FirstUnquoted(line, '#') + 1..];
    HashesThenSpaces(after);
  }

  lemma HashesThenSpaces(after: string)
    ensures var text := TrimLeftChar(TrimLeftChar(after, '#'), ' ');
      |text| <= |after| && after[|after| - |text|..] == text &&
      (forall i :: 0 <= i < |after| - |text| ==> after[i] == '#' || after[i] == ' ') &&
      (forall i, j :: 0 <= i < j < |after| - |text| && after[i] == ' ' ==> after[j] == ' ') &&
      (text != [] ==> text[0] != ' ') &&
      (text != [] && text[0] == '#' ==> |text| < |after| && after[|after| - |text| - 1] == ' ')
  {
    var t1 := TrimLeftChar(after, '#');
    var t2 := TrimLeftChar(t1, ' ');
    var h := |after| - |t1|;
    var g := |t1| - |t2|;
    assert after[h..] == t1 && t1[g..] == t2;
    assert after[h + g..] == t2;
    assert forall i :: 0 <= i < h ==> after[i] == '#';
    forall i | h <= i < h + g
      ensures after[i] == ' '
    {
      assert after[i] == t1[i - h];
    }
  }

  /** ParseLabelToken: a label ends at the first unquoted `:`, unless what follows has a bracket. */
  function ParseLabelToken(line: string): (r: Step)
    ensures r.token.None? ==> r.rest == line
    ensures r.token.Some? ==>
      r.token.value.Label? && 0 <= FirstUnquoted(line, ':') &&
      IsTrimmed(r.token.value.name) && IsTrimmed(r.rest) && '[' !in r.rest && ']' !in r.rest
  {
    var idx := FirstUnquoted(line, ':');
    if idx == -1 then Step(None, line)
    else
      var name := TrimSpace(line[..idx]);
      var rest := TrimSpace(line[idx + 1..]);
      TrimSpaceIsTrimmed(line[..idx]);
      TrimSpaceIsTrimmed(line[idx + 1..]);
      if '[' in rest || ']' in rest then Step(None, line)
      else Step(Some(Label(name)), rest)
  }

  /** The end of the run of characters starting at i whose regex-space status is `space`. */
  function RegexRun(s: string, i: nat, space: bool): (r: nat)
    requires i <= |s|
    ensures i <= r <= |s|
    ensures forall k :: i <= k < r ==> IsRegexSpace(s[k]) == space
    ensures r < |s| ==> IsRegexSpace(s[r]) != space
    decreases |s| - i
  {
    if i == |s| || IsRegexSpace(s[i]) != space then i else RegexRun(s, i + 1, space)
  }

  /** The span of the group of `\s*(\S+)` in s, matched leftmost-first, if s matches. */
  function InstrMatch(s: string): (r: Option<(nat, nat)>)
    ensures r.Some? ==> r.value.0 < r.value.1 <= |s|
  {
    var a := RegexRun(s, 0, true);
    if a == |s| then None else Some((a, RegexRun(s, a, false)))
  }

  /** The match fails only on blank text; otherwise the group is blanks, then a maximal run of non-blanks. */
  lemma InstrMatchSpec(s: string)
    ensures InstrMatch(s).None? <==> forall k :: 0 <= k < |s| ==> IsRegexSpace(s[k])
    ensures InstrMatch(s).Some? ==> var (a, b) := InstrMatch(s).value;
      (forall k :: 0 <= k < a ==> IsRegexSpace(s[k])) &&
      (forall k :: a <= k < b ==> !IsRegexSpace(s[k])) &&
      (b < |s| ==> IsRegexSpace(s[b]))
  {
    var a := RegexRun(s, 0, true);
    if a < |s| {
      var b := RegexRun(s, a, false);
    }
  }

  /** strings.TrimSpace applied to every element. */
  function TrimAll(xs: seq<string>): (r: seq<string>)
    ensures |r| == |xs|
    ensures forall i :: 0 <= i < |xs| ==> r[i] == TrimSpace(xs[i])
  {
    seq(|xs|, i requires 0 <= i < |xs| => TrimSpace(xs[i]))
  }

  /** ParseInstructionToken: the mnemonic and the comma-separated operands; it always consumes the line. */
  function ParseInstructionToken(line: string): (r: Step)
    ensures r.rest == ""
    ensures r.token.Some? ==>
      r.token.value.Instruction? && r.token.value.instr != [] && |r.token.value.args| >= 1
  {
    var t := TrimLeftSpace(line);
    var noq := Mask(t, "x");
    MaskedHeadSolid(t);
    var m := InstrMatch(noq);
    if m.None? then
      Step(None, t)
    else
      var (a, b) := m.value;
      Step(Some(Instruction(t[a..b], TrimAll(Split(t[b..], ',')))), "")
  }

  /** Masking keeps a leading non-blank character non-blank. */
  lemma MaskedHeadSolid(t: string)
    ensures |Mask(t, "x")| == |t|
    ensures t != [] && !IsSpace(t[0]) ==> !IsRegexSpace(Mask(t, "x")[0])
  {
    MaskPointwise(t, "x");
  }

  /** Only a line of white space yields no instruction. */
  lemma InstructionNone(line: string)
    ensures ParseInstructionToken(line).token.None? <==> forall i :: 0 <= i < |line| ==> IsSpace(line[i])
  {
    var t := TrimLeftSpace(line);
    MaskPointwise(t, "x");
    if t != [] {
      var noq := Mask(t, "x");
      assert !IsRegexSpace(noq[0]);
      assert !IsSpace(line[|line| - |t|]);
    }
  }

  /** A parsed instruction: the mnemonic starts the left-trimmed line and ends where the masked text has its first blank. */
  lemma InstructionSpan(line: string)
    requires ParseInstructionToken(line).token.Some?
    ensures var tok := ParseInstructionToken(line).token.value;
      var t := TrimLeftSpace(line);
      var b := |tok.instr|;
      0 < b <= |t| && tok.instr == t[..b] && tok.args == TrimAll(Split(t[b..], ',')) &&
      |Mask(t, "x")| == |t| &&
      (forall k :: 0 <= k < b ==> !IsRegexSpace(Mask(t, "x")[k])) &&
      (b < |t| ==> IsRegexSpace(Mask(t, "x")[b]))
  {
    var t := TrimLeftSpace(line);
    MaskedHeadSolid(t);
    var m := InstrMatch(Mask(t, "x"));
    assert m.value.0 == 0;
  }

  /**
   * The shape of a parsed instruction line: after the leading blanks comes
   * the mnemonic, then text with one comma fewer than there are operands,
   * and every operand is trimmed.
   */
  ghost predicate InstructionShaped(line: string, instr: string, args: seq<string>) {
    var lead := LeadingSpaces(line);
    lead + |instr| <= |line| &&
    line[lead..lead + |instr|] == instr &&
    |args| == Count(line[lead + |instr|..], ',') + 1 &&
    forall i :: 0 <= i < |args| ==> IsTrimmed(args[i])
  }

  /** The mnemonic is the first run of non-blank text, and there is one operand more than there are commas after it. */
  lemma InstructionShape(line: string)
    requires ParseInstructionToken(line).token.Some?
    ensures var tok := ParseInstructionToken(line).token.value;
      tok.Instruction? && InstructionShaped(line, tok.instr, tok.args)
  {
    var tok := ParseInstructionToken(line).token.value;
    InstructionCut(line, tok);
    SpanShape(line, tok.instr, tok.args);
  }

  /** Where the parser cuts a left-trimmed line into mnemonic and operands. */
  lemma InstructionCut(line: string, tok: Token)
    requires ParseInstructionToken(line).token == Some(tok)
    ensures var t := TrimLeftSpace(line);
      tok.Instruction? && |tok.instr| <= |t| && tok.instr == t[..|tok.instr|] &&
      tok.args == TrimAll(Split(t[|tok.instr|..], ','))
  {
    InstructionSpan(line);
  }

  /** InstructionShape's facts, for any mnemonic and operands cut from the left-trimmed line as the parser cuts them. */
  lemma SpanShape(line: string, instr: string, args: seq<string>)
    requires var t := TrimLeftSpace(line);
      |instr| <= |t| && instr == t[..|instr|] && args == TrimAll(Split(t[|instr|..], ','))
    ensures InstructionShaped(line, instr, args)
  {
    var t := TrimLeftSpace(line);
    var lead := LeadingSpaces(line);
    var b := |instr|;
    assert line[lead..lead + b] == t[..b];
    assert line[lead + b..] == t[b..];
    var parts := Split(t[b..], ',');
    SplitCount(t[b..], ',');
    forall i | 0 <= i < |args|
      ensures IsTrimmed(args[i])
    {
      TrimSpaceIsTrimmed(parts[i]);
    }
  }

  /** ParseInstructionToken as the source writes it: the operands are trimmed in place. */
  method ParseInstruction(line: string) returns (r: Step)
    ensures r == ParseInstructionToken(line)
  {
    var t := TrimLeftSpace(line);
    var noq := NoQuotes(t, "x");
    var m := InstrMatch(noq);
    if m.None? {
      return Step(None, t);
    }
    var a, b := m.value.0, m.value.1;
    InstructionCases(line);
    var args := TrimmedCopy(Split(t[b..], ','));
    r := Step(Some(Instruction(t[a..b], args)), "");
  }

  /** The operands, copied into an array and trimmed there. */
  method TrimmedCopy(parts: seq<string>) returns (args: seq<string>)
    ensures args == TrimAll(parts)
  {
    var a := new string[|parts|](i requires 0 <= i < |parts| => parts[i]);
    assert a[..] == parts;
    TrimInPlace(a);
    args := a[..];
  }

  /** ParseInstructionToken's two outcomes, by whether the masked, left-trimmed line matches. */
  lemma InstructionCases(line: string)
    ensures var t := TrimLeftSpace(line);
      var m := InstrMatch(Mask(t, "x"));
      m.None? ==> ParseInstructionToken(line) == Step(None, t)
    ensures var t := TrimLeftSpace(line);
      var m := InstrMatch(Mask(t, "x"));
      m.Some? ==> (m.value.0 <= m.value.1 <= |t| &&
        ParseInstructionToken(line) ==
          Step(Some(Instruction(t[m.value.0..m.value.1], TrimAll(Split(t[m.value.1..], ',')))), ""))
  {
    MaskPointwise(TrimLeftSpace(line), "x");
  }

  /** Replaces every element by its trimmed form. */
  method TrimInPlace(args: array<string>)
    modifies args
    ensures args[..] == TrimAll(old(args[..]))
  {
    for i := 0 to args.Length
      invariant forall j :: 0 <= j < i ==> args[j] == TrimSpace(old(args[j]))
      invariant forall j :: i <= j < args.Length ==> args[j] == old(args[j])
    {
      args[i] := TrimSpace(args[i]);
    }
  }

  /** A rendered comment after quote-free code is parsed back, with `inline` telling whether there was code. */
  lemma CommentRoundTrip(code: string, c: CommentToken)
    requires Unquoted(code) && '#' !in code
    requires c.text == [] || c.text[0] != ' '
    ensures ParseCommentToken(code + c.String()) ==
      Step(Some(Comment(CommentToken(c.text, code != []))), code)
  {
    var after := if c.inline then [' '] + c.text else ['#', ' '] + c.text;
    assert c.String() == ['#'] + after;
    CommentTextTrim(c.text, c.inline);
    CommentAfterCode(code, c, after);
  }

  /** CommentRoundTrip once the rendered comment is seen as a `#` and the text after it. */
  lemma CommentAfterCode(code: string, c: CommentToken, after: string)
    requires Unquoted(code) && '#' !in code
    requires c.String() == ['#'] + after && TrimLeftChar(TrimLeftChar(after, '#'), ' ') == c.text
    ensures ParseCommentToken(code + c.String()) ==
      Step(Some(Comment(CommentToken(c.text, code != []))), code)
  {
    var line := code + ['#'] + after;
    assert code + c.String() == line;
    assert line[..|code|] == code && line[|code| + 1..] == after by {
      assert line == code + (['#'] + after);
    }
    FirstUnquotedAfter(code, '#', after);
    CommentAt(line, |code|, code, after);
  }

  /** The comment parser's result once the position of the first unquoted `#` is known. */
  lemma CommentAt(line: string, idx: int, code: string, after: string)
    requires FirstUnquoted(line, '#') == idx && 0 <= idx < |line|
    requires line[..idx] == code && line[idx + 1..] == after
    ensures ParseCommentToken(line) ==
      Step(Some(Comment(CommentToken(TrimLeftChar(TrimLeftChar(after, '#'), ' '), code != []))), code)
  {
    assert |code| == idx;
    assert idx > 0 <==> code != [];
  }

  /** What follows the `#` of a rendered comment trims down to its text. */
  lemma CommentTextTrim(text: string, inline: bool)
    requires text == [] || text[0] != ' '
    ensures var after := if inline then [' '] + text else ['#', ' '] + text;
      TrimLeftChar(TrimLeftChar(after, '#'), ' ') == text
  {
    var spaced := [' '] + text;
    if !inline {
      assert ['#', ' '] + text == ['#'] + spaced;
      TrimLeftCharSkip('#', spaced);
    }
    TrimLeftCharStop(spaced, '#');
    TrimLeftCharSkip(' ', text);
    TrimLeftCharStop(text, ' ');
  }

  /** A trimmed, quote-free name before a colon and a bracket-free trimmed rest are parsed back. */
  lemma LabelRoundTrip(name: string, rest: string)
    requires IsTrimmed(name) && Unquoted(name) && ':' !in name
    requires IsTrimmed(rest) && '[' !in rest && ']' !in rest
    ensures ParseLabelToken(name + ":" + rest) == Step(Some(Label(name)), rest)
  {
    var line := name + ":" + rest;
    FirstUnquotedAfter(name, ':', rest);
    assert line[..|name|] == name;
    assert line[|name| + 1..] == rest;
    TrimmedIsFixed(name);
    TrimmedIsFixed(rest);
  }

  /** A rendered label is parsed back with nothing left over. */
  lemma LabelStringRoundTrip(name: string)
    requires IsTrimmed(name) && Unquoted(name) && ':' !in name
    ensures ParseLabelToken(Label(name).String()) == Step(Some(Label(name)), "")
  {
    LabelRoundTrip(name, "");
    assert name + ":" + "" == Label(name).String();
  }

  /** The label parser finds a label exactly when there is an unquoted colon and the trimmed text after it has no bracket. */
  lemma LabelFound(line: string)
    ensures ParseLabelToken(line).token.Some? <==>
      var idx := FirstUnquoted(line, ':');
      0 <= idx && var rest := TrimSpace(line[idx + 1..]); '[' !in rest && ']' !in rest
    ensures ParseLabelToken(line).token.Some? ==>
      var idx := FirstUnquoted(line, ':');
      ParseLabelToken(line) == Step(Some(Label(TrimSpace(line[..idx]))), TrimSpace(line[idx + 1..]))
  {
  }

  /** The label parser declines when the text after the first unquoted colon holds a bracket. */
  lemma LabelDeclinesOnBracket(line: string)
    requires 0 <= FirstUnquoted(line, ':')
    requires var rest := TrimSpace(line[FirstUnquoted(line, ':') + 1..]); '[' in rest || ']' in rest
    ensures ParseLabelToken(line) == Step(None, line)
  {
  }

  /** Operands joined by ", " after a blank are split and trimmed back into the same operands. */
  lemma {:induction false} TrimSplitJoin(lead: char, args: seq<string>)
    requires IsSpace(lead) && args != []
    requires forall i :: 0 <= i < |args| ==> IsTrimmed(args[i]) && ',' !in args[i]
    ensures TrimAll(Split([lead] + Join(args, ", "), ',')) == args
    decreases |args|
  {
    var head := [lead] + args[0];
    LeadTrim(lead, args[0]);
    if |args| == 1 {
      assert [lead] + Join(args, ", ") == head;
      SplitNoSeparator(head, ',');
    } else {
      var tail := Join(args[1..], ", ");
      JoinLead(lead, args);
      SplitCons(head, ',', [' '] + tail);
      TrimSplitJoin(' ', args[1..]);
      TrimAllCons(head, Split([' '] + tail, ','));
    }
  }

  lemma LeadTrim(lead: char, a: string)
    requires IsSpace(lead) && IsTrimmed(a) && ',' !in a
    ensures TrimSpace([lead] + a) == a && ',' !in [lead] + a
  {
    TrimSpaceLead(lead, a);
    TrimmedIsFixed(a);
  }

  lemma JoinLead(lead: char, args: seq<string>)
    requires |args| > 1
    ensures [lead] + Join(args, ", ") == ([lead] + args[0]) + [','] + ([' '] + Join(args[1..], ", "))
  {
  }

  lemma TrimAllCons(x: string, xs: seq<string>)
    ensures TrimAll([x] + xs) == [TrimSpace(x)] + TrimAll(xs)
  {
  }

  /** A rendered instruction is parsed back to itself. */
  lemma InstructionRoundTrip(instr: string, args: seq<string>)
    requires instr != [] && !IsSpace(instr[0]) && Unquoted(instr)
    requires forall i :: 0 <= i < |instr| ==> !IsRegexSpace(instr[i])
    requires args != [] && forall i :: 0 <= i < |args| ==> IsTrimmed(args[i]) && ',' !in args[i]
    ensures ParseInstructionToken(Instruction(instr, args).String()) ==
      Step(Some(Instruction(instr, args)), "")
  {
    var line := Instruction(instr, args).String();
    RenderedMask(instr, args);
    ParseInstructionAt(line, |instr|);
    TrimSplitJoin('\t', args);
  }

  /** The masked rendering of an instruction: the mnemonic, then the tab that ends it. */
  lemma RenderedMask(instr: string, args: seq<string>)
    requires instr != [] && !IsSpace(instr[0]) && Unquoted(instr)
    requires forall i :: 0 <= i < |instr| ==> !IsRegexSpace(instr[i])
    requires args != []
    ensures var line := Instruction(instr, args).String();
      var b := |instr|;
      line != [] && !IsSpace(line[0]) && 0 < b < |line| == |Mask(line, "x")| &&
      (forall k :: 0 <= k < b ==> !IsRegexSpace(Mask(line, "x")[k])) &&
      IsRegexSpace(Mask(line, "x")[b]) &&
      line[..b] == instr && line[b..] == ['\t'] + Join(args, ", ")
  {
    var head := instr + ['\t'];
    var joined := Join(args, ", ");
    var line := head + joined;
    assert Instruction(instr, args).String() == line;
    assert Unquoted(head);
    MaskUnquotedPrefix(head, joined, "x");
    MaskLength(line, "x");
    var noq := Mask(line, "x");
    assert noq[..|head|] == head;
    assert forall k :: 0 <= k < |instr| ==> noq[k] == instr[k];
    assert noq[|instr|] == head[|instr|];
    assert line[..|instr|] == instr;
    assert line[|instr|..] == ['\t'] + joined;
  }

  /** An instruction line that starts with its mnemonic, with the mnemonic's end known. */
  lemma ParseInstructionAt(line: string, b: nat)
    requires line != [] && !IsSpace(line[0])
    requires 0 < b <= |line| == |Mask(line, "x")|
    requires forall k :: 0 <= k < b ==> !IsRegexSpace(Mask(line, "x")[k])
    requires b < |line| ==> IsRegexSpace(Mask(line, "x")[b])
    ensures ParseInstructionToken(line) ==
      Step(Some(Instruction(line[..b], TrimAll(Split(line[b..], ',')))), "")
  {
    assert TrimLeftSpace(line) == line;
    InstrMatchAt(Mask(line, "x"), b);
  }

  /** Text that starts with a run of b non-blanks, ended by a blank or by the end of the text, matches with the group at [0, b). */
  lemma InstrMatchAt(s: string, b: nat)
    requires 0 < b <= |s|
    requires forall k :: 0 <= k < b ==> !IsRegexSpace(s[k])
    requires b < |s| ==> IsRegexSpace(s[b])
    ensures InstrMatch(s) == Some((0, b))
  {
    assert RegexRun(s, 0, true) == 0;
    if b < |s| {
      RegexRunStops(s, 0, b, false);
    }
  }

  /** An instruction line without quotes: the mnemonic runs up to the first blank. */
  lemma ParsePlainInstruction(line: string)
    requires Unquoted(line) && line != [] && !IsSpace(line[0])
    ensures var b := RegexRun(line, 0, false);
      ParseInstructionToken(line) == Step(Some(Instruction(line[..b], TrimAll(Split(line[b..], ',')))), "")
  {
    MaskUnquoted(line, "x");
    ParseInstructionAt(line, RegexRun(line, 0, false));
  }

  /** An instruction without operands still gets one, empty, operand, so it renders with a trailing tab. */
  lemma SyscallRendering(line: string)
    requires line == "syscall"
    ensures ParseInstructionToken(line) == Step(Some(Instruction("syscall", [""])), "")
    ensures Instruction("syscall", [""]).String() == "syscall\t"
  {
    SyscallParse(line);
    SyscallString();
  }

  lemma SyscallParse(line: string)
    requires line == "syscall"
    ensures ParseInstructionToken(line) == Step(Some(Instruction("syscall", [""])), "")
  {
    SyscallFacts(line);
    ParsePlainInstruction(line);
    SplitNoSeparator("", ',');
    assert TrimAll([""]) == [""];
  }

  lemma SyscallString()
    ensures Instruction("syscall", [""]).String() == "syscall\t"
  {
  }

  lemma SyscallFacts(line: string)
    requires line == "syscall"
    ensures Unquoted(line) && !IsSpace(line[0])
    ensures RegexRun(line, 0, false) == |line| && line[..|line|] == "syscall" && line[|line|..] == ""
  {
    assert forall k :: 0 <= k < |line| ==> !IsRegexSpace(line[k]);
  }

  /** Operands are trimmed and re-joined with ", ". */
  lemma NormalizeExample(line: string)
    requires line == "add $t0,$t0, 1"
    ensures ParseInstructionToken(line) == Step(Some(Instruction("add", ["$t0", "$t0", "1"])), "")
    ensures Instruction("add", ["$t0", "$t0", "1"]).String() == "add\t$t0, $t0, 1"
  {
    NormalizeParse(line);
    NormalizeString();
  }

  lemma NormalizeParse(line: string)
    requires line == "add $t0,$t0, 1"
    ensures ParseInstructionToken(line) == Step(Some(Instruction("add", ["$t0", "$t0", "1"])), "")
  {
    NormalizeFacts(line);
    ParsePlainInstruction(line);
    assert IsTrimmed("$t0") && IsTrimmed("1");
    NormalizeSplit(line[3..], "$t0", "1");
  }

  lemma NormalizeSplit(rest: string, p: string, q: string)
    requires IsTrimmed(p) && IsTrimmed(q) && ',' !in p && ',' !in q
    requires rest == [' '] + p + [','] + (p + [','] + ([' '] + q))
    ensures TrimAll(Split(rest, ',')) == [p, p, q]
  {
    assert Split(rest, ',') == [[' '] + p, p, [' '] + q] by {
      SplitCons([' '] + p, ',', p + [','] + ([' '] + q));
      SplitCons(p, ',', [' '] + q);
      SplitNoSeparator([' '] + q, ',');
    }
    TrimThree(p, q);
  }

  lemma TrimThree(p: string, q: string)
    requires IsTrimmed(p) && IsTrimmed(q)
    ensures TrimAll([[' '] + p, p, [' '] + q]) == [p, p, q]
  {
    TrimSpaceLead(' ', p);
    TrimSpaceLead(' ', q);
    TrimmedIsFixed(p);
    TrimmedIsFixed(q);
  }

  lemma NormalizeString()
    ensures Instruction("add", ["$t0", "$t0", "1"]).String() == "add\t$t0, $t0, 1"
  {
  }

  lemma NormalizeFacts(line: string)
    requires line == "add $t0,$t0, 1"
    ensures Unquoted(line) && !IsSpace(line[0])
    ensures RegexRun(line, 0, false) == 3 && line[..3] == "add"
    ensures line[3..] == [' '] + "$t0" + [','] + ("$t0" + [','] + ([' '] + "1"))
  {
    RegexRunStops(line, 0, 3, false);
  }

  lemma RegistersParse(line: string)
    requires line == "$t0 $t1 $t2"
    ensures ParseInstructionToken(line) == Step(Some(Instruction("$t0", ["$t1 $t2"])), "")
  {
    RegistersFacts(line);
    ParsePlainInstruction(line);
    OneOperand(line[3..], "$t1 $t2");
  }

  lemma OneOperand(rest: string, p: string)
    requires IsTrimmed(p) && ',' !in p && rest == [' '] + p
    ensures TrimAll(Split(rest, ',')) == [p]
  {
    SplitNoSeparator(rest, ',');
    TrimSpaceLead(' ', p);
    TrimmedIsFixed(p);
  }

  lemma RegistersFacts(line: string)
    requires line == "$t0 $t1 $t2"
    ensures Unquoted(line) && !IsSpace(line[0])
    ensures RegexRun(line, 0, false) == 3 && line[..3] == "$t0" && line[3..] == [' '] + "$t1 $t2"
    ensures IsTrimmed("$t1 $t2") && ',' !in "$t1 $t2"
  {
    RegexRunStops(line, 0, 3, false);
  }

  lemma RegexRunStops(s: string, i: nat, j: nat, space: bool)
    requires i <= j < |s|
    requires forall k :: i <= k < j ==> IsRegexSpace(s[k]) == space
    requires IsRegexSpace(s[j]) != space
    ensures RegexRun(s, i, space) == j
  {
  }

  /** Operands are split on commas of the raw text, so a parsed line is normal form: parsing its rendering gives it back. */
  lemma InstructionIdempotent(line: string)
    requires ParseInstructionToken(line).token.Some?
    requires Unquoted(ParseInstructionToken(line).token.value.instr)
    ensures var tok := ParseInstructionToken(line).token.value;
      ParseInstructionToken(tok.String()) == Step(Some(tok), "")
  {
    var tok := ParseInstructionToken(line).token.value;
    InstructionFields(line);
    OperandsCommaFree(line);
    MnemonicSolid(line, tok);
    InstructionRoundTrip(tok.instr, tok.args);
  }

  /** The operands are pieces of a split on commas, trimmed, so none of them holds a comma. */
  lemma OperandsCommaFree(line: string)
    requires ParseInstructionToken(line).token.Some?
    ensures var tok := ParseInstructionToken(line).token.value;
      forall i :: 0 <= i < |tok.args| ==> ',' !in tok.args[i]
  {
    var tok := ParseInstructionToken(line).token.value;
    InstructionCut(line, tok);
    var pieces := Split(TrimLeftSpace(line)[|tok.instr|..], ',');
    forall i | 0 <= i < |pieces|
      ensures ',' !in TrimSpace(pieces[i])
    {
      TrimSpaceKeepsOut(pieces[i], ',');
    }
  }

  /** A quote-free mnemonic has no blank in it, not even one the parser's pattern would let through. */
  lemma MnemonicSolid(line: string, tok: Token)
    requires ParseInstructionToken(line).token == Some(tok)
    requires tok.Instruction? && Unquoted(tok.instr)
    ensures forall k :: 0 <= k < |tok.instr| ==> !IsRegexSpace(tok.instr[k])
  {
    InstructionSpan(line);
    var t := TrimLeftSpace(line);
    SolidPrefix(t, tok.instr);
  }

  /** A quote-free prefix reads the same masked, so a blank-free masked prefix is blank-free. */
  lemma SolidPrefix(t: string, instr: string)
    requires |instr| <= |t| && instr == t[..|instr|] && Unquoted(instr)
    requires |Mask(t, "x")| == |t| && forall k :: 0 <= k < |instr| ==> !IsRegexSpace(Mask(t, "x")[k])
    ensures forall k :: 0 <= k < |instr| ==> !IsRegexSpace(instr[k])
  {
    var b := |instr|;
    assert t == instr + t[b..];
    MaskUnquotedPrefix(instr, t[b..], "x");
    assert forall k :: 0 <= k < b ==> Mask(t, "x")[k] == instr[k];
  }

  /** Every parsed operand is trimmed and the mnemonic starts with a character that is not white space. */
  lemma InstructionFields(line: string)
    requires ParseInstructionToken(line).token.Some?
    ensures var tok := ParseInstructionToken(line).token.value;
      !IsSpace(tok.instr[0]) && forall i :: 0 <= i < |tok.args| ==> IsTrimmed(tok.args[i])
  {
    var t := TrimLeftSpace(line);
    MaskPointwise(t, "x");
    InstructionShape(line);
  }

  /** A line with a code token is rendered as non-empty text; only the empty line renders as nothing. */
  lemma LineStringEmpty(l: Line)
    requires l.token.Some? ==> !l.token.value.Comment?
    requires l.token.Some? && l.token.value.Instruction? ==> l.token.value.instr != []
    ensures l.String() == "" <==> l.IsEmpty()
  {
    if l.token.Some? {
      var ts := l.token.value.String();
      assert |ts| > 0;
      var code := ts + "\t";
      var cmt := if l.comment != NoComment then l.comment.String() else "";
      if cmt == "" {
        assert code + cmt == code;
        assert TrimSuffix(code, "\t") == ts;
      }
    } else if l.comment != NoComment {
      assert |l.comment.String()| >= 2;
    }
  }

  /** The text of each line, in order. */
  function LineTexts(ls: seq<Line>): (r: seq<string>)
    ensures |r| == |ls|
  {
    if ls == [] then [] else LineTexts(ls[..|ls| - 1]) + [ls[|ls| - 1].String()]
  }

  /** The i-th text is the i-th line's rendering. */
  lemma {:induction false} LineTextsAt(ls: seq<Line>, i: nat)
    requires i < |ls|
    ensures LineTexts(ls)[i] == ls[i].String()
    decreases |ls|
  {
    if i < |ls| - 1 {
      LineTextsAt(ls[..|ls| - 1], i);
    }
  }

  /** Lines.String: each line followed by a newline, with the final newline dropped. */
  method LinesString(ls: seq<Line>) returns (s: string)
    ensures s == Join(LineTexts(ls), "\n")
  {
    var b := "";
    ghost var strs: seq<string> := [];
    for i := 0 to |ls|
      invariant strs == LineTexts(ls[..i])
      invariant i == 0 ==> b == ""
      invariant i > 0 ==> b == Join(strs, "\n") + "\n"
    {
      var text := ls[i].String();
      assert ls[..i + 1][..i] == ls[..i];
      if i > 0 {
        JoinSnoc(strs, text, "\n");
      }
      b := b + text + "\n";
      strs := strs + [text];
    }
    s := TrimSuffix(b, "\n");
    if |ls| > 0 {
      assert b[|b| - 1..] == "\n";
    }
    assert ls[..|ls|] == ls;
  }

  /** When no line renders with a newline in it, splitting the output of Lines.String at newlines gives back each line's text. */
  lemma LinesStringSplits(ls: seq<Line>)
    requires ls != []
    requires forall i :: 0 <= i < |ls| ==> '\n' !in ls[i].String()
    ensures Split(Join(LineTexts(ls), "\n"), '\n') == LineTexts(ls)
  {
    forall k | 0 <= k < |ls|
      ensures '\n' !in LineTexts(ls)[k]
    {
      LineTextsAt(ls, k);
    }
    JoinSplit(LineTexts(ls), '\n');
  }
}
