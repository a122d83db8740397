# mipsfmt text pipeline, modelled in Dafny

mipsfmt formats MIPS/SPIM assembly source. This project models its text
pipeline and proves properties of it:

- **Quote masking** (`quotes.dfy`, `spim/noquotes.go`). `NoQuotes` replaces
  every correctly paired `"…"` or `'…'` span with filler, so that `:` and `#`
  can be looked up without being fooled by string and character literals.
  The source's loop is kept. It re-slices the remaining input and appends to
  the output. It is proved against the recursive definition `Mask`, and the
  properties the source promises are proved about `Mask`. These are length
  preservation, position-by-position identity or filler, unpaired quotes kept,
  paired spans masked in full, and the documented example. `indexRune`,
  `indexRuneAny` and `runesRepeat` are loops proved against their own
  specifications.
- **Tokens** (`tokens.dfy`, `spim/token.go`). There are three token parsers:
  comment, label and instruction. Each returns the token it found and the
  text it leaves. The file also has the `String` renderers, `Line.IsEmpty`,
  `Line.String` and `Lines.String`.
  - The regular expression `\s*(\S+)` is replaced by a direct leading-run
    function, `InstrMatch`.
  - The in-place trimming loop over the operands is a method on an `array`.
  - Round trips are proved under the conditions the parsers need. A comment
    parses back to the same text when that text does not start with a space
    and the code before it is quote-free and has no `#`; it comes back inline
    exactly when there is code before it. A label parses back when its name is
    trimmed, quote-free and has no `:`, and the text after it is trimmed and
    bracket-free. An instruction parses back when its mnemonic is non-empty,
    quote-free and blank-free, with a first character that is not white space,
    and it has at least one operand, each trimmed and comma-free. The
    instruction parser is idempotent on every line whose mnemonic is
    quote-free.
- **Line driver** (`parsing.dfy`, `spim/parse.go`).
  - `parseLine` is a method whose loop runs over the `TokenParsers` sequence
    with the source's continue/break rule. It is proved equal to a direct
    statement, `Classify`.
  - `Parse` is the counting loop that stops at the first failing line.
  - `Parser` is a class with the lookahead cursor's fields (`curr`, `next`,
    `Lines`) and its `Scan`, `Peek`, `Text` and `PrevLine`. It reads from a
    sequence of already-split input lines.
- **Line iterator** (`iter.dfy`, `spim/iter.go`). A class whose `lineIdx`
  starts at −1 and is advanced by `Next`. Its accessors are bounds-safe.
- **Formatting** (`format.dfy`, `main.go`).
  - Block segmentation in `format` is proved to lose and reorder nothing, to
    keep blank lines out of blocks, and to put a label only at the head of its
    block.
  - `writeLinesNoComment` fills an array of rows by line number.
  - The comment loop of `writeBlock` rewrites the aligned rows in place. Its
    padding rules are proved row by row.
  - The column aligner `valign` (a `text/tabwriter` wrapper) is a function
    parameter.

`gostrings.dfy` models the pieces of Go's `strings` and `unicode` packages
that the core calls. These are `TrimSpace`, `TrimLeftFunc(unicode.IsSpace)`,
`TrimLeft`, `Index`, `Split`, `Join`, `Repeat` and `TrimSuffix`. The file also
proves what the model needs about them, such as split/join inverses and
comma counting. `wrappers.dfy` holds `Option` and `Result`.

## Model

| member | source | states |
|---|---|---|
| Quotes.NoQuotes | spim/noquotes.go:9-40 | The loop computes exactly `Mask(s, rep)`. With a one-character filler the output is as long as the input. |
| Quotes.NoQuotesStep | spim/noquotes.go:15-36 | One pass of the loop moves a chunk to the output. The chunk followed by the mask of what remains is the mask of the input. The remaining slice strictly shrinks, so the loop ends. |
| Quotes.MaskLength | spim/noquotes.go:6-8 | With a one-character filler the masked text has as many characters as the input. |
| Quotes.MaskPointwise | spim/noquotes.go:23-34 | Every position of the masked text holds the input character at that position or the filler. |
| Quotes.MaskFindsOriginal | spim/noquotes.go:6-8 | A delimiter other than the filler that is found at index i of the masked text is at index i of the input. |
| Quotes.MaskUnquoted | spim/noquotes.go:31-35 | Text with neither `"` nor `'` is returned unchanged. |
| Quotes.MaskUnquotedPrefix | spim/noquotes.go:23-28 | A quote-free prefix is copied through, and the rest is masked on its own. |
| Quotes.MaskUnpairedQuote | spim/noquotes.go:20-26 | A quote with no later quote of its kind is copied verbatim with everything before it, and masking resumes just after it. |
| Quotes.MaskPairedSplit | spim/noquotes.go:27-30 | A paired span from the quote through the next quote of its kind becomes `ind2-ind+1` copies of the filler. What precedes it is kept and what follows is masked on its own. |
| Quotes.MaskPairAtHead | spim/noquotes.go:20-30 | A quote at the head whose next same-kind quote is at k+1 masks the first k+2 characters. |
| Quotes.MaskPairedSpan | spim/noquotes.go:17-30 | With a one-character filler, a paired span is filler at every index from the opening to the closing quote. The text before it is unchanged and the text after it is masked on its own. |
| Quotes.MaskDocumentedExample | spim/noquotes.go:3-4 | `I'm "in love" with donuts` masks to `I'm xxxxxxxxx with donuts`; the unpaired apostrophe is kept. |
| Quotes.IndexRune | spim/noquotes.go:42-49 | Returns the first index of the character, or -1 exactly when it does not occur. |
| Quotes.IndexRuneAny | spim/noquotes.go:51-59 | Returns the first index of any character of the set, or -1 exactly when none occurs. |
| Quotes.RunesRepeat | spim/noquotes.go:61-67 | Returns `count` copies of `rep`, and nothing for a count that is not positive. |
| Tokens.CommentToken.String | spim/token.go:160-165 | An inline comment renders as `# ` and its text, any other as `## ` and its text. The second character is a space exactly for an inline comment. |
| Tokens.Token.String | spim/token.go:128-135 | A label renders as its name and `:`. An instruction renders as its mnemonic, followed by a tab exactly when it has operands. |
| Tokens.Line.String | spim/token.go:43-53 | Without a comment, the line renders as its token's text. With a comment whose text does not end in a tab, it renders as token, tab, comment. |
| Tokens.Line.IsEmpty | spim/token.go:38-40 | A line is empty exactly when it is the zero line: no token and the zero comment. |
| Tokens.TokenParser.Run | spim/token.go:64-70 | The entries of `TokenParsers` are tried in the order comment, label, instruction. Only the comment parser yields a comment token, and the instruction parser, last in the list, always consumes the whole line. |
| Tokens.FirstUnquoted | spim/token.go:143-145 | The index found in the masked line is -1 or a position of the original line that holds the character. |
| Tokens.FirstUnquotedAfter | spim/token.go:143-145 | After quote-free text without the character, the first unquoted occurrence is the one that follows it. |
| Tokens.ParseCommentToken | spim/token.go:142-158 | No unquoted `#`: no token, and the line is unchanged. Otherwise: a comment token, the rest is the text before the `#`, and the comment is inline exactly when that rest is non-empty. |
| Tokens.CommentText | spim/token.go:150-152 | The comment text is a suffix of what follows the `#`. What was stripped is all leading `#`s and then all leading spaces, so the text never starts with a space, and a text starting with `#` was preceded by a stripped space. |
| Tokens.ParseLabelToken | spim/token.go:76-92 | Declining leaves the line unchanged. A label needs an unquoted `:`. The name and the rest are trimmed, and the rest has no bracket. |
| Tokens.LabelDeclinesOnBracket | spim/token.go:86-88 | A bracket after the first unquoted colon makes the label parser decline and return the line unchanged. |
| Tokens.LabelRoundTrip | spim/token.go:84-91 | A trimmed quote-free name, a colon and a trimmed bracket-free rest parse back to that label and that rest. |
| Tokens.LabelStringRoundTrip | spim/token.go:76-96 | A rendered label parses back to itself with nothing left. |
| Tokens.RegexRun | spim/token.go:103 | The end of the maximal run, starting at i, of characters that all are (or all are not) `\s`. |
| Tokens.InstrMatchSpec | spim/token.go:103-112 | `\s*(\S+)` fails exactly on all-blank text. Otherwise the group starts after the leading blanks and is a maximal run of non-blanks. |
| Tokens.InstrMatchAt | spim/token.go:109-114 | Text that starts with b non-blanks, ended by a blank or by the end of the text, matches with the group at [0, b). |
| Tokens.ParseInstructionToken | spim/token.go:105-126 | The instruction parser always leaves "". A found instruction has a non-empty mnemonic and at least one operand. |
| Tokens.InstructionNone | spim/token.go:106-112 | No instruction is found exactly when the line is all white space. |
| Tokens.InstructionSpan | spim/token.go:106-118 | The mnemonic is a prefix of the left-trimmed line. It is non-blank in the masked text and ends at a masked blank. The operands are the trimmed comma-split pieces of the text after it. |
| Tokens.InstructionShape | spim/token.go:105-124 | After the leading blanks comes the mnemonic. There is one operand more than there are commas after it, quoted commas included. Every operand is trimmed. |
| Tokens.ParseInstruction | spim/token.go:105-126 | The method, with its in-place trimming of the operand array, returns what ParseInstructionToken specifies. |
| Tokens.TrimInPlace | spim/token.go:120-122 | Every element of the array is replaced by its trimmed form, and nothing else changes. |
| Tokens.ParseInstructionAt | spim/token.go:105-126 | A line that starts with a mnemonic of known end parses to that mnemonic and the trimmed comma-split rest. |
| Tokens.ParsePlainInstruction | spim/token.go:105-126 | In a quote-free line the mnemonic runs up to the first `\s` blank. |
| Tokens.CommentRoundTrip | spim/token.go:142-165 | A rendered comment after quote-free code without `#` parses back to the same text. It is inline exactly when that code is non-empty, and the code is the rest. |
| Tokens.CommentTextTrim | spim/token.go:150-152 | What follows the `#` of a rendered comment (inline or not) trims back to the comment's text. |
| Tokens.TrimSplitJoin | spim/token.go:117-122 | Operands joined by ", " after a blank, then split on commas and trimmed, give back the operands. |
| Tokens.InstructionRoundTrip | spim/token.go:105-135 | A rendered instruction parses back to itself when its mnemonic is non-empty, quote-free and blank-free with a first character that is not white space, and it has at least one operand, each trimmed and comma-free. |
| Tokens.OperandsCommaFree | spim/token.go:118-122 | The operands are pieces of a split at commas, then trimmed, so no parsed operand holds a comma. |
| Tokens.InstructionIdempotent | spim/token.go:105-135 | Parsing the rendering of a parsed instruction gives it back. This holds whenever its mnemonic is quote-free. |
| Tokens.MnemonicSolid | spim/token.go:109-114 | A quote-free parsed mnemonic has no `\s` blank in it. |
| Tokens.InstructionFields | spim/token.go:105-124 | A parsed mnemonic starts with a non-blank, and every operand is trimmed. |
| Tokens.SyscallRendering | spim/token.go:117-135 | `syscall` parses with one empty operand, so it renders as `syscall` and a tab. |
| Tokens.NormalizeExample | spim/token.go:117-135 | `add $t0,$t0, 1` parses to three trimmed operands and renders as `add`, a tab, then `$t0, $t0, 1`. |
| Tokens.RegistersParse | spim/token.go:105-126 | `$t0 $t1 $t2` parses as mnemonic `$t0` with the one operand `$t1 $t2`. |
| Tokens.LineStringEmpty | spim/token.go:38-53 | A parsed-shape line renders as "" exactly when it is empty. |
| Tokens.LinesString | spim/token.go:23-30 | The builder loop yields each line's text joined by newlines, with the last newline dropped. |
| Tokens.LinesStringSplits | spim/token.go:23-30 | When no line renders with a newline, splitting the output at newlines gives each line's text back, in order. |
| Parsing.LoopOutcome | spim/parse.go:92-125 | The empty line parses to the empty Line without error. |
| Parsing.LoopIsDirect | spim/parse.go:101-119 | The parser loop over comment, label and instruction with its continue/break rule agrees with the direct statement on every line. The direct statement is: split off the comment, then a label that must take the whole code, or else an instruction. |
| Parsing.RunComment | spim/parse.go:101-107 | The comment parser runs first, and the loop always goes on with the text before the `#`. |
| Parsing.RunCode | spim/parse.go:101-112 | A label ends the loop with its rest. Otherwise the instruction parser takes the remaining code and leaves "". |
| Parsing.ParseLine | spim/parse.go:92-125 | The method returns exactly the direct statement's result. |
| Parsing.NoUnknownToken | spim/parse.go:114-119 | The "unknown token" error is never produced. Every failure is "excess text". |
| Parsing.ParsedLineShape | spim/parse.go:121-124 | A parsed line has no token, a label, or an instruction with a non-empty mnemonic. It renders as "" exactly when it is empty. |
| Parsing.BlankLine | spim/parse.go:101-112 | A line of white space parses to the empty Line. |
| Parsing.HashOnlyLine | spim/parse.go:101-124 | A line of `#`s alone carries the zero comment, so it parses to the empty Line. |
| Parsing.HashOnlyComment | spim/token.go:142-158 | A line of `#`s alone yields a comment with empty text that is not inline, and nothing before it. |
| Parsing.LabelWithCode | spim/parse.go:109-119 | A label followed by code on the same line is an "excess text" error that names the code. |
| Parsing.RegistersAreAnInstruction | spim/parse.go:101-124 | `$t0 $t1 $t2` parses without error, as one instruction. |
| Parsing.ClassifyPlain | spim/parse.go:101-112 | Quote-free text with no `#` and no `:` goes whole to the instruction parser. |
| Parsing.IndentedCommentIsInline | spim/token.go:154-157 | `  # hi` is an inline comment `hi` with rest "  ", and the line holds no code token. |
| Parsing.CommentAfterBlank | spim/token.go:142-158 | A comment after nothing but blanks gives a comment-only line. It is inline exactly when there are blanks before it. |
| Parsing.BlankCode | spim/parse.go:101-112 | Blank code before a comment is neither a label nor an instruction. |
| Parsing.ColonInComment | spim/token.go:66-70 | A `:` inside a comment never makes a label, because the comment parser runs first. |
| Parsing.ParseFromOutcome | spim/parse.go:81-89 | Without an error every line is parsed in order. With an error at line n, the lines before n are returned parsed and line n is the first that fails. |
| Parsing.ParseAllSucceeds | spim/parse.go:78-90 | A file parses without error exactly when every line does. |
| Parsing.ParseAllLines | spim/parse.go:81-89 | On success, there is one parsed Line per input line, in order. |
| Parsing.ParseAllStops | spim/parse.go:81-85 | On failure at 1-based line n, line n fails with that cause, and the returned lines are exactly the first n-1 parsed lines. |
| Parsing.Parser.constructor | spim/parse.go:20-24 | A new parser has no current line, nothing read ahead and no lines, and all input is pending. |
| Parsing.Parser.Scan | spim/parse.go:35-45 | The read-ahead line, or else the next input line, becomes current and leaves the pending lines. It returns false when none is left. |
| Parsing.Parser.Text | spim/parse.go:48-50 | Returns the current line. |
| Parsing.Parser.Peek | spim/parse.go:54-66 | Returns the first pending line without consuming it, and keeps it in the read-ahead slot. |
| Parsing.Parser.PrevLine | spim/parse.go:27-32 | Returns the last parsed line, or none exactly when no line was parsed. |
| Parsing.PeekThenScan | spim/parse.go:52-53 | Peeking twice returns the same line, and the next Scan makes exactly that line current. |
| Parsing.Parse | spim/parse.go:78-90 | The counting loop returns exactly the whole-file result, with lines numbered from 1. |
| Iter.LineIterator.constructor | spim/iter.go:9-14 | A new iterator holds the lines and starts at index -1. |
| Iter.LineIterator.Next | spim/iter.go:17-20 | Next advances the index by exactly one and returns true exactly when the new index is in range. |
| Iter.LineIterator.At | spim/iter.go:23-28 | Returns line i when i is in range and the empty Line otherwise. |
| Iter.LineIterator.LineNum | spim/iter.go:31-33 | After k calls to Next, the index is k-1. |
| Iter.LineIterator.Before | spim/iter.go:36 | Returns the line before the current one, or the empty Line out of range. |
| Iter.LineIterator.Current | spim/iter.go:39 | Returns the current line, or the empty Line out of range. |
| Iter.LineIterator.After | spim/iter.go:42 | Returns the line after the current one, or the empty Line out of range. |
| Iter.Edges | spim/iter.go:36-42 | On the first line, Before is the empty Line. On the last line, After is the empty Line. |
| Iter.Visit | spim/iter.go:17-20 | Walking to the end visits every line once, in order, with one more Next call than there are lines. |
| Format.NewBlock | main.go:94-98 | A block is appended only when the last block is non-empty, and the last block is then empty. |
| Format.AddToBlock | main.go:100-106 | The line is appended to the last block and the other blocks are unchanged. |
| Format.PlaceKeepsWellFormed | main.go:109-124 | Placing a line keeps three things true: every block but the last is non-empty, no block holds an empty Line, and a label only opens its block. |
| Format.NewBlockKeepsWellFormed | main.go:94-98 | Opening a block keeps the blocks well formed. |
| Format.AddKeepsWellFormed | main.go:100-106 | A non-empty line may join the last block, and a label only an empty one. |
| Format.SegmentWellFormed | main.go:92-124 | The blocks format builds are well formed. |
| Format.FlattenPlace | main.go:109-124 | Placing a line adds it at the end of the blocks run together, unless it is empty. |
| Format.SegmentFlatten | main.go:92-124 | The blocks run together are exactly the non-empty lines, in their original order. |
| Format.SegmentBlocks | main.go:108-124 | The iterator loop builds exactly the segmentation of the lines. |
| Format.PlaceLine | main.go:110-123 | One pass of the loop: a blank line closes the block, a label opens one, and anything else is appended. |
| Format.WriteLinesNoComment | main.go:185-209 | Filling the array by line number gives exactly one row per line. |
| Format.BuildRow | main.go:195-204 | The builder yields the row of a non-empty line. |
| Format.RowReparses | main.go:197-203 | Indenting an instruction row does not change what it parses to. |
| Format.InstructionPad | main.go:159-162 | The padding is at least one space, and the row plus its padding reaches max(commentIndent-1, len(row)+1). |
| Format.PassRow | main.go:146-176 | Row j is rewritten against the rows as they stand at that point: earlier rows already rewritten, row j as it came in. |
| Format.PassKeepsUncommented | main.go:147-154 | Rows without a comment, and rows at or past the end of the block, come out unchanged. |
| Format.PassInstructionComment | main.go:158-163 | A commented instruction row's comment starts at 0-based column max(commentIndent-1, len(row)+1), after spaces only. |
| Format.PassLabelComment | main.go:164-166 | A commented label row gets a tab and then the comment. |
| Format.PassCommentOnly | main.go:167-172 | A comment-only row is indented to the first unquoted `#` of the previous row, as rewritten, when that row is non-empty and has one. Otherwise it gets no indent. |
| Format.AddComments | main.go:146-176 | The loop rewrites the array in place to exactly the comment pass of its old contents. |
| Format.CommentedRow | main.go:151-175 | One pass of the comment loop returns the row with its padding and comment added. The padding follows the rules below, and the row above is read as already rewritten. |
| Format.WriteBlock | main.go:135-183 | Rows without comments are aligned, split at newlines, given their comments and aligned again. |
| Format.TerminatedJoin | main.go:216-219 | Rows each ended by a newline read as the rows joined by newlines with one empty piece after them. |
| Format.BlockEndsWithBlankRow | main.go:136-154 | Suppose the aligner gives back one newline-ended row per row. Then the rows after the split number one more than the block's lines, and the last of them is empty and gets no comment. |
| Format.Format | main.go:86-133 | Returns the parse error, or else every block's output in order. |
| Format.FormatFailsAtFirstBadLine | main.go:87-90 | Output is produced exactly when every line parses. Otherwise the error names the first line that does not. |

## Behaviour worth knowing

Each item is a fact about the code, proved about the model.

- A label followed by code on the same line is an "excess text" error. The
  parser loop stops at the first code token, so the code left over after the
  label is never parsed (`Parsing.LabelWithCode`).
- The instruction parser accepts any non-blank text and always consumes it.
  `$t0 $t1 $t2` is the instruction `$t0` with one operand, `$t1 $t2`
  (`Parsing.RegistersAreAnInstruction`), and the "unknown token" error can
  never occur (`Parsing.NoUnknownToken`).
- A comment's inline flag comes from the `#`'s index in the raw line, so an
  indented whole-line comment such as `  # hi` is inline
  (`Parsing.IndentedCommentIsInline`).
- The comment parser strips every leading `#` and then every leading space
  after the `#` it found, not one optional space (`Tokens.CommentText`).
- Every block's rows are split out of the aligner's newline-ended output,
  which leaves an empty last row. That empty row is aligned again with the
  rest, so each block, label-started or not, ends with a blank row
  (`Format.BlockEndsWithBlankRow`, under that assumption about the aligner).

## Left out

- `main`, `init` and `formatFile` (main.go:22-84) are flags, files, the
  temporary file and its rename, which are I/O. `Format` takes the input as a
  sequence of lines and returns the output text or the error.
- `valign` (main.go:212-224) wraps `text/tabwriter`, whose source is not
  shown. It is a function parameter of `Format`, `WriteBlock` and
  `BlockOutput`, and nothing is assumed about it except in
  `Format.BlockEndsWithBlankRow`.
- The `bufio.Scanner` inside `Parser` and `Parser.Err` are left out. The input
  is a sequence of already-split lines, so reading never fails and `Err` is
  always nil. Scanner buffer limits are not modelled.
- `instrRe` is replaced by `InstrMatch`, which finds blanks and then the
  maximal run of non-blanks. Only the `\s` class (tab, newline, form feed,
  carriage return, space) is modelled as blank, as in Go's RE2 syntax.
- Byte versus rune offsets are not modelled. Strings are sequences of
  characters, so `strings.Index` byte offsets and `NoQuotes` rune offsets
  coincide. They differ in Go only with multibyte characters.
- Go interface dispatch and the unused `*Parser` argument of the token parsers
  are not modelled. Tokens are a datatype, and the parser list is a sequence of
  the `TokenParser` datatype, which has a `Run` function.
- Error messages are not modelled. The `fmt.Errorf` strings are the
  `ParseError` and `LineError` datatypes, which carry the leftover text and the
  1-based line number.
- `insIndent` is a `nat`, because `strings.Repeat` panics on a negative count.
- `PrevLine` returns the line as a value rather than a reference into
  `parser.Lines`, so aliasing through that reference is not modelled.
- Tokens.Line.String: the rendering is not stated when the comment text
  itself ends in a tab. `TrimSuffix` then drops that tab from the comment.
- Tokens.Token.String: the contract states the shape of a rendering (mnemonic
  prefix, tab, label colon). The joined operands are pinned down by
  `Tokens.InstructionRoundTrip` and `Tokens.NormalizeExample`.
- Tokens.ParseInstructionToken: the contract states only what every result
  has. The exact cut is stated by `Tokens.InstructionSpan` and
  `Tokens.InstructionShape`.
- Parsing.LoopOutcome: the contract states only the empty-line case. The rest
  is stated by `Parsing.LoopIsDirect`.
- Format.WriteBlock: the output is stated through the aligner parameter, so
  column alignment itself is not proved.
- Format.Format: as for `WriteBlock`, the output is stated through the
  aligner parameter.
