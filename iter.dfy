/**
 * A cursor over parsed lines: it starts before the first line, moves one
 * line per Next, and reads neighbouring lines without ever going out of
 * bounds.
 */
module Iter {
  import opened Tokens

  class LineIterator {
    /** The lines iterated over; the iterator never changes them. */
    const lines: seq<Line>
    /** The index of the current line; -1 before the first Next. */
    var lineIdx: int
    /** How many times Next has been called. */
    ghost var steps: nat

    ghost predicate Valid()
      reads this
    {
      lineIdx == steps - 1
    }

    /** NewLineIterator: positioned before the first line. */
    constructor(lines: seq<Line>)
      ensures Valid() && this.lines == lines
      ensures lineIdx == -1 && steps == 0
    {
      this.lines := lines;
      lineIdx := -1;
      steps := 0;
    }

    /** Next: moves to the following line and tells whether there is one. */
    method Next() returns (more: bool)
      requires Valid()
      modifies this
      ensures Valid()
      ensures lineIdx == old(lineIdx) + 1 && steps == old(steps) + 1
      ensures more <==> lineIdx < |lines|
    {
      lineIdx := lineIdx + 1;
      steps := steps + 1;
      more := lineIdx < |lines|;
    }

    /** At: the line at index i, or the empty line when i is out of range. */
    function At(i: int): (r: Line)
      ensures 0 <= i < |lines| ==> r == lines[i]
      ensures i < 0 || |lines| <= i ==> r == EmptyLine
    {
      if i < 0 || i >= |lines| then EmptyLine else lines[i]
    }

    /** LineNum: the index of the current line. */
    function LineNum(): (r: int)
      reads this
      ensures Valid() ==> r == steps - 1
    {
      lineIdx
    }

    /** Before: the line before the current one. */
    function Before(): (r: Line)
      reads this
      ensures 0 < lineIdx <= |lines| ==> r == lines[lineIdx - 1]
      ensures lineIdx <= 0 || |lines| < lineIdx ==> r == EmptyLine
    {
      At(lineIdx - 1)
    }

    /** Current: the current line. */
    function Current(): (r: Line)
      reads this
      ensures 0 <= lineIdx < |lines| ==> r == lines[lineIdx]
      ensures lineIdx < 0 || |lines| <= lineIdx ==> r == EmptyLine
    {
      At(lineIdx)
    }

    /** After: the line after the current one. */
    function After(): (r: Line)
      reads this
      ensures -1 <= lineIdx < |lines| - 1 ==> r == lines[lineIdx + 1]
      ensures lineIdx < -1 || |lines| - 1 <= lineIdx ==> r == EmptyLine
    {
      At(lineIdx + 1)
    }
  }

  /** On the first line there is nothing before it, and on the last nothing after it. */
  lemma Edges(it: LineIterator)
    requires it.lines != []
    ensures it.lineIdx == 0 ==> it.Before() == EmptyLine && it.Current() == it.lines[0]
    ensures it.lineIdx == |it.lines| - 1 ==> it.After() == EmptyLine && it.Current() == it.lines[|it.lines| - 1]
  {
  }

  /** Walking an iterator to its end visits every line once, in order, and leaves the lines alone. */
  method Visit(lines: seq<Line>) returns (seen: seq<Line>, calls: nat)
    ensures seen == lines
    ensures calls == |lines| + 1
  {
    var it := new LineIterator(lines);
    seen := [];
    var more := it.Next();
    calls := 1;
    while more
      invariant it.Valid() && it.lines == lines && calls == it.steps
      invariant 0 <= it.lineIdx <= |lines|
      invariant more <==> it.lineIdx < |lines|
      invariant seen == lines[..it.lineIdx]
      decreases |lines| - it.lineIdx
    {
      seen := seen + [it.Current()];
      more := it.Next();
      calls := calls + 1;
    }
    assert lines[..|lines|] == lines;
  }
}
