/**
 * Quote masking (spim/noquotes.go): every correctly paired "…" or '…' span
 * is replaced by filler so that later searches for ':' and '#' are not
 * fooled by string and character literals.
 */
module Quotes {
  import opened GoStrings

  /** The quotation marks that open and close a masked span. */
  const QuoteChars: string := "\"'"

  /** The filler every caller of NoQuotes passes. */
  const Filler: string := "x"

  /**
   * What NoQuotes computes, character by character: a character that is
   * not a quote is kept; a quote with no later quote of its kind is kept;
   * a quote whose next same-kind quote is k + 1 characters further on
   * opens a span of k + 2 characters, both quotes included, that becomes
   * k + 2 copies of rep.
   */
  function Mask(s: string, rep: string): string
    decreases |s|
  {
    if s == [] then []
    else if s[0] !in QuoteChars then [s[0]] + Mask(s[1..], rep)
    else
      var k := IndexOf(s[1..], s[0]);
      if k < 0 then [s[0]] + Mask(s[1..], rep)
      else Repeat(rep, k + 2) + Mask(s[k + 2..], rep)
  }

  /** A string with no quotation mark in it. */
  predicate Unquoted(s: string) {
    forall i :: 0 <= i < |s| ==> s[i] !in QuoteChars
  }

  /** With a one-character filler the mask is exactly as long as the input. */
  lemma {:induction false} MaskLength(s: string, rep: string)
    requires |rep| == 1
    ensures |Mask(s, rep)| == |s|
    decreases |s|
  {
    if s != [] {
      var k := IndexOf(s[1..], s[0]);
      if s[0] !in QuoteChars || k < 0 {
        MaskLength(s[1..], rep);
      } else {
        MaskLength(s[k + 2..], rep);
        RepeatOne(rep, k + 2);
      }
    }
  }

  /** Every position of the mask holds the input character there or the filler. */
  lemma {:induction false} MaskPointwise(s: string, rep: string)
    requires |rep| == 1
    ensures |Mask(s, rep)| == |s|
    ensures forall i :: 0 <= i < |s| ==> Mask(s, rep)[i] == s[i] || Mask(s, rep)[i] == rep[0]
    decreases |s|
  {
    MaskLength(s, rep);
    if s != [] {
      var m := Mask(s, rep);
      var k := IndexOf(s[1..], s[0]);
      if s[0] !in QuoteChars || k < 0 {
        var t := s[1..];
        assert m == [s[0]] + Mask(t, rep);
        MaskPointwise(t, rep);
        forall i | 1 <= i < |s| ensures m[i] == s[i] || m[i] == rep[0] {
          assert m[i] == Mask(t, rep)[i - 1] && t[i - 1] == s[i];
        }
      } else {
        var t := s[k + 2..];
        var fill := Repeat(rep, k + 2);
        assert m == fill + Mask(t, rep);
        MaskPointwise(t, rep);
        RepeatOne(rep, k + 2);
        forall i | 0 <= i < |s| ensures m[i] == s[i] || m[i] == rep[0] {
          if i < k + 2 {
            assert m[i] == fill[i];
          } else {
            assert m[i] == Mask(t, rep)[i - k - 2] && t[i - k - 2] == s[i];
          }
        }
      }
    }
  }

  /** A delimiter found in the mask (other than the filler) is in the input at that index. */
  lemma MaskFindsOriginal(s: string, rep: string, c: char, i: int)
    requires |rep| == 1 && c != rep[0]
    requires 0 <= i < |Mask(s, rep)| && Mask(s, rep)[i] == c
    ensures i < |s| && s[i] == c
  {
    MaskPointwise(s, rep);
  }

  /** Text without quotation marks is returned unchanged. */
  lemma {:induction false} MaskUnquoted(s: string, rep: string)
    requires Unquoted(s)
    ensures Mask(s, rep) == s
    decreases |s|
  {
    if s != [] {
      MaskUnquoted(s[1..], rep);
      assert s == [s[0]] + s[1..];
    }
  }

  /** A quote-free prefix passes through, and the rest is masked on its own. */
  lemma {:induction false} MaskUnquotedPrefix(a: string, b: string, rep: string)
    requires Unquoted(a)
    ensures Mask(a + b, rep) == a + Mask(b, rep)
    decreases |a|
  {
    if a != [] {
      var s := a + b;
      assert s[0] == a[0] && s[1..] == a[1..] + b;
      MaskUnquotedPrefix(a[1..], b, rep);
      assert a == [a[0]] + a[1..];
    } else {
      assert a + b == b;
    }
  }

  /** How the mask treats a quote at the head of the text. */
  lemma MaskAtQuote(s: string, rep: string)
    requires s != [] && s[0] in QuoteChars
    ensures IndexOf(s[1..], s[0]) < 0 ==> Mask(s, rep) == [s[0]] + Mask(s[1..], rep)
    ensures 0 <= IndexOf(s[1..], s[0]) ==>
      Mask(s, rep) == Repeat(rep, IndexOf(s[1..], s[0]) + 2) + Mask(s[IndexOf(s[1..], s[0]) + 2..], rep)
  {
  }

  /**
   * A quote with no later quote of its kind is copied verbatim, together
   * with everything before it, and masking resumes just after it.
   */
  lemma MaskUnpairedQuote(s: string, rep: string, ind: int)
    requires 0 <= ind < |s| && s[ind] in QuoteChars && Unquoted(s[..ind])
    requires forall j :: ind < j < |s| ==> s[j] != s[ind]
    ensures Mask(s, rep) == s[..ind + 1] + Mask(s[ind + 1..], rep)
  {
    var t := s[ind..];
    assert s == s[..ind] + t;
    MaskUnquotedPrefix(s[..ind], t, rep);
    assert t[1..] == s[ind + 1..];
    assert IndexOf(t[1..], t[0]) < 0;
    assert Mask(t, rep) == [s[ind]] + Mask(s[ind + 1..], rep);
    assert s[..ind + 1] == s[..ind] + [s[ind]];
    Regroup(s[..ind], [s[ind]], Mask(s, rep), Mask(t, rep), Mask(s[ind + 1..], rep));
  }

  /**
   * A paired span, from the opening quote at ind through the next quote of
   * the same kind at ind2, becomes one filler per character; what precedes
   * it is kept and what follows it is masked on its own.
   */
  lemma MaskPairedSplit(s: string, rep: string, ind: int, ind2: int)
    requires 0 <= ind < ind2 < |s| && s[ind] in QuoteChars && Unquoted(s[..ind])
    requires s[ind2] == s[ind] && forall j :: ind < j < ind2 ==> s[j] != s[ind]
    ensures Mask(s, rep) == s[..ind] + Repeat(rep, ind2 - ind + 1) + Mask(s[ind2 + 1..], rep)
  {
    var t := s[ind..];
    var k := ind2 - ind - 1;
    assert Mask(s, rep) == s[..ind] + Mask(t, rep) by {
      assert s == s[..ind] + t;
      MaskUnquotedPrefix(s[..ind], t, rep);
    }
    assert Mask(t, rep) == Repeat(rep, k + 2) + Mask(s[ind2 + 1..], rep) by {
      forall j | 0 < j <= k
        ensures t[j] != t[0]
      {
        assert t[j] == s[ind + j];
      }
      assert t[k + 1] == s[ind2];
      MaskPairAtHead(t, rep, k);
      assert t[k + 2..] == s[ind2 + 1..];
    }
    Regroup(s[..ind], Repeat(rep, k + 2), Mask(s, rep), Mask(t, rep), Mask(s[ind2 + 1..], rep));
  }

  /** A quote at the head whose partner is at k + 1 masks the first k + 2 characters. */
  lemma MaskPairAtHead(t: string, rep: string, k: nat)
    requires k + 1 < |t| && t[0] in QuoteChars && t[k + 1] == t[0]
    requires forall j :: 0 < j <= k ==> t[j] != t[0]
    ensures Mask(t, rep) == Repeat(rep, k + 2) + Mask(t[k + 2..], rep)
  {
    var u := t[1..];
    assert IndexOf(u, t[0]) == k by {
      forall j | 0 <= j < k
        ensures u[j] != t[0]
      {
        assert u[j] == t[j + 1];
      }
      IndexOfUnique(u, t[0], k);
    }
    MaskAtQuote(t, rep);
  }

  /**
   * With a one-character filler, a paired span is masked in full, both
   * quotes included, and nothing before it changes.
   */
  lemma MaskPairedSpan(s: string, rep: string, ind: int, ind2: int)
    requires |rep| == 1
    requires 0 <= ind < ind2 < |s| && s[ind] in QuoteChars && Unquoted(s[..ind])
    requires s[ind2] == s[ind] && forall j :: ind < j < ind2 ==> s[j] != s[ind]
    ensures |Mask(s, rep)| == |s|
    ensures Mask(s, rep)[..ind] == s[..ind]
    ensures forall k :: ind <= k <= ind2 ==> Mask(s, rep)[k] == rep[0]
    ensures Mask(s, rep)[ind2 + 1..] == Mask(s[ind2 + 1..], rep)
  {
    MaskPairedSplit(s, rep, ind, ind2);
    MaskLength(s[ind2 + 1..], rep);
    SpanOfSplit(s, rep, ind, ind2, Mask(s, rep), Mask(s[ind2 + 1..], rep));
  }

  /** The parts of a string made of a prefix of s, a run of filler and a rest. */
  lemma SpanOfSplit(s: string, rep: string, ind: int, ind2: int, m: string, rest: string)
    requires |rep| == 1 && 0 <= ind < ind2 < |s|
    requires m == s[..ind] + Repeat(rep, ind2 - ind + 1) + rest
    ensures |m| == ind2 + 1 + |rest|
    ensures m[..ind] == s[..ind]
    ensures forall k :: ind <= k <= ind2 ==> m[k] == rep[0]
    ensures m[ind2 + 1..] == rest
  {
    RepeatOne(rep, ind2 - ind + 1);
    FilledMiddle(s[..ind], Repeat(rep, ind2 - ind + 1), rest, rep[0], m);
  }

  /** Reading back the three parts of a string whose middle part is all filler. */
  lemma FilledMiddle(pre: string, fill: string, rest: string, c: char, m: string)
    requires forall i :: 0 <= i < |fill| ==> fill[i] == c
    requires m == pre + fill + rest
    ensures m[..|pre|] == pre
    ensures forall j :: |pre| <= j < |pre| + |fill| ==> m[j] == c
    ensures m[|pre| + |fill|..] == rest
  {
    forall j | |pre| <= j < |pre| + |fill| ensures m[j] == c {
      assert m[j] == fill[j - |pre|];
    }
  }

  /** The example in the source's own documentation. */
  lemma MaskDocumentedExample(s: string, rep: string)
    requires s == "I'm \"in love\" with donuts" && rep == "x"
    ensures Mask(s, rep) == "I'm xxxxxxxxx with donuts"
  {
    var t := s[2..];
    var u := t[11..];
    MaskExampleSlices(s);
    MaskExampleHead(s, rep);
    MaskExampleQuoted(t, rep);
    MaskExampleTail(u, rep);
    RepeatOne(rep, 9);
    var f := Repeat(rep, 9);
    assert f == "xxxxxxxxx";
    MaskExampleJoin(s[..2], t[..2], f, u);
  }

  lemma MaskExampleSlices(s: string)
    requires s == "I'm \"in love\" with donuts"
    ensures s[..2] == "I'" && s[2..] == "m \"in love\" with donuts"
    ensures s[2..][..2] == "m " && s[2..][11..] == " with donuts"
  {
  }

  lemma MaskExampleJoin(a: string, b: string, c: string, d: string)
    requires a == "I'" && b == "m " && c == "xxxxxxxxx" && d == " with donuts"
    ensures a + (b + c + d) == "I'm xxxxxxxxx with donuts"
  {
  }

  /** The apostrophe at 1 is the first quote and has no partner. */
  lemma MaskExampleHead(s: string, rep: string)
    requires s == "I'm \"in love\" with donuts" && rep == "x"
    ensures Mask(s, rep) == s[..2] + Mask(s[2..], rep)
  {
    assert Unquoted(s[..1]);
    assert forall j :: 1 < j < |s| ==> s[j] != s[1];
    MaskUnpairedQuote(s, rep, 1);
  }

  /** In what follows it, the double quotes at 2 and 10 form a pair. */
  lemma MaskExampleQuoted(t: string, rep: string)
    requires t == "m \"in love\" with donuts" && rep == "x"
    ensures Mask(t, rep) == t[..2] + Repeat(rep, 9) + Mask(t[11..], rep)
  {
    MaskExamplePair(t);
    MaskPairedSplit(t, rep, 2, 10);
  }

  lemma MaskExamplePair(t: string)
    requires t == "m \"in love\" with donuts"
    ensures t[2] in QuoteChars && t[10] == t[2] && Unquoted(t[..2])
    ensures forall j :: 2 < j < 10 ==> t[j] != t[2]
  {
  }

  lemma MaskExampleTail(u: string, rep: string)
    requires u == " with donuts" && rep == "x"
    ensures Mask(u, rep) == u
  {
    assert Unquoted(u);
    MaskUnquoted(u, rep);
  }

  /** indexRune: the first index of rn in s, or -1. */
  method IndexRune(s: string, rn: char) returns (i: int)
    ensures -1 <= i < |s|
    ensures 0 <= i ==> s[i] == rn && forall j :: 0 <= j < i ==> s[j] != rn
    ensures i == -1 <==> forall j :: 0 <= j < |s| ==> s[j] != rn
  {
    for k := 0 to |s|
      invariant forall j :: 0 <= j < k ==> s[j] != rn
    {
      if s[k] == rn {
        return k;
      }
    }
    return -1;
  }

  /** indexRuneAny: the first index of a character from any, or -1. */
  method IndexRuneAny(s: string, any: string) returns (i: int)
    ensures -1 <= i < |s|
    ensures 0 <= i ==> s[i] in any && forall j :: 0 <= j < i ==> s[j] !in any
    ensures i == -1 <==> forall j :: 0 <= j < |s| ==> s[j] !in any
  {
    for k := 0 to |s|
      invariant forall j :: 0 <= j < k ==> s[j] !in any
    {
      var found := IndexRune(any, s[k]);
      if found >= 0 {
        return k;
      }
    }
    return -1;
  }

  /** runesRepeat: count copies of rep, none when count is not positive. */
  method RunesRepeat(rep: string, count: int) returns (ret: string)
    ensures count <= 0 ==> ret == []
    ensures 0 < count ==> ret == Repeat(rep, count)
  {
    ret := [];
    var i := 0;
    while i < count
      invariant 0 <= i <= Max(count, 0)
      invariant ret == Repeat(rep, i)
    {
      ret := ret + rep;
      i := i + 1;
    }
  }

  /** Moving a finished chunk from the pending mask to the output keeps the whole mask. */
  lemma Regroup(out: string, chunk: string, whole: string, pending: string, rest: string)
    requires out + pending == whole && pending == chunk + rest
    ensures (out + chunk) + rest == whole
  {
  }

  /**
   * NoQuotes: the loop re-slices the remaining input sr and appends to outr;
   * sr strictly shrinks on every iteration, and what is appended so far
   * followed by the mask of what remains is always the mask of the input.
   */
  method NoQuotes(s: string, rep: string) returns (r: string)
    ensures r == Mask(s, rep)
    ensures |rep| == 1 ==> |r| == |s|
  {
    var sr := s;
    var outr := [];
    while |sr| > 0
      invariant outr + Mask(sr, rep) == Mask(s, rep)
      decreases |sr|
    {
      var chunk, rest := NoQuotesStep(sr, rep);
      Regroup(outr, chunk, Mask(s, rep), Mask(sr, rep), Mask(rest, rep));
      outr := outr + chunk;
      sr := rest;
    }
    r := outr;
    if |rep| == 1 {
      MaskLength(s, rep);
    }
  }

  /**
   * One pass of NoQuotes' loop: the text up to the first quotation mark, and
   * that mark itself when it has no pair or its whole span replaced by filler
   * when it has one, is moved to the output; what follows is left to do.
   */
  method NoQuotesStep(sr: string, rep: string) returns (chunk: string, rest: string)
    requires |sr| > 0
    ensures chunk + Mask(rest, rep) == Mask(sr, rep)
    ensures |rest| < |sr|
  {
    // Find the first quotation mark.
    var ind := IndexRuneAny(sr, QuoteChars);
    if ind >= 0 {
      var quote := sr[ind];
      assert Unquoted(sr[..ind]) by {
        forall j | 0 <= j < ind ensures sr[..ind][j] !in QuoteChars {
          assert sr[..ind][j] == sr[j];
        }
      }
      // Find its pair.
      var k := IndexRune(sr[ind + 1..], quote);
      var ind2 := ind + 1 + k;
      if ind2 < ind + 1 {
        // No pair: keep it and skip past it.
        forall j | ind < j < |sr| ensures sr[j] != sr[ind] {
          assert sr[j] == sr[ind + 1..][j - ind - 1];
        }
        MaskUnpairedQuote(sr, rep, ind);
        chunk, rest := sr[..ind + 1], sr[ind + 1..];
        return;
      }
      // Paired: replace the whole span.
      forall j | ind < j < ind2 ensures sr[j] != sr[ind] {
        assert sr[j] == sr[ind + 1..][j - ind - 1];
      }
      assert sr[ind2] == sr[ind + 1..][k];
      MaskPairedSplit(sr, rep, ind, ind2);
      var filler := RunesRepeat(rep, ind2 - ind + 1);
      chunk, rest := sr[..ind] + filler, sr[ind2 + 1..];
    } else {
      // No quotation marks: keep the rest and stop.
      MaskUnquoted(sr, rep);
      chunk, rest := sr, [];
    }
  }
}
