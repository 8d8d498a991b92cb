/**
 * Extraction of the quoted sub-filter from a free-text search query: the text
 * between the first two double-quote characters. (The two calls to the hosted
 * embedding service that live beside it are network calls and are passed to
 * the rest of the model as functions.)
 */
module Embed {

  import opened Wrappers
  import opened Text

  const Quote := '"'

  /** The position of the first `c` in `s` at or after `from`, if any. */
  function IndexOf(s: string, c: char, from: nat): (r: Option<nat>)
    requires from <= |s|
    ensures r.Some? ==> from <= r.value < |s| && s[r.value] == c && c !in s[from..r.value]
    ensures r.None? ==> c !in s[from..]
    decreases |s| - from
  {
    if from == |s| then None
    else if s[from] == c then Some(from)
    else
      var r := IndexOf(s, c, from + 1);
      assert s[from..] == [s[from]] + s[from + 1..];
      assert r.Some? ==> s[from..r.value] == [s[from]] + s[from + 1..r.value];
      r
  }

  /** The reference reading: the characters strictly between the first and the second quote. */
  function FirstQuote(s: string): Option<string>
  {
    match IndexOf(s, Quote, 0)
    case None => None
    case Some(i) =>
      match IndexOf(s, Quote, i + 1)
      case None => None
      case Some(j) => Some(s[i + 1..j])
  }

  /** An opening quote at `i` and the closing quote at `j` of the first quoted pair of `s`. */
  predicate FirstPairAt(s: string, i: int, j: int)
  {
    0 <= i < j < |s| && s[i] == Quote && s[j] == Quote
    && Quote !in s[..i] && Quote !in s[i + 1..j]
  }

  /**
   * `extract_first_quote`: one pass over the characters with an "inside a
   * quote" flag and an accumulator; returns at the closing quote.
   */
  method ExtractFirstQuote(input: string) returns (r: Option<string>)
    ensures r == FirstQuote(input)
  {
    var insideQuote := false;
    var result := "";
    ghost var opening := 0;
    for k := 0 to |input|
      invariant !insideQuote ==> result == "" && Quote !in input[..k]
      invariant insideQuote ==> opening < k && input[opening] == Quote && Quote !in input[..opening]
      invariant insideQuote ==> result == input[opening + 1..k] && Quote !in result
    {
      var c := input[k];
      if c == Quote {
        if insideQuote {
          // a second quote: the pair is complete, and it is the first one
          assert FirstPairAt(input, opening, k);
          FirstPairIsFirstQuote(input, opening, k);
          return Some(result);
        } else {
          // the first quote: remember where the pair opens
          insideQuote := true;
          opening := k;
        }
      } else if insideQuote {
        // between the quotes: the character joins the accumulator
        result := result + [c];
      }
      assert input[..k + 1] == input[..k] + [c];
    }
    // the scan ended without a second quote
    assert input[..|input|] == input;
    if insideQuote {
      assert IndexOf(input, Quote, 0) == Some(opening) by {
        assert input[..opening] == input[0..opening];
      }
    }
    return None;
  }

  /** The first quoted pair determines the reference result. */
  lemma FirstPairIsFirstQuote(s: string, i: int, j: int)
    requires FirstPairAt(s, i, j)
    ensures FirstQuote(s) == Some(s[i + 1..j])
  {
    assert s[..i] == s[0..i];
  }

  /** The result is the text of the first quoted pair, and only such a pair yields a result. */
  lemma FirstQuoteIsFirstPair(s: string, m: string)
    ensures FirstQuote(s) == Some(m) <==> exists i, j :: FirstPairAt(s, i, j) && m == s[i + 1..j]
  {
    if FirstQuote(s) == Some(m) {
      var i := IndexOf(s, Quote, 0).value;
      var j := IndexOf(s, Quote, i + 1).value;
      assert s[..i] == s[0..i];
      assert FirstPairAt(s, i, j);
    }
    if exists i, j :: FirstPairAt(s, i, j) && m == s[i + 1..j] {
      var i, j :| FirstPairAt(s, i, j) && m == s[i + 1..j];
      FirstPairIsFirstQuote(s, i, j);
    }
  }

  /** The extracted text never holds a quote character. */
  lemma FirstQuoteHasNoQuote(s: string)
    requires FirstQuote(s).Some?
    ensures Quote !in FirstQuote(s).value
  {
    var i := IndexOf(s, Quote, 0).value;
    var j := IndexOf(s, Quote, i + 1).value;
  }

  /** There is a result exactly when the input holds at least two quote characters. */
  lemma FirstQuoteNoneIffFewerThanTwoQuotes(s: string)
    ensures FirstQuote(s).None? <==> CountChar(s, Quote) < 2
  {
    var a := IndexOf(s, Quote, 0);
    if a.None? {
      assert s[0..] == s;
      CountCharZero(s, Quote);
    } else {
      var i := a.value;
      assert s == s[..i] + [Quote] + s[i + 1..];
      CountCharAppend(s[..i] + [Quote], s[i + 1..], Quote);
      CountCharAppend(s[..i], [Quote], Quote);
      assert s[..i] == s[0..i];
      CountCharZero(s[..i], Quote);
      assert CountChar([Quote], Quote) == 1;
      var b := IndexOf(s, Quote, i + 1);
      if b.None? {
        CountCharZero(s[i + 1..], Quote);
      } else {
        var j := b.value;
        var rest := s[i + 1..];
        assert rest[j - i - 1] == Quote;
        assert s[j] in rest;
        CountCharZero(rest, Quote);
        assert CountChar(rest, Quote) >= 1;
      }
    }
  }

  /**
   * Only the first quoted pair matters: whatever precedes the opening quote
   * (without a quote of its own) and whatever follows the closing quote.
   */
  lemma FirstQuoteInContext(before: string, quoted: string, after: string)
    requires Quote !in before && Quote !in quoted
    ensures FirstQuote(before + [Quote] + quoted + [Quote] + after) == Some(quoted)
  {
    var s := before + [Quote] + quoted + [Quote] + after;
    var i, j := |before|, |before| + 1 + |quoted|;
    assert s[..i] == before;
    assert s[i + 1..j] == quoted;
    FirstPairIsFirstQuote(s, i, j);
  }

  /** Two adjacent quotes give the empty string, not an absent result. */
  lemma AdjacentQuotesGiveEmpty(before: string, after: string)
    requires Quote !in before
    ensures FirstQuote(before + "\"\"" + after) == Some("")
  {
    assert before + "\"\"" + after == before + [Quote] + "" + [Quote] + after;
    FirstQuoteInContext(before, "", after);
  }

  /** Worked example: a query with a quoted course code. */
  lemma QuotedCodeExample()
    ensures FirstQuote("find \"CSCI 0220\" intro") == Some("CSCI 0220")
  {
    assert "find \"CSCI 0220\" intro" == "find " + [Quote] + "CSCI 0220" + [Quote] + " intro";
    FirstQuoteInContext("find ", "CSCI 0220", " intro");
  }

  /** A query with no quote character at all has no quoted text. */
  lemma NoQuoteNoFilter(s: string)
    requires Quote !in s
    ensures FirstQuote(s) == None
  {
    assert s[0..] == s;
  }

  /** A query with a single quote character has no quoted text. */
  lemma SingleQuoteNoFilter(before: string, after: string)
    requires Quote !in before && Quote !in after
    ensures FirstQuote(before + [Quote] + after) == None
  {
    var s := before + [Quote] + after;
    assert s[|before| + 1..] == after;
    assert s[..|before|] == before;
  }

  /** Worked example: a query without quotes. */
  lemma NoQuoteExample()
    ensures FirstQuote("no quotes here") == None
  {
    NoQuoteNoFilter("no quotes here");
  }

  /** Worked example: a quote that is never closed. */
  lemma UnclosedQuoteExample()
    ensures FirstQuote("open \"but not closed") == None
  {
    assert "open \"but not closed" == "open " + [Quote] + "but not closed";
    SingleQuoteNoFilter("open ", "but not closed");
  }
}
