/**
 Turning streamed chunks into increments, for a server that may send either the whole text so far
 or only what is new.
 */
module DeltaStream {

  import opened Text

  /** The text a chunk leaves behind. */
  function TextAfter(last: string, chunk: string): string {
    if last <= chunk then (if chunk == [] then last else chunk)
    else if EndsWith(last, chunk) then last
    else last + chunk
  }

  class GeminiText {
    var lastText: string

    constructor ()
      ensures lastText == ""
    {
      lastText := "";
    }

    /** `gemini_delta`: what is handed on is always exactly what the text has grown by. */
    method Delta(chunk: string) returns (delta: string)
      modifies this
      ensures lastText == old(lastText) + delta
      ensures lastText == TextAfter(old(lastText), chunk)
    {
      if chunk == [] {
        assert lastText + "" == lastText;
        return "";
      }
      if lastText <= chunk {
        delta := chunk[|lastText|..];
        lastText := chunk;
      } else if EndsWith(lastText, chunk) {
        assert lastText + "" == lastText;
        return "";
      } else {
        lastText := lastText + chunk;
        return chunk;
      }
    }
  }

  /** The text after any run of chunks. */
  function TextOf(chunks: seq<string>): string {
    if chunks == [] then "" else TextAfter(TextOf(chunks[..|chunks| - 1]), chunks[|chunks| - 1])
  }

  /** Every chunk repeats all that came before it. */
  ghost predicate Cumulative(chunks: seq<string>) {
    forall i, j :: 0 <= i < j < |chunks| ==> chunks[i] <= chunks[j]
  }

  /** A server that always sends the whole text is decoded to the last of its texts. */
  lemma {:induction false} CumulativeIsLast(chunks: seq<string>)
    requires Cumulative(chunks)
    ensures TextOf(chunks) == if chunks == [] then "" else chunks[|chunks| - 1]
  {
    if chunks != [] {
      CumulativeIsLast(chunks[..|chunks| - 1]);
    }
  }

  function Concat(chunks: seq<string>): string {
    if chunks == [] then "" else Concat(chunks[..|chunks| - 1]) + chunks[|chunks| - 1]
  }

  /** A chunk that cannot be told from a repetition of what the text starts or ends with. */
  predicate Repeats(last: string, chunk: string) {
    chunk != [] && last != [] && (last <= chunk || EndsWith(last, chunk))
  }

  /** Some chunk repeats what the chunks before it start or end with. */
  ghost predicate SomeRepeats(chunks: seq<string>) {
    chunks != [] &&
    (Repeats(Concat(chunks[..|chunks| - 1]), chunks[|chunks| - 1]) || SomeRepeats(chunks[..|chunks| - 1]))
  }

  lemma OneChunk(last: string, chunk: string)
    ensures |TextAfter(last, chunk)| <= |last| + |chunk|
    ensures |TextAfter(last, chunk)| == |last| + |chunk| ==> TextAfter(last, chunk) == last + chunk
    ensures TextAfter(last, chunk) == last + chunk <==> !Repeats(last, chunk)
  {
    assert last + "" == last && "" + chunk == chunk;
  }

  lemma {:induction false} NeverLonger(chunks: seq<string>)
    ensures |TextOf(chunks)| <= |Concat(chunks)|
  {
    if chunks != [] {
      NeverLonger(chunks[..|chunks| - 1]);
      OneChunk(TextOf(chunks[..|chunks| - 1]), chunks[|chunks| - 1]);
    }
  }

  /** A server that only sends what is new is decoded exactly if and only if no chunk looks like a repetition. */
  lemma {:induction false} IncrementsAddUp(chunks: seq<string>)
    ensures TextOf(chunks) == Concat(chunks) <==> !SomeRepeats(chunks)
  {
    if chunks != [] {
      var front, chunk := chunks[..|chunks| - 1], chunks[|chunks| - 1];
      hide TextAfter, Repeats;
      IncrementsAddUp(front);
      NeverLonger(front);
      OneChunk(TextOf(front), chunk);
      if TextOf(chunks) == Concat(chunks) { SameFront(TextOf(front), Concat(front), chunk); }
    }
  }

  lemma SameFront(a: string, b: string, chunk: string)
    requires a + chunk == b + chunk
    ensures a == b
  {
    assert a == (a + chunk)[..|a|] && b == (b + chunk)[..|b|];
  }

  /** `ha` followed by `ha` is taken for the same text sent twice. */
  lemma RepetitionLost()
    ensures TextOf(["ha", "ha"]) == "ha"
  {
    assert ["ha", "ha"][..1] == ["ha"] && ["ha"][..0] == [];
    assert TextOf(["ha"]) == "ha";
  }
}
