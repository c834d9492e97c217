/**
 * Flattening a fetched transcript into one string (`getTextFromYoutubeTranscript`):
 * each segment's text is appended in order, preceded by a dash. The fetch itself
 * is not modelled; the method receives the segment texts.
 */
module Transcript {
  import opened Common

  const Dash := "-"

  /** The flattened text of `segments`: "-" + t1 + "-" + t2 + ... + "-" + tn. */
  function Dashed(segments: seq<string>): (text: string)
    ensures segments == [] <==> text == ""
    ensures segments != [] ==> text[0] == '-'
    ensures |segments| <= |text|
  {
    if segments == [] then ""
    else Dashed(segments[..|segments| - 1]) + Dash + segments[|segments| - 1]
  }

  /** The accumulator loop over the transcript segments. */
  method TextFromTranscript(segments: seq<string>) returns (text: string)
    ensures text == Dashed(segments)
  {
    text := "";
    for i := 0 to |segments|
      invariant text == Dashed(segments[..i])
    {
      text := text + Dash;
      text := text + segments[i];
      assert segments[..i + 1][..i] == segments[..i];
    }
    assert segments[..|segments|] == segments;
  }

  /** One dash per segment plus every segment's characters; an empty transcript gives "". */
  lemma {:induction false} DashedLength(segments: seq<string>)
    ensures |Dashed(segments)| == |segments| + TotalLength(segments)
    ensures segments == [] <==> Dashed(segments) == ""
  {
    if segments != [] {
      DashedLength(segments[..|segments| - 1]);
    }
  }

  /** Flattening a split transcript gives the two flattened halves, in order. */
  lemma {:induction false} DashedAppend(a: seq<string>, b: seq<string>)
    ensures Dashed(a + b) == Dashed(a) + Dashed(b)
  {
    if b == [] {
      assert a + b == a;
    } else {
      var b' := b[..|b| - 1];
      assert (a + b)[..|a + b| - 1] == a + b';
      DashedAppend(a, b');
    }
  }

  /** The flattened text is the concatenation of the dash-prefixed segments. */
  lemma {:induction false} DashedIsConcat(segments: seq<string>)
    ensures Dashed(segments) == Concat(seq(|segments|, i requires 0 <= i < |segments| => Dash + segments[i]))
  {
    var parts := seq(|segments|, i requires 0 <= i < |segments| => Dash + segments[i]);
    if segments != [] {
      var init := segments[..|segments| - 1];
      DashedIsConcat(init);
      assert parts[..|parts| - 1] == seq(|init|, i requires 0 <= i < |init| => Dash + init[i]);
    }
  }

  /**
   * No segment is dropped or reordered: segment k sits, unmodified and right
   * after a dash, at the offset where the flattening of segments 0..k-1 ends.
   */
  lemma SegmentAt(segments: seq<string>, k: nat)
    requires k < |segments|
    ensures var off := k + TotalLength(segments[..k]);
      var text := Dashed(segments);
      off + 1 + |segments[k]| <= |text| &&
      text[off] == '-' &&
      text[off + 1..off + 1 + |segments[k]|] == segments[k]
  {
    var pre, post := segments[..k], segments[k + 1..];
    assert segments == pre + [segments[k]] + post;
    DashedAppend(pre + [segments[k]], post);
    DashedAppend(pre, [segments[k]]);
    assert Dashed([segments[k]]) == Dash + segments[k] by {
      assert [segments[k]][..0] == [];
    }
    DashedLength(pre);
  }

  /** Three segments: the flattened text starts with a dash before the first segment. */
  lemma ThreeSegments()
    ensures Dashed(["Hello", "world", "today"]) == "-Hello-world-today"
  {
    assert ["Hello", "world", "today"][..2] == ["Hello", "world"];
    assert ["Hello", "world"][..1] == ["Hello"];
    assert ["Hello"][..0] == [];
  }
}
