/** `mirror_text_lines` (mirror_lines.py): every line of a text reversed
    character by character, the lines joined again by `"\n"`. */
module Mirror {
  import opened Text

  /** The mirrored text: as long as the lines of the text joined by
      `"\n"`, since only the order of characters within a line changes. */
  function MirrorTextLines(text: string): (r: string)
    ensures |r| == |Join("\n", SplitLines(text))|
  {
    var ls := SplitLines(text);
    JoinSameLengths("\n", MirroredLines(ls), ls);
    Join("\n", MirroredLines(ls))
  }

  /** Joining parts of the same lengths gives texts of the same length. */
  lemma {:induction false} JoinSameLengths(sep: string, a: seq<string>, b: seq<string>)
    requires |a| == |b| && forall i :: 0 <= i < |a| ==> |a[i]| == |b[i]|
    ensures |Join(sep, a)| == |Join(sep, b)|
    decreases |a|
  {
    if |a| > 1 {
      JoinSameLengths(sep, a[1..], b[1..]);
    }
  }

  function MirroredLines(lines: seq<string>): (r: seq<string>)
    ensures |r| == |lines|
    ensures forall i :: 0 <= i < |lines| ==> r[i] == Reverse(lines[i])
  {
    seq(|lines|, i requires 0 <= i < |lines| => Reverse(lines[i]))
  }

  /** A reversed line holds no line break when the line held none. */
  lemma ReverseNoLineBreak(s: string)
    requires NoLineBreak(s)
    ensures NoLineBreak(Reverse(s))
  {
  }

  /** Splitting the mirrored text into lines gives the lines of the text,
      each reversed, whenever the text's last line is not empty. */
  lemma MirroredLinesOfMirror(text: string)
    requires SplitLines(text) != [] ==> SplitLines(text)[|SplitLines(text)| - 1] != ""
    ensures SplitLines(MirrorTextLines(text)) == MirroredLines(SplitLines(text))
  {
    var ls := SplitLines(text);
    var ms := MirroredLines(ls);
    LinesShape(text);
    forall k | 0 <= k < |ms|
      ensures NoLineBreak(ms[k])
    {
      assert NoLineBreak(Lines(text)[k].content);
      ReverseNoLineBreak(ls[k]);
    }
    SplitLinesJoin(ms);
  }

  /** Mirroring twice gives the lines of the text back, joined by `"\n"`
      (so the text itself when it used `"\n"` breaks and no final one). */
  lemma MirrorTwice(text: string)
    requires SplitLines(text) != [] ==> SplitLines(text)[|SplitLines(text)| - 1] != ""
    ensures MirrorTextLines(MirrorTextLines(text)) == Join("\n", SplitLines(text))
  {
    var ls := SplitLines(text);
    MirroredLinesOfMirror(text);
    assert MirroredLines(MirroredLines(ls)) == ls by {
      forall k | 0 <= k < |ls|
        ensures MirroredLines(MirroredLines(ls))[k] == ls[k]
      {
        ReverseReverse(ls[k]);
      }
    }
  }

  /** The empty text and a text of one line. */
  lemma MirrorSmall(line: string)
    requires line != [] && NoLineBreak(line)
    ensures MirrorTextLines("") == ""
    ensures MirrorTextLines(line) == Reverse(line)
  {
    LinesOfOne(line);
    assert SplitLines(line) == [line];
  }
}
