/** Right-to-left post-processing of markdown
    (docling_serve/post_processing_bidi.py): consecutive lines holding Arabic
    are gathered into `<div dir="rtl">` blocks whose lines are reversed
    behind their markdown marker, every other line is copied verbatim.
    The Unicode bidirectional algorithm (`get_display`) is a function
    parameter. */
module Bidi {
  import opened Wrappers
  import opened Text

  /** A character of the Arabic block U+0600..U+06FF. */
  predicate IsArabic(c: char) {
    '\U{0600}' <= c <= '\U{06FF}'
  }

  /** `ARABIC_RE.search`: the position of the leftmost Arabic character,
      if there is one. */
  function FirstArabic(s: string): (r: Option<nat>)
    ensures r.Some? ==> r.value < |s| && IsArabic(s[r.value])
                        && forall j :: 0 <= j < r.value ==> !IsArabic(s[j])
    ensures r.None? ==> forall j :: 0 <= j < |s| ==> !IsArabic(s[j])
    decreases |s|
  {
    if s == [] then None
    else if IsArabic(s[0]) then Some(0)
    else
      match FirstArabic(s[1..])
      case None => None
      case Some(k) => Some(k + 1)
  }

  /** The shape the marker pattern needs to match at all: a `"\n"` occurs at
      most as the last character. */
  predicate NewlineOnlyAtEnd(raw: string) {
    forall i :: 0 <= i < |raw| - 1 ==> raw[i] != '\n'
  }

  /** The end of the run of white space that starts at `i`. */
  function SpaceRunEnd(s: string, i: nat): (j: nat)
    requires i <= |s|
    ensures i <= j <= |s|
    ensures forall k :: i <= k < j ==> IsSpace(s[k])
    ensures j < |s| ==> !IsSpace(s[j])
    decreases |s| - i
  {
    if i < |s| && IsSpace(s[i]) then SpaceRunEnd(s, i + 1) else i
  }

  /** The end of the run of `#` that starts at `i`. */
  function HashRunEnd(s: string, i: nat): (j: nat)
    requires i <= |s|
    ensures i <= j <= |s|
    ensures forall k :: i <= k < j ==> s[k] == '#'
    ensures j < |s| ==> s[j] != '#'
    decreases |s| - i
  {
    if i < |s| && s[i] == '#' then HashRunEnd(s, i + 1) else i
  }

  predicate IsBullet(c: char) {
    c == '-' || c == '+' || c == '*'
  }

  /** The length of the `prefix` group of the marker pattern: leading white
      space, then a heading marker of one to six `#` followed by white space,
      a bullet `-`, `+` or `*` followed by white space, or a quote `>`, and
      in each case all the white space after the marker. Zero when the line
      has no such marker; its leading white space then belongs to the body. */
  function PrefixLength(raw: string): (k: nat)
    ensures k <= |raw|
    ensures k > 0 ==> k < |raw| ==> !IsSpace(raw[k])
    ensures k > 0 ==>
              var p := SpaceRunEnd(raw, 0);
              p < k && (raw[p] == '#' || IsBullet(raw[p]) || raw[p] == '>') &&
              forall i :: p < i < k ==> raw[i] == '#' || IsSpace(raw[i])
    ensures var p := SpaceRunEnd(raw, 0);
            p < |raw| && raw[p] != '#' && !IsBullet(raw[p]) && raw[p] != '>' ==> k == 0
  {
    var p := SpaceRunEnd(raw, 0);
    if p == |raw| then 0
    else if raw[p] == '#' then
      var h := HashRunEnd(raw, p);
      if h - p <= 6 && h < |raw| && IsSpace(raw[h]) then SpaceRunEnd(raw, h) else 0
    else if IsBullet(raw[p]) then
      if p + 1 < |raw| && IsSpace(raw[p + 1]) then SpaceRunEnd(raw, p + 1) else 0
    else if raw[p] == '>' then SpaceRunEnd(raw, p + 1)
    else 0
  }

  /** The `nl` group: the final `"\n"` when it is not part of the prefix. */
  function Newline(raw: string): (r: string)
    ensures r == "" || r == "\n"
    ensures |r| <= |raw| - PrefixLength(raw)
  {
    var rest := raw[PrefixLength(raw)..];
    if rest != [] && rest[|rest| - 1] == '\n' then "\n" else ""
  }

  /** The `body` group: what lies between the prefix and the final `"\n"`. */
  function Body(raw: string): string {
    raw[PrefixLength(raw)..|raw| - |Newline(raw)|]
  }

  /** A line of the markdown text, with its line ending. */
  datatype Line = Line(raw: string) {

    /** `is_rtl`: the line holds an Arabic character, that is, the search
        for one finds a match. */
    predicate IsRtl(): (b: bool)
      ensures b <==> FirstArabic(raw).Some?
    {
      exists i :: 0 <= i < |raw| && IsArabic(raw[i])
    }

    /** `reversed`: the marker prefix and the final `"\n"` stay in place,
        the body is reversed and then re-ordered by the bidirectional
        algorithm. */
    function Reversed(display: string -> string): (r: string)
      ensures raw[..PrefixLength(raw)] <= r
      ensures EndsWith(r, Newline(raw))
    {
      var body := display(Reverse(Body(raw)));
      PrefixWithin(raw[..PrefixLength(raw)], [], body, Newline(raw));
      raw[..PrefixLength(raw)] + body + Newline(raw)
    }
  }

  /** The three groups cut the line without loss, and the body holds no
      `"\n"` when the line has none before its end. */
  lemma Decompose(raw: string)
    ensures raw == raw[..PrefixLength(raw)] + Body(raw) + Newline(raw)
    ensures NewlineOnlyAtEnd(raw) ==> '\n' !in Body(raw)
  {
    var k := PrefixLength(raw);
    var n := |Newline(raw)|;
    NewlineIsTail(raw);
    assert raw == raw[..k] + raw[k..|raw| - n] + raw[|raw| - n..];
    if NewlineOnlyAtEnd(raw) {
      BodyHasNoNewline(raw);
    }
  }

  /** The `nl` group is the end of the line. */
  lemma NewlineIsTail(raw: string)
    ensures raw[|raw| - |Newline(raw)|..] == Newline(raw)
  {
    var k := PrefixLength(raw);
    var rest := raw[k..];
    if rest != [] && rest[|rest| - 1] == '\n' {
      assert raw[|raw| - 1] == '\n';
    }
  }

  lemma BodyHasNoNewline(raw: string)
    requires NewlineOnlyAtEnd(raw)
    ensures '\n' !in Body(raw)
  {
    var k := PrefixLength(raw);
    var n := |Newline(raw)|;
    var b := Body(raw);
    forall j | 0 <= j < |b|
      ensures b[j] != '\n'
    {
      assert b[j] == raw[k + j];
      if k + j == |raw| - 1 {
        assert n == 0 && raw[k..] != [];
      }
    }
  }

  /** Reversing a sequence keeps its elements. */
  lemma {:induction false} ReversePermutes(s: string)
    ensures multiset(Reverse(s)) == multiset(s)
    decreases |s|
  {
    if s != [] {
      ReversePermutes(s[1..]);
      assert Reverse(s) == Reverse(s[1..]) + [s[0]];
      assert s == [s[0]] + s[1..];
    }
  }

  /** With an identity re-ordering step, `reversed` only moves characters
      of the body: the prefix and the final `"\n"` are kept and the line
      keeps its characters. */
  lemma ReversedPermutes(raw: string)
    ensures var r := Line(raw).Reversed(s => s);
            r[..PrefixLength(raw)] == raw[..PrefixLength(raw)] &&
            multiset(r) == multiset(raw)
  {
    Decompose(raw);
    ReversePermutes(Body(raw));
    var r := Line(raw).Reversed(s => s);
    assert r == raw[..PrefixLength(raw)] + Reverse(Body(raw)) + Newline(raw);
  }

  /** A heading keeps its marker and line ending; only its words turn. */
  lemma ReversedHeading()
    ensures Line("## \U{0628}\U{062A}x\n").Reversed(s => s) == "## x\U{062A}\U{0628}\n"
  {
    var raw := "## \U{0628}\U{062A}x\n";
    assert SpaceRunEnd(raw, 0) == 0;
    assert HashRunEnd(raw, 0) == 2;
    assert SpaceRunEnd(raw, 2) == 3;
    assert PrefixLength(raw) == 3;
    assert Body(raw) == "\U{0628}\U{062A}x";
  }

  /** `'<div dir="rtl">\n'` and `'</div>\n'`. */
  const OpenDiv: string := "<div dir=\"rtl\">\n"
  const CloseDiv: string := "</div>\n"

  /** Every line of a block, reversed. */
  function ReversedLines(lines: seq<Line>, display: string -> string): (r: seq<string>)
    ensures |r| == |lines|
    ensures forall i :: 0 <= i < |lines| ==> r[i] == lines[i].Reversed(display)
  {
    seq(|lines|, i requires 0 <= i < |lines| => lines[i].Reversed(display))
  }

  lemma ReversedLinesSnoc(lines: seq<Line>, ln: Line, display: string -> string)
    ensures ReversedLines(lines + [ln], display) == ReversedLines(lines, display) + [ln.Reversed(display)]
  {
  }

  /** What `RTLBlock.render` produces for the given lines. */
  function RenderBlock(lines: seq<Line>, display: string -> string): string {
    OpenDiv + Concat(ReversedLines(lines, display)) + CloseDiv
  }

  /** `RTLBlock`: the lines of one right-to-left run. */
  class RTLBlock {
    var lines: seq<Line>

    constructor()
      ensures lines == []
    {
      lines := [];
    }

    /** `add_line`. */
    method AddLine(ln: Line)
      modifies this
      ensures lines == old(lines) + [ln]
    {
      lines := lines + [ln];
    }

    /** `render`: the opening tag, every line reversed, the closing tag. */
    method Render(display: string -> string) returns (r: string)
      ensures r == RenderBlock(lines, display)
    {
      var out := [OpenDiv];
      for i := 0 to |lines|
        invariant out == [OpenDiv] + ReversedLines(lines[..i], display)
      {
        PrefixSnoc(lines, i);
        ReversedLinesSnoc(lines[..i], lines[i], display);
        out := out + [lines[i].Reversed(display)];
      }
      PrefixAll(lines);
      out := out + [CloseDiv];
      ConcatAppend([OpenDiv], ReversedLines(lines, display));
      ConcatAppend([OpenDiv] + ReversedLines(lines, display), [CloseDiv]);
      r := Concat(out);
    }
  }

  /** A piece of the output: a left-to-right line copied as it is, or a run
      of right-to-left lines rendered as one block. */
  datatype Piece = Plain(line: Line) | Block(block: seq<Line>)

  /** How the processor groups lines, read one line at a time. */
  function Group(lines: seq<Line>): seq<Piece>
    decreases |lines|
  {
    if lines == [] then []
    else
      var g := Group(lines[..|lines| - 1]);
      var ln := lines[|lines| - 1];
      if !ln.IsRtl() then g + [Plain(ln)]
      else if g != [] && g[|g| - 1].Block? then g[..|g| - 1] + [Block(g[|g| - 1].block + [ln])]
      else g + [Block([ln])]
  }

  function PieceLines(p: Piece): seq<Line> {
    match p
    case Plain(ln) => [ln]
    case Block(b) => b
  }

  /** The lines of the pieces, in order. */
  function LinesOf(ps: seq<Piece>): seq<Line>
    decreases |ps|
  {
    if ps == [] then [] else LinesOf(ps[..|ps| - 1]) + PieceLines(ps[|ps| - 1])
  }

  /** A grouping is well formed: plain lines are left-to-right, blocks are
      non-empty runs of right-to-left lines, and no block follows another. */
  predicate WellGrouped(ps: seq<Piece>) {
    (forall i :: 0 <= i < |ps| && ps[i].Plain? ==> !ps[i].line.IsRtl()) &&
    (forall i :: 0 <= i < |ps| && ps[i].Block? ==>
       ps[i].block != [] && forall j :: 0 <= j < |ps[i].block| ==> ps[i].block[j].IsRtl()) &&
    (forall i :: 0 < i < |ps| && ps[i].Block? ==> ps[i - 1].Plain?)
  }

  /** The grouping keeps every line, in order. */
  lemma {:induction false} GroupKeepsLines(lines: seq<Line>)
    ensures LinesOf(Group(lines)) == lines
    decreases |lines|
  {
    if lines != [] {
      var init := lines[..|lines| - 1];
      var ln := lines[|lines| - 1];
      SnocParts(lines);
      GroupKeepsLines(init);
      KeepsOne(init, ln);
    }
  }

  /** One more line keeps the lines of the grouping equal to the input. */
  lemma KeepsOne(init: seq<Line>, ln: Line)
    requires LinesOf(Group(init)) == init
    ensures LinesOf(Group(init + [ln])) == init + [ln]
  {
    var g := Group(init);
    if !ln.IsRtl() {
      KeepsPlain(init, ln);
    } else if g != [] && g[|g| - 1].Block? {
      KeepsExtended(init, ln);
    } else {
      KeepsOpened(init, ln);
    }
  }

  lemma KeepsPlain(init: seq<Line>, ln: Line)
    requires LinesOf(Group(init)) == init && !ln.IsRtl()
    ensures LinesOf(Group(init + [ln])) == init + [ln]
  {
    SnocFront(init, ln);
    LinesOfSnoc(Group(init), Plain(ln));
  }

  lemma KeepsExtended(init: seq<Line>, ln: Line)
    requires LinesOf(Group(init)) == init && ln.IsRtl()
    requires Group(init) != [] && Group(init)[|Group(init)| - 1].Block?
    ensures LinesOf(Group(init + [ln])) == init + [ln]
  {
    SnocFront(init, ln);
    var g := Group(init);
    var h := g[..|g| - 1];
    var b := g[|g| - 1].block;
    assert Group(init + [ln]) == h + [Block(b + [ln])];
    assert LinesOf(g) == LinesOf(h) + b;
    LinesOfSnoc(h, Block(b + [ln]));
    AppendAssoc(LinesOf(h), b, [ln]);
  }

  lemma KeepsOpened(init: seq<Line>, ln: Line)
    requires LinesOf(Group(init)) == init && ln.IsRtl()
    requires Group(init) == [] || Group(init)[|Group(init)| - 1].Plain?
    ensures LinesOf(Group(init + [ln])) == init + [ln]
  {
    SnocFront(init, ln);
    LinesOfSnoc(Group(init), Block([ln]));
  }

  lemma LinesOfSnoc(ps: seq<Piece>, p: Piece)
    ensures LinesOf(ps + [p]) == LinesOf(ps) + PieceLines(p)
  {
    SnocFront(ps, p);
  }

  /** The grouping gathers each maximal run of right-to-left lines into
      exactly one block. */
  lemma {:induction false} GroupWellFormed(lines: seq<Line>)
    ensures WellGrouped(Group(lines))
    decreases |lines|
  {
    if lines != [] {
      var init := lines[..|lines| - 1];
      var ln := lines[|lines| - 1];
      SnocParts(lines);
      GroupWellFormed(init);
      WellGroupedSnoc(init, ln);
    }
  }

  /** One more line keeps the grouping well formed. */
  lemma WellGroupedSnoc(init: seq<Line>, ln: Line)
    requires WellGrouped(Group(init))
    ensures WellGrouped(Group(init + [ln]))
  {
    SnocFront(init, ln);
    var g := Group(init);
    if !ln.IsRtl() {
      assert Group(init + [ln]) == g + [Plain(ln)];
      AddPlainKeepsWell(g, ln);
    } else if g != [] && g[|g| - 1].Block? {
      assert Group(init + [ln]) == g[..|g| - 1] + [Block(g[|g| - 1].block + [ln])];
      ExtendKeepsWell(g, ln);
    } else {
      assert Group(init + [ln]) == g + [Block([ln])];
      OpenKeepsWell(g, ln);
    }
  }

  lemma AddPlainKeepsWell(g: seq<Piece>, ln: Line)
    requires WellGrouped(g) && !ln.IsRtl()
    ensures WellGrouped(g + [Plain(ln)])
  {
    SnocFront(g, Plain(ln));
  }

  lemma OpenKeepsWell(g: seq<Piece>, ln: Line)
    requires WellGrouped(g) && ln.IsRtl() && (g == [] || g[|g| - 1].Plain?)
    ensures WellGrouped(g + [Block([ln])])
  {
    SnocFront(g, Block([ln]));
  }

  lemma ExtendKeepsWell(g: seq<Piece>, ln: Line)
    requires WellGrouped(g) && ln.IsRtl() && g != [] && g[|g| - 1].Block?
    ensures WellGrouped(g[..|g| - 1] + [Block(g[|g| - 1].block + [ln])])
  {
    var h := g[..|g| - 1];
    var b := g[|g| - 1].block + [ln];
    SnocFront(h, Block(b));
    assert forall j :: 0 <= j < |b| ==> b[j].IsRtl();
    assert |h| > 0 ==> h[|h| - 1].Plain?;
  }

  function RenderPiece(p: Piece, display: string -> string): string {
    match p
    case Plain(ln) => ln.raw
    case Block(b) => RenderBlock(b, display)
  }

  function Rendered(ps: seq<Piece>, display: string -> string): (r: seq<string>)
    ensures |r| == |ps|
    ensures forall i :: 0 <= i < |ps| ==> r[i] == RenderPiece(ps[i], display)
  {
    seq(|ps|, i requires 0 <= i < |ps| => RenderPiece(ps[i], display))
  }

  /** The processed document for the given lines. */
  function Output(lines: seq<Line>, display: string -> string): string {
    Concat(Rendered(Group(lines), display))
  }

  /** The lines `splitlines(keepends=True)` finds, as `Line`s. */
  function SourceLines(text: string): (r: seq<Line>)
    ensures |r| == |SplitLinesKeepEnds(text)|
    ensures forall i :: 0 <= i < |r| ==> r[i].raw == SplitLinesKeepEnds(text)[i]
  {
    var ks := SplitLinesKeepEnds(text);
    seq(|ks|, i requires 0 <= i < |ks| => Line(ks[i]))
  }

  /** Every line `splitlines(keepends=True)` finds matches the marker
      pattern. */
  lemma SourceLinesMatch(text: string)
    ensures forall i :: 0 <= i < |SourceLines(text)| ==> NewlineOnlyAtEnd(SourceLines(text)[i].raw)
  {
    var ps := Lines(text);
    LinesShape(text);
    forall i | 0 <= i < |ps|
      ensures NewlineOnlyAtEnd(ps[i].content + ps[i].ending)
    {
      var c := ps[i].content;
      var e := ps[i].ending;
      assert NoLineBreak(c);
      assert e == "" || e == "\r\n" || |e| == 1;
      forall j | 0 <= j < |c + e| - 1
        ensures (c + e)[j] != '\n'
      {
        if j < |c| {
          assert !IsLineBreak(c[j]);
        }
      }
    }
  }

  lemma RenderedSnoc(ps: seq<Piece>, p: Piece, display: string -> string)
    ensures Rendered(ps + [p], display) == Rendered(ps, display) + [RenderPiece(p, display)]
  {
  }

  /** The grouping steps `process` takes. A left-to-right line becomes a
      plain piece of its own. */
  lemma GroupAddsPlain(lines: seq<Line>, i: nat)
    requires i < |lines| && !lines[i].IsRtl()
    ensures Group(lines[..i + 1]) == Group(lines[..i]) + [Plain(lines[i])]
  {
    PrefixSnoc(lines, i);
    SnocFront(lines[..i], lines[i]);
  }

  /** A right-to-left line after a plain piece, or first, opens a block. */
  lemma GroupOpensBlock(lines: seq<Line>, i: nat, done: seq<Piece>)
    requires i < |lines| && lines[i].IsRtl()
    requires Group(lines[..i]) == done && (done == [] || done[|done| - 1].Plain?)
    ensures Group(lines[..i + 1]) == done + [Block([] + [lines[i]])]
  {
    PrefixSnoc(lines, i);
    SnocFront(lines[..i], lines[i]);
    assert [] + [lines[i]] == [lines[i]];
  }

  /** A right-to-left line after a block joins it. */
  lemma GroupExtendsBlock(lines: seq<Line>, i: nat, done: seq<Piece>, block: seq<Line>)
    requires i < |lines| && lines[i].IsRtl()
    requires Group(lines[..i]) == done + [Block(block)]
    ensures Group(lines[..i + 1]) == done + [Block(block + [lines[i]])]
  {
    PrefixSnoc(lines, i);
    SnocFront(lines[..i], lines[i]);
    SnocFront(done, Block(block));
  }

  /** `MarkdownProcessor`: the lines of one markdown text. */
  class MarkdownProcessor {
    var lines: seq<Line>

    constructor(text: string)
      ensures lines == SourceLines(text)
    {
      lines := SourceLines(text);
    }

    /** `process`: walks the lines, holding the open right-to-left block,
        and joins what it emits. */
    method Process(display: string -> string) returns (r: string)
      ensures r == Output(lines, display)
    {
      var out: seq<string> := [];
      var rtlBlock: RTLBlock? := null;
      ghost var done: seq<Piece> := [];
      for i := 0 to |lines|
        invariant rtlBlock != null ==>
                    fresh(rtlBlock) && Group(lines[..i]) == done + [Block(rtlBlock.lines)]
        invariant rtlBlock == null ==>
                    Group(lines[..i]) == done && (done == [] || done[|done| - 1].Plain?)
        invariant out == Rendered(done, display)
      {
        var ln := lines[i];
        if ln.IsRtl() {
          if rtlBlock == null {
            rtlBlock := new RTLBlock();
            GroupOpensBlock(lines, i, done);
          } else {
            GroupExtendsBlock(lines, i, done, rtlBlock.lines);
          }
          rtlBlock.AddLine(ln);
        } else {
          if rtlBlock != null {
            var rendered := rtlBlock.Render(display);
            RenderedSnoc(done, Block(rtlBlock.lines), display);
            out := out + [rendered];
            done := done + [Block(rtlBlock.lines)];
            rtlBlock := null;
          }
          GroupAddsPlain(lines, i);
          RenderedSnoc(done, Plain(ln), display);
          out := out + [ln.raw];
          done := done + [Plain(ln)];
        }
      }
      if rtlBlock != null {
        var rendered := rtlBlock.Render(display);
        RenderedSnoc(done, Block(rtlBlock.lines), display);
        out := out + [rendered];
        done := done + [Block(rtlBlock.lines)];
      }
      PrefixAll(lines);
      r := Concat(out);
    }
  }

  /** A character of one part occurs in the concatenation. */
  lemma {:induction false} ConcatHas(parts: seq<string>, i: nat, j: nat)
    requires i < |parts| && j < |parts[i]|
    ensures parts[i][j] in Concat(parts)
    decreases i
  {
    if i > 0 {
      ConcatHas(parts[1..], i - 1, j);
      assert Concat(parts) == parts[0] + Concat(parts[1..]);
    } else {
      assert Concat(parts)[j] == parts[0][j];
    }
  }

  /** Grouping lines none of which is right-to-left gives one plain piece
      per line. */
  lemma {:induction false} GroupAllPlain(lines: seq<Line>, display: string -> string)
    requires forall i :: 0 <= i < |lines| ==> !lines[i].IsRtl()
    ensures Rendered(Group(lines), display) == seq(|lines|, i requires 0 <= i < |lines| => lines[i].raw)
    decreases |lines|
  {
    if lines != [] {
      GroupAllPlain(lines[..|lines| - 1], display);
    }
  }

  /** A text without Arabic comes out of the processor unchanged, whatever
      the bidirectional step does. */
  lemma NoArabicUnchanged(text: string, display: string -> string)
    requires forall k :: 0 <= k < |text| ==> !IsArabic(text[k])
    ensures Output(SourceLines(text), display) == text
  {
    var lines := SourceLines(text);
    var ks := SplitLinesKeepEnds(text);
    KeepEndsConcat(text);
    forall i | 0 <= i < |lines|
      ensures !lines[i].IsRtl()
    {
      if lines[i].IsRtl() {
        var j :| 0 <= j < |ks[i]| && IsArabic(ks[i][j]);
        ConcatHas(ks, i, j);
        assert false;
      }
    }
    GroupAllPlain(lines, display);
    assert Rendered(Group(lines), display) == ks;
  }
}
