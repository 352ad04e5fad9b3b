/** The Python string operations the service relies on, written out over
    `seq<char>`: `lower`, `isspace`/`strip`, `split(sep)`, `split()`,
    `sep.join`, `splitlines`, slicing reversal, `str(int)` and
    `pathlib.PurePath.suffix`. */
module Text {

  // ---------------------------------------------------------------------
  // Characters
  // ---------------------------------------------------------------------

  /** Python's `str.isspace` for one character (also what `\s` matches in a
      `str` regular expression). */
  predicate IsSpace(c: char) {
    c == ' ' || ('\t' <= c <= '\r') || ('\U{1c}' <= c <= '\U{1f}')
    || c == '\U{85}' || c == '\U{a0}' || c == '\U{1680}'
    || ('\U{2000}' <= c <= '\U{200a}') || c == '\U{2028}' || c == '\U{2029}'
    || c == '\U{202f}' || c == '\U{205f}' || c == '\U{3000}'
  }

  /** The characters at which Python's `str.splitlines` ends a line. */
  predicate IsLineBreak(c: char) {
    c == '\n' || c == '\r' || c == '\U{0b}' || c == '\U{0c}'
    || ('\U{1c}' <= c <= '\U{1e}') || c == '\U{85}' || c == '\U{2028}' || c == '\U{2029}'
  }

  /** `lower` on one character, for the ASCII letters. */
  function LowerChar(c: char): (r: char)
    ensures 'A' <= c <= 'Z' ==> 'a' <= r <= 'z'
    ensures !('A' <= c <= 'Z') ==> r == c
  {
    if 'A' <= c <= 'Z' then (c as int + 32) as char else c
  }

  // ---------------------------------------------------------------------
  // lower / strip / endswith / reversal
  // ---------------------------------------------------------------------

  function Lower(s: string): (r: string)
    ensures |r| == |s|
    ensures forall i :: 0 <= i < |s| ==> r[i] == LowerChar(s[i])
  {
    seq(|s|, i requires 0 <= i < |s| => LowerChar(s[i]))
  }

  function TrimStart(s: string): (r: string)
    ensures |r| <= |s|
    ensures r != [] ==> r[|r| - 1] == s[|s| - 1]
    ensures r == [] || !IsSpace(r[0])
    decreases |s|
  {
    if s != [] && IsSpace(s[0]) then TrimStart(s[1..]) else s
  }

  function TrimEnd(s: string): (r: string)
    ensures |r| <= |s|
    ensures r != [] ==> r[0] == s[0]
    ensures r == [] || !IsSpace(r[|r| - 1])
    decreases |s|
  {
    if s != [] && IsSpace(s[|s| - 1]) then TrimEnd(s[..|s| - 1]) else s
  }

  /** Python's `str.strip()` with no argument. */
  function Strip(s: string): (r: string)
    ensures |r| <= |s|
    ensures r == [] || (!IsSpace(r[0]) && !IsSpace(r[|r| - 1]))
  {
    TrimEnd(TrimStart(s))
  }

  predicate EndsWith(s: string, suffix: string) {
    |suffix| <= |s| && s[|s| - |suffix|..] == suffix
  }

  /** A non-empty sequence is its front and its last element. */
  lemma SnocParts<T>(s: seq<T>)
    requires s != []
    ensures s == s[..|s| - 1] + [s[|s| - 1]]
  {
  }

  lemma SnocFront<T>(s: seq<T>, x: T)
    ensures (s + [x])[..|s|] == s && (s + [x])[|s|] == x
  {
  }

  /** A prefix one longer is the prefix and the next element. */
  lemma PrefixSnoc<T>(s: seq<T>, i: nat)
    requires i < |s|
    ensures s[..i + 1] == s[..i] + [s[i]]
  {
  }

  /** The prefix of the whole length is the whole sequence. */
  lemma PrefixAll<T>(s: seq<T>)
    ensures s[..|s|] == s
  {
  }

  lemma AppendAssoc<T>(a: seq<T>, b: seq<T>, c: seq<T>)
    ensures a + (b + c) == (a + b) + c
  {
  }

  /** Wrapping both sides in the same lead and a tail keeps a prefix a
      prefix, and the result ends with the tail. */
  lemma PrefixWithin<T>(lead: seq<T>, a: seq<T>, b: seq<T>, tail: seq<T>)
    requires a <= b
    ensures lead + a <= lead + b + tail
    ensures lead <= lead + b + tail
    ensures (lead + b + tail)[|lead + b|..] == tail
  {
  }

  /** `s[::-1]`. */
  function Reverse<T>(s: seq<T>): (r: seq<T>)
    ensures |r| == |s|
    ensures forall i :: 0 <= i < |s| ==> r[i] == s[|s| - 1 - i]
  {
    seq(|s|, i requires 0 <= i < |s| => s[|s| - 1 - i])
  }

  lemma ReverseReverse<T>(s: seq<T>)
    ensures Reverse(Reverse(s)) == s
  {
  }

  // ---------------------------------------------------------------------
  // split(sep) and join
  // ---------------------------------------------------------------------

  /** Python's `s.split(sep)` for a one-character separator: never empty,
      and `"".split(",") == [""]`. */
  function Split(s: string, sep: char): (r: seq<string>)
    ensures |r| >= 1
    decreases |s|
  {
    if |s| == 0 then [""]
    else
      var rest := Split(s[1..], sep);
      if s[0] == sep then [""] + rest
      else [[s[0]] + rest[0]] + rest[1..]
  }

  /** Python's `sep.join(parts)`. */
  function Join(sep: string, parts: seq<string>): string
    decreases |parts|
  {
    if |parts| == 0 then ""
    else if |parts| == 1 then parts[0]
    else parts[0] + sep + Join(sep, parts[1..])
  }

  /** A string splits into more than one piece exactly when it holds the
      separator. */
  lemma {:induction false} SplitCountIff(s: string, sep: char)
    ensures |Split(s, sep)| > 1 <==> sep in s
    decreases |s|
  {
    if |s| > 0 {
      SplitCountIff(s[1..], sep);
      assert s == [s[0]] + s[1..];
    }
  }

  /** No piece of a split holds the separator. */
  lemma {:induction false} SplitPiecesFree(s: string, sep: char)
    ensures forall p :: p in Split(s, sep) ==> sep !in p
    decreases |s|
  {
    if |s| > 0 {
      SplitPiecesFree(s[1..], sep);
    }
  }

  /** Joining the pieces of a split with the separator gives the string back. */
  lemma {:induction false} JoinSplit(s: string, sep: char)
    ensures Join([sep], Split(s, sep)) == s
    decreases |s|
  {
    if |s| > 0 {
      var rest := Split(s[1..], sep);
      JoinSplit(s[1..], sep);
      if s[0] == sep {
        if |rest| == 1 {
          assert Join([sep], [""] + rest) == "" + [sep] + rest[0];
        } else {
          assert ([""] + rest)[1..] == rest;
        }
      } else {
        var parts := [[s[0]] + rest[0]] + rest[1..];
        if |rest| > 1 {
          assert parts[1..] == rest[1..];
          assert Join([sep], rest) == rest[0] + [sep] + Join([sep], rest[1..]);
        }
      }
    }
  }

  /** Splitting a join of separator-free pieces recovers the pieces. */
  lemma {:induction false} SplitJoin(parts: seq<string>, sep: char)
    requires |parts| >= 1
    requires forall p :: p in parts ==> sep !in p
    ensures Split(Join([sep], parts), sep) == parts
    decreases |parts|
  {
    if |parts| == 1 {
      SplitFree(parts[0], sep);
    } else {
      SplitJoin(parts[1..], sep);
      SplitAcross(parts[0], sep, Join([sep], parts[1..]));
      assert [parts[0]] + parts[1..] == parts;
    }
  }

  lemma {:induction false} SplitFree(s: string, sep: char)
    requires sep !in s
    ensures Split(s, sep) == [s]
    decreases |s|
  {
    if |s| > 0 {
      SplitFree(s[1..], sep);
      assert [s[0]] + s[1..] == s;
    }
  }

  lemma {:induction false} SplitAcross(a: string, sep: char, t: string)
    requires sep !in a
    ensures Split(a + [sep] + t, sep) == [a] + Split(t, sep)
    decreases |a|
  {
    if |a| == 0 {
      assert a + [sep] + t == [sep] + t;
      assert ([sep] + t)[1..] == t;
    } else {
      SplitAcross(a[1..], sep, t);
      assert (a + [sep] + t)[1..] == a[1..] + [sep] + t;
      assert [a[0]] + a[1..] == a;
    }
  }

  // ---------------------------------------------------------------------
  // split() with no argument: runs of whitespace separate words
  // ---------------------------------------------------------------------

  /** Python's `s.split()`: the maximal runs of non-whitespace characters. */
  function Words(s: string): (r: seq<string>)
    ensures |s| > 0 && !IsSpace(s[0]) ==> |r| > 0 && |r[0]| > 0 && r[0][0] == s[0]
    ensures forall k :: 0 <= k < |r| ==> r[k] != []
    decreases |s|
  {
    if |s| == 0 then []
    else
      var rest := Words(s[1..]);
      if IsSpace(s[0]) then rest
      else if |s| > 1 && !IsSpace(s[1]) then [[s[0]] + rest[0]] + rest[1..]
      else [[s[0]]] + rest
  }

  // ---------------------------------------------------------------------
  // splitlines
  // ---------------------------------------------------------------------

  /** One line found by `splitlines`: its text and the line ending that
      closed it (empty for a last line without one). */
  datatype LinePiece = LinePiece(content: string, ending: string)

  predicate NoLineBreak(s: string) {
    forall i :: 0 <= i < |s| ==> !IsLineBreak(s[i])
  }

  /** The lines of `s` as Python's `splitlines` finds them; `"\r\n"` ends one
      line. */
  function Lines(s: string): (r: seq<LinePiece>)
    ensures s == [] <==> r == []
    decreases |s|
  {
    if |s| == 0 then []
    else if IsLineBreak(s[0]) then
      if s[0] == '\r' && |s| > 1 && s[1] == '\n' then [LinePiece("", "\r\n")] + Lines(s[2..])
      else [LinePiece("", [s[0]])] + Lines(s[1..])
    else
      var rest := Lines(s[1..]);
      if rest == [] then [LinePiece([s[0]], "")]
      else [LinePiece([s[0]] + rest[0].content, rest[0].ending)] + rest[1..]
  }

  /** No line holds a line break, each ending is one line break or
      `"\r\n"`, and only the last line may lack an ending. */
  lemma {:induction false} LinesShape(s: string)
    ensures forall k :: 0 <= k < |Lines(s)| ==> NoLineBreak(Lines(s)[k].content)
    ensures forall k :: 0 <= k < |Lines(s)| ==> EndsLine(Lines(s)[k].ending)
    ensures forall k :: 0 <= k < |Lines(s)| - 1 ==> Lines(s)[k].ending != ""
    decreases |s|
  {
    if |s| > 0 {
      if IsLineBreak(s[0]) {
        var crlf := s[0] == '\r' && |s| > 1 && s[1] == '\n';
        var t := if crlf then s[2..] else s[1..];
        var e := if crlf then "\r\n" else [s[0]];
        LinesShape(t);
        assert Lines(s) == [LinePiece("", e)] + Lines(t);
        assert EndsLine(e);
      } else {
        LinesShape(s[1..]);
        var rest := Lines(s[1..]);
        if rest == [] {
          assert Lines(s) == [LinePiece([s[0]], "")];
        } else {
          var first := LinePiece([s[0]] + rest[0].content, rest[0].ending);
          assert Lines(s) == [first] + rest[1..];
          assert NoLineBreak(first.content);
        }
      }
    }
  }

  /** What may close a line: nothing (the last line), `"\r\n"`, or one
      line-break character. */
  predicate EndsLine(e: string) {
    e == "" || e == "\r\n" || (|e| == 1 && IsLineBreak(e[0]))
  }

  function Contents(ps: seq<LinePiece>): (r: seq<string>)
    ensures |r| == |ps|
    ensures forall k :: 0 <= k < |ps| ==> r[k] == ps[k].content
  {
    seq(|ps|, k requires 0 <= k < |ps| => ps[k].content)
  }

  function WithEndings(ps: seq<LinePiece>): (r: seq<string>)
    ensures |r| == |ps|
    ensures forall k :: 0 <= k < |ps| ==> r[k] == ps[k].content + ps[k].ending
  {
    seq(|ps|, k requires 0 <= k < |ps| => ps[k].content + ps[k].ending)
  }

  /** `s.splitlines()`. */
  function SplitLines(s: string): seq<string> {
    Contents(Lines(s))
  }

  /** `s.splitlines(keepends=True)`. */
  function SplitLinesKeepEnds(s: string): seq<string> {
    WithEndings(Lines(s))
  }

  function Concat(parts: seq<string>): string
    decreases |parts|
  {
    if |parts| == 0 then "" else parts[0] + Concat(parts[1..])
  }

  lemma {:induction false} ConcatAppend(a: seq<string>, b: seq<string>)
    ensures Concat(a + b) == Concat(a) + Concat(b)
    decreases |a|
  {
    if |a| > 0 {
      ConcatAppend(a[1..], b);
      assert (a + b)[1..] == a[1..] + b;
      assert Concat(a + b) == a[0] + Concat(a[1..] + b);
      assert Concat(a) == a[0] + Concat(a[1..]);
      assert a[0] + (Concat(a[1..]) + Concat(b)) == (a[0] + Concat(a[1..])) + Concat(b);
    } else {
      assert a + b == b;
    }
  }

  /** The lines with their endings, laid end to end. */
  function Flatten(ps: seq<LinePiece>): string
    decreases |ps|
  {
    if |ps| == 0 then "" else ps[0].content + ps[0].ending + Flatten(ps[1..])
  }

  lemma {:induction false} FlattenLines(s: string)
    ensures Flatten(Lines(s)) == s
    decreases |s|, 1
  {
    if |s| > 0 {
      if IsLineBreak(s[0]) {
        FlattenLinesBreak(s);
      } else {
        FlattenLinesText(s);
      }
    }
  }

  /** A line break at the head becomes an empty line with that ending. */
  lemma {:induction false} FlattenLinesBreak(s: string)
    requires |s| > 0 && IsLineBreak(s[0])
    ensures Flatten(Lines(s)) == s
    decreases |s|, 0
  {
    var crlf := s[0] == '\r' && |s| > 1 && s[1] == '\n';
    var t := if crlf then s[2..] else s[1..];
    var e := if crlf then "\r\n" else [s[0]];
    FlattenLines(t);
    assert Lines(s) == [LinePiece("", e)] + Lines(t);
    assert s == e + t;
  }

  /** Any other head character joins the first line of the rest. */
  lemma {:induction false} FlattenLinesText(s: string)
    requires |s| > 0 && !IsLineBreak(s[0])
    ensures Flatten(Lines(s)) == s
    decreases |s|, 0
  {
    var rest := Lines(s[1..]);
    FlattenLines(s[1..]);
    if rest == [] {
      assert s == [s[0]];
    } else {
      var ps := [LinePiece([s[0]] + rest[0].content, rest[0].ending)] + rest[1..];
      assert Lines(s) == ps;
      assert ps[1..] == rest[1..];
      assert s == [s[0]] + s[1..];
    }
  }

  lemma {:induction false} ConcatWithEndings(ps: seq<LinePiece>)
    ensures Concat(WithEndings(ps)) == Flatten(ps)
    decreases |ps|
  {
    if |ps| > 0 {
      ConcatWithEndings(ps[1..]);
      assert WithEndings(ps)[1..] == WithEndings(ps[1..]);
    }
  }

  /** The kept-ends lines of a text concatenate back to the text. */
  lemma KeepEndsConcat(s: string)
    ensures Concat(SplitLinesKeepEnds(s)) == s
  {
    ConcatWithEndings(Lines(s));
    FlattenLines(s);
  }

  /** A piece of text free of line breaks is a single line. */
  lemma {:induction false} LinesOfOne(a: string)
    requires a != [] && NoLineBreak(a)
    ensures Lines(a) == [LinePiece(a, "")]
    decreases |a|
  {
    assert !IsLineBreak(a[0]);
    if |a| > 1 {
      LinesOfOne(a[1..]);
      var rest := Lines(a[1..]);
      assert rest[1..] == [];
      assert [a[0]] + a[1..] == a;
    } else {
      assert a[1..] == [];
      assert [a[0]] == a;
    }
  }

  /** A line break-free prefix followed by `"\n"` is the first line. */
  lemma {:induction false} LinesAcross(a: string, t: string)
    requires NoLineBreak(a)
    ensures Lines(a + "\n" + t) == [LinePiece(a, "\n")] + Lines(t)
    decreases |a|
  {
    if |a| == 0 {
      assert a + "\n" + t == "\n" + t;
      assert ("\n" + t)[1..] == t;
    } else {
      LinesAcross(a[1..], t);
      assert (a + "\n" + t)[1..] == a[1..] + "\n" + t;
      assert [a[0]] + a[1..] == a;
    }
  }

  /** `splitlines` undoes a `"\n"`-join of line break-free lines whose last
      line is not empty. */
  lemma {:induction false} SplitLinesJoin(ls: seq<string>)
    requires forall k :: 0 <= k < |ls| ==> NoLineBreak(ls[k])
    requires ls != [] ==> ls[|ls| - 1] != ""
    ensures SplitLines(Join("\n", ls)) == ls
    decreases |ls|
  {
    if |ls| == 1 {
      LinesOfOne(ls[0]);
    } else if |ls| > 1 {
      SplitLinesJoin(ls[1..]);
      LinesAcross(ls[0], Join("\n", ls[1..]));
      assert Lines(Join("\n", ls)) == [LinePiece(ls[0], "\n")] + Lines(Join("\n", ls[1..]));
      assert ls == [ls[0]] + ls[1..];
    }
  }

  // ---------------------------------------------------------------------
  // str(int) and pathlib suffix
  // ---------------------------------------------------------------------

  function DigitChar(d: nat): char
    requires d < 10
  {
    "0123456789"[d]
  }

  /** `str(n)` for a natural number. */
  function NatToString(n: nat): (r: string)
    ensures |r| >= 1
    ensures forall i :: 0 <= i < |r| ==> '0' <= r[i] <= '9'
    decreases n
  {
    if n < 10 then [DigitChar(n)] else NatToString(n / 10) + [DigitChar(n % 10)]
  }

  /** Index of the last occurrence of `c` in `s`, or -1. */
  function LastIndexOf(s: string, c: char): (i: int)
    ensures -1 <= i < |s|
    ensures i >= 0 ==> s[i] == c
    ensures forall j :: i < j < |s| ==> s[j] != c
    decreases |s|
  {
    if |s| == 0 then -1
    else if s[|s| - 1] == c then |s| - 1
    else LastIndexOf(s[..|s| - 1], c)
  }

  /** The final component of a `/`-separated path. */
  function BaseName(path: string): string {
    path[LastIndexOf(path, '/') + 1..]
  }

  /** `pathlib.PurePath(path).suffix`: from the last dot of the final
      component, provided that dot is neither its first nor its last
      character; otherwise empty. */
  function Suffix(path: string): (r: string)
    ensures r != [] ==> r[0] == '.' && EndsWith(path, r)
  {
    var name := BaseName(path);
    var i := LastIndexOf(name, '.');
    if 0 < i < |name| - 1 then name[i..] else ""
  }

  /** A path has the suffix `.pdf`, in any letter case, exactly when it
      ends in `.pdf` (in any case) and its final component is longer than
      that: a bare `.pdf` has no suffix at all. */
  lemma PdfSuffix(path: string)
    ensures Lower(Suffix(path)) == ".pdf" <==> EndsWith(Lower(path), ".pdf") && |BaseName(path)| >= 5
  {
    if EndsWith(Lower(path), ".pdf") && |BaseName(path)| >= 5 {
      PdfSuffixIf(path);
    }
    if Lower(Suffix(path)) == ".pdf" {
      PdfSuffixOnlyIf(path);
    }
  }

  lemma PdfSuffixIf(path: string)
    requires EndsWith(Lower(path), ".pdf") && |BaseName(path)| >= 5
    ensures Lower(Suffix(path)) == ".pdf"
  {
    var name := BaseName(path);
    var n := |name|;
    var tail := name[n - 4..];
    BaseNameTail(path, 4);
    LowerTail(path, 4);
    DotPdfShape(tail);
    LastIndexAt(name, '.', n - 4);
  }

  /** The last `k` characters of a final component are the last `k` of the path. */
  lemma BaseNameTail(path: string, k: nat)
    requires k <= |BaseName(path)|
    ensures BaseName(path)[|BaseName(path)| - k..] == path[|path| - k..]
  {
  }

  lemma LowerTail(s: string, k: nat)
    requires k <= |s|
    ensures Lower(s)[|s| - k..] == Lower(s[|s| - k..])
  {
  }

  /** Four characters that lower to `.pdf` start with the only dot among them. */
  lemma DotPdfShape(tail: string)
    requires Lower(tail) == ".pdf"
    ensures |tail| == 4 && tail[0] == '.'
    ensures forall j :: 0 < j < 4 ==> tail[j] != '.'
  {
    assert LowerChar(tail[0]) == '.' && LowerChar(tail[1]) == 'p';
    assert LowerChar(tail[2]) == 'd' && LowerChar(tail[3]) == 'f';
  }

  lemma LastIndexAt(s: string, c: char, i: nat)
    requires i < |s| && s[i] == c
    requires forall j :: i < j < |s| ==> s[j] != c
    ensures LastIndexOf(s, c) == i
  {
  }

  lemma PdfSuffixOnlyIf(path: string)
    requires Lower(Suffix(path)) == ".pdf"
    ensures EndsWith(Lower(path), ".pdf") && |BaseName(path)| >= 5
  {
    var s := Suffix(path);
    assert |s| == 4 && EndsWith(path, s);
    LowerTail(path, 4);
  }
}
