/** The split-text heading: one line per `\n`-separated segment, a line break after every line but the
    last, and, when animating, one span per character with spaces made non-breaking. */
module SplitText {
  import Text

  /** `text.split("\n")`: the lines, which joined with `\n` give the text back. */
  function Segments(text: string): (r: seq<string>)
    ensures |r| == Text.Occurrences(text, '\n') + 1
    ensures Text.Join(r, '\n') == text
    ensures forall i :: 0 <= i < |r| ==> '\n' !in r[i]
  {
    Text.Split(text, '\n')
  }

  /** What the reduced-motion rendering emits: the lines as text, with `<br />` between them. */
  datatype Piece = Line(text: string) | Break

  function BreakAfter(lineIndex: nat, count: nat): bool
  {
    lineIndex < count - 1
  }

  /** The reduced-motion rendering of the lines from `from` on, out of `lines`. */
  function ReducedFrom(lines: seq<string>, from: nat): (r: seq<Piece>)
    requires from <= |lines|
    decreases |lines| - from
  {
    if from == |lines| then []
    else [Line(lines[from])] + (if BreakAfter(from, |lines|) then [Break] else []) + ReducedFrom(lines, from + 1)
  }

  function Reduced(text: string): seq<Piece>
  {
    ReducedFrom(Segments(text), 0)
  }

  function Breaks(pieces: seq<Piece>): nat
  {
    if pieces == [] then 0 else (if pieces[0] == Break then 1 else 0) + Breaks(pieces[1..])
  }

  lemma {:induction false} BreaksAppend(a: seq<Piece>, b: seq<Piece>)
    ensures Breaks(a + b) == Breaks(a) + Breaks(b)
  {
    if a == [] {
      assert a + b == b;
    } else {
      assert (a + b)[1..] == a[1..] + b;
      BreaksAppend(a[1..], b);
    }
  }

  /** The text a reader sees: the lines, with each break read as a newline. */
  function Shown(pieces: seq<Piece>): string
  {
    if pieces == [] then []
    else (match pieces[0] case Line(t) => t case Break => "\n") + Shown(pieces[1..])
  }

  lemma {:induction false} ReducedFacts(lines: seq<string>, from: nat)
    requires 1 <= |lines| && from < |lines|
    ensures Breaks(ReducedFrom(lines, from)) == |lines| - 1 - from
    ensures Shown(ReducedFrom(lines, from)) == Text.Join(lines[from..], '\n')
    decreases |lines| - from
  {
    var head := [Line(lines[from])] + (if BreakAfter(from, |lines|) then [Break] else []);
    var rest := ReducedFrom(lines, from + 1);
    BreaksAppend(head, rest);
    ShownAppend(head, rest);
    if from + 1 < |lines| {
      ReducedFacts(lines, from + 1);
      assert lines[from..][1..] == lines[from + 1..];
    } else {
      assert lines[from..] == [lines[from]];
    }
  }

  lemma {:induction false} ShownAppend(a: seq<Piece>, b: seq<Piece>)
    ensures Shown(a + b) == Shown(a) + Shown(b)
  {
    if a == [] {
      assert a + b == b;
    } else {
      assert (a + b)[1..] == a[1..] + b;
      ShownAppend(a[1..], b);
    }
  }

  /** Under reduced motion there is one break fewer than there are lines, and reading the lines with
      each break as a newline gives back exactly the text. */
  lemma ReducedRoundTrip(text: string)
    ensures Breaks(Reduced(text)) == |Segments(text)| - 1
    ensures Shown(Reduced(text)) == text
  {
    var lines := Segments(text);
    ReducedFacts(lines, 0);
    assert lines[0..] == lines;
  }

  const NoBreakSpace: char := 0xA0 as char

  /** The character a span shows: a space becomes U+00A0, anything else is itself. */
  function Visible(c: char): (r: char)
    ensures c == ' ' ==> r == NoBreakSpace
    ensures c != ' ' ==> r == c
  {
    if c == ' ' then NoBreakSpace else c
  }

  /** One animated line: its character spans and whether a break follows it. */
  datatype LineView = LineView(spans: seq<char>, breakAfter: bool)

  function Animated(text: string): (r: seq<LineView>)
    ensures var lines := Segments(text);
      |r| == |lines| &&
      forall i :: 0 <= i < |lines| ==>
        |r[i].spans| == |lines[i]| &&
        (forall k :: 0 <= k < |lines[i]| ==> r[i].spans[k] == Visible(lines[i][k])) &&
        (r[i].breakAfter <==> i < |lines| - 1)
  {
    var lines := Segments(text);
    seq(|lines|, i requires 0 <= i < |lines| =>
      LineView(seq(|lines[i]|, k requires 0 <= k < |lines[i]| => Visible(lines[i][k])), BreakAfter(i, |lines|)))
  }

  /** Both renderings place their breaks after the same lines: every line but the last. */
  lemma BreaksAgree(text: string)
    ensures |Animated(text)| == |Segments(text)|
    ensures forall i :: 0 <= i < |Animated(text)| ==> (Animated(text)[i].breakAfter <==> i < |Segments(text)| - 1)
    ensures Breaks(Reduced(text)) == |Segments(text)| - 1
  {
    ReducedRoundTrip(text);
  }

  /** Mapping the non-breaking spaces back to spaces recovers each line, for text without U+00A0. */
  lemma AnimatedRecoversLines(text: string, i: int)
    requires NoBreakSpace !in text && 0 <= i < |Segments(text)|
    ensures var line := Segments(text)[i];
      seq(|line|, k requires 0 <= k < |line| => if Animated(text)[i].spans[k] == NoBreakSpace then ' ' else Animated(text)[i].spans[k]) == line
  {
    var lines := Segments(text);
    JoinContains(lines, '\n', i);
  }

  /** Every character of a piece is a character of the joined text. */
  lemma {:induction false} JoinContains(parts: seq<string>, sep: char, i: int)
    requires 0 <= i < |parts|
    ensures forall c :: c in parts[i] ==> c in Text.Join(parts, sep)
  {
    if |parts| > 1 {
      if i > 0 {
        JoinContains(parts[1..], sep, i - 1);
      }
    }
  }
}
