/** Paragraph-like blocks: splitting a text at blank lines and joining it again (resolve.rs). */
module Blocks {

  /** Characters with the Unicode White_Space property. */
  predicate IsSpace(c: char) {
    || '\t' <= c <= '\r' || c == ' '
    || c as int in {0x85, 0xA0, 0x1680, 0x2028, 0x2029, 0x202F, 0x205F, 0x3000}
    || 0x2000 <= c as int <= 0x200A
  }

  predicate Blank(segment: string) {
    forall i | 0 <= i < |segment| :: IsSpace(segment[i])
  }

  /** The end of the first line, its newline included. */
  function LineEnd(text: string): (n: nat)
    ensures n <= |text| && (text != "" ==> n > 0)
    ensures forall i :: 0 <= i < n - 1 ==> text[i] != '\n'
    ensures n < |text| ==> text[n - 1] == '\n'
  {
    if text == "" then 0 else if text[0] == '\n' then 1 else 1 + LineEnd(text[1..])
  }

  /** The lines of a text, each with its newline; the last may lack it. */
  function Segments(text: string): seq<string> {
    if text == "" then [] else [text[..LineEnd(text)]] + Segments(text[LineEnd(text)..])
  }

  function Concat(parts: seq<string>): string {
    if parts == [] then "" else Concat(parts[..|parts| - 1]) + parts[|parts| - 1]
  }

  predicate EndsLine(text: string) {
    text != "" && text[|text| - 1] == '\n'
  }

  /** Blocks of a list of segments, and the segments collected since the last blank one. */
  function Gather(segments: seq<string>): (r: (seq<string>, string)) {
    if segments == [] then ([], "")
    else
      var (out, current) := Gather(segments[..|segments| - 1]);
      var last := segments[|segments| - 1];
      if Blank(last) then (out + [current + last], "") else (out, current + last)
  }

  function Split(text: string): seq<string> {
    var (out, current) := Gather(Segments(text));
    if current == "" then out else out + [current]
  }

  method SplitBlocks(text: string) returns (out: seq<string>)
    ensures out == Split(text)
  {
    var segments := Segments(text);
    var current := "";
    out := [];
    for i := 0 to |segments|
      invariant (out, current) == Gather(segments[..i])
    {
      assert segments[..i + 1][..i] == segments[..i];
      current := current + segments[i];
      if Blank(segments[i]) {
        out := out + [current];
        current := "";
      }
    }
    assert segments[..|segments|] == segments;
    if current != "" { out := out + [current]; }
  }

  // ----- lines

  lemma {:induction false} ConcatAppend(a: seq<string>, b: seq<string>)
    ensures Concat(a + b) == Concat(a) + Concat(b)
  {
    if b == [] {
      assert a + b == a;
    } else {
      assert (a + b)[..|a + b| - 1] == a + b[..|b| - 1];
      ConcatAppend(a, b[..|b| - 1]);
    }
  }

  lemma {:induction false} ConcatOne(s: string)
    ensures Concat([s]) == s
  {
    assert [s][..0] == [];
  }

  lemma {:induction false} ConcatSegments(text: string)
    ensures Concat(Segments(text)) == text
    decreases |text|
  {
    if text != "" {
      var n := LineEnd(text);
      ConcatSegments(text[n..]);
      ConcatAppend([text[..n]], Segments(text[n..]));
      ConcatOne(text[..n]);
      assert text[..n] + text[n..] == text;
    }
  }

  /** Each segment is one line; each but the last is complete. */
  predicate IsLine(segment: string) {
    segment != "" && forall i | 0 <= i < |segment| - 1 :: segment[i] != '\n'
  }

  ghost predicate AreLines(segments: seq<string>) {
    && (forall i :: 0 <= i < |segments| ==> IsLine(segments[i]))
    && (forall i :: 0 <= i < |segments| - 1 ==> EndsLine(segments[i]))
  }

  lemma {:induction false} SegmentsAreLines(text: string)
    ensures AreLines(Segments(text))
    decreases |text|
  {
    if text != "" { SegmentsAreLines(text[LineEnd(text)..]); }
  }

  lemma {:induction false} FirstLine(line: string, rest: string)
    requires IsLine(line) && (rest == "" || EndsLine(line))
    ensures LineEnd(line + rest) == |line|
  {
    if |line| > 1 {
      assert (line + rest)[1..] == line[1..] + rest;
      FirstLine(line[1..], rest);
    } else {
      assert (line + rest)[0] == line[0];
      if rest == "" { assert line + rest == line && line[1..] == ""; }
    }
  }

  /** A list of lines is recovered from its concatenation. */
  lemma {:induction false} SegmentsOfConcat(segments: seq<string>)
    requires AreLines(segments)
    ensures Segments(Concat(segments)) == segments
    decreases |segments|
  {
    if segments != [] {
      var line, others := segments[0], segments[1..];
      SegmentsOfConcat(others);
      assert segments == [line] + others;
      ConcatAppend([line], others);
      ConcatOne(line);
      var rest := Concat(others);
      FirstLine(line, rest);
      assert (line + rest)[..|line|] == line && (line + rest)[|line|..] == rest;
    }
  }

  // ----- blocks

  /** Exactly one blank line, at the end, and complete. */
  ghost predicate ClosedBlock(segments: seq<string>) {
    && segments != [] && AreLines(segments)
    && (forall i :: 0 <= i < |segments| - 1 ==> !Blank(segments[i]))
    && Blank(segments[|segments| - 1]) && EndsLine(segments[|segments| - 1])
  }

  /** Non-empty, with no blank line before its last line. */
  ghost predicate FinalBlock(segments: seq<string>) {
    && segments != [] && AreLines(segments)
    && (forall i :: 0 <= i < |segments| - 1 ==> !Blank(segments[i]))
  }

  /** What a split text looks like. */
  ghost predicate IsSplit(blocks: seq<string>) {
    && (forall i :: 0 <= i < |blocks| - 1 ==> ClosedBlock(Segments(blocks[i])))
    && (blocks != [] ==> FinalBlock(Segments(blocks[|blocks| - 1])))
  }

  lemma {:induction false} GatherConserves(segments: seq<string>)
    ensures Concat(Gather(segments).0) + Gather(segments).1 == Concat(segments)
  {
    if segments != [] {
      var front, last := segments[..|segments| - 1], segments[|segments| - 1];
      GatherConserves(front);
      if Blank(last) {
        var (out, current) := Gather(front);
        ConcatAppend(out, [current + last]);
        ConcatOne(current + last);
      }
    }
  }

  /** Joining the blocks of a text gives the text. */
  lemma {:induction false} ConcatSplit(text: string)
    ensures Concat(Split(text)) == text
  {
    ConcatSegments(text);
    GatherConserves(Segments(text));
    var (out, current) := Gather(Segments(text));
    ConcatAppend(out, [current]);
    ConcatOne(current);
  }

  /** The lines since the last blank one. */
  ghost function OpenLines(segments: seq<string>): (r: seq<string>)
    ensures forall i :: 0 <= i < |r| ==> !Blank(r[i]) && r[i] in segments
  {
    if segments == [] || Blank(segments[|segments| - 1]) then []
    else OpenLines(segments[..|segments| - 1]) + [segments[|segments| - 1]]
  }

  ghost predicate Complete(segments: seq<string>) {
    forall s :: s in segments ==> IsLine(s) && EndsLine(s)
  }

  /** After complete lines every block so far is closed, and the buffer holds the open lines. */
  lemma {:induction false} GatherShape(segments: seq<string>)
    requires Complete(segments)
    ensures forall i :: 0 <= i < |Gather(segments).0| ==> ClosedBlock(Segments(Gather(segments).0[i]))
    ensures Gather(segments).1 == Concat(OpenLines(segments))
  {
    if segments != [] {
      var front, last := segments[..|segments| - 1], segments[|segments| - 1];
      GatherShape(front);
      OneMoreLine(front, last);
    }
  }

  lemma {:induction false} OneMoreLine(front: seq<string>, last: string)
    requires Complete(front) && IsLine(last) && Gather(front).1 == Concat(OpenLines(front))
    ensures Segments(Gather(front).1 + last) == OpenLines(front) + [last]
    ensures AreLines(OpenLines(front) + [last])
    ensures Concat(OpenLines(front) + [last]) == Gather(front).1 + last
  {
    var open := OpenLines(front);
    ConcatAppend(open, [last]);
    ConcatOne(last);
    SegmentsOfConcat(open + [last]);
  }

  lemma {:induction false} SplitIsSplit(text: string)
    ensures IsSplit(Split(text))
  {
    var segments := Segments(text);
    SegmentsAreLines(text);
    if segments != [] {
      var front, last := segments[..|segments| - 1], segments[|segments| - 1];
      assert segments == front + [last];
      GatherShape(front);
      OneMoreLine(front, last);
      var block := Gather(front).1 + last;
      assert FinalBlock(Segments(block));
      assert Split(text) == Gather(front).0 + [block];
    }
  }

  // ----- joining, then splitting

  function AllSegments(blocks: seq<string>): seq<string> {
    if blocks == [] then [] else AllSegments(blocks[..|blocks| - 1]) + Segments(blocks[|blocks| - 1])
  }

  lemma {:induction false} AllSegmentsConcat(blocks: seq<string>)
    ensures Concat(AllSegments(blocks)) == Concat(blocks)
  {
    if blocks != [] {
      AllSegmentsConcat(blocks[..|blocks| - 1]);
      ConcatAppend(AllSegments(blocks[..|blocks| - 1]), Segments(blocks[|blocks| - 1]));
      ConcatSegments(blocks[|blocks| - 1]);
    }
  }

  lemma {:induction false} GatherStep(before: seq<string>, last: string)
    ensures var (out, current) := Gather(before);
            Gather(before + [last]) == if Blank(last) then (out + [current + last], "") else (out, current + last)
  {
    assert (before + [last])[..|before|] == before;
  }

  lemma {:induction false} GatherOpen(before: seq<string>, open: seq<string>)
    requires forall i :: 0 <= i < |open| ==> !Blank(open[i])
    ensures Gather(before + open) == (Gather(before).0, Gather(before).1 + Concat(open))
  {
    if open == [] {
      assert before + open == before;
      assert Gather(before).1 + Concat(open) == Gather(before).1;
    } else {
      var front, last := open[..|open| - 1], open[|open| - 1];
      GatherOpen(before, front);
      assert before + open == (before + front) + [last];
      GatherStep(before + front, last);
      Associative(Gather(before).1, Concat(front), last);
    }
  }

  lemma {:induction false} Associative(a: string, b: string, c: string)
    ensures (a + b) + c == a + (b + c)
  {
  }

  lemma {:induction false} GatherClosed(blocks: seq<string>)
    requires forall i :: 0 <= i < |blocks| ==> ClosedBlock(Segments(blocks[i]))
    ensures Complete(AllSegments(blocks))
    ensures Gather(AllSegments(blocks)) == (blocks, "")
  {
    if blocks != [] {
      var front, last := blocks[..|blocks| - 1], blocks[|blocks| - 1];
      GatherClosed(front);
      GatherBlock(AllSegments(front), Segments(last));
      ConcatSegments(last);
      assert front + [last] == blocks;
    }
  }

  /** Gathering one more block, whether or not it ends in a blank line. */
  lemma {:induction false} GatherBlock(before: seq<string>, segments: seq<string>)
    requires Gather(before).1 == "" && FinalBlock(segments)
    ensures Gather(before + segments)
         == if Blank(segments[|segments| - 1]) then (Gather(before).0 + [Concat(segments)], "")
            else (Gather(before).0, Concat(segments))
  {
    var open, last := segments[..|segments| - 1], segments[|segments| - 1];
    GatherOpen(before, open);
    assert before + segments == (before + open) + [last];
    GatherStep(before + open, last);
    assert "" + Concat(open) == Concat(open);
  }

  /** Splitting a joined list of blocks gives the list back exactly when it is what some text splits into. */
  lemma {:induction false} SplitConcat(blocks: seq<string>)
    ensures Split(Concat(blocks)) == blocks <==> IsSplit(blocks)
  {
    SplitIsSplit(Concat(blocks));
    if IsSplit(blocks) && blocks != [] { SplitJoined(blocks); }
  }

  lemma {:induction false} SplitJoined(blocks: seq<string>)
    requires IsSplit(blocks) && blocks != []
    ensures Split(Concat(blocks)) == blocks
  {
    var front, last := blocks[..|blocks| - 1], blocks[|blocks| - 1];
    SegmentsOfJoined(blocks);
    GatherJoined(blocks);
    assert last != "";
    assert front + [last] == blocks;
  }

  lemma {:induction false} GatherJoined(blocks: seq<string>)
    requires IsSplit(blocks) && blocks != []
    ensures var front, last := blocks[..|blocks| - 1], blocks[|blocks| - 1];
            Gather(AllSegments(blocks)) == (front, last) || Gather(AllSegments(blocks)) == (front + [last], "")
  {
    var front, last := blocks[..|blocks| - 1], blocks[|blocks| - 1];
    GatherClosed(front);
    GatherBlock(AllSegments(front), Segments(last));
    ConcatSegments(last);
  }

  lemma {:induction false} SegmentsOfJoined(blocks: seq<string>)
    requires IsSplit(blocks) && blocks != []
    ensures Segments(Concat(blocks)) == AllSegments(blocks)
  {
    var front, last := blocks[..|blocks| - 1], blocks[|blocks| - 1];
    GatherClosed(front);
    assert forall i :: 0 <= i < |AllSegments(front)| ==> AllSegments(front)[i] in AllSegments(front);
    AllSegmentsConcat(blocks);
    SegmentsOfConcat(AllSegments(blocks));
  }
}
