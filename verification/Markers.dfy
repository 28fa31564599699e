/** The state machine that reads diff3 conflict markers (resolve.rs), and the printer it inverts. */
module Markers {
  import opened Prelude
  import Blocks
  import SharedPath

  /** Lines `start..end` of a file, counted from 1. */
  datatype Region = Region(start: nat, end: nat)

  datatype AtomEdit = AtomEdit(ws: WorkspaceId, region: Region, content: string)

  datatype Description = BothInserted(at: nat) | BothEdited(start: nat, end: nat)

  datatype Atom = Atom(region: Region, edits: seq<AtomEdit>, description: Description)

  // ----- lines of a text

  /** A segment without its line ending. */
  function Chomp(segment: string): string {
    if !Blocks.EndsLine(segment) then segment
    else
      var front := segment[..|segment| - 1];
      if front != "" && front[|front| - 1] == '\r' then front[..|front| - 1] else front
  }

  function Lines(text: string): seq<string> {
    Map(Chomp, Blocks.Segments(text))
  }

  function Unlines(lines: seq<string>): string {
    Blocks.Concat(Map(AddNewline, lines))
  }

  function AddNewline(line: string): string { line + "\n" }

  ghost predicate PlainLine(line: string) {
    && (forall i :: 0 <= i < |line| ==> line[i] != '\n')
    && (line != "" ==> line[|line| - 1] != '\r')
  }

  lemma {:induction false} LinesOfUnlines(lines: seq<string>)
    requires forall l :: l in lines ==> PlainLine(l)
    ensures Lines(Unlines(lines)) == lines
  {
    var segments := Map(AddNewline, lines);
    assert forall i :: 0 <= i < |lines| ==> PlainLine(lines[i]);
    Blocks.SegmentsOfConcat(segments);
    forall i | 0 <= i < |lines| ensures Chomp(segments[i]) == lines[i] {
      assert segments[i][..|segments[i]| - 1] == lines[i];
    }
  }

  // ----- the parser

  predicate StartsWith(line: string, prefix: string) {
    prefix <= line
  }

  const OPEN := "<<<<<<<"
  const MIDDLE := "|||||||"
  const SPLIT := "======="
  const CLOSE := ">>>>>>>"

  datatype Mode = Context | Ours | Base | Theirs

  datatype Parser =
    Parser(mode: Mode, baseLine: nat, start: nat, ours: seq<string>, base: seq<string>, theirs: seq<string>, atoms: seq<Atom>)

  const INITIAL := Parser(Context, 1, 1, [], [], [], [])

  /** The atom of one conflict block. Sides are placed by their own length, from the block's first base line. */
  function BlockAtom(start: nat, ours: seq<string>, base: seq<string>, theirs: seq<string>, wsOurs: string, wsTheirs: string): Atom {
    Atom(Region(start, start + |base|),
         [AtomEdit(wsOurs, Region(start, start + |ours|), SharedPath.JoinWith(ours, "\n")),
          AtomEdit(wsTheirs, Region(start, start + |theirs|), SharedPath.JoinWith(theirs, "\n"))],
         if base == [] then BothInserted(start) else BothEdited(start, start + |base|))
  }

  function Step(p: Parser, line: string, wsOurs: string, wsTheirs: string): Parser {
    if StartsWith(line, OPEN) then
      p.(mode := Ours, start := p.baseLine, ours := [], base := [], theirs := [])
    else if StartsWith(line, MIDDLE) && p.mode == Ours then p.(mode := Base)
    else if line == SPLIT && p.mode == Base then p.(mode := Theirs)
    else if StartsWith(line, CLOSE) && p.mode == Theirs then
      p.(mode := Context, baseLine := p.baseLine + |p.base|,
         atoms := p.atoms + [BlockAtom(p.start, p.ours, p.base, p.theirs, wsOurs, wsTheirs)])
    else
      match p.mode
      case Context => p.(baseLine := p.baseLine + 1)
      case Ours => p.(ours := p.ours + [line])
      case Base => p.(base := p.base + [line])
      case Theirs => p.(theirs := p.theirs + [line])
  }

  function Run(p: Parser, lines: seq<string>, wsOurs: string, wsTheirs: string): Parser {
    if lines == [] then p
    else Step(Run(p, lines[..|lines| - 1], wsOurs, wsTheirs), lines[|lines| - 1], wsOurs, wsTheirs)
  }

  /** The atoms of a marker output: one pass over its lines, with the four accumulators refilled per block. */
  method ParseDiff3Atoms(text: string, wsOurs: string, wsTheirs: string) returns (atoms: seq<Atom>)
    ensures atoms == Run(INITIAL, Lines(text), wsOurs, wsTheirs).atoms
  {
    var lines := Lines(text);
    var mode := Context;
    var baseLine: nat, start: nat := 1, 1;
    var ours, base, theirs: seq<string> := [], [], [];
    atoms := [];
    for i := 0 to |lines|
      invariant Parser(mode, baseLine, start, ours, base, theirs, atoms) == Run(INITIAL, lines[..i], wsOurs, wsTheirs)
    {
      var line := lines[i];
      RunMarker(INITIAL, lines[..i], line, wsOurs, wsTheirs);
      assert lines[..i + 1] == lines[..i] + [line];
      if StartsWith(line, OPEN) {
        mode, start := Ours, baseLine;
        ours, base, theirs := [], [], [];
      } else if StartsWith(line, MIDDLE) && mode == Ours {
        mode := Base;
      } else if line == SPLIT && mode == Base {
        mode := Theirs;
      } else if StartsWith(line, CLOSE) && mode == Theirs {
        atoms := atoms + [BlockAtom(start, ours, base, theirs, wsOurs, wsTheirs)];
        baseLine := baseLine + |base|;
        mode := Context;
      } else {
        match mode {
          case Context => baseLine := baseLine + 1;
          case Ours => ours := ours + [line];
          case Base => base := base + [line];
          case Theirs => theirs := theirs + [line];
        }
      }
    }
    assert lines[..|lines|] == lines;
  }

  // ----- every input

  ghost predicate Ordered(atoms: seq<Atom>, limit: nat) {
    && (forall i :: 0 <= i < |atoms| ==> 1 <= atoms[i].region.start <= atoms[i].region.end <= limit)
    && (forall i, j :: 0 <= i < j < |atoms| ==> atoms[i].region.end <= atoms[j].region.start)
  }

  /** However malformed the input, the regions come in order, do not overlap, and end within the lines read. */
  lemma {:induction false} RegionsInOrder(lines: seq<string>, wsOurs: string, wsTheirs: string)
    ensures var p := Run(INITIAL, lines, wsOurs, wsTheirs);
            && 1 <= p.baseLine && Ordered(p.atoms, p.baseLine)
            && (!p.mode.Context? ==> p.start == p.baseLine)
            && p.baseLine + (if p.mode.Context? then 0 else 1 + |p.base|) <= |lines| + 1
  {
    if lines != [] { RegionsInOrder(lines[..|lines| - 1], wsOurs, wsTheirs); }
  }

  // ----- the printer

  datatype Piece = Line(line: string) | Hunk(ours: seq<string>, base: seq<string>, theirs: seq<string>)

  /** What follows each marker on its line. */
  datatype Labels = Labels(ours: string, base: string, theirs: string)

  function RenderPiece(piece: Piece, labels: Labels): seq<string> {
    match piece
    case Line(line) => [line]
    case Hunk(ours, base, theirs) =>
      [OPEN + labels.ours] + ours + [MIDDLE + labels.base] + base + [SPLIT] + theirs + [CLOSE + labels.theirs]
  }

  function Render(pieces: seq<Piece>, labels: Labels): seq<string> {
    if pieces == [] then [] else Render(pieces[..|pieces| - 1], labels) + RenderPiece(pieces[|pieces| - 1], labels)
  }

  /** The common ancestor that the pieces were printed from. */
  function BaseFile(pieces: seq<Piece>): seq<string> {
    if pieces == [] then []
    else
      var last := pieces[|pieces| - 1];
      BaseFile(pieces[..|pieces| - 1]) + if last.Line? then [last.line] else last.base
  }

  function AtomsOf(pieces: seq<Piece>, wsOurs: string, wsTheirs: string): seq<Atom> {
    if pieces == [] then []
    else
      var front, last := pieces[..|pieces| - 1], pieces[|pieces| - 1];
      var atoms := AtomsOf(front, wsOurs, wsTheirs);
      if last.Line? then atoms
      else atoms + [BlockAtom(1 + |BaseFile(front)|, last.ours, last.base, last.theirs, wsOurs, wsTheirs)]
  }

  /** No line would be taken for a marker in the section it stands in. */
  ghost predicate Unmistakable(piece: Piece) {
    match piece
    case Line(line) => !StartsWith(line, OPEN)
    case Hunk(ours, base, theirs) =>
      && (forall i :: 0 <= i < |ours| ==> !StartsWith(ours[i], OPEN) && !StartsWith(ours[i], MIDDLE))
      && (forall i :: 0 <= i < |base| ==> !StartsWith(base[i], OPEN) && base[i] != SPLIT)
      && (forall i :: 0 <= i < |theirs| ==> !StartsWith(theirs[i], OPEN) && !StartsWith(theirs[i], CLOSE))
  }

  lemma {:induction false} RunAppend(p: Parser, a: seq<string>, b: seq<string>, wsOurs: string, wsTheirs: string)
    ensures Run(p, a + b, wsOurs, wsTheirs) == Run(Run(p, a, wsOurs, wsTheirs), b, wsOurs, wsTheirs)
  {
    if b == [] {
      assert a + b == a;
    } else {
      RunAppend(p, a, b[..|b| - 1], wsOurs, wsTheirs);
      assert (a + b)[..|a + b| - 1] == a + b[..|b| - 1];
    }
  }

  lemma {:induction false} RunOne(p: Parser, line: string, wsOurs: string, wsTheirs: string)
    ensures Run(p, [line], wsOurs, wsTheirs) == Step(p, line, wsOurs, wsTheirs)
  {
    assert Run(p, [line][..0], wsOurs, wsTheirs) == p;
  }

  lemma {:induction false} RunOurs(p: Parser, lines: seq<string>, wsOurs: string, wsTheirs: string)
    requires p.mode.Ours? && forall i :: 0 <= i < |lines| ==> !StartsWith(lines[i], OPEN) && !StartsWith(lines[i], MIDDLE)
    ensures Run(p, lines, wsOurs, wsTheirs) == p.(ours := p.ours + lines)
  {
    if lines == [] {
      assert p.ours + lines == p.ours;
    } else {
      RunOurs(p, lines[..|lines| - 1], wsOurs, wsTheirs);
      assert p.ours + lines == (p.ours + lines[..|lines| - 1]) + [lines[|lines| - 1]];
    }
  }

  lemma {:induction false} RunBase(p: Parser, lines: seq<string>, wsOurs: string, wsTheirs: string)
    requires p.mode.Base? && forall i :: 0 <= i < |lines| ==> !StartsWith(lines[i], OPEN) && lines[i] != SPLIT
    ensures Run(p, lines, wsOurs, wsTheirs) == p.(base := p.base + lines)
  {
    if lines == [] {
      assert p.base + lines == p.base;
    } else {
      RunBase(p, lines[..|lines| - 1], wsOurs, wsTheirs);
      assert p.base + lines == (p.base + lines[..|lines| - 1]) + [lines[|lines| - 1]];
    }
  }

  lemma {:induction false} RunTheirs(p: Parser, lines: seq<string>, wsOurs: string, wsTheirs: string)
    requires p.mode.Theirs? && forall i :: 0 <= i < |lines| ==> !StartsWith(lines[i], OPEN) && !StartsWith(lines[i], CLOSE)
    ensures Run(p, lines, wsOurs, wsTheirs) == p.(theirs := p.theirs + lines)
  {
    if lines == [] {
      assert p.theirs + lines == p.theirs;
    } else {
      RunTheirs(p, lines[..|lines| - 1], wsOurs, wsTheirs);
      assert p.theirs + lines == (p.theirs + lines[..|lines| - 1]) + [lines[|lines| - 1]];
    }
  }

  lemma {:induction false} MarkersDiffer(rest: string)
    ensures StartsWith(OPEN + rest, OPEN)
    ensures StartsWith(MIDDLE + rest, MIDDLE) && !StartsWith(MIDDLE + rest, OPEN)
    ensures StartsWith(CLOSE + rest, CLOSE) && !StartsWith(CLOSE + rest, OPEN)
    ensures !StartsWith(SPLIT, OPEN) && !StartsWith(SPLIT, MIDDLE) && !StartsWith(CLOSE + rest, MIDDLE) && CLOSE + rest != SPLIT
  {
    assert (MIDDLE + rest)[0] == '|' && (CLOSE + rest)[0] == '>' && SPLIT[0] == '=' && OPEN[0] == '<';
  }

  /** Reading one hunk, from whatever state: a block that was open before it is dropped. */
  lemma {:induction false} RunHunk(p: Parser, hunk: Piece, labels: Labels, wsOurs: string, wsTheirs: string)
    requires hunk.Hunk? && Unmistakable(hunk)
    ensures var r := Run(p, RenderPiece(hunk, labels), wsOurs, wsTheirs);
            && r.mode.Context? && r.baseLine == p.baseLine + |hunk.base|
            && r.atoms == p.atoms + [BlockAtom(p.baseLine, hunk.ours, hunk.base, hunk.theirs, wsOurs, wsTheirs)]
  {
    MarkersDiffer(labels.ours);
    MarkersDiffer(labels.base);
    MarkersDiffer(labels.theirs);
    var a := [OPEN + labels.ours] + hunk.ours;
    var b := a + [MIDDLE + labels.base] + hunk.base;
    var c := b + [SPLIT] + hunk.theirs;
    var inside := p.(mode := Ours, start := p.baseLine, ours := [], base := [], theirs := []);
    RunOne(p, OPEN + labels.ours, wsOurs, wsTheirs);
    RunAppend(p, [OPEN + labels.ours], hunk.ours, wsOurs, wsTheirs);
    RunOurs(inside, hunk.ours, wsOurs, wsTheirs);
    assert Run(p, a, wsOurs, wsTheirs) == inside.(ours := hunk.ours);
    RunMarker(p, a, MIDDLE + labels.base, wsOurs, wsTheirs);
    RunAppend(p, a + [MIDDLE + labels.base], hunk.base, wsOurs, wsTheirs);
    RunBase(inside.(ours := hunk.ours, mode := Base), hunk.base, wsOurs, wsTheirs);
    assert Run(p, b, wsOurs, wsTheirs) == inside.(ours := hunk.ours, base := hunk.base, mode := Base);
    RunMarker(p, b, SPLIT, wsOurs, wsTheirs);
    RunAppend(p, b + [SPLIT], hunk.theirs, wsOurs, wsTheirs);
    RunTheirs(inside.(ours := hunk.ours, base := hunk.base, mode := Theirs), hunk.theirs, wsOurs, wsTheirs);
    assert Run(p, c, wsOurs, wsTheirs) == inside.(ours := hunk.ours, base := hunk.base, theirs := hunk.theirs, mode := Theirs);
    RunMarker(p, c, CLOSE + labels.theirs, wsOurs, wsTheirs);
  }

  lemma {:induction false} RunMarker(p: Parser, before: seq<string>, marker: string, wsOurs: string, wsTheirs: string)
    ensures Run(p, before + [marker], wsOurs, wsTheirs) == Step(Run(p, before, wsOurs, wsTheirs), marker, wsOurs, wsTheirs)
  {
    assert (before + [marker])[..|before|] == before;
  }

  ghost predicate ReadUpTo(p: Parser, pieces: seq<Piece>, wsOurs: string, wsTheirs: string) {
    p.mode.Context? && p.baseLine == 1 + |BaseFile(pieces)| && p.atoms == AtomsOf(pieces, wsOurs, wsTheirs)
  }

  lemma {:induction false} RunPiece(p: Parser, front: seq<Piece>, piece: Piece, labels: Labels, wsOurs: string,
        wsTheirs: string)
    requires ReadUpTo(p, front, wsOurs, wsTheirs) && Unmistakable(piece)
    ensures ReadUpTo(Run(p, RenderPiece(piece, labels), wsOurs, wsTheirs), front + [piece], wsOurs, wsTheirs)
  {
    assert (front + [piece])[..|front|] == front;
    if piece.Line? {
      RunOne(p, piece.line, wsOurs, wsTheirs);
    } else {
      RunHunk(p, piece, labels, wsOurs, wsTheirs);
    }
  }

  lemma {:induction false} ReadsEveryPiece(pieces: seq<Piece>, labels: Labels, wsOurs: string, wsTheirs: string)
    requires forall i :: 0 <= i < |pieces| ==> Unmistakable(pieces[i])
    ensures ReadUpTo(Run(INITIAL, Render(pieces, labels), wsOurs, wsTheirs), pieces, wsOurs, wsTheirs)
  {
    if pieces != [] {
      var front, last := pieces[..|pieces| - 1], pieces[|pieces| - 1];
      ReadsEveryPiece(front, labels, wsOurs, wsTheirs);
      RunAppend(INITIAL, Render(front, labels), RenderPiece(last, labels), wsOurs, wsTheirs);
      RunPiece(Run(INITIAL, Render(front, labels), wsOurs, wsTheirs), front, last, labels, wsOurs, wsTheirs);
      assert front + [last] == pieces;
    }
  }

  /** Parsing a printed text gives one atom per hunk, placed after every earlier context and base line. */
  lemma {:induction false} ParseRender(pieces: seq<Piece>, labels: Labels, wsOurs: string, wsTheirs: string)
    requires forall i :: 0 <= i < |pieces| ==> Unmistakable(pieces[i])
    requires forall l :: l in Render(pieces, labels) ==> PlainLine(l)
    ensures Run(INITIAL, Lines(Unlines(Render(pieces, labels))), wsOurs, wsTheirs).atoms == AtomsOf(pieces, wsOurs, wsTheirs)
  {
    LinesOfUnlines(Render(pieces, labels));
    ReadsEveryPiece(pieces, labels, wsOurs, wsTheirs);
  }

  function Hunks(pieces: seq<Piece>): seq<Piece> {
    if pieces == [] then []
    else
      var front, last := Hunks(pieces[..|pieces| - 1]), pieces[|pieces| - 1];
      if last.Line? then front else front + [last]
  }

  /** The region of the k-th atom selects, in the base file, exactly the base lines of the k-th hunk. */
  lemma {:induction false} RegionsSelectBase(pieces: seq<Piece>, wsOurs: string, wsTheirs: string)
    ensures var atoms, hunks, file := AtomsOf(pieces, wsOurs, wsTheirs), Hunks(pieces), BaseFile(pieces);
            && |atoms| == |hunks|
            && forall k :: 0 <= k < |atoms| ==>
                 && 1 <= atoms[k].region.start <= atoms[k].region.end <= |file| + 1
                 && hunks[k].Hunk? && file[atoms[k].region.start - 1..atoms[k].region.end - 1] == hunks[k].base
  {
    if pieces != [] {
      var front, last := pieces[..|pieces| - 1], pieces[|pieces| - 1];
      RegionsSelectBase(front, wsOurs, wsTheirs);
      var atoms, file, before := AtomsOf(pieces, wsOurs, wsTheirs), BaseFile(pieces), BaseFile(front);
      forall k | 0 <= k < |AtomsOf(front, wsOurs, wsTheirs)|
        ensures file[atoms[k].region.start - 1..atoms[k].region.end - 1] == before[atoms[k].region.start - 1..atoms[k].region.end - 1]
      {
      }
    }
  }

  // ----- what each atom tells

  /** Joining lines with newlines loses nothing: with a newline after it, the join is the text of those lines. */
  lemma {:induction false} JoinedLines(lines: seq<string>)
    ensures lines == [] ==> SharedPath.JoinWith(lines, "\n") == ""
    ensures lines != [] ==> SharedPath.JoinWith(lines, "\n") + "\n" == Unlines(lines)
  {
    if lines != [] {
      JoinedLines(lines[1..]);
      UnlinesHead(lines);
      JoinHead(lines);
      assert lines[0] + "\n" + "" == lines[0] + "\n";
    }
  }

  lemma {:induction false} UnlinesHead(lines: seq<string>)
    requires lines != []
    ensures Unlines(lines) == lines[0] + "\n" + Unlines(lines[1..])
  {
    assert Map(AddNewline, lines) == [lines[0] + "\n"] + Map(AddNewline, lines[1..]);
    Blocks.ConcatAppend([lines[0] + "\n"], Map(AddNewline, lines[1..]));
    Blocks.ConcatOne(lines[0] + "\n");
  }

  lemma {:induction false} JoinHead(lines: seq<string>)
    requires lines != []
    ensures SharedPath.JoinWith(lines, "\n") + "\n"
         == if |lines| == 1 then lines[0] + "\n" else lines[0] + "\n" + (SharedPath.JoinWith(lines[1..], "\n") + "\n")
  {
  }

  /** One side of a hunk: its workspace, its lines, and a region as long as they are. */
  ghost predicate TellsSide(edit: AtomEdit, ws: WorkspaceId, start: nat, lines: seq<string>) {
    && edit.ws == ws
    && edit.region.start == start && edit.region.end == start + |lines|
    && (if lines == [] then edit.content == "" else edit.content + "\n" == Unlines(lines))
  }

  /** The atom of the hunk at piece `q`: placed behind all base lines before it, ours first and theirs second. */
  ghost predicate TellsHunk(atom: Atom, pieces: seq<Piece>, q: nat, wsOurs: string, wsTheirs: string) {
    && q < |pieces| && pieces[q].Hunk?
    && (var start := 1 + |BaseFile(pieces[..q])|;
        && atom.region.start == start && atom.region.end == start + |pieces[q].base|
        && |atom.edits| == 2
        && TellsSide(atom.edits[0], wsOurs, start, pieces[q].ours)
        && TellsSide(atom.edits[1], wsTheirs, start, pieces[q].theirs)
        && atom.description == if pieces[q].base == [] then BothInserted(start) else BothEdited(start, start + |pieces[q].base|))
  }

  /** `at` lists the positions of the hunks, in order. */
  ghost predicate HunksAt(pieces: seq<Piece>, at: seq<nat>) {
    && (forall i, j :: 0 <= i < j < |at| ==> at[i] < at[j])
    && (forall q :: 0 <= q < |pieces| ==> (q in at <==> pieces[q].Hunk?))
    && (forall q :: q in at ==> q < |pieces|)
  }

  /** One atom per hunk, in order, each telling its own. */
  ghost predicate TellHunks(atoms: seq<Atom>, pieces: seq<Piece>, at: seq<nat>, wsOurs: string, wsTheirs: string) {
    && HunksAt(pieces, at) && |atoms| == |at|
    && forall k :: 0 <= k < |at| ==> TellsHunk(atoms[k], pieces, at[k], wsOurs, wsTheirs)
  }

  lemma {:induction false} AtomsTell(pieces: seq<Piece>, wsOurs: string, wsTheirs: string) returns (at: seq<nat>)
    ensures TellHunks(AtomsOf(pieces, wsOurs, wsTheirs), pieces, at, wsOurs, wsTheirs)
  {
    if pieces == [] {
      at := [];
    } else {
      var n := |pieces| - 1;
      var atoms := AtomsOf(pieces[..n], wsOurs, wsTheirs);
      at := AtomsTell(pieces[..n], wsOurs, wsTheirs);
      AllStillTell(atoms, pieces, at, wsOurs, wsTheirs);
      if pieces[n].Hunk? {
        LastTells(pieces, wsOurs, wsTheirs);
        at := at + [n];
      }
    }
  }

  lemma {:induction false} AllStillTell(atoms: seq<Atom>, pieces: seq<Piece>, at: seq<nat>, wsOurs: string, wsTheirs: string)
    requires pieces != [] && TellHunks(atoms, pieces[..|pieces| - 1], at, wsOurs, wsTheirs)
    ensures pieces[|pieces| - 1].Line? ==> TellHunks(atoms, pieces, at, wsOurs, wsTheirs)
    ensures forall atom :: pieces[|pieces| - 1].Hunk? && TellsHunk(atom, pieces, |pieces| - 1, wsOurs, wsTheirs) ==>
              TellHunks(atoms + [atom], pieces, at + [|pieces| - 1], wsOurs, wsTheirs)
  {
    OneMorePiece(pieces, at);
    forall k | 0 <= k < |at| ensures TellsHunk(atoms[k], pieces, at[k], wsOurs, wsTheirs) {
      StillTells(atoms[k], pieces, at[k], wsOurs, wsTheirs);
    }
  }

  lemma {:induction false} StillTells(atom: Atom, pieces: seq<Piece>, q: nat, wsOurs: string, wsTheirs: string)
    requires pieces != [] && TellsHunk(atom, pieces[..|pieces| - 1], q, wsOurs, wsTheirs)
    ensures TellsHunk(atom, pieces, q, wsOurs, wsTheirs)
  {
    assert pieces[..|pieces| - 1][..q] == pieces[..q] && pieces[..|pieces| - 1][q] == pieces[q];
  }

  lemma {:induction false} LastTells(pieces: seq<Piece>, wsOurs: string, wsTheirs: string)
    requires pieces != [] && pieces[|pieces| - 1].Hunk?
    ensures var atoms := AtomsOf(pieces, wsOurs, wsTheirs);
            && atoms == AtomsOf(pieces[..|pieces| - 1], wsOurs, wsTheirs) + [atoms[|atoms| - 1]]
            && TellsHunk(atoms[|atoms| - 1], pieces, |pieces| - 1, wsOurs, wsTheirs)
  {
    JoinedLines(pieces[|pieces| - 1].ours);
    JoinedLines(pieces[|pieces| - 1].theirs);
  }

  lemma {:induction false} OneMorePiece(pieces: seq<Piece>, at: seq<nat>)
    requires pieces != [] && HunksAt(pieces[..|pieces| - 1], at)
    ensures HunksAt(pieces, if pieces[|pieces| - 1].Hunk? then at + [|pieces| - 1] else at)
  {
    var n := |pieces| - 1;
    assert forall q :: 0 <= q < n ==> pieces[..n][q] == pieces[q];
    assert forall i :: 0 <= i < |at| ==> at[i] in at;
  }

  /**
   * From text to atoms, for any text printed from pieces that cannot be mistaken: the k-th atom is placed where the k-th hunk
   * stands in the base, its first edit gives the first workspace the hunk's ours lines and its second edit the second
   * workspace the theirs lines, and it is an insertion exactly when the hunk has no base lines.
   */
  lemma {:induction false} ParsedAtomsTell(pieces: seq<Piece>, labels: Labels, wsOurs: string, wsTheirs: string) returns (at: seq<nat>)
    requires forall i :: 0 <= i < |pieces| ==> Unmistakable(pieces[i])
    requires forall l :: l in Render(pieces, labels) ==> PlainLine(l)
    ensures var atoms := Run(INITIAL, Lines(Unlines(Render(pieces, labels))), wsOurs, wsTheirs).atoms;
            TellHunks(atoms, pieces, at, wsOurs, wsTheirs)
  {
    ParseRender(pieces, labels, wsOurs, wsTheirs);
    at := AtomsTell(pieces, wsOurs, wsTheirs);
  }

  // ----- line endings

  /** A line with either of its two endings. */
  ghost predicate Ended(line: string, segment: string) {
    segment == line + "\n" || segment == line + "\r\n"
  }

  /** Lines are read back whichever way each of them ends; the last may be without an ending. */
  lemma {:induction false} LinesReadBack(lines: seq<string>, segments: seq<string>, last: string)
    requires |lines| == |segments| && forall i :: 0 <= i < |lines| ==> PlainLine(lines[i]) && Ended(lines[i], segments[i])
    requires forall i :: 0 <= i < |last| ==> last[i] != '\n'
    ensures Lines(Blocks.Concat(segments) + last) == lines + if last == "" then [] else [last]
  {
    var all := segments + if last == "" then [] else [last];
    Blocks.ConcatAppend(segments, if last == "" then [] else [last]);
    Blocks.ConcatOne(last);
    assert Blocks.Concat(segments) + "" == Blocks.Concat(segments);
    assert Blocks.AreLines(all);
    Blocks.SegmentsOfConcat(all);
    forall i | 0 <= i < |lines| ensures Chomp(all[i]) == lines[i] { ChompEnded(lines[i], all[i]); }
    if last != "" { assert Chomp(last) == last; }
    assert Lines(Blocks.Concat(segments) + last) == Map(Chomp, all);
  }

  lemma {:induction false} ChompEnded(line: string, segment: string)
    requires PlainLine(line) && Ended(line, segment)
    ensures Chomp(segment) == line
  {
    assert (line + "\n")[..|line|] == line;
    if segment == line + "\r\n" {
      assert segment[..|segment| - 1] == line + "\r";
      assert (line + "\r")[..|line|] == line;
    }
  }

  // ----- one hunk as it comes from git

  const PRINTED := ["x", "<<<<<<< ours", "a", "||||||| base", "b", "=======", "c", "d", ">>>>>>> theirs", "y"]

  /** One line of context, a hunk, one line of context. */
  lemma {:induction false} PrintedHunk()
    ensures Run(INITIAL, PRINTED, "alice", "bob").atoms
         == [Atom(Region(2, 3), [AtomEdit("alice", Region(2, 3), "a"), AtomEdit("bob", Region(2, 4), "c\nd")], BothEdited(2, 3))]
  {
    var pieces, labels := [Line("x"), Hunk(["a"], ["b"], ["c", "d"]), Line("y")], Labels(" ours", " base", " theirs");
    assert OPEN + " ours" == "<<<<<<< ours" && MIDDLE + " base" == "||||||| base" && CLOSE + " theirs" == ">>>>>>> theirs";
    assert RenderPiece(pieces[1], labels)
        == ["<<<<<<< ours", "a", "||||||| base", "b", "=======", "c", "d", ">>>>>>> theirs"];
    assert pieces[..2] == [pieces[0], pieces[1]] && pieces[..2][..1] == [pieces[0]] && pieces[..2][..1][..0] == [];
    assert Render(pieces[..2][..1], labels) == ["x"];
    assert Render(pieces[..2], labels) == ["x"] + RenderPiece(pieces[1], labels);
    assert Render(pieces, labels) == PRINTED;
    ReadsEveryPiece(pieces, labels, "alice", "bob");
    assert BaseFile(pieces[..2][..1]) == ["x"];
    assert AtomsOf(pieces[..2][..1], "alice", "bob") == [];
    assert SharedPath.JoinWith(["c", "d"], "\n") == "c\nd" by { assert ["c", "d"][1..] == ["d"]; }
    assert AtomsOf(pieces[..2], "alice", "bob") == [BlockAtom(2, ["a"], ["b"], ["c", "d"], "alice", "bob")];
  }
}
