/** `GraphFileReader`: reads the start/end line, the vertex section and the
    edge section of a graph file, in that order, from one stream of lines.
    The file is its sequence of lines and `cursor` counts the lines
    `getline` has consumed; `parse` is how `>>` reads a double from a
    field. */
module Reader {
  import opened Records
  import opened Text

  /** A line every section skips: empty or a comment. */
  predicate Skipped(line: string)
  {
    line == [] || line[0] == '#'
  }

  /** Field `k` read as a double; a missing field reads as 0. */
  function RealField(parse: string -> real, ts: seq<string>, k: nat): real
  {
    if k < |ts| then parse(ts[k]) else 0.0
  }

  /** `ss >> start >> end`. */
  function StartEndOf(line: string): (nat, nat)
  {
    var ts := Tokens(line);
    (ParseUnsigned(Field(ts, 0)), ParseUnsigned(Field(ts, 1)))
  }

  /** `ss >> vertex_id >> x >> y`. */
  function VertexOf(parse: string -> real, line: string): VertexElem
  {
    var ts := Tokens(line);
    VertexElem(ParseUnsigned(Field(ts, 0)), RealField(parse, ts, 1), RealField(parse, ts, 2))
  }

  /** `ss >> src_vertex >> dest_vertex >> cost`. */
  function EdgeOf(parse: string -> real, line: string): EdgeElem
  {
    var ts := Tokens(line);
    EdgeElem(ParseUnsigned(Field(ts, 0)), ParseUnsigned(Field(ts, 1)), RealField(parse, ts, 2))
  }

  /** The lines that are not skipped, in order. */
  function DataLines(ls: seq<string>): (r: seq<string>)
    ensures forall k :: 0 <= k < |r| ==> !Skipped(r[k]) && r[k] in ls
    ensures |r| <= |ls|
  {
    if ls == [] then []
    else (if Skipped(ls[0]) then [] else [ls[0]]) + DataLines(ls[1..])
  }

  /** `VertexOf` as a function value: how a vertex line is read. */
  function VertexReader(parse: string -> real): string -> VertexElem
  {
    line => VertexOf(parse, line)
  }

  /** `EdgeOf` as a function value: how an edge line is read. */
  function EdgeReader(parse: string -> real): string -> EdgeElem
  {
    line => EdgeOf(parse, line)
  }

  /** One record per line that is not skipped, each read by `read`, in
      order. */
  function Parsed<T>(read: string -> T, ls: seq<string>): seq<T>
  {
    if ls == [] then []
    else (if Skipped(ls[0]) then [] else [read(ls[0])]) + Parsed(read, ls[1..])
  }

  /** The records are exactly the lines that are not skipped, each one
      read, in order. */
  lemma {:induction false} ParsedLines<T>(read: string -> T, ls: seq<string>)
    ensures |Parsed(read, ls)| == |DataLines(ls)|
    ensures forall k :: 0 <= k < |DataLines(ls)| ==> Parsed(read, ls)[k] == read(DataLines(ls)[k])
  {
    if ls != [] {
      ParsedLines(read, ls[1..]);
      if Skipped(ls[0]) {
        assert DataLines(ls) == DataLines(ls[1..]);
        assert Parsed(read, ls) == Parsed(read, ls[1..]);
      } else {
        assert DataLines(ls) == [ls[0]] + DataLines(ls[1..]);
        assert Parsed(read, ls) == [read(ls[0])] + Parsed(read, ls[1..]);
      }
    }
  }

  /** The first line of a slice, and the rest of it. */
  lemma SliceFront(lines: seq<string>, i: nat, j: nat)
    requires i < j <= |lines|
    ensures lines[i..j][0] == lines[i] && lines[i..j][1..] == lines[i + 1..j]
  {
  }

  /** Reading line `i`, when it is not skipped, leaves the records still
      to come those of the lines after it. */
  lemma ParsedStep<T>(read: string -> T, lines: seq<string>, i: nat, acc: seq<T>)
    requires i < |lines|
    ensures var next := if Skipped(lines[i]) then acc else acc + [read(lines[i])];
      acc + Parsed(read, lines[i..]) == next + Parsed(read, lines[i + 1..])
  {
    assert lines[i..][0] == lines[i] && lines[i..][1..] == lines[i + 1..];
    var rest := Parsed(read, lines[i + 1..]);
    if !Skipped(lines[i]) {
      assert acc + ([read(lines[i])] + rest) == (acc + [read(lines[i])]) + rest;
    }
  }

  /** The first line at or after `i` that is not skipped, or the end. */
  function FirstData(lines: seq<string>, i: nat): (k: nat)
    requires i <= |lines|
    ensures i <= k <= |lines|
    ensures forall m :: i <= m < k ==> Skipped(lines[m])
    ensures k < |lines| ==> !Skipped(lines[k])
    decreases |lines| - i
  {
    if i == |lines| || !Skipped(lines[i]) then i else FirstData(lines, i + 1)
  }

  /** The vertex section from line `i` on, with `acc` read so far: the
      records and the first line after the section. */
  function VertexScan(read: string -> VertexElem, lines: seq<string>, i: nat, acc: seq<VertexElem>)
    : (r: (seq<VertexElem>, nat))
    requires i <= |lines|
    ensures i <= r.1 <= |lines|
    decreases |lines| - i
  {
    if i == |lines| then (acc, i)
    else if lines[i] == [] && acc != [] then (acc, i + 1)
    else if Skipped(lines[i]) then VertexScan(read, lines, i + 1, acc)
    else VertexScan(read, lines, i + 1, acc + [read(lines[i])])
  }

  /** The vertex section holds one record per line that is neither empty
      nor a comment, in order. */
  lemma {:induction false} VertexSectionRecords(read: string -> VertexElem, lines: seq<string>, i: nat, acc: seq<VertexElem>)
    requires i <= |lines|
    ensures var r := VertexScan(read, lines, i, acc);
      r.0 == acc + Parsed(read, lines[i..r.1])
    decreases |lines| - i
  {
    if i == |lines| {
    } else if lines[i] == [] && acc != [] {
      assert lines[i..i + 1] == [lines[i]];
    } else {
      var next := if Skipped(lines[i]) then acc else acc + [read(lines[i])];
      VertexSectionRecords(read, lines, i + 1, next);
      SliceFront(lines, i, VertexScan(read, lines, i + 1, next).1);
    }
  }

  /** The vertex section ends at the end of the file or just after an
      empty line, and only once a vertex has been read. */
  lemma {:induction false} VertexSectionEnd(read: string -> VertexElem, lines: seq<string>, i: nat, acc: seq<VertexElem>)
    requires i <= |lines|
    ensures var r := VertexScan(read, lines, i, acc);
      r.1 == |lines| || (i < r.1 && lines[r.1 - 1] == [] && r.0 != [])
    decreases |lines| - i
  {
    if i < |lines| && !(lines[i] == [] && acc != []) {
      var next := if Skipped(lines[i]) then acc else acc + [read(lines[i])];
      VertexSectionEnd(read, lines, i + 1, next);
    }
  }

  /** Before the end of the vertex section, an empty line is skipped only
      while no vertex has been read. */
  lemma {:induction false} VertexSectionFirstStop(read: string -> VertexElem, lines: seq<string>, i: nat, acc: seq<VertexElem>)
    requires i <= |lines|
    ensures var r := VertexScan(read, lines, i, acc);
      forall m :: i <= m < r.1 - 1 && lines[m] == [] ==> acc + Parsed(read, lines[i..m]) == []
    decreases |lines| - i
  {
    if i < |lines| && !(lines[i] == [] && acc != []) {
      var next := if Skipped(lines[i]) then acc else acc + [read(lines[i])];
      VertexSectionFirstStop(read, lines, i + 1, next);
      var r := VertexScan(read, lines, i + 1, next);
      forall m | i < m < r.1 - 1 && lines[m] == []
        ensures acc + Parsed(read, lines[i..m]) == []
      {
        SliceFront(lines, i, m);
      }
    }
  }

  /** What a reader holds once the three sections have been read. */
  datatype Contents = Contents(startEnd: (nat, nat), vertices: seq<VertexElem>, edges: seq<EdgeElem>)

  /** The whole file read: the first line that is not skipped gives start
      and end (both 0 when there is none), the vertex section follows, and
      every later line that is not skipped is an edge. */
  function ReadFile(parse: string -> real, lines: seq<string>): Contents
  {
    var k := FirstData(lines, 0);
    var afterStart := if k < |lines| then k + 1 else |lines|;
    var startEnd := if k < |lines| then StartEndOf(lines[k]) else (0, 0);
    var (vertices, afterVertices) := VertexScan(VertexReader(parse), lines, afterStart, []);
    Contents(startEnd, vertices, Parsed(EdgeReader(parse), lines[afterVertices..]))
  }

  class GraphFileReader {
    const lines: seq<string>
    const parse: string -> real
    var cursor: nat
    var startEnd: (nat, nat)
    var vertices: seq<VertexElem>
    var edges: seq<EdgeElem>

    /** Opens the file and reads the three sections. */
    constructor (lines: seq<string>, parse: string -> real)
      ensures this.lines == lines && this.parse == parse
      ensures Contents(startEnd, vertices, edges) == ReadFile(parse, lines)
      ensures Contents(GetStartEnd(), GetVertices(), GetEdges()) == ReadFile(parse, lines)
    {
      this.lines := lines;
      this.parse := parse;
      cursor := 0;
      startEnd := (0, 0);
      vertices := [];
      edges := [];
      new;
      ReadStartEnd();
      ReadVertices();
      ReadEdges();
    }

    method ReadStartEnd()
      requires cursor <= |lines|
      modifies this
      ensures var k := FirstData(lines, old(cursor));
        && (k < |lines| ==> startEnd == StartEndOf(lines[k]) && cursor == k + 1)
        && (k == |lines| ==> startEnd == old(startEnd) && cursor == |lines|)
      ensures vertices == old(vertices) && edges == old(edges)
    {
      while cursor < |lines|
        invariant old(cursor) <= cursor <= |lines|
        invariant FirstData(lines, cursor) == FirstData(lines, old(cursor))
        invariant startEnd == old(startEnd) && vertices == old(vertices) && edges == old(edges)
        decreases |lines| - cursor
      {
        var line := lines[cursor];
        cursor := cursor + 1;
        if Skipped(line) {
          continue;
        }
        startEnd := StartEndOf(line);
        break;
      }
    }

    method ReadVertices()
      requires cursor <= |lines|
      modifies this
      ensures (vertices, cursor) == VertexScan(VertexReader(parse), lines, old(cursor), old(vertices))
      ensures startEnd == old(startEnd) && edges == old(edges)
    {
      while cursor < |lines|
        invariant old(cursor) <= cursor <= |lines|
        invariant VertexScan(VertexReader(parse), lines, cursor, vertices)
          == VertexScan(VertexReader(parse), lines, old(cursor), old(vertices))
        invariant startEnd == old(startEnd) && edges == old(edges)
        decreases |lines| - cursor
      {
        var line := lines[cursor];
        cursor := cursor + 1;
        if line == [] && vertices != [] {
          break;
        }
        if Skipped(line) {
          continue;
        }
        vertices := vertices + [VertexOf(parse, line)];
      }
    }

    method ReadEdges()
      requires cursor <= |lines|
      modifies this
      ensures edges == old(edges) + Parsed(EdgeReader(parse), lines[old(cursor)..])
      ensures cursor == |lines|
      ensures startEnd == old(startEnd) && vertices == old(vertices)
    {
      ghost var total := edges + Parsed(EdgeReader(parse), lines[cursor..]);
      while cursor < |lines|
        invariant cursor <= |lines|
        invariant edges + Parsed(EdgeReader(parse), lines[cursor..]) == total
        invariant startEnd == old(startEnd) && vertices == old(vertices)
        decreases |lines| - cursor
      {
        var line := lines[cursor];
        ParsedStep(EdgeReader(parse), lines, cursor, edges);
        cursor := cursor + 1;
        if !Skipped(line) {
          edges := edges + [EdgeOf(parse, line)];
        }
      }
      assert lines[cursor..] == [];
      assert edges + [] == edges;
    }

    /** The start and end positions read from the file. */
    function GetStartEnd(): (se: (nat, nat))
      reads this
      ensures se == startEnd
    {
      startEnd
    }

    /** The vertex records read from the file, in file order. */
    function GetVertices(): (vs: seq<VertexElem>)
      reads this
      ensures vs == vertices
    {
      vertices
    }

    /** The edge records read from the file, in file order. */
    function GetEdges(): (es: seq<EdgeElem>)
      reads this
      ensures es == edges
    {
      edges
    }
  }
}
