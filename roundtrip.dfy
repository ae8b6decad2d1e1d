/** Writing a graph file and reading it back, as the random graph generator
    writes the start/end, vertex and edge sections and the path finder
    reads them. */
module Files {
  import opened Records
  import opened Text
  import opened Reader
  import opened Writer

  /** The start/end, vertex and edge sections, written in that order. */
  function Written(show: real -> string, start: nat, end: nat, vs: seq<VertexElem>, es: seq<EdgeElem>, name: string)
    : seq<string>
    requires forall k :: 0 <= k < |vs| ==> InRange(vs[k])
    requires forall k :: 0 <= k < |es| ==> EdgeInRange(es[k])
  {
    StartEndBlock(start, end) + VertexBlock(vs) + EdgeBlock(show, es, name)
  }

  /** A vertex as it reads back: both coordinates truncated to integers. */
  function Truncated(v: VertexElem): VertexElem
    requires InRange(v)
  {
    VertexElem(v.position, Truncate(v.x) as real, Truncate(v.y) as real)
  }

  function AllTruncated(vs: seq<VertexElem>): (r: seq<VertexElem>)
    requires forall k :: 0 <= k < |vs| ==> InRange(vs[k])
    ensures |r| == |vs|
  {
    seq(|vs|, k requires 0 <= k < |vs| => Truncated(vs[k]))
  }

  /** Reading a double from the digits of an unsigned integer gives that
      integer. */
  ghost predicate ReadsIntegers(parse: string -> real)
  {
    forall n: nat :: n <= UINT_MAX ==> parse(Digits(n)) == n as real
  }

  /** The printed form of `c` is one field that reads back as `c`. */
  predicate ReadsBack(show: real -> string, parse: string -> real, c: real)
  {
    IsToken(show(c)) && parse(show(c)) == c
  }

  /** A line starts with the first character of its first field. */
  lemma JoinFront(ts: seq<string>)
    requires |ts| > 0 && IsToken(ts[0])
    ensures |Join(ts)| > 0 && Join(ts)[0] == ts[0][0]
  {
  }

  /** A vertex line is read as its vertex, with truncated coordinates. */
  lemma VertexLineRead(parse: string -> real, v: VertexElem)
    requires InRange(v) && ReadsIntegers(parse)
    ensures !Skipped(VertexLine(v))
    ensures VertexReader(parse)(VertexLine(v)) == Truncated(v)
  {
    var ts := [Digits(v.position), Digits(Truncate(v.x)), Digits(Truncate(v.y))];
    JoinFront(ts);
    TokensJoin(ts);
    UnsignedRoundTrip(v.position);
  }

  /** An edge line is read as its edge. */
  lemma EdgeLineRead(show: real -> string, parse: string -> real, e: EdgeElem)
    requires EdgeInRange(e) && ReadsBack(show, parse, e.cost)
    ensures !Skipped(EdgeLine(show, e))
    ensures EdgeReader(parse)(EdgeLine(show, e)) == e
  {
    var ts := [IntText(ToInt32(e.src)), IntText(ToInt32(e.dst)), show(e.cost)];
    JoinFront(ts);
    TokensJoin(ts);
    Int32RoundTrip(e.src);
    Int32RoundTrip(e.dst);
  }

  /** Lines that are neither empty nor comments are all data lines. */
  lemma {:induction false} AllData(ls: seq<string>)
    requires forall k :: 0 <= k < |ls| ==> !Skipped(ls[k])
    ensures DataLines(ls) == ls
  {
    if ls != [] {
      AllData(ls[1..]);
    }
  }

  /** A line that is neither empty nor a comment adds its record to the
      vertex section. */
  lemma ScanStep(read: string -> VertexElem, lines: seq<string>, i: nat, acc: seq<VertexElem>)
    requires i < |lines| && !Skipped(lines[i])
    ensures VertexScan(read, lines, i, acc) == VertexScan(read, lines, i + 1, acc + [read(lines[i])])
  {
  }

  /** A comment line, or an empty line before any vertex, is skipped. */
  lemma SkipStep(read: string -> VertexElem, lines: seq<string>, i: nat, acc: seq<VertexElem>)
    requires i < |lines| && Skipped(lines[i]) && (lines[i] != [] || acc == [])
    ensures VertexScan(read, lines, i, acc) == VertexScan(read, lines, i + 1, acc)
  {
  }

  /** An empty line once a vertex has been read ends the section. */
  lemma StopStep(read: string -> VertexElem, lines: seq<string>, i: nat, acc: seq<VertexElem>)
    requires i < |lines| && lines[i] == [] && acc != []
    ensures VertexScan(read, lines, i, acc) == (acc, i + 1)
  {
  }

  /** The records of a slice that starts with a data line. */
  lemma RecordsStep(read: string -> VertexElem, lines: seq<string>, i: nat, j: nat)
    requires i < j <= |lines| && !Skipped(lines[i])
    ensures Parsed(read, lines[i..j]) == [read(lines[i])] + Parsed(read, lines[i + 1..j])
  {
    SliceFront(lines, i, j);
  }

  /** Lines that are neither empty nor comments each add one record to the
      vertex section. */
  lemma {:induction false} VertexScanData(read: string -> VertexElem, lines: seq<string>, i: nat, j: nat, acc: seq<VertexElem>)
    requires i <= j <= |lines|
    requires forall m :: i <= m < j ==> !Skipped(lines[m])
    ensures VertexScan(read, lines, i, acc) == VertexScan(read, lines, j, acc + Parsed(read, lines[i..j]))
    decreases j - i
  {
    if i == j {
      assert lines[i..j] == [];
      assert acc + [] == acc;
    } else {
      var x := read(lines[i]);
      var rest := Parsed(read, lines[i + 1..j]);
      ScanStep(read, lines, i, acc);
      VertexScanData(read, lines, i + 1, j, acc + [x]);
      RecordsStep(read, lines, i, j);
      assert acc + ([x] + rest) == (acc + [x]) + rest;
    }
  }

  /** Lines none of which is skipped read back as what each one reads as,
      with or without an empty line after them. */
  lemma {:induction false} ParsedEach<T>(read: string -> T, ls: seq<string>, xs: seq<T>)
    requires |ls| == |xs|
    requires forall k :: 0 <= k < |ls| ==> !Skipped(ls[k]) && read(ls[k]) == xs[k]
    ensures Parsed(read, ls) == xs
    ensures Parsed(read, ls + [""]) == xs
    decreases |ls|
  {
    if ls == [] {
      assert ([] + [""])[1..] == [];
    } else {
      ParsedEach(read, ls[1..], xs[1..]);
      assert (ls + [""])[1..] == ls[1..] + [""];
    }
  }

  /** The written vertex lines are data lines that read back as the
      truncated vertices. */
  lemma VertexLinesRead(parse: string -> real, vs: seq<VertexElem>)
    requires forall k :: 0 <= k < |vs| ==> InRange(vs[k])
    requires ReadsIntegers(parse)
    ensures forall k :: 0 <= k < |vs| ==> !Skipped(VertexLines(vs)[k])
    ensures Parsed(VertexReader(parse), VertexLines(vs)) == AllTruncated(vs)
  {
    forall k | 0 <= k < |vs|
      ensures !Skipped(VertexLines(vs)[k]) && VertexReader(parse)(VertexLines(vs)[k]) == AllTruncated(vs)[k]
    {
      VertexLineRead(parse, vs[k]);
    }
    ParsedEach(VertexReader(parse), VertexLines(vs), AllTruncated(vs));
  }

  /** The written edge lines are data lines that read back as the edges,
      with the empty line after them. */
  lemma EdgeLinesRead(show: real -> string, parse: string -> real, es: seq<EdgeElem>)
    requires forall k :: 0 <= k < |es| ==> EdgeInRange(es[k]) && ReadsBack(show, parse, es[k].cost)
    ensures forall k :: 0 <= k < |es| ==> !Skipped(EdgeLines(show, es)[k])
    ensures Parsed(EdgeReader(parse), EdgeLines(show, es) + [""]) == es
  {
    forall k | 0 <= k < |es|
      ensures !Skipped(EdgeLines(show, es)[k]) && EdgeReader(parse)(EdgeLines(show, es)[k]) == es[k]
    {
      EdgeLineRead(show, parse, es[k]);
    }
    ParsedEach(EdgeReader(parse), EdgeLines(show, es), es);
  }

  /** Where the sections of a written file lie. */
  lemma WrittenLayout(show: real -> string, start: nat, end: nat, vs: seq<VertexElem>, es: seq<EdgeElem>, name: string)
    requires forall k :: 0 <= k < |vs| ==> InRange(vs[k])
    requires forall k :: 0 <= k < |es| ==> EdgeInRange(es[k])
    ensures var w := Written(show, start, end, vs, es, name);
      var n := |vs|;
      && |w| == 7 + n + |es|
      && w[0] == "# Start and end vertices" && w[1] == Join([Digits(start), Digits(end)]) && w[2] == ""
      && w[3] == "# Vertices" && w[4..4 + n] == VertexLines(vs) && w[4 + n] == ""
      && w[5 + n..] == ["# " + name + " edges"] + (EdgeLines(show, es) + [""])
  {
    var w := Written(show, start, end, vs, es, name);
    var n := |vs|;
    assert w == StartEndBlock(start, end) + VertexBlock(vs) + EdgeBlock(show, es, name);
    assert w[5 + n..] == EdgeBlock(show, es, name);
  }

  /** The start/end line is the first line of a written file that is
      not a comment. */
  lemma StartLine(w: seq<string>, start: nat, end: nat)
    requires |w| > 1 && w[0] == "# Start and end vertices" && w[1] == Join([Digits(start), Digits(end)])
    ensures FirstData(w, 0) == 1
  {
    JoinFront([Digits(start), Digits(end)]);
    assert FirstData(w, 1) == 1;
  }

  /** The start/end line of a written file reads back as start and end. */
  lemma StartEndRead(show: real -> string, start: nat, end: nat, vs: seq<VertexElem>, es: seq<EdgeElem>, name: string)
    requires start <= UINT_MAX && end <= UINT_MAX
    requires forall k :: 0 <= k < |vs| ==> InRange(vs[k])
    requires forall k :: 0 <= k < |es| ==> EdgeInRange(es[k])
    ensures var w := Written(show, start, end, vs, es, name);
      FirstData(w, 0) == 1 && StartEndOf(w[1]) == (start, end)
  {
    var w := Written(show, start, end, vs, es, name);
    WrittenLayout(show, start, end, vs, es, name);
    StartLine(w, start, end);
    TokensJoin([Digits(start), Digits(end)]);
    UnsignedRoundTrip(start);
    UnsignedRoundTrip(end);
  }

  /** The vertex section of a written file, with at least one vertex line,
      reads back as those lines read and ends at the blank line after
      them. */
  lemma WrittenVertices(read: string -> VertexElem, w: seq<string>, ls: seq<string>, xs: seq<VertexElem>)
    requires |ls| > 0
    requires forall k :: 0 <= k < |ls| ==> !Skipped(ls[k])
    requires Parsed(read, ls) == xs
    requires |w| > 4 + |ls| && w[2] == "" && w[3] == "# Vertices"
    requires w[4..4 + |ls|] == ls && w[4 + |ls|] == ""
    ensures VertexScan(read, w, 2, []) == (xs, 5 + |ls|)
  {
    assert Skipped(w[2]) && Skipped(w[3]);
    SkipRun(read, w, 2, 4);
    DataSection(read, w, 4, ls);
  }

  /** The edge section of a written file reads back as the edges. */
  lemma WrittenEdges(show: real -> string, parse: string -> real, tail: seq<string>, es: seq<EdgeElem>, name: string)
    requires forall k :: 0 <= k < |es| ==> EdgeInRange(es[k]) && ReadsBack(show, parse, es[k].cost)
    requires tail == ["# " + name + " edges"] + (EdgeLines(show, es) + [""])
    ensures Parsed(EdgeReader(parse), tail) == es
  {
    EdgeLinesRead(show, parse, es);
    assert tail[1..] == EdgeLines(show, es) + [""];
  }

  /** Writing start/end, at least one vertex and the edges, then reading
      the file, gives back start/end, the vertices with their coordinates
      truncated to integers, and the edges. */
  lemma RoundTrip(show: real -> string, parse: string -> real, start: nat, end: nat,
                  vs: seq<VertexElem>, es: seq<EdgeElem>, name: string)
    requires start <= UINT_MAX && end <= UINT_MAX
    requires |vs| > 0 && forall k :: 0 <= k < |vs| ==> InRange(vs[k])
    requires forall k :: 0 <= k < |es| ==> EdgeInRange(es[k]) && ReadsBack(show, parse, es[k].cost)
    requires ReadsIntegers(parse)
    ensures ReadFile(parse, Written(show, start, end, vs, es, name)) == Contents((start, end), AllTruncated(vs), es)
  {
    var w := Written(show, start, end, vs, es, name);
    var n := |vs|;
    WrittenLayout(show, start, end, vs, es, name);
    StartEndRead(show, start, end, vs, es, name);
    VertexLinesRead(parse, vs);
    WrittenVertices(VertexReader(parse), w, VertexLines(vs), AllTruncated(vs));
    WrittenEdges(show, parse, w[5 + n..], es, name);
  }

  /** With coordinates that are already unsigned integers, the vertices
      read back unchanged. */
  lemma RoundTripIntegral(show: real -> string, parse: string -> real, start: nat, end: nat,
                          vs: seq<VertexElem>, es: seq<EdgeElem>, name: string)
    requires start <= UINT_MAX && end <= UINT_MAX
    requires |vs| > 0 && forall k :: 0 <= k < |vs| ==> InRange(vs[k])
    requires forall k :: 0 <= k < |vs| ==> vs[k].x == vs[k].x.Floor as real && vs[k].y == vs[k].y.Floor as real
    requires forall k :: 0 <= k < |es| ==> EdgeInRange(es[k]) && ReadsBack(show, parse, es[k].cost)
    requires ReadsIntegers(parse)
    ensures ReadFile(parse, Written(show, start, end, vs, es, name)) == Contents((start, end), vs, es)
  {
    RoundTrip(show, parse, start, end, vs, es, name);
    assert AllTruncated(vs) == vs;
  }

  /** Lines that lie in a file as one slice keep their kind there. */
  lemma SliceData(w: seq<string>, i: nat, ls: seq<string>)
    requires i + |ls| <= |w| && w[i..i + |ls|] == ls
    requires forall k :: 0 <= k < |ls| ==> !Skipped(ls[k])
    ensures forall m :: i <= m < i + |ls| ==> !Skipped(w[m])
  {
    forall m | i <= m < i + |ls|
      ensures !Skipped(w[m])
    {
      assert w[m] == ls[m - i];
    }
  }

  /** Before any vertex is read, a run of empty and comment lines is
      skipped. */
  lemma {:induction false} SkipRun(read: string -> VertexElem, w: seq<string>, i: nat, j: nat)
    requires i <= j <= |w|
    requires forall m :: i <= m < j ==> Skipped(w[m])
    ensures VertexScan(read, w, i, []) == VertexScan(read, w, j, [])
    decreases j - i
  {
    if i < j {
      SkipStep(read, w, i, []);
      SkipRun(read, w, i + 1, j);
    }
  }

  /** Data lines read from the start of the section, followed by an empty
      line, make up the whole section. */
  lemma DataSection(read: string -> VertexElem, w: seq<string>, i: nat, ls: seq<string>)
    requires |ls| > 0 && i + |ls| < |w|
    requires w[i..i + |ls|] == ls && w[i + |ls|] == []
    requires forall k :: 0 <= k < |ls| ==> !Skipped(ls[k])
    ensures VertexScan(read, w, i, []) == (Parsed(read, ls), i + |ls| + 1)
  {
    var k := i + |ls|;
    var xs := Parsed(read, ls);
    SliceData(w, i, ls);
    VertexScanData(read, w, i, k, []);
    assert VertexScan(read, w, i, []) == VertexScan(read, w, k, xs) by {
      assert [] + Parsed(read, w[i..k]) == xs;
    }
    assert xs != [] by {
      assert xs == [read(ls[0])] + Parsed(read, ls[1..]);
    }
    StopStep(read, w, k, xs);
  }

  /** Without vertices, the vertex section of a written file runs to the
      end of the file: the blank line after `# Vertices` and the edge
      header are skipped, and its records come from the edge lines. */
  lemma EmptyVertices(read: string -> VertexElem, w: seq<string>, ls: seq<string>)
    requires |ls| > 0 && forall k :: 0 <= k < |ls| ==> !Skipped(ls[k])
    requires |w| == 7 + |ls| && w[2] == "" && w[3] == "# Vertices" && w[4] == ""
    requires |w[5]| > 0 && w[5][0] == '#'
    requires w[6..6 + |ls|] == ls && w[6 + |ls|] == ""
    ensures VertexScan(read, w, 2, []) == (Parsed(read, ls), |w|)
  {
    SkipRun(read, w, 2, 6);
    DataSection(read, w, 6, ls);
  }

  /** The edge lines read as vertices: one per edge, at the edge's
      source position. */
  lemma EdgesAsVertices(show: real -> string, parse: string -> real, es: seq<EdgeElem>)
    requires forall k :: 0 <= k < |es| ==> EdgeInRange(es[k]) && ReadsBack(show, parse, es[k].cost)
    ensures var vs := Parsed(VertexReader(parse), EdgeLines(show, es));
      |vs| == |es| && forall k :: 0 <= k < |es| ==> vs[k].position == es[k].src
  {
    var ls := EdgeLines(show, es);
    forall k | 0 <= k < |ls|
      ensures !Skipped(ls[k])
    {
      EdgeLineRead(show, parse, es[k]);
    }
    ParsedLines(VertexReader(parse), ls);
    AllData(ls);
    forall k | 0 <= k < |es|
      ensures Parsed(VertexReader(parse), ls)[k].position == es[k].src
    {
      EdgeLineRead(show, parse, es[k]);
    }
  }

  /** A file whose vertex section holds no vertex: the section runs over
      the edge lines to the end of the file, so they are all read as
      vertices and no edges are read. */
  lemma EmptyRead(parse: string -> real, w: seq<string>, ls: seq<string>)
    requires |ls| > 0 && forall k :: 0 <= k < |ls| ==> !Skipped(ls[k])
    requires |w| == 7 + |ls| && FirstData(w, 0) == 1
    requires w[2] == "" && w[3] == "# Vertices" && w[4] == ""
    requires |w[5]| > 0 && w[5][0] == '#'
    requires w[6..6 + |ls|] == ls && w[6 + |ls|] == ""
    ensures ReadFile(parse, w) == Contents(StartEndOf(w[1]), Parsed(VertexReader(parse), ls), [])
  {
    EmptyVertices(VertexReader(parse), w, ls);
    assert w[|w|..] == [];
  }

  /** The lines of an edge section that starts at line 5. */
  lemma EdgeSectionLayout(w: seq<string>, ls: seq<string>, name: string)
    requires |w| == 7 + |ls| && w[5..] == ["# " + name + " edges"] + (ls + [""])
    ensures |w[5]| > 0 && w[5][0] == '#'
    ensures w[6..6 + |ls|] == ls && w[6 + |ls|] == ""
  {
    var t := w[5..];
    assert w[5] == t[0] && w[6 + |ls|] == t[1 + |ls|];
    assert t[1..1 + |ls|] == ls;
    var a, b := w[6..6 + |ls|], t[1..1 + |ls|];
    forall m | 0 <= m < |ls|
      ensures a[m] == b[m]
    {
      assert a[m] == w[6 + m] == t[1 + m] == b[m];
    }
    assert a == b;
  }

  /** With no vertices the vertex section never ends: the blank line after
      `# Vertices` is skipped because no vertex has been read, the edge
      lines are read as vertices, and no edges are read. */
  lemma EmptyVertexSection(show: real -> string, parse: string -> real, start: nat, end: nat,
                           es: seq<EdgeElem>, name: string)
    requires |es| > 0 && forall k :: 0 <= k < |es| ==> EdgeInRange(es[k]) && ReadsBack(show, parse, es[k].cost)
    ensures var c := ReadFile(parse, Written(show, start, end, [], es, name));
      && c.edges == []
      && |c.vertices| == |es|
      && forall k :: 0 <= k < |es| ==> c.vertices[k].position == es[k].src
  {
    var w := Written(show, start, end, [], es, name);
    var ls := EdgeLines(show, es);
    WrittenLayout(show, start, end, [], es, name);
    StartLine(w, start, end);
    EdgeSectionLayout(w, ls, name);
    EdgeLinesRead(show, parse, es);
    EmptyRead(parse, w, ls);
    EdgesAsVertices(show, parse, es);
  }
}
