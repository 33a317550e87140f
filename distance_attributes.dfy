/** `extract_and_transform_distances`: write a two-line attribute header,
    then, for each line of the tool's output that contains "Distance", split
    it on whitespace and write the third token without its first two
    characters and the sixth token, each behind a tab. */
module DistanceAttributes {
  import opened PyStr
  import opened Outcomes
  import opened Sequences

  /** Written first, with the output file truncated, before any input is read. */
  const Header: seq<string> := ["attribute: distance\n", "recipient: atoms\n"]

  const Marker := "Distance"

  /** `"Distance" in line`: a case-sensitive substring test. */
  predicate IsDistanceLine(line: string) {
    Contains(line, Marker)
  }

  /** The record for one matching line; `parts[2]` or `parts[5]` raises
      when the split has fewer than six tokens. */
  function TransformLine(line: string): (r: Result<string>)
    ensures r.Ok? <==> |Split(line)| >= 6
    ensures r.Err? ==> r.error == ListIndexOutOfRange
  {
    var parts := Split(line);
    if |parts| < 6 then Err(ListIndexOutOfRange)
    else Ok("\t" + SliceFrom(parts[2], 2) + "\t" + parts[5] + "\n")
  }

  /** Read back, a record holds two whitespace-separated columns: the third
      token without its first two characters, and the sixth token. When the
      third token has two characters or fewer its remainder is empty and
      only the sixth token is left. */
  lemma TransformLineColumns(line: string)
    requires |Split(line)| >= 6
    ensures TransformLine(line).value[0] == '\t'
    ensures Split(TransformLine(line).value)
      == if |Split(line)[2]| > 2 then [Split(line)[2][2..], Split(line)[5]] else [Split(line)[5]]
  {
    var parts := Split(line);
    SplitWords(line);
    var x, y := SliceFrom(parts[2], 2), parts[5];
    assert NoSpace(x);
    var tail := "\t" + y + "\n";
    calc {
      Split(y + "\n");
      { SplitToken(y, "\n"); }
      [y] + Split("\n");
      { SplitSkipsSpace("\n", ""); assert "\n" + "" == "\n"; }
      [y];
    }
    calc {
      Split(tail);
      { assert tail == "\t" + (y + "\n"); SplitSkipsSpace("\t", y + "\n"); }
      [y];
    }
    calc {
      Split(TransformLine(line).value);
      { assert TransformLine(line).value == "\t" + (x + tail); SplitSkipsSpace("\t", x + tail); }
      Split(x + tail);
    }
    if x == [] {
      assert x + tail == tail;
    } else {
      SplitToken(x, tail);
      assert x == parts[2][2..];
    }
  }

  /** The records written after the header, and how the loop ended. */
  datatype Transformed = Transformed(records: seq<string>, status: Status)

  /** The loop over the tool's output as a function of its lines. */
  function TransformBody(lines: seq<string>): (t: Transformed)
    ensures |t.records| <= |lines|
  {
    if lines == [] then Transformed([], Completed)
    else if !IsDistanceLine(lines[0]) then TransformBody(lines[1..])
    else LineThen(TransformLine(lines[0]), TransformBody(lines[1..]))
  }

  /** One matching line followed by the rest of the loop. */
  function LineThen(r: Result<string>, rest: Transformed): Transformed {
    match r
    case Err(e) => Transformed([], Aborted(e))
    case Ok(record) => Transformed([record] + rest.records, rest.status)
  }

  /** The attribute file: the header, then the records. */
  function AttributeFile(lines: seq<string>): seq<string> {
    Header + TransformBody(lines).records
  }

  /** The stage itself: the header first, then one pass over the input,
      writing each record as it is made; the first malformed line ends the
      loop and what was written stays. */
  method ExtractAndTransformDistances(infile: seq<string>) returns (outfile: seq<string>, status: Status)
    ensures outfile == AttributeFile(infile) && status == TransformBody(infile).status
    ensures |outfile| >= 2 && outfile[..2] == Header
  {
    outfile := Header;
    status := Completed;
    ghost var written: seq<string> := [];
    var i := 0;
    while i < |infile|
      invariant 0 <= i <= |infile|
      invariant outfile == Header + written
      invariant TransformBody(infile) == Then(Transformed(written, Completed), TransformBody(infile[i..]))
    {
      TransformUnfold(infile, i);
      if IsDistanceLine(infile[i]) {
        var r := TransformLine(infile[i]);
        WriteLine(written, r, TransformBody(infile[i + 1..]));
        match r {
          case Err(e) =>
            status := Aborted(e);
            return;
          case Ok(record) =>
            assert outfile + [record] == Header + (written + [record]);
            outfile := outfile + [record];
            written := written + [record];
        }
      }
      i := i + 1;
    }
    assert infile[i..] == [];
    assert written + [] == written;
  }

  /** The loop from line `i` on is line `i`, then the loop from `i + 1` on. */
  lemma TransformUnfold(lines: seq<string>, i: nat)
    requires i < |lines|
    ensures TransformBody(lines[i..])
      == if IsDistanceLine(lines[i]) then LineThen(TransformLine(lines[i]), TransformBody(lines[i + 1..]))
         else TransformBody(lines[i + 1..])
  {
    assert lines[i..][1..] == lines[i + 1..];
  }

  /** What one matching line writes, behind what is already written. */
  lemma WriteLine(written: seq<string>, r: Result<string>, rest: Transformed)
    ensures r.Ok? ==>
      (Then(Transformed(written, Completed), LineThen(r, rest)) == Then(Transformed(written + [r.value], Completed), rest))
    ensures r.Err? ==>
      (Then(Transformed(written, Completed), LineThen(r, rest)) == Transformed(written, Aborted(r.error)))
  {
    if r.Ok? {
      assert written + ([r.value] + rest.records) == written + [r.value] + rest.records;
    } else {
      assert written + [] == written;
    }
  }

  /** A malformed line: it contains the marker but splits into fewer than
      six tokens. */
  predicate Malformed(line: string) {
    IsDistanceLine(line) && |Split(line)| < 6
  }

  /** The stage stops early exactly when some line is malformed. */
  lemma {:induction false} TransformAbortsIff(lines: seq<string>)
    ensures TransformBody(lines).status.Aborted? <==> exists j :: 0 <= j < |lines| && Malformed(lines[j])
    ensures TransformBody(lines).status.Aborted? ==> TransformBody(lines).status.error == ListIndexOutOfRange
  {
    if lines != [] {
      TransformAbortsIff(lines[1..]);
      if exists j :: 0 <= j < |lines| && Malformed(lines[j]) {
        var j :| 0 <= j < |lines| && Malformed(lines[j]);
        if j > 0 && !Malformed(lines[0]) {
          assert Malformed(lines[1..][j - 1]);
        }
      }
      if exists j :: 0 <= j < |lines| - 1 && Malformed(lines[1..][j]) {
        var j :| 0 <= j < |lines| - 1 && Malformed(lines[1..][j]);
        assert Malformed(lines[j + 1]);
      }
    }
  }

  /** Running on `a` and then on `b`. */
  function Then(a: Transformed, b: Transformed): Transformed {
    if a.status.Aborted? then a else Transformed(a.records + b.records, b.status)
  }

  lemma LineThenAssociates(r: Result<string>, a: Transformed, b: Transformed)
    ensures LineThen(r, Then(a, b)) == Then(LineThen(r, a), b)
  {
    if r.Ok? && a.status == Completed {
      assert [r.value] + a.records + b.records == [r.value] + (a.records + b.records);
    }
  }

  /** The loop works line by line: input cut in two is transformed piece by
      piece, and an exception in the first piece ends everything. */
  lemma {:induction false} TransformAppend(a: seq<string>, b: seq<string>)
    ensures TransformBody(a + b) == Then(TransformBody(a), TransformBody(b))
  {
    if a == [] {
      assert a + b == b;
    } else {
      assert (a + b)[0] == a[0];
      assert (a + b)[1..] == a[1..] + b;
      TransformAppend(a[1..], b);
      if IsDistanceLine(a[0]) {
        LineThenAssociates(TransformLine(a[0]), TransformBody(a[1..]), TransformBody(b));
      }
    }
  }

  /** The first malformed line ends the stage: the header and the records of
      the lines before it stay, and no later line is read. */
  lemma AbortAtFirstMalformedLine(lines: seq<string>, j: nat)
    requires j < |lines| && Malformed(lines[j])
    requires forall i :: 0 <= i < j ==> !Malformed(lines[i])
    ensures TransformBody(lines[..j]).status == Completed
    ensures TransformBody(lines) == Transformed(TransformBody(lines[..j]).records, Aborted(ListIndexOutOfRange))
    ensures TransformBody(lines) == TransformBody(lines[..j + 1])
  {
    var pre, line, rest := lines[..j], lines[j], lines[j + 1..];
    NoMalformedCompletes(pre);
    CutAtMalformed(pre, line, rest);
    CutAtMalformed(pre, line, []);
    SplitAround(lines, j);
    SplitAround(lines[..j + 1], j);
    assert lines[..j + 1][..j] == pre;
  }

  lemma NoMalformedCompletes(lines: seq<string>)
    requires forall i :: 0 <= i < |lines| ==> !Malformed(lines[i])
    ensures TransformBody(lines).status == Completed
  {
    TransformAbortsIff(lines);
  }

  lemma CutAtMalformed(pre: seq<string>, line: string, rest: seq<string>)
    requires TransformBody(pre).status == Completed
    requires Malformed(line)
    ensures TransformBody(pre + ([line] + rest)) == Transformed(TransformBody(pre).records, Aborted(ListIndexOutOfRange))
  {
    TransformAppend(pre, [line] + rest);
    MalformedAborts(line, rest);
    assert TransformBody(pre).records + [] == TransformBody(pre).records;
  }

  lemma MalformedAborts(line: string, rest: seq<string>)
    requires Malformed(line)
    ensures TransformBody([line] + rest) == Transformed([], Aborted(ListIndexOutOfRange))
  {
    assert ([line] + rest)[0] == line;
  }

  /** The lines containing the marker, in order. */
  function DistanceLines(lines: seq<string>): seq<string> {
    if lines == [] then []
    else (if IsDistanceLine(lines[0]) then [lines[0]] else []) + DistanceLines(lines[1..])
  }

  /** Record k is the transformation of the k-th line containing the marker;
      when the stage completes, every such line has its record. */
  lemma {:induction false} TransformFormatsDistanceLines(lines: seq<string>)
    ensures |TransformBody(lines).records| <= |DistanceLines(lines)|
    ensures forall k :: 0 <= k < |TransformBody(lines).records| ==>
      TransformLine(DistanceLines(lines)[k]) == Ok(TransformBody(lines).records[k])
    ensures TransformBody(lines).status == Completed ==> |TransformBody(lines).records| == |DistanceLines(lines)|
  {
    if lines != [] {
      TransformFormatsDistanceLines(lines[1..]);
    }
  }

  /** A distance report line of six tokens, laid out with runs of spaces. */
  lemma ExampleLayout(l: string)
    requires l == "Distance   foo  12AB  bar  baz  3.14"
    ensures l == "Distance" + "   " + ("foo" + "  " + ("12AB" + "  " + ("bar" + "  " + ("baz" + "  " + "3.14"))))
    ensures StartsWith(l, Marker)
  {
    assert l[..|Marker|] == Marker;
  }

  /** The tokens of the example line hold no whitespace and the runs
      between them are whitespace. */
  lemma ExampleTokens()
    ensures NoSpace("Distance") && NoSpace("foo") && NoSpace("12AB")
    ensures NoSpace("bar") && NoSpace("baz") && NoSpace("3.14")
    ensures AllSpace("   ") && AllSpace("  ")
  {
  }

  /** `split()` of the example line gives its six tokens. */
  lemma ExampleSplit(l: string)
    requires l == "Distance   foo  12AB  bar  baz  3.14"
    ensures Split(l) == ["Distance", "foo", "12AB", "bar", "baz", "3.14"]
  {
    ExampleLayout(l);
    ExampleTokens();
    var r4 := "baz" + "  " + "3.14";
    var r3 := "bar" + "  " + r4;
    var r2 := "12AB" + "  " + r3;
    var r1 := "foo" + "  " + r2;
    SplitWordGap("Distance", "   ", r1);
    SplitWordGap("foo", "  ", r2);
    SplitWordGap("12AB", "  ", r3);
    SplitWordGap("bar", "  ", r4);
    SplitWordGap("baz", "  ", "3.14");
    SplitToken("3.14", "");
    assert "3.14" + "" == "3.14";
  }

  /** The line is a distance line, and its record is the tail `AB` of the
      third token and the sixth token `3.14`, each behind a tab. */
  lemma ExampleTransform(l: string)
    requires l == "Distance   foo  12AB  bar  baz  3.14"
    ensures IsDistanceLine(l)
    ensures TransformLine(l) == Ok("\tAB\t3.14\n")
  {
    ExampleLayout(l);
    ExampleSplit(l);
    assert SliceFrom("12AB", 2) == "AB";
    assert TransformLine(l).value == "\t" + "AB" + "\t" + "3.14" + "\n";
    assert "\t" + "AB" + "\t" + "3.14" + "\n" == "\tAB\t3.14\n";
  }
}
