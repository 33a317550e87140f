/** `extract_atom_lines`: copy the lines of a structure file that start with
    "ATOM", unchanged and in order; drop every other line. A file is the
    sequence of lines that iterating over it yields, each with its line
    terminator, and the output file is the sequence of strings written to it. */
module AtomFilter {
  import opened PyStr

  const AtomTag := "ATOM"

  /** `line.startswith("ATOM")` */
  predicate IsAtomRecord(line: string) {
    StartsWith(line, AtomTag)
  }

  /** The lines of `lines` that are atom records, in order. */
  function FilterAtoms(lines: seq<string>): (kept: seq<string>)
    ensures |kept| <= |lines|
  {
    if lines == [] then []
    else (if IsAtomRecord(lines[0]) then [lines[0]] else []) + FilterAtoms(lines[1..])
  }

  /** Every kept line is an atom record taken from the input. */
  lemma {:induction false} FilterAtomsSound(lines: seq<string>)
    ensures forall k :: 0 <= k < |FilterAtoms(lines)| ==>
      IsAtomRecord(FilterAtoms(lines)[k]) && FilterAtoms(lines)[k] in lines
  {
    if lines != [] {
      FilterAtomsSound(lines[1..]);
    }
  }

  /** The stage itself: one pass over the input, writing each atom record as
      it is read. */
  method ExtractAtomLines(infile: seq<string>) returns (outfile: seq<string>)
    ensures outfile == FilterAtoms(infile)
  {
    outfile := [];
    var i := 0;
    while i < |infile|
      invariant 0 <= i <= |infile|
      invariant FilterAtoms(infile) == outfile + FilterAtoms(infile[i..])
    {
      assert infile[i..][1..] == infile[i + 1..];
      var line := infile[i];
      if IsAtomRecord(line) {
        assert FilterAtoms(infile[i..]) == [line] + FilterAtoms(infile[i + 1..]);
        assert outfile + ([line] + FilterAtoms(infile[i + 1..])) == outfile + [line] + FilterAtoms(infile[i + 1..]);
        outfile := outfile + [line];
      } else {
        assert FilterAtoms(infile[i..]) == FilterAtoms(infile[i + 1..]);
      }
      i := i + 1;
    }
    assert outfile + [] == outfile;
  }

  /** `a` occurs in `b` in order, possibly with gaps. */
  predicate IsSubsequence<T(==)>(a: seq<T>, b: seq<T>)
    decreases |b|
  {
    a == [] || (b != [] && ((a[0] == b[0] && IsSubsequence(a[1..], b[1..])) || IsSubsequence(a, b[1..])))
  }

  /** The output keeps the input's order: it is a subsequence of the input. */
  lemma {:induction false} FilterAtomsIsSubsequence(lines: seq<string>)
    ensures IsSubsequence(FilterAtoms(lines), lines)
  {
    if lines != [] {
      var rest := FilterAtoms(lines[1..]);
      FilterAtomsIsSubsequence(lines[1..]);
      if IsAtomRecord(lines[0]) {
        assert FilterAtoms(lines) == [lines[0]] + rest;
        assert ([lines[0]] + rest)[1..] == rest;
      } else {
        assert FilterAtoms(lines) == [] + rest == rest;
      }
    }
  }

  /** Each line is kept as often as it occurs when it is an atom record, and
      never otherwise: nothing is altered, duplicated or invented. */
  lemma {:induction false} FilterAtomsCounts(lines: seq<string>, x: string)
    ensures multiset(FilterAtoms(lines))[x] == if IsAtomRecord(x) then multiset(lines)[x] else 0
  {
    if lines != [] {
      FilterAtomsCounts(lines[1..], x);
      assert lines == [lines[0]] + lines[1..];
      assert multiset(lines) == multiset([lines[0]]) + multiset(lines[1..]);
    }
  }

  /** A file of atom records only passes through unchanged. */
  lemma {:induction false} FilterAtomsKeepsAtomFile(lines: seq<string>)
    requires forall k :: 0 <= k < |lines| ==> IsAtomRecord(lines[k])
    ensures FilterAtoms(lines) == lines
  {
    if lines != [] {
      FilterAtomsKeepsAtomFile(lines[1..]);
    }
  }

  /** Filtering twice is filtering once. */
  lemma FilterAtomsIdempotent(lines: seq<string>)
    ensures FilterAtoms(FilterAtoms(lines)) == FilterAtoms(lines)
  {
    FilterAtomsSound(lines);
    FilterAtomsKeepsAtomFile(FilterAtoms(lines));
  }

  /** The filter works line by line: a file cut in two is filtered piece by
      piece. */
  lemma {:induction false} FilterAtomsAppend(a: seq<string>, b: seq<string>)
    ensures FilterAtoms(a + b) == FilterAtoms(a) + FilterAtoms(b)
  {
    if a == [] {
      assert a + b == b;
    } else {
      var head := if IsAtomRecord(a[0]) then [a[0]] else [];
      assert (a + b)[0] == a[0] && (a + b)[1..] == a[1..] + b;
      assert FilterAtoms(a + b) == head + FilterAtoms(a[1..] + b);
      FilterAtomsAppend(a[1..], b);
      assert head + (FilterAtoms(a[1..]) + FilterAtoms(b)) == (head + FilterAtoms(a[1..])) + FilterAtoms(b);
    }
  }
}
