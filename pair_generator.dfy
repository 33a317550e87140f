/** `generate_files`: walk two filtered structure files in lockstep, as
    Python's `zip` does (stopping at the end of the shorter one), and for
    each pair of lines that are both atom records write one pseudobond line
    and one distance command. The fields are cut from the fixed columns of
    the ATOM record of the wwPDB PDB format: atom name in columns 13-16,
    residue name in 18-20, chain identifier in 22, residue sequence number
    in 23-26. */
module PairGenerator {
  import opened PyStr
  import opened Outcomes
  import opened Sequences
  import opened AtomFilter

  /** The four fields cut from one ATOM record, each stripped of whitespace. */
  datatype AtomFields = AtomFields(atomName: string, resName: string, chainId: string, resSeq: string)

  /** Lines of 21 characters or fewer have no column 22, so indexing it
      raises; the slices clamp and never fail. */
  const ChainColumn := 21

  /** The field extraction for one line. */
  function ExtractFields(line: string): (r: Result<AtomFields>)
    ensures r.Ok? <==> |line| > ChainColumn
    ensures r.Err? ==> r.error == StringIndexOutOfRange
  {
    if |line| <= ChainColumn then Err(StringIndexOutOfRange)
    else
      Ok(AtomFields(Strip(Slice(line, 12, 16)), Strip(Slice(line, 17, 20)),
                    Strip([line[ChainColumn]]), Strip(Slice(line, 22, 26))))
  }

  /** On a line long enough for column 22 the first three fields come from
      full columns; the chain is the one character of column 22 unless it is
      blank; the sequence number comes from whatever of columns 23-26 the
      line has; and no field is wider than its columns. */
  lemma ExtractFieldsColumns(line: string)
    requires |line| > ChainColumn
    ensures ExtractFields(line).value.atomName == Strip(line[12..16])
    ensures ExtractFields(line).value.resName == Strip(line[17..20])
    ensures ExtractFields(line).value.chainId == if IsSpace(line[ChainColumn]) then "" else [line[ChainColumn]]
    ensures ExtractFields(line).value.resSeq == Strip(line[22..Min(26, |line|)])
    ensures |ExtractFields(line).value.atomName| <= 4 && |ExtractFields(line).value.resName| <= 3
    ensures |ExtractFields(line).value.resSeq| <= 4
  {
    assert Slice(line, 12, 16) == line[12..16];
    assert Slice(line, 17, 20) == line[17..20];
    assert Slice(line, 22, 26) == line[22..Min(26, |line|)];
    StripChar(line[ChainColumn]);
    StripSpec(line[12..16]);
    StripSpec(line[17..20]);
    StripSpec(line[22..Min(26, |line|)]);
  }

  /** `<resSeq1>.<chain1>@<atom1> #1:<resSeq2>.<chain2>@<atom2>` after `#0:`:
      the pair of atoms as the visualisation tool names them. */
  function PairRef(a: AtomFields, b: AtomFields): string {
    "#0:" + a.resSeq + "." + a.chainId + "@" + a.atomName
      + " #1:" + b.resSeq + "." + b.chainId + "@" + b.atomName
  }

  /** The line written to the pseudobond file. */
  function PseudobondLine(a: AtomFields, b: AtomFields): string {
    PairRef(a, b) + "\n"
  }

  /** The line written to the command file. */
  function DistanceQueryLine(a: AtomFields, b: AtomFields): string {
    "distance " + PairRef(a, b) + "\n"
  }

  /** The command line is the pseudobond line behind the word `distance`. */
  lemma QueryLineIsPrefixedPseudobond(a: AtomFields, b: AtomFields)
    ensures DistanceQueryLine(a, b) == "distance " + PseudobondLine(a, b)
  {
    var x := PairRef(a, b);
    assert "distance " + x + "\n" == "distance " + (x + "\n");
  }

  /** What one iteration of the loop does with one pair of lines. */
  datatype PairStep = Skip | Emit(pseudo: string, com: string) | Fail(error: PyError)

  /** Both lines are atom records but one of them is too short for column 22. */
  predicate BadPair(l1: string, l2: string) {
    IsAtomRecord(l1) && IsAtomRecord(l2) && (|l1| <= ChainColumn || |l2| <= ChainColumn)
  }

  function PairLines(l1: string, l2: string): (r: PairStep)
    ensures r.Skip? <==> !(IsAtomRecord(l1) && IsAtomRecord(l2))
    ensures r.Fail? <==> BadPair(l1, l2)
    ensures r.Fail? ==> r.error == StringIndexOutOfRange
    ensures r.Emit? ==> r.com == "distance " + r.pseudo
  {
    if !(IsAtomRecord(l1) && IsAtomRecord(l2)) then Skip
    else
      match (ExtractFields(l1), ExtractFields(l2))
      case (Err(e), _) => Fail(e)
      case (Ok(_), Err(e)) => Fail(e)
      case (Ok(a), Ok(b)) =>
        QueryLineIsPrefixedPseudobond(a, b);
        Emit(PseudobondLine(a, b), DistanceQueryLine(a, b))
  }

  /** The two output files and how the loop ended. */
  datatype Generated = Generated(pseudo: seq<string>, com: seq<string>, status: Status)

  /** The `zip` of the two files, each pair of lines mapped to what its
      iteration does; it has as many entries as the shorter file has lines. */
  function ZipSteps(f1: seq<string>, f2: seq<string>): seq<PairStep> {
    seq(Min(|f1|, |f2|), k requires 0 <= k < Min(|f1|, |f2|) => PairLines(f1[k], f2[k]))
  }

  /** The loop, run over a sequence of iterations. */
  function Run(steps: seq<PairStep>): (g: Generated)
    ensures |g.pseudo| == |g.com| <= |steps|
  {
    if steps == [] then Generated([], [], Completed)
    else StepThen(steps[0], Run(steps[1..]))
  }

  /** One iteration followed by the rest of the loop. */
  function StepThen(step: PairStep, rest: Generated): Generated {
    match step
    case Skip => rest
    case Fail(e) => Generated([], [], Aborted(e))
    case Emit(p, c) => Generated([p] + rest.pseudo, [c] + rest.com, rest.status)
  }

  /** The stage as a function of its two input files. */
  function Generate(f1: seq<string>, f2: seq<string>): Generated {
    Run(ZipSteps(f1, f2))
  }

  /** Running on `a` and then on `b`: output appends, and an exception in
      the first part ends everything. */
  function Then(a: Generated, b: Generated): Generated {
    if a.status.Aborted? then a
    else Generated(a.pseudo + b.pseudo, a.com + b.com, b.status)
  }

  /** The stage itself: the `zip` loop, writing both lines for each pair of
      atom records as it goes; the first exception ends the loop and what
      was written stays. */
  method GenerateFiles(pdbFile1: seq<string>, pdbFile2: seq<string>)
    returns (pseudobond: seq<string>, com: seq<string>, status: Status)
    ensures Generated(pseudobond, com, status) == Generate(pdbFile1, pdbFile2)
  {
    pseudobond, com, status := [], [], Completed;
    ghost var steps := ZipSteps(pdbFile1, pdbFile2);
    var n := Min(|pdbFile1|, |pdbFile2|);
    var i := 0;
    while i < n
      invariant 0 <= i <= n
      invariant Generate(pdbFile1, pdbFile2) == Then(Generated(pseudobond, com, Completed), Run(steps[i..]))
    {
      var step := PairLines(pdbFile1[i], pdbFile2[i]);
      assert step == steps[i];
      RunUnfold(steps, i);
      WriteStep(pseudobond, com, step, Run(steps[i + 1..]));
      match step {
        case Skip =>
        case Emit(p, c) =>
          pseudobond := pseudobond + [p];
          com := com + [c];
        case Fail(e) =>
          status := Aborted(e);
          return;
      }
      i := i + 1;
    }
    assert pseudobond + [] == pseudobond && com + [] == com;
  }

  /** The loop from position `i` on is one iteration, then the loop from
      `i + 1` on. */
  lemma RunUnfold(steps: seq<PairStep>, i: nat)
    requires i < |steps|
    ensures Run(steps[i..]) == StepThen(steps[i], Run(steps[i + 1..]))
  {
    assert steps[i..][1..] == steps[i + 1..];
  }

  /** What one iteration writes, behind what is already written. */
  lemma WriteStep(pseudo: seq<string>, com: seq<string>, step: PairStep, rest: Generated)
    ensures step.Skip? ==>
      (Then(Generated(pseudo, com, Completed), StepThen(step, rest)) == Then(Generated(pseudo, com, Completed), rest))
    ensures step.Emit? ==>
      (Then(Generated(pseudo, com, Completed), StepThen(step, rest))
        == Then(Generated(pseudo + [step.pseudo], com + [step.com], Completed), rest))
    ensures step.Fail? ==>
      (Then(Generated(pseudo, com, Completed), StepThen(step, rest)) == Generated(pseudo, com, Aborted(step.error)))
  {
    if step.Emit? {
      assert pseudo + ([step.pseudo] + rest.pseudo) == pseudo + [step.pseudo] + rest.pseudo;
      assert com + ([step.com] + rest.com) == com + [step.com] + rest.com;
    }
    if step.Fail? {
      assert pseudo + [] == pseudo && com + [] == com;
    }
  }

  /** Iteration `j` of the loop handles line `j` of each file. */
  lemma ZipStepsAt(f1: seq<string>, f2: seq<string>, j: nat)
    requires j < Min(|f1|, |f2|)
    ensures |ZipSteps(f1, f2)| == Min(|f1|, |f2|)
    ensures ZipSteps(f1, f2)[j] == PairLines(f1[j], f2[j])
  {
  }

  /** The two outputs run in parallel: command line k is pseudobond line k
      behind the word `distance`. */
  lemma GenerateParallelOutputs(f1: seq<string>, f2: seq<string>)
    ensures forall k :: 0 <= k < |Generate(f1, f2).com| ==>
      Generate(f1, f2).com[k] == "distance " + Generate(f1, f2).pseudo[k]
  {
    RunParallel(ZipSteps(f1, f2));
  }

  lemma {:induction false} RunParallel(steps: seq<PairStep>)
    requires forall k :: 0 <= k < |steps| && steps[k].Emit? ==> steps[k].com == "distance " + steps[k].pseudo
    ensures forall k :: 0 <= k < |Run(steps).com| ==> Run(steps).com[k] == "distance " + Run(steps).pseudo[k]
  {
    if steps != [] {
      RunParallel(steps[1..]);
    }
  }

  /** When every iteration writes, the loop completes with one line per
      iteration. */
  lemma {:induction false} RunAllEmit(steps: seq<PairStep>)
    requires forall k :: 0 <= k < |steps| ==> steps[k].Emit?
    ensures Run(steps).status == Completed && |Run(steps).pseudo| == |steps|
  {
    if steps != [] {
      RunAllEmit(steps[1..]);
    }
  }

  /** When both files hold only atom records long enough to have a chain
      column, every positional pair gives one line in each output. */
  lemma GenerateAllAtoms(f1: seq<string>, f2: seq<string>)
    requires forall k :: 0 <= k < |f1| ==> IsAtomRecord(f1[k]) && |f1[k]| > ChainColumn
    requires forall k :: 0 <= k < |f2| ==> IsAtomRecord(f2[k]) && |f2[k]| > ChainColumn
    ensures Generate(f1, f2).status == Completed
    ensures |Generate(f1, f2).pseudo| == Min(|f1|, |f2|)
  {
    var steps := ZipSteps(f1, f2);
    forall k | 0 <= k < |steps| ensures steps[k].Emit? {
      ZipStepsAt(f1, f2, k);
    }
    RunAllEmit(steps);
  }

  /** The loop stops early exactly when some iteration raises. */
  lemma {:induction false} RunAbortsIff(steps: seq<PairStep>)
    ensures Run(steps).status.Aborted? <==> exists j :: 0 <= j < |steps| && steps[j].Fail?
  {
    if steps != [] {
      RunAbortsIff(steps[1..]);
      if exists j :: 0 <= j < |steps| && steps[j].Fail? {
        var j :| 0 <= j < |steps| && steps[j].Fail?;
        if j > 0 && !steps[0].Fail? {
          assert steps[1..][j - 1].Fail?;
        }
      }
      if exists j :: 0 <= j < |steps| - 1 && steps[1..][j].Fail? {
        var j :| 0 <= j < |steps| - 1 && steps[1..][j].Fail?;
        assert steps[j + 1].Fail?;
      }
    }
  }

  /** The stage aborts exactly when some positional pair of atom records
      has a line too short for column 22. */
  lemma GenerateAbortsIff(f1: seq<string>, f2: seq<string>)
    ensures Generate(f1, f2).status.Aborted?
      <==> exists j :: 0 <= j < Min(|f1|, |f2|) && BadPair(f1[j], f2[j])
  {
    var steps := ZipSteps(f1, f2);
    RunAbortsIff(steps);
    forall j | 0 <= j < Min(|f1|, |f2|) ensures steps[j].Fail? <==> BadPair(f1[j], f2[j]) {
      ZipStepsAt(f1, f2, j);
    }
  }

  lemma StepThenAssociates(step: PairStep, r: Generated, s: Generated)
    ensures StepThen(step, Then(r, s)) == Then(StepThen(step, r), s)
  {
    if step.Emit? && r.status == Completed {
      assert [step.pseudo] + r.pseudo + s.pseudo == [step.pseudo] + (r.pseudo + s.pseudo);
      assert [step.com] + r.com + s.com == [step.com] + (r.com + s.com);
    }
  }

  /** The loop works iteration by iteration: iterations cut in two run piece
      by piece. */
  lemma {:induction false} RunAppend(a: seq<PairStep>, b: seq<PairStep>)
    ensures Run(a + b) == Then(Run(a), Run(b))
  {
    if a == [] {
      assert a + b == b;
    } else {
      assert (a + b)[0] == a[0];
      assert (a + b)[1..] == a[1..] + b;
      RunAppend(a[1..], b);
      StepThenAssociates(a[0], Run(a[1..]), Run(b));
    }
  }

  lemma ZipStepsAppend(a1: seq<string>, a2: seq<string>, b1: seq<string>, b2: seq<string>)
    requires |a1| == |a2|
    ensures ZipSteps(a1 + b1, a2 + b2) == ZipSteps(a1, a2) + ZipSteps(b1, b2)
  {
    var z, za, zb := ZipSteps(a1 + b1, a2 + b2), ZipSteps(a1, a2), ZipSteps(b1, b2);
    assert |z| == |za| + |zb|;
    forall k | 0 <= k < |z| ensures z[k] == (za + zb)[k] {
      if k < |a1| {
        assert (a1 + b1)[k] == a1[k] && (a2 + b2)[k] == a2[k];
      } else {
        assert (a1 + b1)[k] == b1[k - |a1|] && (a2 + b2)[k] == b2[k - |a1|];
      }
    }
  }

  /** Pairing is positional: two files cut at the same position are
      processed piece by piece. */
  lemma GenerateAppend(a1: seq<string>, a2: seq<string>, b1: seq<string>, b2: seq<string>)
    requires |a1| == |a2|
    ensures Generate(a1 + b1, a2 + b2) == Then(Generate(a1, a2), Generate(b1, b2))
  {
    ZipStepsAppend(a1, a2, b1, b2);
    RunAppend(ZipSteps(a1, a2), ZipSteps(b1, b2));
  }

  /** A pair that is not two atom records writes nothing and does not shift
      the pairing of the lines after it. */
  lemma SkippedPairKeepsAlignment(f1: seq<string>, f2: seq<string>, j: nat)
    requires j < Min(|f1|, |f2|)
    requires !(IsAtomRecord(f1[j]) && IsAtomRecord(f2[j]))
    ensures Generate(f1, f2) == Then(Generate(f1[..j], f2[..j]), Generate(f1[j + 1..], f2[j + 1..]))
  {
    SplitAround(f1, j);
    SplitAround(f2, j);
    CutAtSkippedPair(f1[..j], f2[..j], f1[j], f2[j], f1[j + 1..], f2[j + 1..]);
  }

  lemma CutAtSkippedPair(p1: seq<string>, p2: seq<string>, l1: string, l2: string, r1: seq<string>, r2: seq<string>)
    requires |p1| == |p2|
    requires !(IsAtomRecord(l1) && IsAtomRecord(l2))
    ensures Generate(p1 + ([l1] + r1), p2 + ([l2] + r2)) == Then(Generate(p1, p2), Generate(r1, r2))
  {
    GenerateAppend(p1, p2, [l1] + r1, [l2] + r2);
    ZipStepsCons(l1, l2, r1, r2);
    assert PairLines(l1, l2) == Skip;
    assert ([Skip] + ZipSteps(r1, r2))[1..] == ZipSteps(r1, r2);
  }

  /** The first iteration of the `zip`, then the iterations of the rest. */
  lemma ZipStepsCons(l1: string, l2: string, r1: seq<string>, r2: seq<string>)
    ensures ZipSteps([l1] + r1, [l2] + r2) == [PairLines(l1, l2)] + ZipSteps(r1, r2)
  {
    var z, zr := ZipSteps([l1] + r1, [l2] + r2), ZipSteps(r1, r2);
    assert |z| == 1 + |zr|;
    forall k | 0 <= k < |z| ensures z[k] == ([PairLines(l1, l2)] + zr)[k] {
      if k > 0 {
        assert ([l1] + r1)[k] == r1[k - 1] && ([l2] + r2)[k] == r2[k - 1];
      }
    }
  }

  /** An exception at the first bad pair keeps everything written for the
      pairs before it and nothing after it: the lines after that pair are
      never read. */
  lemma AbortAtFirstBadPair(f1: seq<string>, f2: seq<string>, j: nat)
    requires j < Min(|f1|, |f2|)
    requires BadPair(f1[j], f2[j])
    requires forall i :: 0 <= i < j ==> !BadPair(f1[i], f2[i])
    ensures Generate(f1[..j], f2[..j]).status == Completed
    ensures Generate(f1, f2)
      == Generated(Generate(f1[..j], f2[..j]).pseudo, Generate(f1[..j], f2[..j]).com, Aborted(StringIndexOutOfRange))
    ensures Generate(f1, f2) == Generate(f1[..j + 1], f2[..j + 1])
  {
    var p1, p2 := f1[..j], f2[..j];
    GenerateAbortsIff(p1, p2);
    CutAtBadPair(p1, p2, f1[j], f2[j], f1[j + 1..], f2[j + 1..]);
    CutAtBadPair(p1, p2, f1[j], f2[j], [], []);
    SplitAround(f1, j);
    SplitAround(f2, j);
    SplitAround(f1[..j + 1], j);
    SplitAround(f2[..j + 1], j);
    assert f1[..j + 1][..j] == p1 && f2[..j + 1][..j] == p2;
  }

  lemma CutAtBadPair(p1: seq<string>, p2: seq<string>, l1: string, l2: string, r1: seq<string>, r2: seq<string>)
    requires |p1| == |p2|
    requires Generate(p1, p2).status == Completed
    requires BadPair(l1, l2)
    ensures Generate(p1 + ([l1] + r1), p2 + ([l2] + r2))
      == Generated(Generate(p1, p2).pseudo, Generate(p1, p2).com, Aborted(StringIndexOutOfRange))
  {
    GenerateAppend(p1, p2, [l1] + r1, [l2] + r2);
    ZipStepsAt([l1] + r1, [l2] + r2, 0);
    RunUnfold(ZipSteps([l1] + r1, [l2] + r2), 0);
    var g := Generate(p1, p2);
    assert g.pseudo + [] == g.pseudo && g.com + [] == g.com;
  }

  /** The pairs the loop formats: the `zip` of the two files, restricted to
      pairs of atom records. */
  function KeptPairs(f1: seq<string>, f2: seq<string>): seq<(string, string)>
    decreases |f1|
  {
    if f1 == [] || f2 == [] then []
    else
      var pair := if IsAtomRecord(f1[0]) && IsAtomRecord(f2[0]) then [(f1[0], f2[0])] else [];
      pair + KeptPairs(f1[1..], f2[1..])
  }

  /** On two files of atom records only, no pair is skipped: the kept pairs
      are the whole `zip`. */
  lemma {:induction false} KeptPairsOfAtomFiles(f1: seq<string>, f2: seq<string>)
    requires forall k :: 0 <= k < |f1| ==> IsAtomRecord(f1[k])
    requires forall k :: 0 <= k < |f2| ==> IsAtomRecord(f2[k])
    ensures KeptPairs(f1, f2)
      == seq(Min(|f1|, |f2|), k requires 0 <= k < Min(|f1|, |f2|) => (f1[k], f2[k]))
    decreases |f1|
  {
    if f1 != [] && f2 != [] {
      KeptPairsOfAtomFiles(f1[1..], f2[1..]);
    }
  }

  /** The iterations that do something, in order. */
  function NonSkip(steps: seq<PairStep>): seq<PairStep> {
    if steps == [] then []
    else (if steps[0].Skip? then [] else [steps[0]]) + NonSkip(steps[1..])
  }

  /** Output line k comes from the k-th iteration that does something, and
      when the loop completes each such iteration wrote its line. */
  lemma {:induction false} RunWritesNonSkip(steps: seq<PairStep>)
    ensures |Run(steps).pseudo| <= |NonSkip(steps)|
    ensures forall k :: 0 <= k < |Run(steps).pseudo| ==>
      NonSkip(steps)[k] == Emit(Run(steps).pseudo[k], Run(steps).com[k])
    ensures Run(steps).status == Completed ==> |Run(steps).pseudo| == |NonSkip(steps)|
  {
    if steps != [] {
      RunWritesNonSkip(steps[1..]);
    }
  }

  /** The iterations that do something are those of the kept pairs. */
  lemma {:induction false} NonSkipZipIsKeptPairs(f1: seq<string>, f2: seq<string>)
    ensures |NonSkip(ZipSteps(f1, f2))| == |KeptPairs(f1, f2)|
    ensures forall k :: 0 <= k < |KeptPairs(f1, f2)| ==>
      NonSkip(ZipSteps(f1, f2))[k] == PairLines(KeptPairs(f1, f2)[k].0, KeptPairs(f1, f2)[k].1)
    decreases |f1|
  {
    if f1 != [] && f2 != [] {
      ZipStepsCons(f1[0], f2[0], f1[1..], f2[1..]);
      assert [f1[0]] + f1[1..] == f1 && [f2[0]] + f2[1..] == f2;
      NonSkipZipIsKeptPairs(f1[1..], f2[1..]);
    }
  }

  /** Output line k is the formatting of the k-th pair of atom records, and
      when the stage completes every such pair has its line. */
  lemma GenerateFormatsKeptPairs(f1: seq<string>, f2: seq<string>)
    ensures |Generate(f1, f2).pseudo| <= |KeptPairs(f1, f2)|
    ensures forall k :: 0 <= k < |Generate(f1, f2).pseudo| ==>
      PairLines(KeptPairs(f1, f2)[k].0, KeptPairs(f1, f2)[k].1)
        == Emit(Generate(f1, f2).pseudo[k], Generate(f1, f2).com[k])
    ensures Generate(f1, f2).status == Completed ==> |Generate(f1, f2).pseudo| == |KeptPairs(f1, f2)|
  {
    RunWritesNonSkip(ZipSteps(f1, f2));
    NonSkipZipIsKeptPairs(f1, f2);
  }

  /** The residue name is cut from columns 18-20 but written nowhere: lines
      that differ only there give the same output. */
  lemma ResidueNameUnused(l: string, l': string, m: string)
    requires |l| == |l'|
    requires forall k :: 0 <= k < |l| && !(17 <= k < 20) ==> l[k] == l'[k]
    ensures PairLines(l, m) == PairLines(l', m)
    ensures PairLines(m, l) == PairLines(m, l')
  {
    if |l| >= 4 {
      assert l[..4] == l'[..4];
    }
    if |l| > ChainColumn {
      assert Slice(l, 12, 16) == Slice(l', 12, 16);
      assert Slice(l, 22, 26) == Slice(l', 22, 26);
      var a, a' := ExtractFields(l).value, ExtractFields(l').value;
      assert a.atomName == a'.atomName && a.chainId == a'.chainId && a.resSeq == a'.resSeq;
    }
  }

  /** A record laid out column by column yields its stripped columns. */
  lemma ExtractFieldsOfLayout(l: string, head: string, name: string, alt: string, res: string, gap: string,
                              chain: char, resSeq: string, tail: string)
    requires |head| == 12 && |name| == 4 && |alt| == 1 && |res| == 3 && |gap| == 1 && |resSeq| == 4
    requires l == head + name + alt + res + gap + [chain] + resSeq + tail
    ensures ExtractFields(l) == Ok(AtomFields(Strip(name), Strip(res), Strip([chain]), Strip(resSeq)))
  {
    assert l[12..16] == name && l[17..20] == res && l[ChainColumn] == chain;
    assert l[22..26] == resSeq;
    assert Slice(l, 12, 16) == name && Slice(l, 17, 20) == res && Slice(l, 22, 26) == resSeq;
  }

  /** Two records in the wwPDB layout: the alpha carbon of alanine 5 in
      chain A and the beta carbon of glycine 7 in chain B. */
  lemma ExampleRecord1(l: string)
    requires l == "ATOM      1  CA  ALA A   5 ...\n"
    ensures l == "ATOM      1 " + " CA " + " " + "ALA" + " " + ['A'] + "   5" + " ...\n"
    ensures IsAtomRecord(l)
  {
    assert l[..4] == AtomTag;
  }

  lemma ExampleRecord2(l: string)
    requires l == "ATOM      1  CB  GLY B   7 ...\n"
    ensures l == "ATOM      1 " + " CB " + " " + "GLY" + " " + ['B'] + "   7" + " ...\n"
    ensures IsAtomRecord(l)
  {
    assert l[..4] == AtomTag;
  }

  /** Their columns, stripped. */
  lemma ExampleColumns1()
    ensures Strip(" CA ") == "CA" && Strip("ALA") == "ALA" && Strip(['A']) == "A" && Strip("   5") == "5"
  {
    StripPadded(" ", "CA", " ");
    StripPadded("", "ALA", "");
    StripPadded("", "A", "");
    StripPadded("   ", "5", "");
    assert " CA " == " " + "CA" + " " && "ALA" == "" + "ALA" + "";
    assert ['A'] == "" + "A" + "" && "   5" == "   " + "5" + "";
  }

  lemma ExampleColumns2()
    ensures Strip(" CB ") == "CB" && Strip("GLY") == "GLY" && Strip(['B']) == "B" && Strip("   7") == "7"
  {
    StripPadded(" ", "CB", " ");
    StripPadded("", "GLY", "");
    StripPadded("", "B", "");
    StripPadded("   ", "7", "");
    assert " CB " == " " + "CB" + " " && "GLY" == "" + "GLY" + "";
    assert ['B'] == "" + "B" + "" && "   7" == "   " + "7" + "";
  }

  const ExampleReference := "#0:5.A@CA #1:7.B@CB"

  /** Paired, the two records give the pseudobond `#0:5.A@CA #1:7.B@CB` and
      the matching distance command. */
  lemma ExamplePair(l1: string, l2: string)
    requires l1 == "ATOM      1  CA  ALA A   5 ...\n"
    requires l2 == "ATOM      1  CB  GLY B   7 ...\n"
    ensures PairLines(l1, l2) == Emit(ExampleReference + "\n", "distance " + ExampleReference + "\n")
  {
    ExampleRecord1(l1);
    ExampleRecord2(l2);
    ExtractFieldsOfLayout(l1, "ATOM      1 ", " CA ", " ", "ALA", " ", 'A', "   5", " ...\n");
    ExtractFieldsOfLayout(l2, "ATOM      1 ", " CB ", " ", "GLY", " ", 'B', "   7", " ...\n");
    ExampleColumns1();
    ExampleColumns2();
    ExampleRef();
  }

  /** The pair reference of the two example atoms. */
  lemma ExampleRef()
    ensures PairRef(AtomFields("CA", "ALA", "A", "5"), AtomFields("CB", "GLY", "B", "7")) == ExampleReference
  {
  }
}
