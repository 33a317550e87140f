/** The script's main sequence: filter both structure files, pair their atom
    records, let the visualisation tool measure the pairs, and turn its
    report into an attribute file. The tool is not modelled: its report is
    a parameter. Every stage runs whatever the previous stage ended with,
    as the script ignores how each stage ended. */
module Pipeline {
  import opened PyStr
  import opened Outcomes
  import opened AtomFilter
  import opened PairGenerator
  import opened DistanceAttributes

  /** The files the pipeline writes, apart from the tool's report. */
  datatype Outputs = Outputs(
    output1: seq<string>,    // output1.pdb
    output2: seq<string>,    // output2.pdb
    pseudobond: seq<string>, // Pseudobond.pd
    com: seq<string>,        // output.com
    attribute: seq<string>)  // attribute.txt

  /** Runs the four stages in order; `report` is the content of the tool's
      report file when the last stage reads it. A filtered file is read back
      as the lines that were written to it. */
  method RunPipeline(pdb1: seq<string>, pdb2: seq<string>, report: seq<string>) returns (out: Outputs)
    ensures out.output1 == FilterAtoms(pdb1) && out.output2 == FilterAtoms(pdb2)
    ensures out.pseudobond == Generate(FilterAtoms(pdb1), FilterAtoms(pdb2)).pseudo
    ensures out.com == Generate(FilterAtoms(pdb1), FilterAtoms(pdb2)).com
    ensures out.attribute == AttributeFile(report)
  {
    var output1 := ExtractAtomLines(pdb1);
    var output2 := ExtractAtomLines(pdb2);
    var pseudobond, com, pairStatus := GenerateFiles(output1, output2);
    var attribute, distanceStatus := ExtractAndTransformDistances(report);
    out := Outputs(output1, output2, pseudobond, com, attribute);
  }

  /** Every atom record of a file is long enough to hold the chain column. */
  predicate AtomRecordsHaveChain(pdb: seq<string>) {
    forall k :: 0 <= k < |pdb| && IsAtomRecord(pdb[k]) ==> |pdb[k]| > ChainColumn
  }

  lemma FilteredRecordsHaveChain(pdb: seq<string>)
    requires AtomRecordsHaveChain(pdb)
    ensures forall k :: 0 <= k < |FilterAtoms(pdb)| ==>
      IsAtomRecord(FilterAtoms(pdb)[k]) && |FilterAtoms(pdb)[k]| > ChainColumn
  {
    FilterAtomsSound(pdb);
  }

  /** When every atom record of both inputs has a chain column, the pair
      files get one line per positional pair of atom records: as many as the
      smaller number of atom records in the two inputs. */
  lemma PipelinePairCount(pdb1: seq<string>, pdb2: seq<string>)
    requires AtomRecordsHaveChain(pdb1) && AtomRecordsHaveChain(pdb2)
    ensures Generate(FilterAtoms(pdb1), FilterAtoms(pdb2)).status == Completed
    ensures |Generate(FilterAtoms(pdb1), FilterAtoms(pdb2)).pseudo| == Min(|FilterAtoms(pdb1)|, |FilterAtoms(pdb2)|)
    ensures |Generate(FilterAtoms(pdb1), FilterAtoms(pdb2)).com| == Min(|FilterAtoms(pdb1)|, |FilterAtoms(pdb2)|)
  {
    FilteredRecordsHaveChain(pdb1);
    FilteredRecordsHaveChain(pdb2);
    GenerateAllAtoms(FilterAtoms(pdb1), FilterAtoms(pdb2));
  }

  /** The pairing stage never skips a pair in the pipeline: the filtered
      files hold only atom records, so the k-th output line always formats
      the k-th atom records of the two inputs. */
  lemma PipelinePairsAreAligned(pdb1: seq<string>, pdb2: seq<string>)
    ensures KeptPairs(FilterAtoms(pdb1), FilterAtoms(pdb2))
      == seq(Min(|FilterAtoms(pdb1)|, |FilterAtoms(pdb2)|), k requires 0 <= k < Min(|FilterAtoms(pdb1)|, |FilterAtoms(pdb2)|) =>
           (FilterAtoms(pdb1)[k], FilterAtoms(pdb2)[k]))
  {
    FilterAtomsSound(pdb1);
    FilterAtomsSound(pdb2);
    KeptPairsOfAtomFiles(FilterAtoms(pdb1), FilterAtoms(pdb2));
  }
}
