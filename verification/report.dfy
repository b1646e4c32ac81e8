/**
 * The end-of-job summary of the PandoraRemoval analyzer: sixteen labelled
 * lines, each meant to show one of the process-wide counters.
 */
module Report {
  import opened Truth
  import opened Analysis

  /** The quantity a summary line is labelled with. */
  datatype Quantity =
    | NuTotal | MuTotal | NuIsNu | NuIsMu | NuIsCr | NuIsNull
    | CrTotal | CrIsCr | CrIsNu | CrIsMu | CrIsNull
    | CutTotal | CutIsNu | CutIsMu | CutIsCr | CutIsNull

  /** The counter each label names. */
  function Value(c: Counters, q: Quantity): nat {
    match q
    case NuTotal => c.nu.total
    case MuTotal => c.nMu
    case NuIsNu => c.nu.isNu
    case NuIsMu => c.nu.isMu
    case NuIsCr => c.nu.isCr
    case NuIsNull => c.nu.isNull
    case CrTotal => c.cr.total
    case CrIsCr => c.cr.isCr
    case CrIsNu => c.cr.isNu
    case CrIsMu => c.cr.isMu
    case CrIsNull => c.cr.isNull
    case CutTotal => c.nuCut.total
    case CutIsNu => c.nuCut.isNu
    case CutIsMu => c.nuCut.isMu
    case CutIsCr => c.nuCut.isCr
    case CutIsNull => c.nuCut.isNull
  }

  /** One printed line: its label and the number printed after it. */
  datatype Line = Line(quantity: Quantity, value: nat)

  /** The labels in the order the summary prints them. */
  const LabelOrder: seq<Quantity> := [
    NuTotal, MuTotal, NuIsNu, NuIsMu, NuIsCr, NuIsNull,
    CrTotal, CrIsCr, CrIsNu, CrIsMu, CrIsNull,
    CutTotal, CutIsNu, CutIsMu, CutIsCr, CutIsNull]

  /** Every quantity is printed, and none twice. */
  lemma LabelOrderComplete(q: Quantity)
    ensures q in LabelOrder
    ensures forall i, j :: 0 <= i < j < |LabelOrder| ==> LabelOrder[i] != LabelOrder[j]
  {
  }

  /** Where the line labelled `q` is printed. */
  function Pos(q: Quantity): (i: nat)
    ensures i < |LabelOrder| && LabelOrder[i] == q
  {
    match q
    case NuTotal => 0
    case MuTotal => 1
    case NuIsNu => 2
    case NuIsMu => 3
    case NuIsCr => 4
    case NuIsNull => 5
    case CrTotal => 6
    case CrIsCr => 7
    case CrIsNu => 8
    case CrIsMu => 9
    case CrIsNull => 10
    case CutTotal => 11
    case CutIsNu => 12
    case CutIsMu => 13
    case CutIsCr => 14
    case CutIsNull => 15
  }

  /** The figure printed on the line labelled `q`. */
  function Shown(r: seq<Line>, q: Quantity): nat
    requires |r| == |LabelOrder|
  {
    r[Pos(q)].value
  }

  /** The summary as the analyzer prints it: the "Cr is Null" line shows the Cr-is-mu counter. */
  function SummaryAsWritten(c: Counters): (r: seq<Line>)
    ensures |r| == |LabelOrder|
    ensures forall i :: 0 <= i < |r| ==> r[i].quantity == LabelOrder[i]
    ensures forall i :: 0 <= i < |r| && r[i].quantity != CrIsNull ==> r[i].value == Value(c, r[i].quantity)
  {
    [ Line(NuTotal, c.nu.total), Line(MuTotal, c.nMu),
      Line(NuIsNu, c.nu.isNu), Line(NuIsMu, c.nu.isMu), Line(NuIsCr, c.nu.isCr), Line(NuIsNull, c.nu.isNull),
      Line(CrTotal, c.cr.total),
      Line(CrIsCr, c.cr.isCr), Line(CrIsNu, c.cr.isNu), Line(CrIsMu, c.cr.isMu), Line(CrIsNull, c.cr.isMu),
      Line(CutTotal, c.nuCut.total),
      Line(CutIsNu, c.nuCut.isNu), Line(CutIsMu, c.nuCut.isMu), Line(CutIsCr, c.nuCut.isCr),
      Line(CutIsNull, c.nuCut.isNull) ]
  }

  /** The printed "Cr is Null" figure is right exactly when Cr-is-mu happens to equal Cr-is-null. */
  lemma CrIsNullLineAsWritten(c: Counters)
    ensures SummaryAsWritten(c)[10].quantity == CrIsNull
    ensures SummaryAsWritten(c)[10].value == Value(c, CrIsNull) <==> c.cr.isMu == c.cr.isNull
  {
  }

  /** One cosmic-hypothesis track with no true match: the summary prints 0 under "Cr is Null". */
  lemma CrIsNullMisreported()
    ensures exists c: Counters :: SummaryAsWritten(c)[10].value != Value(c, SummaryAsWritten(c)[10].quantity)
  {
    var c := Counters(ZeroTally, Tally(1, 0, 0, 0, 1), ZeroTally, 0);
    assert SummaryAsWritten(c)[10] == Line(CrIsNull, 0);
    assert Value(c, CrIsNull) == 1;
  }

  /** The summary with the "Cr is Null" line showing the Cr-is-null counter. */
  function Summary(c: Counters): (r: seq<Line>)
    ensures |r| == |LabelOrder|
    ensures forall i :: 0 <= i < |r| ==> r[i].quantity == LabelOrder[i]
    ensures forall i :: 0 <= i < |r| ==> r[i].value == Value(c, r[i].quantity)
  {
    [ Line(NuTotal, c.nu.total), Line(MuTotal, c.nMu),
      Line(NuIsNu, c.nu.isNu), Line(NuIsMu, c.nu.isMu), Line(NuIsCr, c.nu.isCr), Line(NuIsNull, c.nu.isNull),
      Line(CrTotal, c.cr.total),
      Line(CrIsCr, c.cr.isCr), Line(CrIsNu, c.cr.isNu), Line(CrIsMu, c.cr.isMu), Line(CrIsNull, c.cr.isNull),
      Line(CutTotal, c.nuCut.total),
      Line(CutIsNu, c.nuCut.isNu), Line(CutIsMu, c.nuCut.isMu), Line(CutIsCr, c.nuCut.isCr),
      Line(CutIsNull, c.nuCut.isNull) ]
  }

  /**
   * For counters the job produced, each block of the corrected summary adds
   * up: every printed total is its Null, IsNu and IsCr lines summed, no IsMu
   * line exceeds its IsNu line, and no "(cut)" line exceeds its pre-cut line.
   */
  lemma SummaryAddsUp(c: Counters)
    requires Consistent(c)
    ensures var r := Summary(c);
      && Shown(r, NuTotal) == Shown(r, NuIsNu) + Shown(r, NuIsCr) + Shown(r, NuIsNull)
      && Shown(r, CrTotal) == Shown(r, CrIsNu) + Shown(r, CrIsCr) + Shown(r, CrIsNull)
      && Shown(r, CutTotal) == Shown(r, CutIsNu) + Shown(r, CutIsCr) + Shown(r, CutIsNull)
    ensures var r := Summary(c);
      && Shown(r, NuIsMu) <= Shown(r, NuIsNu) && Shown(r, CrIsMu) <= Shown(r, CrIsNu)
      && Shown(r, CutIsMu) <= Shown(r, CutIsNu)
    ensures var r := Summary(c);
      && Shown(r, CutTotal) <= Shown(r, NuTotal) && Shown(r, CutIsNull) <= Shown(r, NuIsNull)
      && Shown(r, CutIsNu) <= Shown(r, NuIsNu) && Shown(r, CutIsCr) <= Shown(r, NuIsCr)
      && Shown(r, CutIsMu) <= Shown(r, NuIsMu)
  {
  }

  /**
   * In the summary as the analyzer prints it, the neutrino and "(cut)" blocks
   * add up, but the cosmic block adds up only when Cr-is-mu happens to equal
   * Cr-is-null.
   */
  lemma SummaryAsWrittenAddsUp(c: Counters)
    requires Consistent(c)
    ensures var r := SummaryAsWritten(c);
      && Shown(r, NuTotal) == Shown(r, NuIsNu) + Shown(r, NuIsCr) + Shown(r, NuIsNull)
      && Shown(r, CutTotal) == Shown(r, CutIsNu) + Shown(r, CutIsCr) + Shown(r, CutIsNull)
    ensures var r := SummaryAsWritten(c);
      Shown(r, CrTotal) == Shown(r, CrIsNu) + Shown(r, CrIsCr) + Shown(r, CrIsNull) <==> c.cr.isMu == c.cr.isNull
  {
  }
}
