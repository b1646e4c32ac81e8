/**
 * The per-track cosmic-removal decision of the PandoraRemoval analyzer: an
 * ordered, short-circuit sequence of seven cuts over what the external
 * estimators (fiducial test, stopping test, TPC vote, CPA stitching, CRT
 * track and hit matching, APA crossing) report about one reconstructed track.
 * The estimators are not modelled; their answers are the fields of an
 * `Observation`.
 */
module Pipeline {

  /** The literal time every T0 estimator returns when it has no estimate. */
  const NoT0: real := -99999.0

  function Abs(x: real): (r: real)
    ensures r >= 0.0
    ensures r == x || r == -x
  {
    if x < 0.0 then -x else x
  }

  /** The only configuration the decision itself reads: the half-width of the beam window. */
  datatype Config = Config(beamTimeLimit: real)

  /** The (time, exits-fiducial) pair of the CPA stitching estimator. */
  datatype StitchResult = StitchResult(time: real, exits: bool)

  /** The value the stitch pair holds when no stitching is attempted. */
  const NoStitch: StitchResult := StitchResult(NoT0, false)

  /** What the estimators report about one track, before CPA stitching. */
  datatype Observation = Observation(
    startInFiducial: bool,       // start inside the fiducial volume (side and top margins)
    endInFiducial: bool,
    startInFiducialStop: bool,   // start inside the looser stopping-fiducial volume
    endInFiducialStop: bool,
    startStops: bool,            // the dE/dx profile at the start looks like a stopping particle
    endStops: bool,
    tpc: int,                    // the hit-majority TPC; may be neither 0 nor 1
    startX: real,
    endX: real,
    vertexX: real,               // x of the vertex, read by the APA branch
    priorT0s: seq<real>,         // T0s attached to the track by the upstream Pandora pass
    crtTrackTime: real,
    crtHitTime: real,
    apaCrossTime: real)

  datatype Cut = Fiducial | Stopping | CrossTpc | CpaStitch | CrtTrack | CrtHit | ApaCross

  datatype Verdict = Kept | Rejected(cut: Cut)

  /** The fixed order in which the cuts are applied. */
  const CutOrder: seq<Cut> := [Fiducial, Stopping, CrossTpc, CpaStitch, CrtTrack, CrtHit, ApaCross]

  /** The position of a cut in `CutOrder`. */
  function Rank(c: Cut): (r: nat)
    ensures r < |CutOrder| && CutOrder[r] == c
  {
    match c
    case Fiducial => 0
    case Stopping => 1
    case CrossTpc => 2
    case CpaStitch => 3
    case CrtTrack => 4
    case CrtHit => 5
    case ApaCross => 6
  }

  /** Cut 1: the track enters and exits the fiducial volume. */
  predicate FiducialRejects(o: Observation) {
    !o.startInFiducial && !o.endInFiducial
  }

  /** Cut 2: one end is inside the stopping volume and that end looks like it stops. */
  predicate StoppingRejects(o: Observation) {
    || (!o.startInFiducialStop && o.endInFiducialStop && o.endStops)
    || (o.startInFiducialStop && !o.endInFiducialStop && o.startStops)
  }

  /** Cut 3: the hits vote for one TPC while an endpoint lies on the other side of the cathode. */
  predicate CrossTpcRejects(o: Observation) {
    if o.tpc == 0 then o.startX > 0.0 || o.endX > 0.0
    else if o.tpc == 1 then o.startX < 0.0 || o.endX < 0.0
    else false
  }

  /** The stitch pair after the first prior Pandora T0 has stood in for a missing stitch time. */
  function EffectiveStitch(o: Observation, s: StitchResult): StitchResult {
    if s.time == NoT0 && |o.priorT0s| > 0 then s.(time := o.priorT0s[0]) else s
  }

  /** Cut 4: a stitch (or prior) time exists and is out of the beam window, or the stitched pair exits. */
  predicate CpaStitchRejects(cfg: Config, o: Observation, s: StitchResult) {
    var e := EffectiveStitch(o, s);
    e.time != NoT0 && (Abs(e.time) > cfg.beamTimeLimit || e.exits)
  }

  /** Cut 5: any CRT track match at all. */
  predicate CrtTrackRejects(o: Observation) {
    o.crtTrackTime != NoT0
  }

  /** Cut 6: a CRT hit match outside the beam window. */
  predicate CrtHitRejects(cfg: Config, o: Observation) {
    o.crtHitTime != NoT0 && Abs(o.crtHitTime) > cfg.beamTimeLimit
  }

  /**
   * Cut 7: an APA crossing time outside the beam window, when the start is
   * outside the fiducial volume, or the end lies beyond the vertex on the
   * TPC's outer side (greater x for TPC 0, smaller for TPC 1) and is outside it.
   */
  predicate ApaCrossRejects(cfg: Config, o: Observation) {
    && o.apaCrossTime != NoT0
    && Abs(o.apaCrossTime) > cfg.beamTimeLimit
    && if o.tpc == 0 then (o.vertexX < o.endX && !o.endInFiducial) || !o.startInFiducial
       else if o.tpc == 1 then (o.vertexX > o.endX && !o.endInFiducial) || !o.startInFiducial
       else false
  }

  /** Whether cut `c`, looked at on its own, rejects the track. */
  predicate Rejects(cfg: Config, o: Observation, s: StitchResult, c: Cut) {
    match c
    case Fiducial => FiducialRejects(o)
    case Stopping => StoppingRejects(o)
    case CrossTpc => CrossTpcRejects(o)
    case CpaStitch => CpaStitchRejects(cfg, o, s)
    case CrtTrack => CrtTrackRejects(o)
    case CrtHit => CrtHitRejects(cfg, o)
    case ApaCross => ApaCrossRejects(cfg, o)
  }

  /** Applies `cuts` in order and stops at the first one that rejects. */
  function FirstRejection(cfg: Config, o: Observation, s: StitchResult, cuts: seq<Cut>): (v: Verdict)
    ensures v.Kept? <==> forall i :: 0 <= i < |cuts| ==> !Rejects(cfg, o, s, cuts[i])
    ensures v.Rejected? ==>
      exists i :: 0 <= i < |cuts| && cuts[i] == v.cut && Rejects(cfg, o, s, cuts[i]) &&
        forall j :: 0 <= j < i ==> !Rejects(cfg, o, s, cuts[j])
  {
    if |cuts| == 0 then Kept
    else if Rejects(cfg, o, s, cuts[0]) then Rejected(cuts[0])
    else FirstRejection(cfg, o, s, cuts[1..])
  }

  /** Reads the contract of `FirstRejection` over `CutOrder` in terms of `Rank`. */
  lemma FirstRejectionInOrder(cfg: Config, o: Observation, s: StitchResult)
    ensures forall c: Cut :: FirstRejection(cfg, o, s, CutOrder) == Rejected(c) <==>
      Rejects(cfg, o, s, c) && forall c': Cut :: Rank(c') < Rank(c) ==> !Rejects(cfg, o, s, c')
  {
    var v := FirstRejection(cfg, o, s, CutOrder);
    forall c: Cut
      ensures v == Rejected(c) <==>
        Rejects(cfg, o, s, c) && forall c': Cut :: Rank(c') < Rank(c) ==> !Rejects(cfg, o, s, c')
    {
      if v == Rejected(c) {
        var i :| 0 <= i < |CutOrder| && CutOrder[i] == c && Rejects(cfg, o, s, CutOrder[i]) &&
          forall j :: 0 <= j < i ==> !Rejects(cfg, o, s, CutOrder[j]);
        assert i == Rank(c);
        forall c': Cut | Rank(c') < Rank(c)
          ensures !Rejects(cfg, o, s, c')
        {
          assert CutOrder[Rank(c')] == c';
        }
      }
      if Rejects(cfg, o, s, c) && forall c': Cut :: Rank(c') < Rank(c) ==> !Rejects(cfg, o, s, c') {
        assert CutOrder[Rank(c)] == c;
        assert !v.Kept?;
        var i :| 0 <= i < |CutOrder| && CutOrder[i] == v.cut && Rejects(cfg, o, s, CutOrder[i]) &&
          forall j :: 0 <= j < i ==> !Rejects(cfg, o, s, CutOrder[j]);
        assert Rank(v.cut) == i;
      }
    }
  }

  /**
   * The verdict for one track, given its observation and the stitch pair
   * computed against the opposite TPC's pool.
   */
  function Classify(cfg: Config, o: Observation, s: StitchResult): (v: Verdict)
    ensures v.Kept? <==> forall c: Cut :: !Rejects(cfg, o, s, c)
    ensures forall c: Cut :: v == Rejected(c) <==>
      Rejects(cfg, o, s, c) && forall c': Cut :: Rank(c') < Rank(c) ==> !Rejects(cfg, o, s, c')
  {
    FirstRejectionInOrder(cfg, o, s);
    assert forall c: Cut :: CutOrder[Rank(c)] == c;
    FirstRejection(cfg, o, s, CutOrder)
  }

  /** A track outside the fiducial volume at both ends is rejected by cut 1, whatever the later cuts would say. */
  lemma FiducialCutIsFinal(cfg: Config, o: Observation, s: StitchResult)
    requires !o.startInFiducial && !o.endInFiducial
    ensures Classify(cfg, o, s) == Rejected(Fiducial)
  {
  }

  /**
   * Once cut 1 passes, cut 2 rejects exactly when one end is inside the
   * stopping volume and that same end stops; both-inside and both-outside never reject.
   */
  lemma StoppingCut(cfg: Config, o: Observation, s: StitchResult)
    requires o.startInFiducial || o.endInFiducial
    ensures Classify(cfg, o, s) == Rejected(Stopping) <==>
      o.startInFiducialStop != o.endInFiducialStop &&
      (if o.startInFiducialStop then o.startStops else o.endStops)
    ensures o.startInFiducialStop == o.endInFiducialStop ==> Classify(cfg, o, s) != Rejected(Stopping)
  {
  }

  /**
   * Once cuts 1-2 pass, cut 3 rejects a TPC-0 track with an endpoint at x > 0
   * and a TPC-1 track with an endpoint at x < 0; any other TPC value never triggers it.
   */
  lemma CrossTpcCut(cfg: Config, o: Observation, s: StitchResult)
    requires !FiducialRejects(o) && !StoppingRejects(o)
    ensures Classify(cfg, o, s) == Rejected(CrossTpc) <==>
      || (o.tpc == 0 && (o.startX > 0.0 || o.endX > 0.0))
      || (o.tpc == 1 && (o.startX < 0.0 || o.endX < 0.0))
    ensures o.tpc != 0 && o.tpc != 1 ==> Classify(cfg, o, s) != Rejected(CrossTpc)
  {
  }

  /**
   * The first prior T0 stands in for the stitch time only when the stitcher
   * answered with the sentinel; the exit flag is never replaced.
   */
  lemma PriorT0Fallback(o: Observation, s: StitchResult)
    ensures EffectiveStitch(o, s).exits == s.exits
    ensures s.time != NoT0 ==> EffectiveStitch(o, s) == s
    ensures s.time == NoT0 && |o.priorT0s| > 0 ==> EffectiveStitch(o, s).time == o.priorT0s[0]
    ensures s.time == NoT0 && |o.priorT0s| == 0 ==> EffectiveStitch(o, s).time == NoT0
  {
  }

  /**
   * Once cuts 1-3 pass, cut 4 rejects exactly when the time that survives the
   * prior-T0 fallback is a real estimate and is either outside the beam window
   * or comes with the exit flag.
   */
  lemma CpaStitchCut(cfg: Config, o: Observation, s: StitchResult)
    requires !FiducialRejects(o) && !StoppingRejects(o) && !CrossTpcRejects(o)
    ensures Classify(cfg, o, s) == Rejected(CpaStitch) <==>
      var t := if s.time == NoT0 && |o.priorT0s| > 0 then o.priorT0s[0] else s.time;
      t != NoT0 && (Abs(t) > cfg.beamTimeLimit || s.exits)
  {
  }

  /**
   * A genuine time that happens to equal the sentinel is taken for "no
   * estimate": with no usable prior T0 the stitch cut passes even when the
   * exit flag is set or the value lies far outside the beam window.
   */
  lemma SentinelTimeIsAbsent(cfg: Config, o: Observation, s: StitchResult)
    requires s.time == NoT0
    requires |o.priorT0s| == 0 || o.priorT0s[0] == NoT0
    ensures !CpaStitchRejects(cfg, o, s)
    ensures !CpaStitchRejects(cfg, o, s.(exits := true))
    ensures forall t :: t != NoT0 && Abs(t) > cfg.beamTimeLimit ==> CpaStitchRejects(cfg, o, StitchResult(t, false))
    ensures forall t :: t != NoT0 ==> CpaStitchRejects(cfg, o, StitchResult(t, true))
  {
  }

  /** Once cuts 1-4 pass, any CRT track time other than the sentinel rejects, whatever its value. */
  lemma CrtTrackCut(cfg: Config, o: Observation, s: StitchResult)
    requires !FiducialRejects(o) && !StoppingRejects(o) && !CrossTpcRejects(o)
    requires !CpaStitchRejects(cfg, o, s)
    ensures Classify(cfg, o, s) == Rejected(CrtTrack) <==> o.crtTrackTime != NoT0
    ensures o.crtTrackTime == 0.0 ==> Classify(cfg, o, s) == Rejected(CrtTrack)
  {
  }

  /** Once cuts 1-5 pass, a CRT hit time rejects only when it is an estimate outside the beam window. */
  lemma CrtHitCut(cfg: Config, o: Observation, s: StitchResult)
    requires !FiducialRejects(o) && !StoppingRejects(o) && !CrossTpcRejects(o)
    requires !CpaStitchRejects(cfg, o, s) && !CrtTrackRejects(o)
    ensures Classify(cfg, o, s) == Rejected(CrtHit) <==>
      o.crtHitTime != NoT0 && Abs(o.crtHitTime) > cfg.beamTimeLimit
  {
  }

  /**
   * Once cuts 1-6 pass, cut 7 can reject only an out-of-window APA crossing of
   * a TPC-0 or TPC-1 track; such a TPC-0 track is kept exactly when its start
   * is fiducial and it is not the case that it runs towards +x with its end
   * outside, and a TPC-1 track likewise with the direction reversed.
   */
  lemma ApaCrossCut(cfg: Config, o: Observation, s: StitchResult)
    requires !FiducialRejects(o) && !StoppingRejects(o) && !CrossTpcRejects(o)
    requires !CpaStitchRejects(cfg, o, s) && !CrtTrackRejects(o) && !CrtHitRejects(cfg, o)
    ensures Classify(cfg, o, s) == Rejected(ApaCross) ==>
      o.apaCrossTime != NoT0 && Abs(o.apaCrossTime) > cfg.beamTimeLimit && (o.tpc == 0 || o.tpc == 1)
    ensures o.apaCrossTime != NoT0 && Abs(o.apaCrossTime) > cfg.beamTimeLimit && o.tpc == 0 ==>
      (Classify(cfg, o, s) == Kept <==> o.startInFiducial && !(o.vertexX < o.endX && !o.endInFiducial))
    ensures o.apaCrossTime != NoT0 && Abs(o.apaCrossTime) > cfg.beamTimeLimit && o.tpc == 1 ==>
      (Classify(cfg, o, s) == Kept <==> o.startInFiducial && !(o.vertexX > o.endX && !o.endInFiducial))
    ensures Classify(cfg, o, s) == Kept || Classify(cfg, o, s) == Rejected(ApaCross)
  {
    assert forall c: Cut :: c != ApaCross ==> !Rejects(cfg, o, s, c);
    assert Rejects(cfg, o, s, ApaCross) == ApaCrossRejects(cfg, o);
    assert Classify(cfg, o, s) == Kept <==> !ApaCrossRejects(cfg, o);
  }

  /** The observation of the same track seen in the mirrored detector: x negated, TPC 0 and 1 swapped. */
  function Mirror(o: Observation): Observation {
    o.(tpc := if o.tpc == 0 then 1 else if o.tpc == 1 then 0 else o.tpc,
       startX := -o.startX, endX := -o.endX, vertexX := -o.vertexX)
  }

  /**
   * The two TPC branches of cuts 3 and 7 are mirror images of each other: the
   * verdict does not change when the detector is reflected through the cathode
   * (with the estimators reporting the same answers).
   */
  lemma MirrorSymmetry(cfg: Config, o: Observation, s: StitchResult)
    ensures Classify(cfg, Mirror(o), s) == Classify(cfg, o, s)
  {
    assert forall c: Cut :: Rejects(cfg, Mirror(o), s, c) == Rejects(cfg, o, s, c);
  }
}
