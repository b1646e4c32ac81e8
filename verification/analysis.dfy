/**
 * One event of the PandoraRemoval analyzer end to end: final-state split,
 * track resolution, pre-cut truth tallies, the TPC stitching pools, the cut
 * pipeline on every neutrino-hypothesis track, and the post-cut tally; then
 * the job as a fold of events into the process-wide counters.
 */
module Analysis {
  import opened Pipeline
  import opened Truth
  import opened Hierarchy

  /** A data product the event may or may not hold. */
  datatype Option<+T> = None | Some(value: T)

  /** A reconstructed track: its id, the true particle its hits match best, and what the estimators report. */
  datatype Track = Track(id: int, trueId: int, obs: Observation)

  /** The data products of one event the analyzer reads. */
  datatype Event = Event(
    pfParticles: Option<seq<PFParticle>>,   // None when the PFParticle product is missing
    trackAssoc: seq<seq<Track>>,            // tracks associated with each PFParticle, by index
    showerAssoc: seq<seq<nat>>,             // showers associated with each PFParticle, by index
    trueParticles: seq<TrueParticle>)

  /** Associations cover the whole PFParticle collection and every neutrino daughter id resolves. */
  predicate WellFormedEvent(ev: Event) {
    ev.pfParticles.Some? ==>
      && |ev.trackAssoc| == |ev.pfParticles.value|
      && |ev.showerAssoc| == |ev.pfParticles.value|
      && DaughtersResolve(ev.pfParticles.value)
  }

  /** The external CPA stitching estimator: a track and the candidate pool it is matched against. */
  type Stitcher = (Track, seq<Track>) -> StitchResult

  /** The stitching candidates reconstructed wholly in TPC 0 and wholly in TPC 1. */
  datatype Pools = Pools(tpc0: seq<Track>, tpc1: seq<Track>)

  /** `xs` lists some of the entries of `ys`, in the order `ys` lists them. */
  predicate IsSubsequence<T(==)>(xs: seq<T>, ys: seq<T>)
    decreases |ys|
  {
    || |xs| == 0
    || (&& |ys| > 0
        && (|| (xs[0] == ys[0] && IsSubsequence(xs[1..], ys[1..]))
            || IsSubsequence(xs, ys[1..])))
  }

  /** A track qualifies for the pool of TPC `k`. */
  predicate InPool(t: Track, k: int)
    ensures k == 0 ==> (InPool(t, k) <==> t.obs.tpc == 0 && t.obs.startX <= 0.0 && t.obs.endX <= 0.0)
    ensures k == 1 ==> (InPool(t, k) <==> t.obs.tpc == 1 && t.obs.startX >= 0.0 && t.obs.endX >= 0.0)
  {
    t.obs.tpc == k && !CrossTpcRejects(t.obs)
  }

  /** Sorts the neutrino-hypothesis tracks into the two stitching pools. */
  function SplitPools(tracks: seq<Track>): (p: Pools)
    ensures forall t :: t in p.tpc0 <==> t in tracks && t.obs.tpc == 0 && !CrossTpcRejects(t.obs)
    ensures forall t :: t in p.tpc1 <==> t in tracks && t.obs.tpc == 1 && !CrossTpcRejects(t.obs)
    ensures |p.tpc0| + |p.tpc1| <= |tracks|
  {
    if |tracks| == 0 then Pools([], [])
    else
      var t, rest := tracks[0], tracks[1..];
      assert forall u :: u in tracks <==> u == t || u in rest;
      var p := SplitPools(rest);
      if InPool(t, 0) then p.(tpc0 := [t] + p.tpc0)
      else if InPool(t, 1) then p.(tpc1 := [t] + p.tpc1)
      else p
  }

  /** The pool of TPC `k`. */
  function PoolOf(p: Pools, k: int): seq<Track> {
    if k == 0 then p.tpc0 else p.tpc1
  }

  /** One step of the split: the head track goes to the front of its pool, if any. */
  lemma SplitPoolsStep(tracks: seq<Track>, k: int)
    requires |tracks| > 0 && (k == 0 || k == 1)
    ensures PoolOf(SplitPools(tracks), k) ==
      (if InPool(tracks[0], k) then [tracks[0]] else []) + PoolOf(SplitPools(tracks[1..]), k)
  {
    var t, p := tracks[0], SplitPools(tracks[1..]);
    assert SplitPools(tracks) ==
      if InPool(t, 0) then p.(tpc0 := [t] + p.tpc0)
      else if InPool(t, 1) then p.(tpc1 := [t] + p.tpc1)
      else p;
  }

  /** The pool of TPC `k` holds every copy of each track that qualifies for it, and none of any other. */
  lemma {:induction false} PoolKeepsCopies(tracks: seq<Track>, k: int)
    requires k == 0 || k == 1
    ensures forall t :: multiset(PoolOf(SplitPools(tracks), k))[t] == (if InPool(t, k) then multiset(tracks)[t] else 0)
  {
    if |tracks| > 0 {
      var t, rest := tracks[0], tracks[1..];
      assert tracks == [t] + rest;
      PoolKeepsCopies(rest, k);
      SplitPoolsStep(tracks, k);
    }
  }

  /** The pool of TPC `k` lists its tracks in input order. */
  lemma {:induction false} PoolKeepsOrder(tracks: seq<Track>, k: int)
    requires k == 0 || k == 1
    ensures IsSubsequence(PoolOf(SplitPools(tracks), k), tracks)
  {
    if |tracks| > 0 {
      var t, rest := tracks[0], tracks[1..];
      PoolKeepsOrder(rest, k);
      SplitPoolsStep(tracks, k);
      var pool := PoolOf(SplitPools(rest), k);
      if InPool(t, k) {
        assert ([t] + pool)[1..] == pool;
      }
    }
  }

  /**
   * Each pool keeps the input order and every copy of each track it accepts,
   * which is what the stitcher is handed.
   */
  lemma PoolsKeepOrderAndCopies(tracks: seq<Track>)
    ensures forall t :: multiset(SplitPools(tracks).tpc0)[t] == (if InPool(t, 0) then multiset(tracks)[t] else 0)
    ensures forall t :: multiset(SplitPools(tracks).tpc1)[t] == (if InPool(t, 1) then multiset(tracks)[t] else 0)
    ensures IsSubsequence(SplitPools(tracks).tpc0, tracks)
    ensures IsSubsequence(SplitPools(tracks).tpc1, tracks)
  {
    PoolKeepsCopies(tracks, 0);
    PoolKeepsCopies(tracks, 1);
    PoolKeepsOrder(tracks, 0);
    PoolKeepsOrder(tracks, 1);
  }

  /** No track sits in both pools. */
  lemma PoolsDisjoint(tracks: seq<Track>, t: Track)
    ensures !(t in SplitPools(tracks).tpc0 && t in SplitPools(tracks).tpc1)
  {
  }

  /** The pool a track is stitched against: the other TPC's, and none for any other TPC value. */
  function StitchPool(t: Track, pools: Pools): Option<seq<Track>> {
    if t.obs.tpc == 0 then Some(pools.tpc1)
    else if t.obs.tpc == 1 then Some(pools.tpc0)
    else None
  }

  /** The stitch pair the cut pipeline sees for `t`. */
  function StitchFor(stitcher: Stitcher, t: Track, pools: Pools): StitchResult {
    match StitchPool(t, pools)
    case Some(pool) => stitcher(t, pool)
    case None => NoStitch
  }

  /**
   * Stitching is attempted only for a TPC-0 or TPC-1 track, and then only
   * against tracks of the opposite TPC that survive the cross-TPC check;
   * otherwise the pipeline sees the sentinel pair.
   */
  lemma StitchAgainstOppositePool(stitcher: Stitcher, tracks: seq<Track>, t: Track)
    ensures StitchPool(t, SplitPools(tracks)).Some? <==> t.obs.tpc == 0 || t.obs.tpc == 1
    ensures StitchPool(t, SplitPools(tracks)).Some? ==>
      forall u :: u in StitchPool(t, SplitPools(tracks)).value <==>
        u in tracks && u.obs.tpc == 1 - t.obs.tpc && !CrossTpcRejects(u.obs)
    ensures StitchPool(t, SplitPools(tracks)).None? ==> StitchFor(stitcher, t, SplitPools(tracks)) == NoStitch
  {
  }

  /** The verdict of the cut pipeline on one neutrino-hypothesis track. */
  function TrackVerdict(cfg: Config, stitcher: Stitcher, pools: Pools, t: Track): Verdict {
    Classify(cfg, t.obs, StitchFor(stitcher, t, pools))
  }

  /** The tracks that survive every cut, in their original order and with repeats kept. */
  function KeptTracks(cfg: Config, stitcher: Stitcher, pools: Pools, ts: seq<Track>): (kept: seq<Track>)
    ensures forall t :: t in kept <==> t in ts && TrackVerdict(cfg, stitcher, pools, t) == Kept
    ensures forall t ::
      multiset(kept)[t] == (if TrackVerdict(cfg, stitcher, pools, t) == Kept then multiset(ts)[t] else 0)
    ensures IsSubsequence(kept, ts)
    ensures |kept| <= |ts|
  {
    if |ts| == 0 then []
    else
      assert ts == [ts[0]] + ts[1..];
      var rest := KeptTracks(cfg, stitcher, pools, ts[1..]);
      if TrackVerdict(cfg, stitcher, pools, ts[0]) == Kept then
        assert ([ts[0]] + rest)[1..] == rest;
        [ts[0]] + rest
      else rest
  }

  /** The true-particle ids the tracks' hits are matched to, in order. */
  function TrueIdsOf(ts: seq<Track>): (r: seq<int>)
    ensures |r| == |ts|
    ensures forall i :: 0 <= i < |ts| ==> r[i] == ts[i].trueId
  {
    if |ts| == 0 then [] else [ts[0].trueId] + TrueIdsOf(ts[1..])
  }

  /** Scoring only the surviving tracks never counts more, in any category, than scoring all of them. */
  lemma {:induction false} KeptTallyWithin(
    a: Tally, ids: TruthIds, cfg: Config, stitcher: Stitcher, pools: Pools, ts: seq<Track>)
    ensures TallyAll(a, ids, TrueIdsOf(KeptTracks(cfg, stitcher, pools, ts))).Le(TallyAll(a, ids, TrueIdsOf(ts)))
    decreases |ts|
  {
    if |ts| > 0 {
      var x, rest := ts[0], ts[1..];
      var ra := Record(a, ids, x.trueId);
      var keptRest := KeptTracks(cfg, stitcher, pools, rest);
      assert TallyAll(a, ids, TrueIdsOf(ts)) == TallyAll(ra, ids, TrueIdsOf(rest));
      if TrackVerdict(cfg, stitcher, pools, x) == Kept {
        assert KeptTracks(cfg, stitcher, pools, ts) == [x] + keptRest;
        assert ([x] + keptRest)[1..] == keptRest;
        assert TallyAll(a, ids, TrueIdsOf([x] + keptRest)) == TallyAll(ra, ids, TrueIdsOf(keptRest));
        KeptTallyWithin(ra, ids, cfg, stitcher, pools, rest);
      } else {
        assert KeptTracks(cfg, stitcher, pools, ts) == keptRest;
        KeptTallyWithin(a, ids, cfg, stitcher, pools, rest);
        TallyAllMonotone(a, ra, ids, TrueIdsOf(rest));
      }
    }
  }

  /** What one event selects: the truth ids, both track populations and the surviving tracks. */
  datatype Selection = Selection(ids: TruthIds, nuTracks: seq<Track>, crTracks: seq<Track>, kept: seq<Track>)

  /**
   * What the analyzer selects from an event with PFParticles: the truth ids
   * of its true particles; as neutrino-hypothesis tracks, the lone tracks of
   * the first-listed daughters of neutrino primaries; as cosmic-hypothesis
   * tracks, the lone tracks of the first-listed cosmic primaries; and the
   * neutrino-hypothesis tracks the cuts keep.
   */
  function Select(cfg: Config, ev: Event, stitcher: Stitcher): (s: Selection)
    requires WellFormedEvent(ev) && ev.pfParticles.Some?
    ensures s.ids == BuildTruthIds(ev.trueParticles) && WellFormed(s.ids)
    ensures var ps := ev.pfParticles.value;
      forall t :: t in s.crTracks <==>
        exists i :: 0 <= i < |ps| && IsFirstOfId(ps, i) && IsCosmicPrimary(ps[i])
          && ev.trackAssoc[i] == [t] && ev.showerAssoc[i] == []
    ensures var ps := ev.pfParticles.value;
      forall t :: t in s.nuTracks <==>
        exists i :: 0 <= i < |ps| && IsFirstOfId(ps, i)
          && (exists p :: 0 <= p < |ps| && IsFirstOfId(ps, p) && IsNeutrinoPrimary(ps[p]) && ps[i].self in ps[p].daughters)
          && ev.trackAssoc[i] == [t] && ev.showerAssoc[i] == []
    ensures s.kept == KeptTracks(cfg, stitcher, SplitPools(s.nuTracks), s.nuTracks)
  {
    var ps := ev.pfParticles.value;
    FinalStateCosmic(ps);
    FinalStateNeutrino(ps);
    FinalStatesInRange(ps);
    var fs := FinalStateVectors(ps);
    var nu := CollectTracksAndShowers(fs.neutrino, ev.trackAssoc, ev.showerAssoc).tracks;
    var cr := CollectTracksAndShowers(fs.cosmic, ev.trackAssoc, ev.showerAssoc).tracks;
    Selection(BuildTruthIds(ev.trueParticles), nu, cr, KeptTracks(cfg, stitcher, SplitPools(nu), nu))
  }

  /** The process-wide counters: neutrino-hypothesis tracks before and after the cuts, cosmic-hypothesis tracks, true muons. */
  datatype Counters = Counters(nu: Tally, cr: Tally, nuCut: Tally, nMu: nat) {

    function Plus(other: Counters): Counters {
      Counters(nu.Plus(other.nu), cr.Plus(other.cr), nuCut.Plus(other.nuCut), nMu + other.nMu)
    }
  }

  const ZeroCounters: Counters := Counters(ZeroTally, ZeroTally, ZeroTally, 0)

  /**
   * Every tally is balanced and keeps IsMu within IsNu, and no post-cut
   * counter is ahead of its pre-cut counterpart.
   */
  predicate Consistent(c: Counters) {
    && Balanced(c.nu) && Balanced(c.cr) && Balanced(c.nuCut)
    && MuWithinNu(c.nu) && MuWithinNu(c.cr) && MuWithinNu(c.nuCut)
    && c.nuCut.Le(c.nu)
  }

  /** Scores the selection of one event into the counters. */
  function CountSelection(c: Counters, s: Selection): Counters {
    Counters(
      TallyAll(c.nu, s.ids, TrueIdsOf(s.nuTracks)),
      TallyAll(c.cr, s.ids, TrueIdsOf(s.crTracks)),
      TallyAll(c.nuCut, s.ids, TrueIdsOf(s.kept)),
      c.nMu + |s.ids.lepIds|)
  }

  /** Each tally's total grows by the number of tracks it scores. */
  lemma SelectionTotals(c: Counters, s: Selection)
    ensures CountSelection(c, s).nu.total == c.nu.total + |s.nuTracks|
    ensures CountSelection(c, s).cr.total == c.cr.total + |s.crTracks|
    ensures CountSelection(c, s).nuCut.total == c.nuCut.total + |s.kept|
  {
    TallyAllTotal(c.nu, s.ids, TrueIdsOf(s.nuTracks));
    TallyAllTotal(c.cr, s.ids, TrueIdsOf(s.crTracks));
    TallyAllTotal(c.nuCut, s.ids, TrueIdsOf(s.kept));
  }

  /** Processes one event, incrementing the counters in place; an event without PFParticles is skipped. */
  function AnalyzeEvent(cfg: Config, c: Counters, ev: Event, stitcher: Stitcher): (r: Counters)
    requires WellFormedEvent(ev)
    ensures ev.pfParticles.None? ==> r == c
  {
    match ev.pfParticles
    case None => c
    case Some(_) => CountSelection(c, Select(cfg, ev, stitcher))
  }

  /** Incrementing the counters in place adds the event's own counts. */
  lemma AnalyzeEventAdds(cfg: Config, c: Counters, ev: Event, stitcher: Stitcher)
    requires WellFormedEvent(ev)
    ensures AnalyzeEvent(cfg, c, ev, stitcher) == c.Plus(AnalyzeEvent(cfg, ZeroCounters, ev, stitcher))
  {
    if ev.pfParticles.Some? {
      SelectionAdds(c, Select(cfg, ev, stitcher));
    }
  }

  lemma SelectionAdds(c: Counters, s: Selection)
    ensures CountSelection(c, s) == c.Plus(CountSelection(ZeroCounters, s))
  {
    TallyAllAdds(c.nu, s.ids, TrueIdsOf(s.nuTracks));
    TallyAllAdds(c.cr, s.ids, TrueIdsOf(s.crTracks));
    TallyAllAdds(c.nuCut, s.ids, TrueIdsOf(s.kept));
  }

  /**
   * The counts of a single event are consistent: in particular every post-cut
   * count of the event is at most the matching pre-cut count of the same event.
   */
  lemma EventCountsConsistent(cfg: Config, ev: Event, stitcher: Stitcher)
    requires WellFormedEvent(ev)
    ensures Consistent(AnalyzeEvent(cfg, ZeroCounters, ev, stitcher))
  {
    if ev.pfParticles.Some? {
      var s := Select(cfg, ev, stitcher);
      assert AnalyzeEvent(cfg, ZeroCounters, ev, stitcher) == CountSelection(ZeroCounters, s);
      SelectionCountsConsistent(cfg, stitcher, s.ids, s.nuTracks, s.crTracks);
    }
  }

  /** The counts of the selection of one event are consistent, the surviving tracks being those the cuts keep. */
  lemma SelectionCountsConsistent(cfg: Config, stitcher: Stitcher, ids: TruthIds, nu: seq<Track>, cr: seq<Track>)
    requires WellFormed(ids)
    ensures Consistent(CountSelection(ZeroCounters,
      Selection(ids, nu, cr, KeptTracks(cfg, stitcher, SplitPools(nu), nu))))
  {
    var kept := KeptTracks(cfg, stitcher, SplitPools(nu), nu);
    TallyFromZero(ids, TrueIdsOf(nu));
    TallyFromZero(ids, TrueIdsOf(cr));
    TallyFromZero(ids, TrueIdsOf(kept));
    KeptTallyWithin(ZeroTally, ids, cfg, stitcher, SplitPools(nu), nu);
  }

  /** Adding consistent counters gives consistent counters. */
  lemma PlusConsistent(a: Counters, b: Counters)
    requires Consistent(a) && Consistent(b)
    ensures Consistent(a.Plus(b))
  {
  }

  /** Processing an event keeps consistent counters consistent. */
  lemma AnalyzeEventKeepsConsistent(cfg: Config, c: Counters, ev: Event, stitcher: Stitcher)
    requires WellFormedEvent(ev)
    requires Consistent(c)
    ensures Consistent(AnalyzeEvent(cfg, c, ev, stitcher))
  {
    AnalyzeEventAdds(cfg, c, ev, stitcher);
    EventCountsConsistent(cfg, ev, stitcher);
    PlusConsistent(c, AnalyzeEvent(cfg, ZeroCounters, ev, stitcher));
  }

  /** Folds events into the counters in order. */
  function RunEvents(cfg: Config, c: Counters, events: seq<Event>, stitcher: Stitcher): Counters
    requires forall i :: 0 <= i < |events| ==> WellFormedEvent(events[i])
    decreases |events|
  {
    if |events| == 0 then c else RunEvents(cfg, AnalyzeEvent(cfg, c, events[0], stitcher), events[1..], stitcher)
  }

  /** The whole job: counters reset at the start, then every event in turn. */
  function RunJob(cfg: Config, events: seq<Event>, stitcher: Stitcher): Counters
    requires forall i :: 0 <= i < |events| ==> WellFormedEvent(events[i])
  {
    RunEvents(cfg, ZeroCounters, events, stitcher)
  }

  /** The counters reported at the end of the job are consistent. */
  lemma {:induction false} RunEventsConsistent(cfg: Config, c: Counters, events: seq<Event>, stitcher: Stitcher)
    requires forall i :: 0 <= i < |events| ==> WellFormedEvent(events[i])
    requires Consistent(c)
    ensures Consistent(RunEvents(cfg, c, events, stitcher))
    decreases |events|
  {
    if |events| > 0 {
      AnalyzeEventKeepsConsistent(cfg, c, events[0], stitcher);
      RunEventsConsistent(cfg, AnalyzeEvent(cfg, c, events[0], stitcher), events[1..], stitcher);
    }
  }

  lemma JobConsistent(cfg: Config, events: seq<Event>, stitcher: Stitcher)
    requires forall i :: 0 <= i < |events| ==> WellFormedEvent(events[i])
    ensures Consistent(RunJob(cfg, events, stitcher))
  {
    RunEventsConsistent(cfg, ZeroCounters, events, stitcher);
  }

  /** The primary muons an event contributes: none when it has no PFParticle product. */
  function EventMuons(ev: Event): nat {
    if ev.pfParticles.Some? then NumPrimaryMuons(ev.trueParticles) else 0
  }

  /** The primary muons of a sequence of events, summed. */
  function JobMuons(events: seq<Event>): nat {
    if |events| == 0 then 0 else EventMuons(events[0]) + JobMuons(events[1..])
  }

  /** Processing an event adds one to the muon count per primary muon of a contained neutrino. */
  lemma EventMuonCount(cfg: Config, c: Counters, ev: Event, stitcher: Stitcher)
    requires WellFormedEvent(ev)
    ensures AnalyzeEvent(cfg, c, ev, stitcher).nMu == c.nMu + EventMuons(ev)
  {
  }

  /** Folding events adds each event's primary muons to the muon count. */
  lemma {:induction false} RunEventsMuonCount(cfg: Config, c: Counters, events: seq<Event>, stitcher: Stitcher)
    requires forall i :: 0 <= i < |events| ==> WellFormedEvent(events[i])
    ensures RunEvents(cfg, c, events, stitcher).nMu == c.nMu + JobMuons(events)
    decreases |events|
  {
    if |events| > 0 {
      EventMuonCount(cfg, c, events[0], stitcher);
      RunEventsMuonCount(cfg, AnalyzeEvent(cfg, c, events[0], stitcher), events[1..], stitcher);
    }
  }

  /** The "Total mu tracks" figure of a job is the number of primary muons over the events with PFParticles. */
  lemma JobMuonCount(cfg: Config, events: seq<Event>, stitcher: Stitcher)
    requires forall i :: 0 <= i < |events| ==> WellFormedEvent(events[i])
    ensures RunJob(cfg, events, stitcher).nMu == JobMuons(events)
  {
    RunEventsMuonCount(cfg, ZeroCounters, events, stitcher);
  }
}
