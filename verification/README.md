# PandoraRemoval cosmic-rejection analyzer, modelled in Dafny

This project models the event logic of SBND's `PandoraRemoval` analyzer. The
analyzer takes the Pandora particle-flow reconstruction of one event. It
splits the primary PFParticles into a cosmic hypothesis and a neutrino
hypothesis, and resolves each final-state PFParticle to its single track or
single shower. It scores every track against Monte-Carlo truth. It then runs
the neutrino-hypothesis tracks through seven cosmic-rejection cuts in a fixed
order, and scores the tracks that survive again. The score counters add up
across the whole job and are printed at the end.

Modules, one per file:

- `Pipeline` (`pipeline.dfy`): what the estimators report for one track
  (`Observation`). The seven cuts and their order (`Cut`, `CutOrder`). The
  -99999 "no time" sentinel (`NoT0`). `Classify` gives a track's verdict: the
  first cut that rejects it, or `Kept`. One lemma per cut says when that cut
  is the one that fires.
- `Truth` (`truth.dfy`): the true-particle id lists built from the simulated
  particles (`BuildTruthIds`). The five-way confusion tally (`Tally`,
  `Record`, `TallyAll`) and the invariants it keeps.
- `Hierarchy` (`hierarchy.dfy`): the PFParticle id map (`IdMap`). The
  final-state split, which walks the map in ascending id order
  (`FinalStateVectors`). Resolving PFParticles to tracks and showers
  (`CollectTracksAndShowers`).
- `Analysis` (`analysis.dfy`): one event end to end (`Select`,
  `AnalyzeEvent`), with `Option` for the PFParticle product that may be
  missing. The TPC stitching pools (`SplitPools`). The job as a fold
  of events into the counters (`RunJob`).
- `Report` (`report.dfy`): the end-of-job summary lines.

The external estimators are inputs to the model. The fiducial and stopping
tests of a track's ends, TPC detection, CRT track and hit matching and APA
crossing become fields of `Observation`; hit-to-truth matching becomes the
`trueId` field of `Track`. CPA stitching is a function parameter (`Stitcher`),
because the analyzer calls it with a pool it builds itself. On the truth side,
the particle-inventory lookup of a particle's generator record and the
zero-margin fiducial test of that record's neutrino vertex become the two
booleans `fromBeamNeutrino` and `nuVertexInFiducial` of `TrueParticle`. Detector
quantities are `real`. The -99999 sentinel is compared by equality, exactly
as the analyzer compares it.

Two behaviours of the code are worth stating plainly:

- Stopping cut. A track is rejected when exactly one end is inside the
  stopping volume and *that contained end* is the one that stops (lines
  537-538).
- Several reconstructed neutrinos in one event. After a warning, the
  daughters of every neutrino primary are appended to the neutrino list
  (lines 711-720).

## Model

| member | source | states |
|---|---|---|
| Pipeline.Abs | sbndcode/CosmicRemoval/PandoraRemoval_module.cc:578 | the magnitude used by the beam-window comparisons is non-negative and equals the time or its negation |
| Pipeline.FiducialRejects | sbndcode/CosmicRemoval/PandoraRemoval_module.cc:526-528 | cut 1 fires when neither end is inside the fiducial volume |
| Pipeline.StoppingRejects | sbndcode/CosmicRemoval/PandoraRemoval_module.cc:530-538 | cut 2 fires when exactly one end is inside the stopping volume and that end stops |
| Pipeline.CrossTpcRejects | sbndcode/CosmicRemoval/PandoraRemoval_module.cc:540-548 | cut 3 fires for a TPC-0 track with an endpoint at x > 0 and a TPC-1 track with an endpoint at x < 0 |
| Pipeline.EffectiveStitch | sbndcode/CosmicRemoval/PandoraRemoval_module.cc:576 | the first Pandora T0 replaces a sentinel stitch time when there is one |
| Pipeline.CpaStitchRejects | sbndcode/CosmicRemoval/PandoraRemoval_module.cc:578 | cut 4 fires when the effective stitch time is not the sentinel and is out of the beam window, or the stitched track exits |
| Pipeline.CrtTrackRejects | sbndcode/CosmicRemoval/PandoraRemoval_module.cc:580-583 | cut 5 fires on any CRT-track time other than the sentinel |
| Pipeline.CrtHitRejects | sbndcode/CosmicRemoval/PandoraRemoval_module.cc:585-588 | cut 6 fires on a CRT-hit time other than the sentinel outside the beam window |
| Pipeline.ApaCrossRejects | sbndcode/CosmicRemoval/PandoraRemoval_module.cc:591-604 | cut 7 fires on an out-of-window APA time when, for TPC 0, the vertex lies below the end in x with the end outside, or the start is outside; mirrored for TPC 1 |
| Pipeline.FirstRejection | sbndcode/CosmicRemoval/PandoraRemoval_module.cc:518-604 | a track is kept iff no cut in the sequence rejects it; a rejection names a cut that rejects while every earlier cut in the sequence lets the track through |
| Pipeline.Classify | sbndcode/CosmicRemoval/PandoraRemoval_module.cc:518-604 | the verdict is Kept iff none of the seven cuts rejects; it is Rejected(c) iff cut c rejects and every cut earlier in the fixed order does not |
| Pipeline.FiducialCutIsFinal | sbndcode/CosmicRemoval/PandoraRemoval_module.cc:523-528 | a track with neither end inside the fiducial volume is rejected by the fiducial cut, whatever the other estimators report |
| Pipeline.StoppingCut | sbndcode/CosmicRemoval/PandoraRemoval_module.cc:530-538 | after the fiducial cut, the stopping cut fires iff exactly one end is inside the stopping volume and that contained end stops; it never fires when both or neither end is contained |
| Pipeline.CrossTpcCut | sbndcode/CosmicRemoval/PandoraRemoval_module.cc:540-548 | after the first two cuts, a TPC-0 track is rejected iff an endpoint has x > 0, a TPC-1 track iff an endpoint has x < 0, and a track with any other TPC value never is |
| Pipeline.PriorT0Fallback | sbndcode/CosmicRemoval/PandoraRemoval_module.cc:551-576 | the stitch time falls back to the first Pandora T0 only when stitching returned the sentinel and a T0 exists; the exit flag is never changed |
| Pipeline.CpaStitchCut | sbndcode/CosmicRemoval/PandoraRemoval_module.cc:550-578 | after the first three cuts, the CPA cut fires iff the effective stitch time is not the sentinel and it lies outside the beam window or the stitched track exits |
| Pipeline.SentinelTimeIsAbsent | sbndcode/CosmicRemoval/PandoraRemoval_module.cc:551-578 | when neither stitching nor Pandora supplies a time, the CPA cut does not fire, even if the exit flag is set |
| Pipeline.CrtTrackCut | sbndcode/CosmicRemoval/PandoraRemoval_module.cc:580-583 | after the first four cuts, any CRT-track match rejects the track, including one at time zero inside the beam window |
| Pipeline.CrtHitCut | sbndcode/CosmicRemoval/PandoraRemoval_module.cc:585-588 | after the first five cuts, the CRT-hit cut fires iff a hit time exists and lies outside the beam window |
| Pipeline.ApaCrossCut | sbndcode/CosmicRemoval/PandoraRemoval_module.cc:591-604 | a track that reaches the last cut is either kept or rejected by it; for TPC 0 with an out-of-window APA time it is rejected iff (vertex x < end x and the end leaves the fiducial volume) or the start leaves it, and the mirror condition holds for TPC 1 |
| Pipeline.MirrorSymmetry | sbndcode/CosmicRemoval/PandoraRemoval_module.cc:540-604 | swapping TPC 0 and TPC 1 and negating every x leaves the verdict unchanged: the two TPC branches of the cross-TPC and APA cuts are mirror images |
| Truth.BuildTruthIds | sbndcode/CosmicRemoval/PandoraRemoval_module.cc:385-411 | an id is a true-particle id iff some particle carries it; it is a neutrino id iff some particle with it comes from a beam neutrino whose vertex is fiducial; it is a lepton id iff such a particle is also a primary (anti)muon; lepton ids are neutrino ids and neutrino ids are particle ids; the lepton list has one entry per primary-muon particle and the neutrino list one per contained-neutrino particle, repeats included |
| Truth.AddParticle | sbndcode/CosmicRemoval/PandoraRemoval_module.cc:391-410 | one pass of the true-particle loop: the id joins the particle ids; with beam-neutrino origin and a fiducial vertex it joins the neutrino ids, and the lepton ids first when it is a primary (anti)muon |
| Truth.Record | sbndcode/CosmicRemoval/PandoraRemoval_module.cc:417-437 | scoring a track adds one to the total and one to exactly one of Null, IsNu and IsCr: Null iff the id is not a true-particle id, IsNu iff it is a neutrino id, IsCr otherwise; IsMu goes up iff the id is a lepton id, which then also raises IsNu |
| Truth.TallyAll | sbndcode/CosmicRemoval/PandoraRemoval_module.cc:417-458 | scores a list of matched ids one after the other, as each track loop does; its properties are the TallyAll lemmas below |
| Truth.TallyAllTotal | sbndcode/CosmicRemoval/PandoraRemoval_module.cc:417-458 | every scored track adds exactly one to the total, whatever the truth ids |
| Truth.TallyAllKeepsInvariants | sbndcode/CosmicRemoval/PandoraRemoval_module.cc:417-458 | scoring a list of tracks adds its length to the total and keeps total = Null + IsNu + IsCr and IsMu <= IsNu |
| Truth.TallyAllMonotone | sbndcode/CosmicRemoval/PandoraRemoval_module.cc:417-437 | scoring the same tracks from a field-wise larger tally ends at a field-wise larger tally |
| Truth.TallyAllGrows | sbndcode/CosmicRemoval/PandoraRemoval_module.cc:417-437 | scoring never lowers any counter |
| Truth.TallyAllAdds | sbndcode/CosmicRemoval/PandoraRemoval_module.cc:262-277 | incrementing running counters in place gives the same result as adding the tally of the same tracks counted from zero |
| Truth.RecordAdds | sbndcode/CosmicRemoval/PandoraRemoval_module.cc:417-437 | scoring one track in place adds that track's one-track tally |
| Truth.TallyFromZero | sbndcode/CosmicRemoval/PandoraRemoval_module.cc:417-458 | a tally counted from zero with well-formed id lists is balanced and keeps IsMu within IsNu |
| Hierarchy.FirstOfIdUnique | sbndcode/CosmicRemoval/PandoraRemoval_module.cc:657-664 | at most one PFParticle is the first with a given id |
| Hierarchy.IdMap | sbndcode/CosmicRemoval/PandoraRemoval_module.cc:657-664 | the map's keys are exactly the PFParticle ids, and each id maps to the first PFParticle carrying it, so a repeated id keeps its first entry |
| Hierarchy.IdMapKeepsFirst | sbndcode/CosmicRemoval/PandoraRemoval_module.cc:657-664 | every PFParticle's id is a key, and it maps to that PFParticle iff no earlier PFParticle has the same id |
| Hierarchy.KeysFrom | sbndcode/CosmicRemoval/PandoraRemoval_module.cc:693 | the map's keys in a range, listed strictly ascending, as an ordered map iterates them |
| Hierarchy.IsNeutrino | sbndcode/CosmicRemoval/PandoraRemoval_module.cc:700-701 | a PDG code is a neutrino's iff its magnitude is that of an electron, muon or tau neutrino (12, 14, 16), either sign |
| Hierarchy.DaughterPtrs | sbndcode/CosmicRemoval/PandoraRemoval_module.cc:716-720 | a neutrino primary contributes one entry per daughter id, and an index is among them iff it is what some daughter id resolves to in the id map |
| Hierarchy.PartitionCosmic | sbndcode/CosmicRemoval/PandoraRemoval_module.cc:693-707 | a PFParticle joins the cosmic list iff its id is among the walked keys and it is a non-neutrino primary |
| Hierarchy.PartitionCosmicOrdered | sbndcode/CosmicRemoval/PandoraRemoval_module.cc:693-707 | walking ascending keys lists the cosmic PFParticles in strictly ascending id order |
| Hierarchy.PartitionNeutrino | sbndcode/CosmicRemoval/PandoraRemoval_module.cc:693-721 | a PFParticle joins the neutrino list iff it is what some daughter id of a walked neutrino primary resolves to |
| Hierarchy.Partition | sbndcode/CosmicRemoval/PandoraRemoval_module.cc:693-721 | the walk over the id map in key order that fills both lists; its properties are the Partition lemmas |
| Hierarchy.PartitionConcat | sbndcode/CosmicRemoval/PandoraRemoval_module.cc:693-721 | walking two runs of keys in turn lists the first run's particles then the second's, in full: order and repeated daughters are kept |
| Hierarchy.PartitionOne | sbndcode/CosmicRemoval/PandoraRemoval_module.cc:697-721 | one key contributes its particle if it is a cosmic primary, all its resolved daughters in order if it is a neutrino primary, and nothing otherwise |
| Hierarchy.IdMapResolves | sbndcode/CosmicRemoval/PandoraRemoval_module.cc:714-719 | when every daughter id of a neutrino primary names a PFParticle, the id map resolves every such daughter |
| Hierarchy.FinalStateCosmic | sbndcode/CosmicRemoval/PandoraRemoval_module.cc:691-707 | the cosmic list holds exactly the first-of-id primaries whose PDG code is not a neutrino's, in ascending id order |
| Hierarchy.FinalStateNeutrino | sbndcode/CosmicRemoval/PandoraRemoval_module.cc:691-721 | the neutrino list holds exactly the first-of-id PFParticles named as a daughter by some first-of-id neutrino primary (electron, muon or tau flavour, either sign), across all such primaries |
| Hierarchy.FinalStateVectors | sbndcode/CosmicRemoval/PandoraRemoval_module.cc:691-723 | the final-state split of the whole collection: the id map walked in ascending id order; its properties are the FinalState lemmas |
| Hierarchy.DaughterNamedTwice | sbndcode/CosmicRemoval/PandoraRemoval_module.cc:716-720 | a neutrino primary naming the same daughter id twice puts that daughter in the neutrino list twice |
| Hierarchy.FinalStatesInRange | sbndcode/CosmicRemoval/PandoraRemoval_module.cc:691-721 | both final-state lists index into the PFParticle collection |
| Hierarchy.CollectTracksAndShowers | sbndcode/CosmicRemoval/PandoraRemoval_module.cc:727-759 | a track is collected iff some listed PFParticle has exactly that one track and no shower; a shower iff some listed PFParticle has exactly that one shower and no track; PFParticles with no products or several are skipped, so at most one product per PFParticle |
| Hierarchy.CollectConcat | sbndcode/CosmicRemoval/PandoraRemoval_module.cc:733-758 | resolving two lists in turn gives the first list's products followed by the second's, so every resolvable particle contributes one product, in order, repeats kept |
| Hierarchy.CollectOne | sbndcode/CosmicRemoval/PandoraRemoval_module.cc:733-758 | a single particle yields its one track when it has one track and no shower, its one shower when it has one shower and no track, and nothing otherwise |
| Analysis.SplitPools | sbndcode/CosmicRemoval/PandoraRemoval_module.cc:501-516 | a track is in the TPC-0 pool iff it is detected in TPC 0 and passes the cross-TPC check, likewise for TPC 1, and the pools together hold no more tracks than the input |
| Analysis.PoolsKeepOrderAndCopies | sbndcode/CosmicRemoval/PandoraRemoval_module.cc:505-516 | each pool lists its tracks in input order and holds every copy of each track it accepts, and none of any other |
| Analysis.InPool | sbndcode/CosmicRemoval/PandoraRemoval_module.cc:513-514 | a track qualifies for the TPC-0 pool iff it is detected in TPC 0 with no endpoint at x > 0, and for the TPC-1 pool iff it is detected in TPC 1 with no endpoint at x < 0 |
| Analysis.PoolsDisjoint | sbndcode/CosmicRemoval/PandoraRemoval_module.cc:513-514 | no track is in both stitching pools |
| Analysis.StitchAgainstOppositePool | sbndcode/CosmicRemoval/PandoraRemoval_module.cc:550-575 | stitching is attempted iff the track is detected in TPC 0 or 1, and then against exactly the tracks of the other TPC that pass the cross-TPC check; otherwise the cuts see the sentinel pair |
| Analysis.StitchPool | sbndcode/CosmicRemoval/PandoraRemoval_module.cc:551-575 | the pool a track is stitched against: TPC 1's for a TPC-0 track, TPC 0's for a TPC-1 track, none otherwise |
| Analysis.StitchFor | sbndcode/CosmicRemoval/PandoraRemoval_module.cc:550-575 | the stitch pair the cuts see: the stitcher's answer against that pool, or the sentinel pair |
| Analysis.TrackVerdict | sbndcode/CosmicRemoval/PandoraRemoval_module.cc:518-604 | the verdict of the cut pipeline on one track with its stitch pair |
| Analysis.KeptTracks | sbndcode/CosmicRemoval/PandoraRemoval_module.cc:518-606 | a track survives iff it is a neutrino-hypothesis track whose verdict is Kept; every copy of a kept track survives and no copy of a rejected one, in input order |
| Analysis.TrueIdsOf | sbndcode/CosmicRemoval/PandoraRemoval_module.cc:607 | one matched true-particle id per track, in track order: entry i is track i's id (also lines 421 and 442) |
| Analysis.KeptTallyWithin | sbndcode/CosmicRemoval/PandoraRemoval_module.cc:606-622 | scoring only the surviving tracks gives, field by field, no more than scoring all the tracks |
| Analysis.Select | sbndcode/CosmicRemoval/PandoraRemoval_module.cc:350-372 | the truth ids are those built from the event's true particles; a cosmic-hypothesis track is the lone track (with no shower) of a first-listed cosmic primary, a neutrino-hypothesis track the lone track of a first-listed daughter of a first-listed neutrino primary; the surviving tracks are those the cuts keep with pools built from the neutrino-hypothesis tracks |
| Analysis.AnalyzeEvent | sbndcode/CosmicRemoval/PandoraRemoval_module.cc:343-349 | an event without a PFParticle product leaves every counter unchanged |
| Analysis.AnalyzeEventAdds | sbndcode/CosmicRemoval/PandoraRemoval_module.cc:262-277 | processing an event adds that event's own counts to the running counters |
| Analysis.SelectionTotals | sbndcode/CosmicRemoval/PandoraRemoval_module.cc:417-458 | scoring a selection raises the neutrino total by the number of neutrino-hypothesis tracks, the cosmic total by the number of cosmic-hypothesis tracks, and the post-cut total by the number of surviving tracks (also lines 606-622) |
| Analysis.SelectionAdds | sbndcode/CosmicRemoval/PandoraRemoval_module.cc:417-458 | scoring a selection into running counters adds the selection's counts from zero |
| Analysis.CountSelection | sbndcode/CosmicRemoval/PandoraRemoval_module.cc:417-622 | scores one event's selection into the counters: neutrino-hypothesis tracks, cosmic-hypothesis tracks, surviving tracks and true muons |
| Analysis.SelectionCountsConsistent | sbndcode/CosmicRemoval/PandoraRemoval_module.cc:417-622 | one event's counts are balanced, keep IsMu within IsNu, and the post-cut counts are at most the pre-cut counts |
| Analysis.EventCountsConsistent | sbndcode/CosmicRemoval/PandoraRemoval_module.cc:333-631 | the counts of any single event are consistent in that sense |
| Analysis.PlusConsistent | sbndcode/CosmicRemoval/PandoraRemoval_module.cc:262-277 | adding consistent counters gives consistent counters |
| Analysis.AnalyzeEventKeepsConsistent | sbndcode/CosmicRemoval/PandoraRemoval_module.cc:333-631 | processing an event keeps consistent counters consistent |
| Analysis.RunEventsConsistent | sbndcode/CosmicRemoval/PandoraRemoval_module.cc:262-277 | folding any sequence of events into consistent counters keeps them consistent |
| Analysis.RunEvents | sbndcode/CosmicRemoval/PandoraRemoval_module.cc:262-277 | folds the events into the counters in order; the counters are never reset between events |
| Analysis.RunJob | sbndcode/CosmicRemoval/PandoraRemoval_module.cc:262-277 | the whole job: counters start at zero, then every event in turn |
| Analysis.EventMuonCount | sbndcode/CosmicRemoval/PandoraRemoval_module.cc:343-349 | an event with PFParticles adds one to the muon count per primary-muon particle of a contained neutrino (lines 405-407); an event without them adds nothing |
| Analysis.RunEventsMuonCount | sbndcode/CosmicRemoval/PandoraRemoval_module.cc:405-407 | folding events adds every event's primary-muon count to the running muon count |
| Analysis.JobMuonCount | sbndcode/CosmicRemoval/PandoraRemoval_module.cc:637 | the printed "Total mu tracks" figure is the number of primary muons over all events that have PFParticles |
| Analysis.JobConsistent | sbndcode/CosmicRemoval/PandoraRemoval_module.cc:634-653 | the counters reported at the end of any job are consistent: every total is the sum of its Null, IsNu and IsCr counts, IsMu never exceeds IsNu, and no post-cut counter exceeds its pre-cut counter |
| Report.LabelOrderComplete | sbndcode/CosmicRemoval/PandoraRemoval_module.cc:636-653 | the summary prints every counter label exactly once |
| Report.SummaryAsWritten | sbndcode/CosmicRemoval/PandoraRemoval_module.cc:636-653 | the summary lines come in the printed order, and every line except "Cr is Null" shows the counter its label names |
| Report.CrIsNullLineAsWritten | sbndcode/CosmicRemoval/PandoraRemoval_module.cc:647 | the printed "Cr is Null" figure equals the Cr-is-null counter iff the Cr-is-mu counter happens to equal it |
| Report.CrIsNullMisreported | sbndcode/CosmicRemoval/PandoraRemoval_module.cc:647 | there are counters for which the printed "Cr is Null" figure differs from the counter its label names |
| Report.Summary | sbndcode/CosmicRemoval/PandoraRemoval_module.cc:636-653 | with the label fixed, every summary line shows the counter its label names, in the printed order |
| Report.SummaryAddsUp | sbndcode/CosmicRemoval/PandoraRemoval_module.cc:636-653 | for consistent counters, each block of the corrected summary adds up line by line: every printed total is its Null, IsNu and IsCr lines summed, no IsMu line exceeds its IsNu line, and no "(cut)" line exceeds its pre-cut line |
| Report.SummaryAsWrittenAddsUp | sbndcode/CosmicRemoval/PandoraRemoval_module.cc:636-653 | in the summary as printed, the neutrino and "(cut)" blocks add up, and the cosmic block adds up iff Cr-is-mu equals Cr-is-null |

## Left out

- The art framework plumbing (handles, `FindManyP` associations, services, module configuration) is left out. Associations are sequences indexed by PFParticle, and configuration is the single beam-time limit the cuts compare against.
- The external estimators are left out: fiducial and stopping tests, TPC detection, CPA stitching, CRT track and hit matching, APA crossing, and hit-to-truth matching. Their results are inputs, with CPA stitching as a function parameter.
- The particle-inventory service lookup (`TrackIdToMCTruth_P`, lines 396-397) of each true particle's generator record is left out, and so is the fiducial test of that record's neutrino vertex (line 404). Their answers are the `fromBeamNeutrino` and `nuVertexInFiducial` fields of `TrueParticle`.
- CRT hit and track reconstruction, and the APA-crossing time list built from the CRT tracks, are left out. The model sees only the resulting times.
- Floating point is modelled as exact `real`. The microsecond scaling of times is left out.
- Building the Pandora T0 map (lines 485-499) is left out. Each track carries its list of T0s, in association order.
- Counters are unbounded `nat`. The analyzer's counters are 32-bit signed `int`s, which could overflow; signed overflow is undefined behaviour in C++, so the model does not choose a wrapped value.
- Console output is left out, except for the end-of-job summary: verbose printing, `PrintOutScores`, the event summary, and the warnings about repeated ids, several neutrinos, invalid daughters and ambiguous track/shower associations.
- Hierarchy.FinalStateVectors: requires every daughter id of a neutrino primary to name a PFParticle (`DaughtersResolve`). The analyzer instead throws from `std::map::at` when one does not, and exceptions are not modelled.
- Analysis.AnalyzeEvent: requires the association collections to cover every PFParticle. When they do not, the analyzer's association lookups throw, and exceptions are not modelled. A missing track, hit or MC-particle product likewise throws and is not modelled.
- Hierarchy.FinalStateNeutrino: states membership only. Order and repeats of the neutrino list are stated per walked key by Hierarchy.PartitionConcat and Hierarchy.PartitionOne, not as one formula over the whole collection.
- Hierarchy.CollectTracksAndShowers: states membership only. Order and repeats of the collected products are stated per listed PFParticle by Hierarchy.CollectConcat and Hierarchy.CollectOne.
- A track's `Vertex()` and `Start()` are kept as separate x coordinates (`vertexX`, `startX`), as the analyzer reads them through different accessors.
- The end of the `analyze` body after the cuts (the empty NuMu selection section) does nothing and is not modelled.

## Findings

| source | as written | input that shows it | evidently intended | confidence | as-written member | corrected member |
|---|---|---|---|---|---|---|
| sbndcode/CosmicRemoval/PandoraRemoval_module.cc:647 | the "Cr is Null" summary line prints `nCrIsMu` | one cosmic-hypothesis track whose hits match no true particle: Cr-is-null is 1, Cr-is-mu is 0, and the line prints 0 | print `nCrIsNull` on that line | high; not executed | Report.SummaryAsWritten, Report.CrIsNullMisreported | Report.Summary |
