/**
 * Truth bookkeeping of the PandoraRemoval analyzer: the ids of the true
 * particles that come from an in-fiducial beam-neutrino interaction (and of
 * their primary muons), and the confusion tallies that score reconstructed
 * tracks against them.
 */
module Truth {

  /**
   * One simulated particle. The two booleans are what the particle-inventory
   * service and the zero-margin fiducial test report about the generator
   * record the particle belongs to.
   */
  datatype TrueParticle = TrueParticle(
    trackId: int,
    pdg: int,
    mother: int,                 // 0 for a primary
    fromBeamNeutrino: bool,      // its generator record has beam-neutrino origin
    nuVertexInFiducial: bool)    // that neutrino's vertex is inside the fiducial volume

  /** A particle whose id joins the neutrino id list. */
  predicate FromContainedNeutrino(p: TrueParticle) {
    p.fromBeamNeutrino && p.nuVertexInFiducial
  }

  /** A particle whose id joins the lepton id list: a primary (anti)muon of a contained neutrino. */
  predicate IsPrimaryMuon(p: TrueParticle) {
    FromContainedNeutrino(p) && (p.pdg == 13 || p.pdg == -13) && p.mother == 0
  }

  /** The ids of all true particles of the event, and the neutrino and lepton id lists. */
  datatype TruthIds = TruthIds(particleIds: set<int>, nuIds: seq<int>, lepIds: seq<int>)

  /** Every lepton id is a neutrino id and every neutrino id is a true-particle id. */
  predicate WellFormed(ids: TruthIds) {
    && (forall x :: x in ids.lepIds ==> x in ids.nuIds)
    && (forall x :: x in ids.nuIds ==> x in ids.particleIds)
  }

  /** One step of the loop over the true particles. */
  function AddParticle(ids: TruthIds, p: TrueParticle): TruthIds {
    var known := ids.(particleIds := ids.particleIds + {p.trackId});
    if !p.fromBeamNeutrino then known
    else if !p.nuVertexInFiducial then known
    else
      var withLep :=
        if (p.pdg == 13 || p.pdg == -13) && p.mother == 0 then known.(lepIds := known.lepIds + [p.trackId])
        else known;
      withLep.(nuIds := withLep.nuIds + [p.trackId])
  }

  /** How many of the particles are primary muons of a contained neutrino. */
  function NumPrimaryMuons(ps: seq<TrueParticle>): nat {
    if |ps| == 0 then 0
    else NumPrimaryMuons(ps[..|ps| - 1]) + (if IsPrimaryMuon(ps[|ps| - 1]) then 1 else 0)
  }

  /** How many of the particles come from a contained neutrino. */
  function NumFromContainedNeutrino(ps: seq<TrueParticle>): nat {
    if |ps| == 0 then 0
    else NumFromContainedNeutrino(ps[..|ps| - 1]) + (if FromContainedNeutrino(ps[|ps| - 1]) then 1 else 0)
  }

  /** The truth ids of an event, gathered in the order the particles are listed. */
  function BuildTruthIds(ps: seq<TrueParticle>): (ids: TruthIds)
    ensures WellFormed(ids)
    ensures forall x :: x in ids.particleIds <==> exists i :: 0 <= i < |ps| && ps[i].trackId == x
    ensures forall x :: x in ids.nuIds <==>
      exists i :: 0 <= i < |ps| && ps[i].trackId == x && FromContainedNeutrino(ps[i])
    ensures forall x :: x in ids.lepIds <==>
      exists i :: 0 <= i < |ps| && ps[i].trackId == x && IsPrimaryMuon(ps[i])
    ensures |ids.lepIds| == NumPrimaryMuons(ps)
    ensures |ids.nuIds| == NumFromContainedNeutrino(ps)
    ensures |ids.lepIds| <= |ids.nuIds| <= |ps|
  {
    if |ps| == 0 then TruthIds({}, [], [])
    else
      var prefix := ps[..|ps| - 1];
      var ids := AddParticle(BuildTruthIds(prefix), ps[|ps| - 1]);
      assert forall i :: 0 <= i < |prefix| ==> prefix[i] == ps[i];
      ids
  }

  /** One confusion tally: every scored track, and how its truth match came out. */
  datatype Tally = Tally(total: nat, isNu: nat, isCr: nat, isMu: nat, isNull: nat) {

    /** Field-by-field comparison. */
    predicate Le(other: Tally) {
      && total <= other.total && isNu <= other.isNu && isCr <= other.isCr
      && isMu <= other.isMu && isNull <= other.isNull
    }

    /** Field-by-field sum. */
    function Plus(other: Tally): Tally {
      Tally(total + other.total, isNu + other.isNu, isCr + other.isCr, isMu + other.isMu, isNull + other.isNull)
    }
  }

  const ZeroTally: Tally := Tally(0, 0, 0, 0, 0)

  /** Every scored track landed in exactly one of Null, IsNu and IsCr. */
  predicate Balanced(t: Tally) {
    t.total == t.isNu + t.isCr + t.isNull
  }

  /** IsMu never runs ahead of IsNu. */
  predicate MuWithinNu(t: Tally) {
    t.isMu <= t.isNu
  }

  /** Scores one track whose hits are matched to the true particle `id`. */
  function Record(t: Tally, ids: TruthIds, id: int): (r: Tally)
    ensures r.total == t.total + 1
    ensures r.isNull + r.isNu + r.isCr == t.isNull + t.isNu + t.isCr + 1
    ensures r.isNull >= t.isNull && r.isNu >= t.isNu && r.isCr >= t.isCr
    ensures r.isNull > t.isNull <==> id !in ids.particleIds
    ensures r.isNu > t.isNu <==> id in ids.particleIds && id in ids.nuIds
    ensures r.isCr > t.isCr <==> id in ids.particleIds && id !in ids.nuIds
    ensures t.isMu <= r.isMu <= t.isMu + 1
    ensures r.isMu > t.isMu <==> id in ids.particleIds && id in ids.lepIds
    ensures WellFormed(ids) && r.isMu > t.isMu ==> r.isNu > t.isNu
  {
    var counted := t.(total := t.total + 1);
    if id !in ids.particleIds then counted.(isNull := counted.isNull + 1)
    else
      var withMu := if id in ids.lepIds then counted.(isMu := counted.isMu + 1) else counted;
      if id in ids.nuIds then withMu.(isNu := withMu.isNu + 1)
      else withMu.(isCr := withMu.isCr + 1)
  }

  /** Scores a sequence of tracks, given by their matched ids, one after the other. */
  function TallyAll(t: Tally, ids: TruthIds, matched: seq<int>): Tally
    decreases |matched|
  {
    if |matched| == 0 then t else TallyAll(Record(t, ids, matched[0]), ids, matched[1..])
  }

  /** Every scored track adds one to the total, whatever the ids. */
  lemma {:induction false} TallyAllTotal(t: Tally, ids: TruthIds, matched: seq<int>)
    ensures TallyAll(t, ids, matched).total == t.total + |matched|
    decreases |matched|
  {
    if |matched| > 0 {
      TallyAllTotal(Record(t, ids, matched[0]), ids, matched[1..]);
    }
  }

  /** Scoring keeps every tally balanced and, with well-formed ids, keeps IsMu within IsNu. */
  lemma {:induction false} TallyAllKeepsInvariants(t: Tally, ids: TruthIds, matched: seq<int>)
    requires Balanced(t)
    requires WellFormed(ids) && MuWithinNu(t)
    ensures Balanced(TallyAll(t, ids, matched))
    ensures MuWithinNu(TallyAll(t, ids, matched))
    ensures TallyAll(t, ids, matched).total == t.total + |matched|
    decreases |matched|
  {
    if |matched| > 0 {
      TallyAllKeepsInvariants(Record(t, ids, matched[0]), ids, matched[1..]);
    }
  }

  /** Scoring from a larger tally ends at a larger tally. */
  lemma {:induction false} TallyAllMonotone(a: Tally, b: Tally, ids: TruthIds, matched: seq<int>)
    requires a.Le(b)
    ensures TallyAll(a, ids, matched).Le(TallyAll(b, ids, matched))
    decreases |matched|
  {
    if |matched| > 0 {
      TallyAllMonotone(Record(a, ids, matched[0]), Record(b, ids, matched[0]), ids, matched[1..]);
    }
  }

  /** Scoring only ever adds to a tally. */
  lemma {:induction false} TallyAllGrows(t: Tally, ids: TruthIds, matched: seq<int>)
    ensures t.Le(TallyAll(t, ids, matched))
    decreases |matched|
  {
    if |matched| > 0 {
      TallyAllGrows(Record(t, ids, matched[0]), ids, matched[1..]);
    }
  }

  /**
   * Incrementing a running tally in place is the same as adding the tally of
   * the same tracks counted from zero.
   */
  lemma {:induction false} TallyAllAdds(t: Tally, ids: TruthIds, matched: seq<int>)
    ensures TallyAll(t, ids, matched) == t.Plus(TallyAll(ZeroTally, ids, matched))
    decreases |matched|
  {
    if |matched| > 0 {
      var x, rest := matched[0], matched[1..];
      var a, z1 := Record(t, ids, x), Record(ZeroTally, ids, x);
      assert TallyAll(t, ids, matched) == TallyAll(a, ids, rest);
      assert TallyAll(ZeroTally, ids, matched) == TallyAll(z1, ids, rest);
      TallyAllAdds(a, ids, rest);
      TallyAllAdds(z1, ids, rest);
      RecordAdds(t, ids, x);
      PlusAssociative(t, z1, TallyAll(ZeroTally, ids, rest));
    }
  }

  lemma PlusAssociative(a: Tally, b: Tally, c: Tally)
    ensures a.Plus(b).Plus(c) == a.Plus(b.Plus(c))
  {
  }

  /** Scoring one track in place adds the one-track tally. */
  lemma RecordAdds(t: Tally, ids: TruthIds, id: int)
    ensures Record(t, ids, id) == t.Plus(Record(ZeroTally, ids, id))
  {
    if id !in ids.particleIds {
    } else if id in ids.lepIds {
    } else {
    }
  }

  /** A tally counted from zero with well-formed ids is balanced and keeps IsMu within IsNu. */
  lemma TallyFromZero(ids: TruthIds, matched: seq<int>)
    requires WellFormed(ids)
    ensures Balanced(TallyAll(ZeroTally, ids, matched))
    ensures MuWithinNu(TallyAll(ZeroTally, ids, matched))
  {
    var z := ZeroTally;
    assert Balanced(z) && MuWithinNu(z);
    TallyAllKeepsInvariants(z, ids, matched);
  }
}
