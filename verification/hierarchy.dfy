/**
 * The PFParticle hierarchy handling of the PandoraRemoval analyzer: the id
 * map over the event's PFParticle collection, the split of primaries into
 * cosmic-hypothesis particles and neutrino final-state daughters, and the
 * resolution of each particle to its single track or shower.
 *
 * A particle is referred to by its index in the collection (what the
 * framework's art::Ptr holds as its key); `self` is the id Pandora gave it.
 */
module Hierarchy {

  datatype PFParticle = PFParticle(self: nat, isPrimary: bool, pdg: int, daughters: seq<nat>)

  /** Pandora's PDG codes of the three neutrino flavours. */
  const NuE: int := 12
  const NuMu: int := 14
  const NuTau: int := 16

  /** A neutrino or antineutrino of any flavour. */
  predicate IsNeutrino(pdg: int)
    ensures IsNeutrino(pdg) <==> pdg in {NuE, -NuE, NuMu, -NuMu, NuTau, -NuTau}
  {
    var a := if pdg < 0 then -pdg else pdg;
    a == NuE || a == NuMu || a == NuTau
  }

  /** A primary reconstructed under the cosmic hypothesis. */
  predicate IsCosmicPrimary(p: PFParticle) {
    p.isPrimary && !IsNeutrino(p.pdg)
  }

  /** A primary reconstructed as the neutrino. */
  predicate IsNeutrinoPrimary(p: PFParticle) {
    p.isPrimary && IsNeutrino(p.pdg)
  }

  /** No earlier particle of the collection carries the same id. */
  predicate IsFirstOfId(ps: seq<PFParticle>, i: nat)
    requires i < |ps|
  {
    forall j :: 0 <= j < i ==> ps[j].self != ps[i].self
  }

  /** Some particle of the collection carries the id `d`. */
  predicate HasId(ps: seq<PFParticle>, d: nat) {
    exists i :: 0 <= i < |ps| && ps[i].self == d
  }

  /** Two first occurrences of the same id are the same particle. */
  lemma FirstOfIdUnique(ps: seq<PFParticle>, i: nat, j: nat)
    requires i < |ps| && j < |ps|
    requires IsFirstOfId(ps, i) && IsFirstOfId(ps, j)
    requires ps[i].self == ps[j].self
    ensures i == j
  {
  }

  /** The map from id to particle; a repeated id keeps the particle listed first. */
  function IdMap(ps: seq<PFParticle>): (m: map<nat, nat>)
    ensures forall k :: k in m <==> HasId(ps, k)
    ensures forall k :: k in m ==> m[k] < |ps| && ps[m[k]].self == k && IsFirstOfId(ps, m[k])
  {
    if |ps| == 0 then map[]
    else
      var prefix := ps[..|ps| - 1];
      var m := IdMap(prefix);
      var last := ps[|ps| - 1];
      assert forall i :: 0 <= i < |prefix| ==> prefix[i] == ps[i];
      assert forall k :: HasId(ps, k) <==> HasId(prefix, k) || k == last.self;
      if last.self in m then m else m[last.self := |ps| - 1]
  }

  /** The map sends each id to a particle carrying that id. */
  predicate IndexesBySelf(ps: seq<PFParticle>, m: map<nat, nat>) {
    forall k :: k in m ==> m[k] < |ps| && ps[m[k]].self == k
  }

  /** The keys of `m` in `[lo, hi)`, in ascending order (the iteration order of an ordered map). */
  function KeysFrom(m: map<nat, nat>, lo: nat, hi: nat): (ks: seq<nat>)
    ensures forall k :: k in ks <==> k in m && lo <= k < hi
    ensures forall j :: 0 <= j < |ks| ==> lo <= ks[j]
    ensures forall a, b :: 0 <= a < b < |ks| ==> ks[a] < ks[b]
    decreases hi - lo
  {
    if lo >= hi then []
    else (if lo in m then [lo] else []) + KeysFrom(m, lo + 1, hi)
  }

  /** A strict upper bound on the ids of the collection. */
  function IdBound(ps: seq<PFParticle>): (b: nat)
    ensures forall i :: 0 <= i < |ps| ==> ps[i].self < b
  {
    if |ps| == 0 then 0
    else
      var b := IdBound(ps[..|ps| - 1]);
      var here := ps[|ps| - 1].self + 1;
      assert forall i :: 0 <= i < |ps| - 1 ==> ps[..|ps| - 1][i] == ps[i];
      if b < here then here else b
  }

  /** Every daughter of a neutrino primary reached through the map is itself in the map. */
  predicate DaughtersKnown(ps: seq<PFParticle>, m: map<nat, nat>)
    requires IndexesBySelf(ps, m)
  {
    forall k :: k in m && IsNeutrinoPrimary(ps[m[k]]) ==> forall d :: d in ps[m[k]].daughters ==> d in m
  }

  /** The cosmic-hypothesis primaries and the neutrino final-state daughters, as particle indices. */
  datatype FinalStates = FinalStates(cosmic: seq<nat>, neutrino: seq<nat>)

  /** The particles the neutrino primary `p` contributes: each daughter id looked up in the map. */
  function DaughterPtrs(m: map<nat, nat>, p: PFParticle): (r: seq<nat>)
    requires forall d :: d in p.daughters ==> d in m
    ensures |r| == |p.daughters|
    ensures forall i :: i in r <==> exists d :: d in p.daughters && m[d] == i
  {
    var r := seq(|p.daughters|, j requires 0 <= j < |p.daughters| => m[p.daughters[j]]);
    assert forall d :: d in p.daughters ==> m[d] in r by {
      forall d | d in p.daughters
        ensures m[d] in r
      {
        var j :| 0 <= j < |p.daughters| && p.daughters[j] == d;
        assert r[j] == m[d];
      }
    }
    r
  }

  /** Walks the given keys of the id map in order and sorts each primary into its list. */
  function Partition(ps: seq<PFParticle>, m: map<nat, nat>, keys: seq<nat>): FinalStates
    requires IndexesBySelf(ps, m) && DaughtersKnown(ps, m)
    requires forall k :: k in keys ==> k in m
  {
    if |keys| == 0 then FinalStates([], [])
    else
      var k := keys[|keys| - 1];
      assert k in keys;
      var r := Partition(ps, m, keys[..|keys| - 1]);
      var p := ps[m[k]];
      if !p.isPrimary then r
      else if !IsNeutrino(p.pdg) then r.(cosmic := r.cosmic + [m[k]])
      else r.(neutrino := r.neutrino + DaughterPtrs(m, p))
  }

  /** The cosmic list holds exactly the cosmic primaries among the walked keys. */
  lemma {:induction false} PartitionCosmic(ps: seq<PFParticle>, m: map<nat, nat>, keys: seq<nat>)
    requires IndexesBySelf(ps, m) && DaughtersKnown(ps, m)
    requires forall k :: k in keys ==> k in m
    ensures forall i :: i in Partition(ps, m, keys).cosmic <==>
      exists k :: k in keys && i == m[k] && IsCosmicPrimary(ps[m[k]])
  {
    if |keys| > 0 {
      var prefix, k := keys[..|keys| - 1], keys[|keys| - 1];
      assert forall x :: x in keys <==> x in prefix || x == k;
      PartitionCosmic(ps, m, prefix);
    }
  }

  /** The listed particles have strictly increasing ids. */
  predicate AscendingIds(ps: seq<PFParticle>, c: seq<nat>) {
    forall a, b :: 0 <= a < b < |c| ==> c[a] < |ps| && c[b] < |ps| && ps[c[a]].self < ps[c[b]].self
  }

  /** The cosmic list follows the ascending order of the walked keys. */
  lemma {:induction false} PartitionCosmicOrdered(ps: seq<PFParticle>, m: map<nat, nat>, keys: seq<nat>)
    requires IndexesBySelf(ps, m) && DaughtersKnown(ps, m)
    requires forall k :: k in keys ==> k in m
    requires forall a, b :: 0 <= a < b < |keys| ==> keys[a] < keys[b]
    ensures forall i :: i in Partition(ps, m, keys).cosmic ==> i < |ps| && ps[i].self in keys
    ensures AscendingIds(ps, Partition(ps, m, keys).cosmic)
  {
    if |keys| > 0 {
      var prefix, k := keys[..|keys| - 1], keys[|keys| - 1];
      assert forall x :: x in keys <==> x in prefix || x == k;
      assert forall j :: 0 <= j < |prefix| ==> prefix[j] == keys[j];
      assert forall x :: x in prefix ==> x < k;
      PartitionCosmicOrdered(ps, m, prefix);
      var before := Partition(ps, m, prefix).cosmic;
      var c := Partition(ps, m, keys).cosmic;
      if IsCosmicPrimary(ps[m[k]]) {
        assert c == before + [m[k]];
        forall a, b | 0 <= a < b < |c|
          ensures c[a] < |ps| && c[b] < |ps| && ps[c[a]].self < ps[c[b]].self
        {
          assert c[a] == before[a] && c[a] in before;
          if b < |before| {
            assert c[b] == before[b];
          } else {
            assert c[b] == m[k] && ps[c[b]].self == k;
            assert ps[c[a]].self in prefix;
          }
        }
      } else {
        assert c == before;
      }
    }
  }

  /** The neutrino list holds exactly the looked-up daughters of the neutrino primaries among the walked keys. */
  lemma {:induction false} PartitionNeutrino(ps: seq<PFParticle>, m: map<nat, nat>, keys: seq<nat>)
    requires IndexesBySelf(ps, m) && DaughtersKnown(ps, m)
    requires forall k :: k in keys ==> k in m
    ensures forall i :: i in Partition(ps, m, keys).neutrino <==>
      exists k, d :: k in keys && IsNeutrinoPrimary(ps[m[k]]) && d in ps[m[k]].daughters && i == m[d]
  {
    if |keys| > 0 {
      var prefix, k := keys[..|keys| - 1], keys[|keys| - 1];
      assert forall x :: x in keys <==> x in prefix || x == k;
      PartitionNeutrino(ps, m, prefix);
      var p := ps[m[k]];
      if IsNeutrinoPrimary(p) {
        var ds := DaughterPtrs(m, p);
        assert forall d :: d in p.daughters ==> m[d] in ds by {
          forall d | d in p.daughters ensures m[d] in ds {
            var j :| 0 <= j < |p.daughters| && p.daughters[j] == d;
            assert ds[j] == m[d];
          }
        }
      }
    }
  }

  /**
   * Walking two runs of keys one after the other lists the first run's
   * particles and then the second run's, each in full: order and repeats
   * are kept, so a daughter id named twice is listed twice.
   */
  lemma {:induction false} PartitionConcat(ps: seq<PFParticle>, m: map<nat, nat>, a: seq<nat>, b: seq<nat>)
    requires IndexesBySelf(ps, m) && DaughtersKnown(ps, m)
    requires forall k :: k in a ==> k in m
    requires forall k :: k in b ==> k in m
    ensures Partition(ps, m, a + b).cosmic == Partition(ps, m, a).cosmic + Partition(ps, m, b).cosmic
    ensures Partition(ps, m, a + b).neutrino == Partition(ps, m, a).neutrino + Partition(ps, m, b).neutrino
    decreases |b|
  {
    if |b| == 0 {
      assert a + b == a;
    } else {
      var front, k := b[..|b| - 1], b[|b| - 1];
      assert k in b;
      assert forall x :: x in front ==> x in b;
      assert (a + b)[..|a + b| - 1] == a + front;
      assert (a + b)[|a + b| - 1] == k;
      PartitionConcat(ps, m, a, front);
    }
  }

  /** One walked key contributes its particle if it is a cosmic primary, and all its looked-up daughters if it is a neutrino primary. */
  lemma PartitionOne(ps: seq<PFParticle>, m: map<nat, nat>, k: nat)
    requires IndexesBySelf(ps, m) && DaughtersKnown(ps, m)
    requires k in m
    ensures Partition(ps, m, [k]).cosmic == if IsCosmicPrimary(ps[m[k]]) then [m[k]] else []
    ensures IsNeutrinoPrimary(ps[m[k]]) ==>
      |Partition(ps, m, [k]).neutrino| == |ps[m[k]].daughters| &&
      forall j :: 0 <= j < |ps[m[k]].daughters| ==> Partition(ps, m, [k]).neutrino[j] == m[ps[m[k]].daughters[j]]
    ensures !IsNeutrinoPrimary(ps[m[k]]) ==> Partition(ps, m, [k]).neutrino == []
  {
    assert [k][..0] == [];
  }

  /** Every daughter id of a neutrino primary (listed first with its id) names a particle of the collection. */
  predicate DaughtersResolve(ps: seq<PFParticle>) {
    forall p :: 0 <= p < |ps| && IsFirstOfId(ps, p) && IsNeutrinoPrimary(ps[p]) ==>
      forall d :: d in ps[p].daughters ==> HasId(ps, d)
  }

  /** A particle is the one the id map keeps for its id exactly when it is the first listed with that id. */
  lemma IdMapKeepsFirst(ps: seq<PFParticle>, i: nat)
    requires i < |ps|
    ensures ps[i].self in IdMap(ps)
    ensures IdMap(ps)[ps[i].self] == i <==> IsFirstOfId(ps, i)
  {
    var m := IdMap(ps);
    assert HasId(ps, ps[i].self);
    if IsFirstOfId(ps, i) {
      FirstOfIdUnique(ps, i, m[ps[i].self]);
    }
  }

  /** The id map of a collection in which daughter ids resolve. */
  lemma IdMapResolves(ps: seq<PFParticle>)
    requires DaughtersResolve(ps)
    ensures IndexesBySelf(ps, IdMap(ps)) && DaughtersKnown(ps, IdMap(ps))
  {
  }

  /**
   * The final-state split of a PFParticle collection: the id map is walked in
   * ascending id order; non-primaries are ignored, primaries that are not
   * neutrinos go to the cosmic list, and the daughters of every neutrino
   * primary (the second and later ones too) go to the neutrino list.
   */
  function FinalStateVectors(ps: seq<PFParticle>): FinalStates
    requires DaughtersResolve(ps)
  {
    IdMapResolves(ps);
    var m := IdMap(ps);
    Partition(ps, m, KeysFrom(m, 0, IdBound(ps)))
  }

  /** The cosmic list: the first-listed cosmic primaries, in ascending id order. */
  lemma FinalStateCosmic(ps: seq<PFParticle>)
    requires DaughtersResolve(ps)
    ensures forall i: nat :: i in FinalStateVectors(ps).cosmic <==>
      i < |ps| && IsFirstOfId(ps, i) && IsCosmicPrimary(ps[i])
    ensures AscendingIds(ps, FinalStateVectors(ps).cosmic)
  {
    IdMapResolves(ps);
    var m := IdMap(ps);
    var keys := KeysFrom(m, 0, IdBound(ps));
    assert forall k :: k in keys <==> k in m;
    PartitionCosmic(ps, m, keys);
    PartitionCosmicOrdered(ps, m, keys);
    var c := Partition(ps, m, keys).cosmic;
    assert c == FinalStateVectors(ps).cosmic;
    forall i: nat
      ensures i in c <==> i < |ps| && IsFirstOfId(ps, i) && IsCosmicPrimary(ps[i])
    {
      if i in c {
        var k :| k in keys && i == m[k] && IsCosmicPrimary(ps[m[k]]);
      }
      if i < |ps| && IsFirstOfId(ps, i) && IsCosmicPrimary(ps[i]) {
        IdMapKeepsFirst(ps, i);
        assert ps[i].self in keys;
      }
    }
  }

  /**
   * The neutrino list: the first-listed particles whose id is a daughter id of
   * some first-listed neutrino primary.
   */
  lemma FinalStateNeutrino(ps: seq<PFParticle>)
    requires DaughtersResolve(ps)
    ensures forall i: nat :: i in FinalStateVectors(ps).neutrino <==>
      i < |ps| && IsFirstOfId(ps, i) &&
      exists p :: 0 <= p < |ps| && IsFirstOfId(ps, p) && IsNeutrinoPrimary(ps[p]) && ps[i].self in ps[p].daughters
  {
    IdMapResolves(ps);
    var m := IdMap(ps);
    var keys := KeysFrom(m, 0, IdBound(ps));
    assert forall k :: k in keys <==> k in m;
    PartitionNeutrino(ps, m, keys);
    var r := FinalStateVectors(ps);
    forall i: nat
      ensures i in r.neutrino <==>
        i < |ps| && IsFirstOfId(ps, i) &&
        exists p :: 0 <= p < |ps| && IsFirstOfId(ps, p) && IsNeutrinoPrimary(ps[p]) && ps[i].self in ps[p].daughters
    {
      if i in r.neutrino {
        var k, d :| k in keys && IsNeutrinoPrimary(ps[m[k]]) && d in ps[m[k]].daughters && i == m[d];
        var p := m[k];
        assert 0 <= p < |ps| && IsFirstOfId(ps, p) && IsNeutrinoPrimary(ps[p]) && ps[i].self in ps[p].daughters;
      }
      if i < |ps| && IsFirstOfId(ps, i) &&
        exists p :: 0 <= p < |ps| && IsFirstOfId(ps, p) && IsNeutrinoPrimary(ps[p]) && ps[i].self in ps[p].daughters
      {
        var p :| 0 <= p < |ps| && IsFirstOfId(ps, p) && IsNeutrinoPrimary(ps[p]) && ps[i].self in ps[p].daughters;
        IdMapKeepsFirst(ps, p);
        IdMapKeepsFirst(ps, i);
        var k := ps[p].self;
        assert k in keys && IsNeutrinoPrimary(ps[m[k]]) && ps[i].self in ps[m[k]].daughters && i == m[ps[i].self];
      }
    }
  }

  /**
   * A neutrino primary that names the same daughter twice contributes that
   * daughter twice: ids 5 (a muon-neutrino primary with daughters 7 and 7)
   * and 7 give the neutrino list [1, 1].
   */
  lemma DaughterNamedTwice()
    ensures var ps := [PFParticle(5, true, 14, [7, 7]), PFParticle(7, false, 13, [])];
      DaughtersResolve(ps) && FinalStateVectors(ps).neutrino == [1, 1]
  {
    var ps := [PFParticle(5, true, 14, [7, 7]), PFParticle(7, false, 13, [])];
    ExampleIdMap(ps);
    IdMapResolves(ps);
    var m := IdMap(ps);
    KeysOfTwo(m, IdBound(ps));
    ExamplePartition(ps, m);
  }

  /** Helper for the example above: walking its two keys in order. */
  lemma ExamplePartition(ps: seq<PFParticle>, m: map<nat, nat>)
    requires ps == [PFParticle(5, true, 14, [7, 7]), PFParticle(7, false, 13, [])]
    requires IndexesBySelf(ps, m) && DaughtersKnown(ps, m)
    requires 5 in m && m[5] == 0 && 7 in m && m[7] == 1
    ensures Partition(ps, m, [5, 7]).neutrino == [1, 1]
  {
    assert [5, 7] == [5] + [7];
    PartitionConcat(ps, m, [5], [7]);
    PartitionOne(ps, m, 5);
    PartitionOne(ps, m, 7);
    var first := Partition(ps, m, [5]).neutrino;
    assert IsNeutrinoPrimary(ps[m[5]]) && ps[m[5]].daughters == [7, 7];
    assert |first| == 2 && first[0] == 1 && first[1] == 1;
    assert Partition(ps, m, [7]).neutrino == [];
  }

  /** Helper for the example above: its id map and bound. */
  lemma ExampleIdMap(ps: seq<PFParticle>)
    requires ps == [PFParticle(5, true, 14, [7, 7]), PFParticle(7, false, 13, [])]
    ensures DaughtersResolve(ps)
    ensures forall k :: k in IdMap(ps) <==> k == 5 || k == 7
    ensures 5 in IdMap(ps) && IdMap(ps)[5] == 0 && 7 in IdMap(ps) && IdMap(ps)[7] == 1
    ensures IdBound(ps) > 7
  {
    assert ps[0].self == 5 && ps[1].self == 7;
    assert HasId(ps, 5) && HasId(ps, 7);
    IdMapKeepsFirst(ps, 0);
    IdMapKeepsFirst(ps, 1);
  }

  /** Helper for the example above: the ordered keys of a map whose keys are 5 and 7. */
  lemma KeysOfTwo(m: map<nat, nat>, hi: nat)
    requires forall k :: k in m <==> k == 5 || k == 7
    requires hi > 7
    ensures KeysFrom(m, 0, hi) == [5, 7]
  {
    TwoAscending(KeysFrom(m, 0, hi), 5, 7);
  }

  /** A strictly ascending sequence holding exactly the values x < y is [x, y]. */
  lemma TwoAscending(ks: seq<nat>, x: nat, y: nat)
    requires x < y
    requires forall a, b :: 0 <= a < b < |ks| ==> ks[a] < ks[b]
    requires forall k :: k in ks <==> k == x || k == y
    ensures ks == [x, y]
  {
    assert x in ks && y in ks;
    var i :| 0 <= i < |ks| && ks[i] == x;
    var j :| 0 <= j < |ks| && ks[j] == y;
    var n := |ks| - 1;
    assert ks[0] in ks && ks[n] in ks;
    assert i == 0;
    assert j == n;
    assert ks[1] in ks;
    assert n == 1;
  }

  /** Every particle in either list is an index of the collection. */
  lemma FinalStatesInRange(ps: seq<PFParticle>)
    requires DaughtersResolve(ps)
    ensures forall i :: i in FinalStateVectors(ps).cosmic ==> i < |ps|
    ensures forall i :: i in FinalStateVectors(ps).neutrino ==> i < |ps|
  {
    FinalStateCosmic(ps);
    FinalStateNeutrino(ps);
  }

  /** The tracks and showers resolved from a list of particles. */
  datatype Resolved<Tr, Sh> = Resolved(tracks: seq<Tr>, showers: seq<Sh>)

  /**
   * Resolves each particle through its track and shower associations: exactly
   * one track and no shower gives a track, no track and exactly one shower
   * gives a shower, and every other combination is dropped.
   */
  function CollectTracksAndShowers<Tr(==, !new), Sh(==, !new)>(
    particles: seq<nat>, trackAssoc: seq<seq<Tr>>, showerAssoc: seq<seq<Sh>>): (r: Resolved<Tr, Sh>)
    requires forall p :: p in particles ==> p < |trackAssoc| && p < |showerAssoc|
    ensures |r.tracks| + |r.showers| <= |particles|
    ensures forall t :: t in r.tracks <==>
      exists p :: p in particles && trackAssoc[p] == [t] && showerAssoc[p] == []
    ensures forall s :: s in r.showers <==>
      exists p :: p in particles && trackAssoc[p] == [] && showerAssoc[p] == [s]
  {
    if |particles| == 0 then Resolved([], [])
    else
      var prefix := particles[..|particles| - 1];
      var p := particles[|particles| - 1];
      assert p in particles;
      assert forall x :: x in particles <==> x in prefix || x == p;
      var r := CollectTracksAndShowers(prefix, trackAssoc, showerAssoc);
      var nTracks, nShowers := |trackAssoc[p]|, |showerAssoc[p]|;
      if nTracks == 0 && nShowers == 0 then r
      else if nTracks == 1 && nShowers == 0 then r.(tracks := r.tracks + [trackAssoc[p][0]])
      else if nTracks == 0 && nShowers == 1 then r.(showers := r.showers + [showerAssoc[p][0]])
      else r
  }

  /**
   * Resolving two lists one after the other gives the first list's products
   * followed by the second's: one product per resolvable particle, in order,
   * with repeats kept.
   */
  lemma {:induction false} CollectConcat<Tr(!new), Sh(!new)>(
    a: seq<nat>, b: seq<nat>, trackAssoc: seq<seq<Tr>>, showerAssoc: seq<seq<Sh>>)
    requires forall p :: p in a ==> p < |trackAssoc| && p < |showerAssoc|
    requires forall p :: p in b ==> p < |trackAssoc| && p < |showerAssoc|
    ensures CollectTracksAndShowers(a + b, trackAssoc, showerAssoc).tracks ==
      CollectTracksAndShowers(a, trackAssoc, showerAssoc).tracks + CollectTracksAndShowers(b, trackAssoc, showerAssoc).tracks
    ensures CollectTracksAndShowers(a + b, trackAssoc, showerAssoc).showers ==
      CollectTracksAndShowers(a, trackAssoc, showerAssoc).showers + CollectTracksAndShowers(b, trackAssoc, showerAssoc).showers
    decreases |b|
  {
    if |b| == 0 {
      assert a + b == a;
    } else {
      var front, p := b[..|b| - 1], b[|b| - 1];
      assert p in b;
      assert forall x :: x in front ==> x in b;
      assert b == front + [p];
      assert a + b == (a + front) + [p];
      CollectConcat(a, front, trackAssoc, showerAssoc);
      CollectAppendOne(a, front, p, trackAssoc, showerAssoc);
    }
  }

  /** The inductive step of CollectConcat: one more particle at the end of the second list. */
  lemma CollectAppendOne<Tr(!new), Sh(!new)>(
    a: seq<nat>, front: seq<nat>, p: nat, trackAssoc: seq<seq<Tr>>, showerAssoc: seq<seq<Sh>>)
    requires forall q :: q in a ==> q < |trackAssoc| && q < |showerAssoc|
    requires forall q :: q in front ==> q < |trackAssoc| && q < |showerAssoc|
    requires p < |trackAssoc| && p < |showerAssoc|
    requires CollectTracksAndShowers(a + front, trackAssoc, showerAssoc).tracks ==
      CollectTracksAndShowers(a, trackAssoc, showerAssoc).tracks + CollectTracksAndShowers(front, trackAssoc, showerAssoc).tracks
    requires CollectTracksAndShowers(a + front, trackAssoc, showerAssoc).showers ==
      CollectTracksAndShowers(a, trackAssoc, showerAssoc).showers + CollectTracksAndShowers(front, trackAssoc, showerAssoc).showers
    ensures CollectTracksAndShowers((a + front) + [p], trackAssoc, showerAssoc).tracks ==
      CollectTracksAndShowers(a, trackAssoc, showerAssoc).tracks + CollectTracksAndShowers(front + [p], trackAssoc, showerAssoc).tracks
    ensures CollectTracksAndShowers((a + front) + [p], trackAssoc, showerAssoc).showers ==
      CollectTracksAndShowers(a, trackAssoc, showerAssoc).showers + CollectTracksAndShowers(front + [p], trackAssoc, showerAssoc).showers
  {
    CollectStep(a + front, p, trackAssoc, showerAssoc);
    CollectStep(front, p, trackAssoc, showerAssoc);
    var whole := CollectTracksAndShowers((a + front) + [p], trackAssoc, showerAssoc);
    var ra := CollectTracksAndShowers(a, trackAssoc, showerAssoc);
    var rf := CollectTracksAndShowers(front, trackAssoc, showerAssoc);
    var rfp := CollectTracksAndShowers(front + [p], trackAssoc, showerAssoc);
    var raf := CollectTracksAndShowers(a + front, trackAssoc, showerAssoc);
    var t := if |trackAssoc[p]| == 1 && |showerAssoc[p]| == 0 then trackAssoc[p] else [];
    var sh := if |trackAssoc[p]| == 0 && |showerAssoc[p]| == 1 then showerAssoc[p] else [];
    Regroup(whole.tracks, raf.tracks, ra.tracks, rf.tracks, t, rfp.tracks);
    Regroup(whole.showers, raf.showers, ra.showers, rf.showers, sh, rfp.showers);
  }

  /** Regrouping a three-part concatenation. */
  lemma Regroup<T>(whole: seq<T>, xy: seq<T>, x: seq<T>, y: seq<T>, c: seq<T>, yc: seq<T>)
    requires whole == xy + c && xy == x + y && yc == y + c
    ensures whole == x + yc
  {
  }

  /** Resolving a list and then one more particle appends that particle's product, if it has one. */
  lemma CollectStep<Tr(!new), Sh(!new)>(prefix: seq<nat>, p: nat, trackAssoc: seq<seq<Tr>>, showerAssoc: seq<seq<Sh>>)
    requires forall q :: q in prefix ==> q < |trackAssoc| && q < |showerAssoc|
    requires p < |trackAssoc| && p < |showerAssoc|
    ensures CollectTracksAndShowers(prefix + [p], trackAssoc, showerAssoc).tracks ==
      CollectTracksAndShowers(prefix, trackAssoc, showerAssoc).tracks
      + (if |trackAssoc[p]| == 1 && |showerAssoc[p]| == 0 then trackAssoc[p] else [])
    ensures CollectTracksAndShowers(prefix + [p], trackAssoc, showerAssoc).showers ==
      CollectTracksAndShowers(prefix, trackAssoc, showerAssoc).showers
      + (if |trackAssoc[p]| == 0 && |showerAssoc[p]| == 1 then showerAssoc[p] else [])
  {
    var ps := prefix + [p];
    assert ps[..|ps| - 1] == prefix;
    assert ps[|ps| - 1] == p;
    if |trackAssoc[p]| == 1 {
      assert trackAssoc[p] == [trackAssoc[p][0]];
    }
    if |showerAssoc[p]| == 1 {
      assert showerAssoc[p] == [showerAssoc[p][0]];
    }
  }

  /** A single particle yields its one track, or its one shower, or nothing. */
  lemma CollectOne<Tr(!new), Sh(!new)>(p: nat, trackAssoc: seq<seq<Tr>>, showerAssoc: seq<seq<Sh>>)
    requires p < |trackAssoc| && p < |showerAssoc|
    ensures CollectTracksAndShowers([p], trackAssoc, showerAssoc).tracks ==
      if |trackAssoc[p]| == 1 && |showerAssoc[p]| == 0 then trackAssoc[p] else []
    ensures CollectTracksAndShowers([p], trackAssoc, showerAssoc).showers ==
      if |trackAssoc[p]| == 0 && |showerAssoc[p]| == 1 then showerAssoc[p] else []
  {
    assert [p][..0] == [];
    if |trackAssoc[p]| == 1 {
      assert trackAssoc[p] == [trackAssoc[p][0]];
    }
    if |showerAssoc[p]| == 1 {
      assert showerAssoc[p] == [showerAssoc[p][0]];
    }
  }
}
