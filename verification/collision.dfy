/** The collision system (`collision_system`): one sweep over every unordered
    pair of fighters. A pair that overlaps and faces the same way blocks its
    rear member (`waiting`); a pair that overlaps and faces opposite ways is
    linked in combat (`fighting`); a pair that does not overlap proposes to
    clear the `waiting` flag of its members. Proposals go into a map keyed by
    entity in which a mark (`true`) overwrites and a clear (`false`) is only
    recorded where nothing is recorded yet; after the sweep every recorded
    `false` is applied.

    Bevy's `collide` is a foreign function of the two boxes; here it is an
    oracle `collide` that tells, for an ordered pair of entities, on which side
    their boxes touch, if at all. The pairwise visit of `compare_self_mut` is
    `Pairs`. */
module Collision {
  import opened Entities

  /** The result of a box overlap test: on which side the first box touches
      the second. */
  datatype Side = Left | Right | Top | Bottom | Inside

  /** Two entities visited together, the first as the left argument. */
  type Pair = (Id, Id)

  /** The pair of entities `x` with each of `rest`, in order. */
  function Row(x: Id, rest: seq<Id>): (ps: seq<Pair>)
    ensures |ps| == |rest|
    ensures forall k :: 0 <= k < |rest| ==> ps[k] == (x, rest[k])
  {
    seq(|rest|, k requires 0 <= k < |rest| => (x, rest[k]))
  }

  /** Every pair `(ents[i], ents[j])` with `i < j`, row by row. */
  function Pairs(ents: seq<Id>): seq<Pair>
  {
    if ents == [] then [] else Row(ents[0], ents[1..]) + Pairs(ents[1..])
  }

  /** The sweep visits exactly the pairs `(ents[i], ents[j])` with `i < j`. */
  lemma {:induction false} PairsAreOrderedIndexPairs(ents: seq<Id>)
    ensures forall p :: p in Pairs(ents) <==> exists i, j :: 0 <= i < j < |ents| && p == (ents[i], ents[j])
  {
    if ents != [] {
      var tail := ents[1..];
      PairsAreOrderedIndexPairs(tail);
      forall p
        ensures p in Pairs(ents) <==> exists i, j :: 0 <= i < j < |ents| && p == (ents[i], ents[j])
      {
        if p in Pairs(ents) {
          if p in Row(ents[0], tail) {
            var k :| 0 <= k < |tail| && Row(ents[0], tail)[k] == p;
            assert p == (ents[0], ents[k + 1]);
          } else {
            assert p in Pairs(tail);
            var i, j :| 0 <= i < j < |tail| && p == (tail[i], tail[j]);
            assert p == (ents[i + 1], ents[j + 1]);
          }
        }
        if exists i, j :: 0 <= i < j < |ents| && p == (ents[i], ents[j]) {
          var i, j :| 0 <= i < j < |ents| && p == (ents[i], ents[j]);
          if i == 0 {
            assert Row(ents[0], tail)[j - 1] == p;
          } else {
            assert p == (tail[i - 1], tail[j - 1]);
          }
        }
      }
    }
  }

  /** Over distinct entities, no pair is visited twice, in either orientation,
      and no entity is paired with itself. */
  lemma {:induction false} PairsVisitEachPairOnce(ents: seq<Id>)
    requires forall i, j :: 0 <= i < j < |ents| ==> ents[i] != ents[j]
    ensures forall k :: 0 <= k < |Pairs(ents)| ==> Pairs(ents)[k].0 != Pairs(ents)[k].1
    ensures forall k, l :: 0 <= k < l < |Pairs(ents)| ==>
      Pairs(ents)[k] != Pairs(ents)[l] && Pairs(ents)[k] != (Pairs(ents)[l].1, Pairs(ents)[l].0)
  {
    if ents != [] {
      var tail := ents[1..];
      var row, rest := Row(ents[0], tail), Pairs(tail);
      PairsVisitEachPairOnce(tail);
      HeadLeavesRest(ents);
      assert Pairs(ents) == row + rest;
      forall k, l | 0 <= k < l < |Pairs(ents)|
        ensures Pairs(ents)[k] != Pairs(ents)[l] && Pairs(ents)[k] != (Pairs(ents)[l].1, Pairs(ents)[l].0)
      {
        if l >= |row| && k < |row| {
          assert rest[l - |row|] in rest;
        }
      }
    }
  }

  /** Over distinct entities, the pairs after the first row never contain the
      first entity. */
  lemma HeadLeavesRest(ents: seq<Id>)
    requires ents != []
    requires forall i, j :: 0 <= i < j < |ents| ==> ents[i] != ents[j]
    ensures forall q :: q in Pairs(ents[1..]) ==> q.0 != ents[0] && q.1 != ents[0]
  {
    var tail := ents[1..];
    PairsAreOrderedIndexPairs(tail);
    forall q | q in Pairs(tail) ensures q.0 != ents[0] && q.1 != ents[0] {
      var i, j :| 0 <= i < j < |tail| && q == (tail[i], tail[j]);
      assert tail[i] == ents[i + 1] && tail[j] == ents[j + 1];
    }
  }

  /** Which member of a same-facing overlapping pair `(a, b)` is blocked: the
      pair is swapped when it faces left, then a Left or Top contact blocks the
      first member and any other contact the second. As a table:
      facing right, Left/Top: a; facing right, otherwise: b;
      facing left, Left/Top: b; facing left, otherwise: a. */
  function Waiter(a: Id, b: Id, flipped: bool, side: Side): (w: Id)
    ensures (side == Left || side == Top) && !flipped ==> w == a
    ensures (side == Left || side == Top) && flipped ==> w == b
    ensures !(side == Left || side == Top) && !flipped ==> w == b
    ensures !(side == Left || side == Top) && flipped ==> w == a
  {
    var (left, right) := if !flipped then (a, b) else (b, a);
    match side
    case Left | Top => left
    case Right | Bottom | Inside => right
  }

  /** Both members of the pair have a transform. */
  predicate Placed(p: Pair, tf: map<Id, Transform>) {
    p.0 in tf && p.1 in tf
  }

  /** The pair overlaps, both face the same way, and `id` is the member blocked. */
  predicate Marks(p: Pair, id: Id, tf: map<Id, Transform>, collide: (Id, Id) -> Option<Side>) {
    && Placed(p, tf)
    && collide(p.0, p.1).Some?
    && tf[p.0].flipped == tf[p.1].flipped
    && Waiter(p.0, p.1, tf[p.0].flipped, collide(p.0, p.1).value) == id
  }

  /** The pair overlaps and its members face opposite ways. */
  predicate Engages(p: Pair, tf: map<Id, Transform>, collide: (Id, Id) -> Option<Side>) {
    Placed(p, tf) && collide(p.0, p.1).Some? && tf[p.0].flipped != tf[p.1].flipped
  }

  /** The pair does not overlap. */
  predicate Apart(p: Pair, collide: (Id, Id) -> Option<Side>) {
    collide(p.0, p.1).None?
  }

  predicate Involves(p: Pair, id: Id) {
    p.0 == id || p.1 == id
  }

  /** Some visited pair blocks `id`. */
  ghost predicate Marked(ps: seq<Pair>, id: Id, tf: map<Id, Transform>, collide: (Id, Id) -> Option<Side>) {
    exists p :: p in ps && Marks(p, id, tf, collide)
  }

  /** Some visited pair containing `id` does not overlap. */
  ghost predicate Unblocked(ps: seq<Pair>, id: Id, collide: (Id, Id) -> Option<Side>) {
    exists p :: p in ps && Apart(p, collide) && Involves(p, id)
  }

  /** Some visited pair links `id` in combat. */
  ghost predicate Engaged(ps: seq<Pair>, id: Id, tf: map<Id, Transform>, collide: (Id, Id) -> Option<Side>) {
    exists p :: p in ps && Engages(p, tf, collide) && Involves(p, id)
  }

  /** Some visited pair links `id` with `foe`. */
  ghost predicate Foes(ps: seq<Pair>, id: Id, foe: Id, tf: map<Id, Transform>, collide: (Id, Id) -> Option<Side>) {
    exists p :: p in ps && Engages(p, tf, collide) && (p == (id, foe) || p == (foe, id))
  }

  /** Every visited pair has fighters and transforms. */
  ghost predicate Covered(ps: seq<Pair>, fs: map<Id, Fighter>, tf: map<Id, Transform>) {
    forall p :: p in ps ==> p.0 in fs && p.1 in fs && Placed(p, tf)
  }

  /** The state of a sweep: the fighters, and the proposals recorded so far. */
  datatype Sweep = Sweep(fighters: map<Id, Fighter>, pending: map<Id, bool>)

  /** The body of the sweep for one pair. */
  function Visit(s: Sweep, p: Pair, tf: map<Id, Transform>, collide: (Id, Id) -> Option<Side>): (r: Sweep)
    requires p.0 in s.fighters && p.1 in s.fighters && Placed(p, tf)
    ensures r.fighters.Keys == s.fighters.Keys
    ensures r.pending.Keys <= s.pending.Keys + {p.0, p.1}
  {
    var (a, b) := p;
    match collide(a, b)
    case Some(side) =>
      if tf[a].flipped == tf[b].flipped then
        var w := Waiter(a, b, tf[a].flipped, side);
        Sweep(s.fighters[w := s.fighters[w].(waiting := true)], s.pending[w := true])
      else
        var linked := s.fighters[a := s.fighters[a].(fighting := Some(b))];
        Sweep(linked[b := linked[b].(fighting := Some(a))], s.pending)
    case None =>
      var pa := if s.fighters[a].waiting && a !in s.pending then s.pending[a := false] else s.pending;
      var pb := if s.fighters[b].waiting && b !in pa then pa[b := false] else pa;
      Sweep(s.fighters, pb)
  }

  /** The sweep over a sequence of pairs, in that order. */
  function SweepAll(s: Sweep, ps: seq<Pair>, tf: map<Id, Transform>, collide: (Id, Id) -> Option<Side>): (r: Sweep)
    requires Covered(ps, s.fighters, tf)
    ensures r.fighters.Keys == s.fighters.Keys
    ensures s.pending.Keys <= s.fighters.Keys ==> r.pending.Keys <= r.fighters.Keys
    decreases |ps|
  {
    if ps == [] then s
    else
      var s' := Visit(s, ps[0], tf, collide);
      assert Covered(ps[1..], s'.fighters, tf) by {
        forall p | p in ps[1..] ensures p in ps { }
      }
      SweepAll(s', ps[1..], tf, collide)
  }

  /** The loop after the sweep: every fighter recorded as `false` stops waiting. */
  function ApplyPending(fs: map<Id, Fighter>, pending: map<Id, bool>): (r: map<Id, Fighter>)
    ensures r.Keys == fs.Keys
  {
    map id | id in fs :: if id in pending && !pending[id] then fs[id].(waiting := false) else fs[id]
  }

  /** The fighters after one run of the system over the pairs `ps`. */
  function Outcome(fs: map<Id, Fighter>, tf: map<Id, Transform>, ps: seq<Pair>, collide: (Id, Id) -> Option<Side>): (r: map<Id, Fighter>)
    requires Covered(ps, fs, tf)
    ensures r.Keys == fs.Keys
  {
    var s := SweepAll(Sweep(fs, map[]), ps, tf, collide);
    ApplyPending(s.fighters, s.pending)
  }

  /** Splitting a non-empty sequence of pairs into its first pair and the rest. */
  lemma Uncons(ps: seq<Pair>)
    requires ps != []
    ensures forall p :: p in ps <==> p == ps[0] || p in ps[1..]
  {
    assert ps == [ps[0]] + ps[1..];
  }

  /** The sweep only writes `waiting` and `fighting`. */
  lemma {:induction false} SweepKeepsRecords(s: Sweep, ps: seq<Pair>, tf: map<Id, Transform>, collide: (Id, Id) -> Option<Side>, id: Id)
    requires Covered(ps, s.fighters, tf) && id in s.fighters
    ensures var f := SweepAll(s, ps, tf, collide).fighters[id];
      f.(waiting := s.fighters[id].waiting, fighting := s.fighters[id].fighting) == s.fighters[id]
    decreases |ps|
  {
    if ps != [] {
      Uncons(ps);
      VisitKeepsRecords(s, ps[0], tf, collide, id);
      SweepKeepsRecords(Visit(s, ps[0], tf, collide), ps[1..], tf, collide, id);
    }
  }

  /** Visiting one pair only writes `waiting` and `fighting`. */
  lemma VisitKeepsRecords(s: Sweep, p: Pair, tf: map<Id, Transform>, collide: (Id, Id) -> Option<Side>, id: Id)
    requires p.0 in s.fighters && p.1 in s.fighters && Placed(p, tf) && id in s.fighters
    ensures var f := Visit(s, p, tf, collide).fighters[id];
      f.(waiting := s.fighters[id].waiting, fighting := s.fighters[id].fighting) == s.fighters[id]
  {
  }

  /** What visiting one pair does to one fighter's `waiting` flag and entry. */
  lemma VisitWaiting(s: Sweep, p: Pair, tf: map<Id, Transform>, collide: (Id, Id) -> Option<Side>, id: Id)
    requires p.0 in s.fighters && p.1 in s.fighters && Placed(p, tf) && id in s.fighters
    ensures var r := Visit(s, p, tf, collide);
      && r.fighters[id].waiting == (s.fighters[id].waiting || Marks(p, id, tf, collide))
      && (Marks(p, id, tf, collide) ==> id in r.pending && r.pending[id])
      && (!Marks(p, id, tf, collide) && id in s.pending ==> id in r.pending && r.pending[id] == s.pending[id])
      && (!Marks(p, id, tf, collide) && id !in s.pending ==>
            (id in r.pending <==> s.fighters[id].waiting && Apart(p, collide) && Involves(p, id))
            && (id in r.pending ==> !r.pending[id]))
  {
  }

  /** What the sweep does to one fighter's `waiting` flag and to its entry in
      the proposals, whatever the order of the pairs: the flag ends set when
      it was set or some pair blocks the fighter; an entry of a blocked
      fighter ends `true`; an unblocked fighter keeps an existing entry, and
      gains a `false` one exactly when it was waiting and some pair with it
      does not overlap. */
  lemma {:induction false} SweepWaiting(s: Sweep, ps: seq<Pair>, tf: map<Id, Transform>, collide: (Id, Id) -> Option<Side>, id: Id)
    requires Covered(ps, s.fighters, tf) && id in s.fighters
    ensures var r := SweepAll(s, ps, tf, collide);
      && r.fighters[id].waiting == (s.fighters[id].waiting || Marked(ps, id, tf, collide))
      && (Marked(ps, id, tf, collide) ==> id in r.pending && r.pending[id])
      && (!Marked(ps, id, tf, collide) && id in s.pending ==> id in r.pending && r.pending[id] == s.pending[id])
      && (!Marked(ps, id, tf, collide) && id !in s.pending ==>
            (id in r.pending <==> s.fighters[id].waiting && Unblocked(ps, id, collide))
            && (id in r.pending ==> !r.pending[id]))
    decreases |ps|
  {
    if ps != [] {
      Uncons(ps);
      var s1 := Visit(s, ps[0], tf, collide);
      VisitWaiting(s, ps[0], tf, collide, id);
      SweepWaiting(s1, ps[1..], tf, collide, id);
      if Marks(ps[0], id, tf, collide) {
        assert Marked(ps, id, tf, collide);
      } else {
        assert Marked(ps, id, tf, collide) == Marked(ps[1..], id, tf, collide);
        assert s1.fighters[id].waiting == s.fighters[id].waiting;
        if Apart(ps[0], collide) && Involves(ps[0], id) {
          assert Unblocked(ps, id, collide);
        } else {
          assert Unblocked(ps, id, collide) == Unblocked(ps[1..], id, collide);
        }
      }
    }
  }

  /** What the sweep does to one fighter's `fighting` link: it is left alone
      unless some pair engages the fighter, and then it names a foe that some
      visited pair engages it with; it is never cleared. */
  lemma {:induction false} SweepFighting(s: Sweep, ps: seq<Pair>, tf: map<Id, Transform>, collide: (Id, Id) -> Option<Side>, id: Id)
    requires Covered(ps, s.fighters, tf) && id in s.fighters
    ensures var g := SweepAll(s, ps, tf, collide).fighters[id].fighting;
      && (!Engaged(ps, id, tf, collide) ==> g == s.fighters[id].fighting)
      && (Engaged(ps, id, tf, collide) ==> g.Some? && Foes(ps, id, g.value, tf, collide))
    decreases |ps|
  {
    if ps != [] {
      Uncons(ps);
      var s1 := Visit(s, ps[0], tf, collide);
      SweepFighting(s1, ps[1..], tf, collide, id);
      var g := SweepAll(s, ps, tf, collide).fighters[id].fighting;
      if Engaged(ps[1..], id, tf, collide) {
        assert Foes(ps, id, g.value, tf, collide) by {
          var q :| q in ps[1..] && Engages(q, tf, collide) && (q == (id, g.value) || q == (g.value, id));
          assert q in ps;
        }
      } else if Engages(ps[0], tf, collide) && Involves(ps[0], id) {
        assert g == s1.fighters[id].fighting;
        assert Foes(ps, id, g.value, tf, collide) by {
          assert ps[0] in ps;
        }
      } else {
        assert !Engaged(ps, id, tf, collide);
      }
    }
  }

  /** After the system, a fighter is waiting exactly when some visited pair
      blocks it, or it was waiting and no visited pair with it is apart. The
      answer depends on which pairs are visited and not on their order. */
  lemma CollisionWaiting(fs: map<Id, Fighter>, tf: map<Id, Transform>, ps: seq<Pair>, collide: (Id, Id) -> Option<Side>, id: Id)
    requires Covered(ps, fs, tf) && id in fs
    ensures Outcome(fs, tf, ps, collide)[id].waiting
      == (Marked(ps, id, tf, collide) || (fs[id].waiting && !Unblocked(ps, id, collide)))
  {
    SweepWaiting(Sweep(fs, map[]), ps, tf, collide, id);
  }

  /** Visiting the same pairs in another order gives every fighter the same
      `waiting` flag. */
  lemma CollisionWaitingOrderIndependent(fs: map<Id, Fighter>, tf: map<Id, Transform>, ps1: seq<Pair>, ps2: seq<Pair>, collide: (Id, Id) -> Option<Side>)
    requires Covered(ps1, fs, tf) && Covered(ps2, fs, tf)
    requires forall p :: p in ps1 <==> p in ps2
    ensures forall id :: id in fs ==> Outcome(fs, tf, ps1, collide)[id].waiting == Outcome(fs, tf, ps2, collide)[id].waiting
  {
    forall id | id in fs
      ensures Outcome(fs, tf, ps1, collide)[id].waiting == Outcome(fs, tf, ps2, collide)[id].waiting
    {
      CollisionWaiting(fs, tf, ps1, collide, id);
      CollisionWaiting(fs, tf, ps2, collide, id);
      assert Marked(ps1, id, tf, collide) == Marked(ps2, id, tf, collide);
      assert Unblocked(ps1, id, collide) == Unblocked(ps2, id, collide);
    }
  }

  /** After the system a fighter differs from before at most in `waiting` and
      `fighting`; its link is untouched unless some visited pair engages it,
      and otherwise names one of the foes it is engaged with. */
  lemma CollisionFighting(fs: map<Id, Fighter>, tf: map<Id, Transform>, ps: seq<Pair>, collide: (Id, Id) -> Option<Side>, id: Id)
    requires Covered(ps, fs, tf) && id in fs
    ensures var f := Outcome(fs, tf, ps, collide)[id];
      && f.(waiting := fs[id].waiting, fighting := fs[id].fighting) == fs[id]
      && (!Engaged(ps, id, tf, collide) ==> f.fighting == fs[id].fighting)
      && (Engaged(ps, id, tf, collide) ==> f.fighting.Some? && Foes(ps, id, f.fighting.value, tf, collide))
  {
    SweepKeepsRecords(Sweep(fs, map[]), ps, tf, collide, id);
    SweepFighting(Sweep(fs, map[]), ps, tf, collide, id);
  }

  /** The body of the sweep for one pair, as the closure handed to
      `compare_self_mut` runs it: it writes the fighters' flags and links in
      place and records proposals in the map. */
  method VisitPair(fighters: map<Id, Fighter>, pending: map<Id, bool>, p: Pair, tf: map<Id, Transform>, collide: (Id, Id) -> Option<Side>)
    returns (fighters': map<Id, Fighter>, pending': map<Id, bool>)
    requires p.0 in fighters && p.1 in fighters && Placed(p, tf)
    ensures Sweep(fighters', pending') == Visit(Sweep(fighters, pending), p, tf, collide)
  {
    fighters', pending' := fighters, pending;
    var (a, b) := p;
    match collide(a, b) {
      case Some(side) =>
        if tf[a].flipped == tf[b].flipped {
          var (left, right) := if tf[a].flipped then (b, a) else (a, b);
          if side == Left || side == Top {
            fighters' := fighters'[left := fighters'[left].(waiting := true)];
            pending' := pending'[left := true];
          } else {
            fighters' := fighters'[right := fighters'[right].(waiting := true)];
            pending' := pending'[right := true];
          }
        } else {
          fighters' := fighters'[a := fighters'[a].(fighting := Some(b))];
          fighters' := fighters'[b := fighters'[b].(fighting := Some(a))];
        }
      case None =>
        if fighters'[a].waiting && a !in pending' {
          pending' := pending'[a := false];
        }
        if fighters'[b].waiting && b !in pending' {
          pending' := pending'[b := false];
        }
    }
  }

  /** Any suffix of a covered sequence of pairs is covered, over fighters with the same ids. */
  lemma CoveredSuffix(ps: seq<Pair>, k: nat, fs: map<Id, Fighter>, fighters: map<Id, Fighter>, tf: map<Id, Transform>)
    requires Covered(ps, fs, tf) && fighters.Keys == fs.Keys && k <= |ps|
    ensures Covered(ps[k..], fighters, tf)
  {
    forall p | p in ps[k..] ensures p.0 in fighters && p.1 in fighters && Placed(p, tf) {
      assert p in ps;
    }
  }

  /** The loop after the sweep, over the recorded proposals in the map's own
      order (here any order): every `false` entry clears that fighter's flag. */
  method ApplyProposals(fighters: map<Id, Fighter>, pending: map<Id, bool>) returns (out: map<Id, Fighter>)
    requires pending.Keys <= fighters.Keys
    ensures out == ApplyPending(fighters, pending)
    ensures forall id :: id in fighters ==>
      (out[id].waiting == (fighters[id].waiting && (id !in pending || pending[id])))
  {
    var keys := pending.Keys;
    out := fighters;
    while keys != {}
      invariant keys <= pending.Keys
      invariant out.Keys == fighters.Keys
      invariant forall id :: id in out ==>
        out[id] == if id in pending && id !in keys && !pending[id] then fighters[id].(waiting := false) else fighters[id]
      decreases keys
    {
      var id :| id in keys;
      var v := pending[id];
      if !v {
        out := out[id := out[id].(waiting := v)];
      }
      keys := keys - {id};
    }
  }

  /** One run of the system over the fighters in query order `ents`: the
      pairwise sweep, then the loop over the recorded proposals (in the map's
      own order, here any order). */
  method CollisionSystem(fs: map<Id, Fighter>, tf: map<Id, Transform>, ents: seq<Id>, collide: (Id, Id) -> Option<Side>)
    returns (out: map<Id, Fighter>)
    requires Enumerates(ents, fs.Keys)
    requires fs.Keys <= tf.Keys
    ensures Covered(Pairs(ents), fs, tf)
    ensures out == Outcome(fs, tf, Pairs(ents), collide)
    ensures out.Keys == fs.Keys
    ensures forall id :: id in fs ==>
      (out[id].waiting == (Marked(Pairs(ents), id, tf, collide) || (fs[id].waiting && !Unblocked(Pairs(ents), id, collide))))
  {
    var ps := Pairs(ents);
    PairsAreOrderedIndexPairs(ents);
    assert Covered(ps, fs, tf) by {
      forall p | p in ps ensures p.0 in fs && p.1 in fs && Placed(p, tf) {
        var i, j :| 0 <= i < j < |ents| && p == (ents[i], ents[j]);
        assert ents[i] in ents && ents[j] in ents;
      }
    }
    var fighters, pending := fs, map[];
    var k := 0;
    while k < |ps|
      invariant 0 <= k <= |ps|
      invariant fighters.Keys == fs.Keys && pending.Keys <= fighters.Keys
      invariant SweepAll(Sweep(fighters, pending), ps[k..], tf, collide) == SweepAll(Sweep(fs, map[]), ps, tf, collide)
    {
      CoveredSuffix(ps, k, fs, fighters, tf);
      assert ps[k] in ps[k..];
      fighters, pending := VisitPair(fighters, pending, ps[k], tf, collide);
      assert ps[k..][1..] == ps[k + 1..];
      k := k + 1;
    }
    out := ApplyProposals(fighters, pending);
    forall id | id in fs
      ensures out[id].waiting
        == (Marked(Pairs(ents), id, tf, collide) || (fs[id].waiting && !Unblocked(Pairs(ents), id, collide)))
    {
      CollisionWaiting(fs, tf, ps, collide, id);
    }
  }

  /** When one fighter overlaps two enemies, the link it ends with is the one
      visited last: two orders of the same pairs leave it with different foes. */
  lemma FightingDependsOnVisitOrder()
    ensures
      var tf := map[0 := Transform(0, 0, false), 1 := Transform(0, 0, true), 2 := Transform(0, 0, true)];
      var collide := (a: Id, b: Id) => Some(Inside);
      var f := NewFighter(Skills(1, 1, 1, 1, 1, 1));
      var fs := map[0 := f, 1 := f, 2 := f];
      && Outcome(fs, tf, [(0, 1), (0, 2)], collide)[0].fighting == Some(2)
      && Outcome(fs, tf, [(0, 2), (0, 1)], collide)[0].fighting == Some(1)
  {
  }
}
