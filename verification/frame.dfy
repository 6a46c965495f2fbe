/** How the systems meet across a frame: an entity one system queues for
    removal is gone by the time the next system runs, and the others react to
    its absence. */
module Frame {
  import opened Entities
  import opened Siege
  import opened Combat

  /** The store once the siege system has run and its queued removals are
      applied: the queued set is the one `FighterSiege` returns. */
  function AfterSiege(w: World, viewX: map<Id, int>, width: int): World
    requires w.fighters.Keys <= viewX.Keys
  {
    Despawn(w, set id | id in w.fighters && Escaped(viewX[id], width))
  }

  /** After the siege system exactly the fighters inside the window are left,
      each as it was; no other component is touched except that of a fighter
      that walked off. */
  lemma SiegeLeavesInside(w: World, viewX: map<Id, int>, width: int)
    requires w.fighters.Keys <= viewX.Keys
    ensures AfterSiege(w, viewX, width).fighters.Keys == set id | id in w.fighters && !Escaped(viewX[id], width)
    ensures forall id :: id in AfterSiege(w, viewX, width).fighters ==> AfterSiege(w, viewX, width).fighters[id] == w.fighters[id]
    ensures forall id :: id in w.timeouts && id !in w.fighters ==> id in AfterSiege(w, viewX, width).timeouts
    ensures AfterSiege(w, viewX, width).score == w.score
  {
  }

  /** A fighter whose opponent walked off the field is released: on its next
      attack the combat system drops the stale link, and unless a unit ahead
      blocks it, it moves again. */
  lemma SiegedFoeReleased(w: World, viewX: map<Id, int>, width: int,
                          order: seq<Id>, delta: nat, rolls: map<Id, Rolls>, next: Id, a: Id)
    requires w.fighters.Keys <= viewX.Keys
    requires a in w.fighters && !Escaped(viewX[a], width)
    requires w.fighters[a].fighting.Some? && w.fighters[a].fighting.value in w.fighters
    requires Escaped(viewX[w.fighters[a].fighting.value], width)
    requires w.fighters[a].attackCooldown <= delta
    requires Enumerates(order, AfterSiege(w, viewX, width).fighters.Keys)
    requires RollsForEngaged(AfterSiege(w, viewX, width).fighters, rolls)
    ensures var f := Fight(AfterSiege(w, viewX, width).fighters, order, delta, rolls, next).fighters[a];
      && f.fighting == None
      && f.attackCooldown == Cooldown
      && (!w.fighters[a].waiting ==> f.Moving())
  {
    var rest := AfterSiege(w, viewX, width).fighters;
    SiegeLeavesInside(w, viewX, width);
    assert a in rest && w.fighters[a].fighting.value !in rest;
    FightRearmsAndUnlinks(rest, order, delta, rolls, next, a);
  }
}
