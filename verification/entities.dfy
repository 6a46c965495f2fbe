/** Entities: the records the simulation keeps per entity (fighters, their
    transforms, timeouts), the integer widths they use, and the deferred
    removal of entities that every system requests through its command queue. */
module Entities {

  /** Rust `u8`: skill levels, hit points and protection. */
  newtype u8 = x: int | 0 <= x < 0x100

  /** Rust `i32`: the score. */
  newtype i32 = x: int | -0x8000_0000 <= x < 0x8000_0000

  /** An entity identifier; entities are compared by identity only. */
  type Id = nat

  datatype Option<T> = None | Some(value: T)

  /** `u8::saturating_sub`: the difference, or 0 where it would go below zero. */
  function SaturatingSub(a: u8, b: u8): (r: u8)
    ensures r <= a
    ensures r as int >= a as int - b as int
    ensures r == 0 || r as int == a as int - b as int
  {
    if a > b then a - b else 0
  }

  /** Two's complement wrap-around of an integer into `i32`. */
  function WrapI32(v: int): (r: i32)
    ensures (r as int - v) % 0x1_0000_0000 == 0
    ensures -0x8000_0000 <= v < 0x8000_0000 ==> r as int == v
  {
    ((v + 0x8000_0000) % 0x1_0000_0000 - 0x8000_0000) as i32
  }

  /** Skill levels of a fighter; the attack, defence and strength levels bound
      the rolls of a fight, `hp` is the maximum health and `siege` what
      crossing the field is worth. */
  datatype Skills = Skills(attack: u8, defence: u8, strength: u8, hp: u8, speed: u8, siege: u8)

  /** A fighter. `attackCooldown` is kept in milliseconds. */
  datatype Fighter = Fighter(
    skills: Skills,
    hp: u8,
    protection: u8,
    fighting: Option<Id>,
    attackCooldown: int,
    waiting: bool)
  {
    /** A fighter moves when it is neither blocked by a unit ahead nor engaged. */
    predicate Moving() {
      !waiting && fighting.None?
    }
  }

  /** `Fighter::new`: full health, no protection, no engagement, ready to attack. */
  function NewFighter(skills: Skills): (f: Fighter)
    ensures f.skills == skills && f.hp == skills.hp
    ensures f.protection == 0 && f.attackCooldown == 0
    ensures f.fighting == None && !f.waiting
    ensures f.Moving()
  {
    Fighter(skills, skills.hp, 0, None, 0, false)
  }

  /** `Fighter::with_protection`: a new fighter that differs only in its protection. */
  function WithProtection(skills: Skills, protection: u8): (f: Fighter)
    ensures f.protection == protection
    ensures f.(protection := 0) == NewFighter(skills)
    ensures f.Moving()
  {
    NewFighter(skills).(protection := protection)
  }

  /** A timeout: an entity that removes itself and the entities tied to it once
      `timeLeft` (milliseconds) runs out. */
  datatype Timeout = Timeout(timeLeft: int, tiedTo: seq<Id>)

  /** `Timeout::new`: nothing tied to it yet. */
  function NewTimeout(timeLeft: int): (t: Timeout)
    ensures t.timeLeft == timeLeft && t.tiedTo == []
  {
    Timeout(timeLeft, [])
  }

  /** `Timeout::tied_to`: replaces the tied entities and keeps the time left. */
  function TiedTo(t: Timeout, tiedTo: seq<Id>): (r: Timeout)
    ensures r.timeLeft == t.timeLeft && r.tiedTo == tiedTo
  {
    t.(tiedTo := tiedTo)
  }

  /** The parts of a `Transform` the simulation uses: the position, and whether
      the sprite is mirrored (`scale.x` negative), which is the side a fighter
      belongs to and the direction it walks in. */
  datatype Transform = Transform(x: int, y: int, flipped: bool)

  /** `order` lists every key exactly once: the order a query visits entities in. */
  ghost predicate Enumerates(order: seq<Id>, keys: set<Id>) {
    && (forall i, j :: 0 <= i < j < |order| ==> order[i] != order[j])
    && (forall id :: id in order <==> id in keys)
  }

  /** The entities among the first `k` of a query order. */
  function Visited(order: seq<Id>, k: nat): set<Id>
    requires k <= |order|
  {
    set i | 0 <= i < k :: order[i]
  }

  /** The next entity of the query order is a key not yet visited. */
  lemma VisitNext(order: seq<Id>, k: nat, keys: set<Id>)
    requires Enumerates(order, keys) && k < |order|
    ensures order[k] in keys && order[k] !in Visited(order, k)
    ensures Visited(order, k + 1) == Visited(order, k) + {order[k]}
  {
    assert order[k] in order;
  }

  /** A query order visits all the keys. */
  lemma VisitedAll(order: seq<Id>, keys: set<Id>)
    requires Enumerates(order, keys)
    ensures Visited(order, |order|) == keys
  {
    forall id | id in keys ensures id in Visited(order, |order|) {
      var i :| 0 <= i < |order| && order[i] == id;
    }
  }

  /** The entity store: every live entity, and the components attached to them. */
  datatype World = World(
    entities: set<Id>,
    fighters: map<Id, Fighter>,
    transforms: map<Id, Transform>,
    timeouts: map<Id, Timeout>,
    score: i32)

  /** Applies a system's queued despawns once the system has run: each listed
      entity loses every component; the others and the score stay as they were. */
  function Despawn(w: World, gone: set<Id>): (r: World)
    ensures r.entities == w.entities - gone
    ensures r.fighters.Keys == w.fighters.Keys - gone
    ensures r.transforms.Keys == w.transforms.Keys - gone
    ensures r.timeouts.Keys == w.timeouts.Keys - gone
    ensures forall id :: id in r.fighters ==> r.fighters[id] == w.fighters[id]
    ensures forall id :: id in r.transforms ==> r.transforms[id] == w.transforms[id]
    ensures forall id :: id in r.timeouts ==> r.timeouts[id] == w.timeouts[id]
    ensures r.score == w.score
  {
    World(w.entities - gone, w.fighters - gone, w.transforms - gone, w.timeouts - gone, w.score)
  }
}
