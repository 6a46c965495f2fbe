/** The combat system (`fighting_system`), in two phases.

    Phase A counts every fighter's cooldown down by the elapsed time, clamps it
    at zero, and emits a work item for every fighter whose cooldown ran out and
    that has an opponent. Phase B resolves the work items one after the other:
    against an opponent that still exists, an opposed roll decides a hit; a
    hit deals saturating damage, spawns a marker tied to a damage text, and
    queues the defender for removal when its hit points reach zero. An
    attacker whose opponent no longer exists drops its link. Either way the
    attacker's cooldown is re-armed by adding `Cooldown`.

    Removals are deferred: a defender queued in phase B stays in the store
    until the system has run, so later work items can still hit it, and its
    own work item is still resolved. The random draws are parameters. */
module Combat {
  import opened Entities

  /** `COOLDOWN`: one second between two attacks, in milliseconds. */
  const Cooldown: int := 1000

  /** How long a hit marker and its text stay: 1.15 seconds, in milliseconds. */
  const MarkerLifetime: int := 1150

  /** A work item of phase A: who attacks, whom, and the attacker's skills. */
  datatype Attack = Attack(attacker: Id, opponent: Id, skills: Skills)

  /** The four draws made for one attack: the attack roll, the defence roll,
      the damage and the reduction by protection. */
  datatype Rolls = Rolls(attack: u8, defence: u8, damage: u8, reduction: u8)

  /** The attack roll beats the defence roll. */
  predicate Hit(r: Rolls) {
    r.attack > r.defence
  }

  /** The draws lie in the ranges they are drawn from: `0..=attack`,
      `0..=defence`, and, only on a hit, `1..=strength` and `0..=protection`.
      A hit by an attacker of strength 0 draws from the empty range `1..=0`,
      which panics; no rolls fit it. */
  predicate Fits(r: Rolls, attacker: Skills, defender: Fighter) {
    && r.attack <= attacker.attack
    && r.defence <= defender.skills.defence
    && (Hit(r) ==> 1 <= r.damage <= attacker.strength && r.reduction <= defender.protection)
  }

  /** The fields of a fighter the combat system never writes are unchanged,
      and its hit points have not grown. */
  predicate Kept(before: Fighter, after: Fighter) {
    && after.skills == before.skills
    && after.protection == before.protection
    && after.waiting == before.waiting
    && after.hp <= before.hp
  }

  function Max(a: int, b: int): int {
    if a >= b then a else b
  }

  // ---------------------------------------------------------------- phase A

  /** One fighter's cooldown after `delta` milliseconds, clamped at zero. */
  function Cool(f: Fighter, delta: nat): (g: Fighter)
    ensures g.attackCooldown >= 0
    ensures g.attackCooldown == Max(0, f.attackCooldown - delta)
    ensures g.(attackCooldown := f.attackCooldown) == f
  {
    var c := f.attackCooldown - delta;
    if c <= 0 then f.(attackCooldown := 0) else f.(attackCooldown := c)
  }

  /** The fighter emits a work item: its cooldown ran out and it has an opponent. */
  predicate Ready(f: Fighter, delta: nat) {
    f.attackCooldown - delta <= 0 && f.fighting.Some?
  }

  function CoolAll(fs: map<Id, Fighter>, delta: nat): (r: map<Id, Fighter>)
    ensures r.Keys == fs.Keys
  {
    map id | id in fs :: Cool(fs[id], delta)
  }

  /** The work items phase A emits when it visits the fighters in `order`. */
  function ReadyItems(fs: map<Id, Fighter>, order: seq<Id>, delta: nat): (items: seq<Attack>)
    requires forall id :: id in order ==> id in fs
    ensures |items| <= |order|
  {
    if order == [] then []
    else
      var id := order[|order| - 1];
      var rest := ReadyItems(fs, order[..|order| - 1], delta);
      if Ready(fs[id], delta) then rest + [Attack(id, fs[id].fighting.value, fs[id].skills)] else rest
  }

  ghost predicate IsAttacker(items: seq<Attack>, id: Id) {
    exists k :: 0 <= k < |items| && items[k].attacker == id
  }

  ghost predicate DistinctAttackers(items: seq<Attack>) {
    forall k, l :: 0 <= k < l < |items| ==> items[k].attacker != items[l].attacker
  }

  /** Phase A emits one work item for each ready fighter and for no other, each
      naming the fighter's current opponent and skills. */
  lemma {:induction false} ReadyItemsExact(fs: map<Id, Fighter>, order: seq<Id>, delta: nat)
    requires forall i, j :: 0 <= i < j < |order| ==> order[i] != order[j]
    requires forall id :: id in order ==> id in fs
    ensures var items := ReadyItems(fs, order, delta);
      && (forall k :: 0 <= k < |items| ==>
            && items[k].attacker in order
            && Ready(fs[items[k].attacker], delta)
            && items[k].opponent == fs[items[k].attacker].fighting.value
            && items[k].skills == fs[items[k].attacker].skills)
      && (forall id :: id in order ==> (IsAttacker(items, id) <==> Ready(fs[id], delta)))
      && DistinctAttackers(items)
  {
    if order != [] {
      var n := |order| - 1;
      var init, id := order[..n], order[n];
      assert order == init + [id];
      ReadyItemsExact(fs, init, delta);
      var rest := ReadyItems(fs, init, delta);
      var items := ReadyItems(fs, order, delta);
      assert id !in init by {
        forall i | 0 <= i < n ensures init[i] != id { assert order[i] != order[n]; }
      }
      forall k | 0 <= k < |rest| ensures rest[k].attacker != id {
        assert rest[k].attacker in init;
      }
      forall x | x in order ensures IsAttacker(items, x) <==> Ready(fs[x], delta) {
        if x == id {
          if Ready(fs[id], delta) {
            assert items[|rest|].attacker == id;
          }
        } else {
          assert x in init;
          if IsAttacker(items, x) {
            var k :| 0 <= k < |items| && items[k].attacker == x;
            assert k < |rest| && rest[k].attacker == x;
          }
          if IsAttacker(rest, x) {
            var k :| 0 <= k < |rest| && rest[k].attacker == x;
            assert items[k].attacker == x;
          }
        }
      }
    }
  }

  /** Phase A for one fighter, as the closure handed to `for_each_mut` runs
      it: the updated fighter, and the work item it sends, if any. */
  method CoolOne(id: Id, f: Fighter, delta: nat) returns (g: Fighter, item: Option<Attack>)
    ensures g == Cool(f, delta)
    ensures item == if Ready(f, delta) then Some(Attack(id, f.fighting.value, f.skills)) else None
  {
    g := f.(attackCooldown := f.attackCooldown - delta);
    item := None;
    if g.attackCooldown <= 0 {
      g := g.(attackCooldown := 0);
      if g.fighting.Some? {
        item := Some(Attack(id, g.fighting.value, g.skills));
      }
    }
  }

  /** The fighters so far: cooled down for the ids in `seen`, untouched for
      the others. */
  ghost predicate CooledFor(cur: map<Id, Fighter>, fs: map<Id, Fighter>, delta: nat, seen: set<Id>) {
    && cur.Keys == fs.Keys
    && forall id :: id in fs ==> cur[id] == if id in seen then Cool(fs[id], delta) else fs[id]
  }

  /** The loop body at position `k` of the query order, with what it keeps. */
  method CoolAt(fs: map<Id, Fighter>, order: seq<Id>, delta: nat, k: nat, cooled: map<Id, Fighter>, items: seq<Attack>)
    returns (cooled': map<Id, Fighter>, items': seq<Attack>)
    requires Enumerates(order, fs.Keys) && k < |order|
    requires CooledFor(cooled, fs, delta, Visited(order, k))
    requires items == ReadyItems(fs, order[..k], delta)
    ensures CooledFor(cooled', fs, delta, Visited(order, k + 1))
    ensures items' == ReadyItems(fs, order[..k + 1], delta)
  {
    var id := order[k];
    VisitNext(order, k, fs.Keys);
    assert order[..k + 1][..k] == order[..k];
    var f, item := CoolOne(id, cooled[id], delta);
    items' := items;
    if item.Some? {
      items' := items' + [item.value];
    }
    cooled' := cooled[id := f];
  }

  /** Phase A as the system runs it, over the fighters in query order. */
  method CooldownPhase(fs: map<Id, Fighter>, order: seq<Id>, delta: nat)
    returns (cooled: map<Id, Fighter>, items: seq<Attack>)
    requires Enumerates(order, fs.Keys)
    ensures cooled == CoolAll(fs, delta)
    ensures items == ReadyItems(fs, order, delta)
    ensures forall id :: id in cooled ==> cooled[id].attackCooldown >= 0
  {
    cooled, items := fs, [];
    var k := 0;
    while k < |order|
      invariant 0 <= k <= |order|
      invariant CooledFor(cooled, fs, delta, Visited(order, k))
      invariant items == ReadyItems(fs, order[..k], delta)
    {
      cooled, items := CoolAt(fs, order, delta, k, cooled, items);
      k := k + 1;
    }
    assert order[..k] == order;
    VisitedAll(order, fs.Keys);
  }

  // ---------------------------------------------------------------- phase B

  /** The state phase B works on: the fighters, the markers spawned so far
      (each a timeout tied to a damage text), the entities queued for
      removal, and the next free entity id. */
  datatype Arena = Arena(fighters: map<Id, Fighter>, effects: map<Id, Timeout>, gone: set<Id>, next: Id)

  /** The opposed roll against an existing defender, and its consequences:
      a miss changes nothing; a hit costs the defender the damage less its
      reduction, both saturating at zero, spawns a damage text and a marker
      tied to it under the next two free ids, and queues the defender for
      removal once it is at zero hit points. */
  function Land(st: Arena, defender: Id, r: Rolls): (st': Arena)
    requires defender in st.fighters
    ensures st'.fighters.Keys == st.fighters.Keys
    ensures forall id :: id in st.fighters && id != defender ==> st'.fighters[id] == st.fighters[id]
    ensures !Hit(r) ==> st' == st
    ensures Hit(r) ==>
      var before, after := st.fighters[defender].hp as int, st'.fighters[defender].hp as int;
      && after == Max(0, before - Max(0, r.damage as int - r.reduction as int))
      && st'.fighters[defender] == st.fighters[defender].(hp := st'.fighters[defender].hp)
      && st'.gone == st.gone + (if after == 0 then {defender} else {})
      && st'.next == st.next + 2
      && st'.effects == st.effects[st.next + 1 := Timeout(MarkerLifetime, [st.next])]
  {
    if Hit(r) then
      var dealt := SaturatingSub(r.damage, r.reduction);
      var d := st.fighters[defender];
      var hurt := d.(hp := SaturatingSub(d.hp, dealt));
      var text := st.next;
      Arena(st.fighters[defender := hurt],
            st.effects[text + 1 := TiedTo(NewTimeout(MarkerLifetime), [text])],
            if hurt.hp == 0 then st.gone + {defender} else st.gone,
            text + 2)
    else st
  }

  /** Phase B for one work item. */
  function Strike(st: Arena, a: Attack, r: Rolls): (st': Arena)
    requires a.attacker in st.fighters
    requires a.opponent in st.fighters ==> Fits(r, a.skills, st.fighters[a.opponent])
    ensures st'.fighters.Keys == st.fighters.Keys
    ensures forall id :: id in st.fighters ==> Kept(st.fighters[id], st'.fighters[id])
    ensures forall id :: id in st.fighters && id != a.attacker && id != a.opponent ==> st'.fighters[id] == st.fighters[id]
    ensures st'.fighters[a.attacker].attackCooldown == st.fighters[a.attacker].attackCooldown + Cooldown
    ensures st'.fighters[a.attacker].fighting == (if a.opponent in st.fighters then st.fighters[a.attacker].fighting else None)
    ensures a.opponent in st.fighters ==>
      var before, after := st.fighters[a.opponent].hp as int, st'.fighters[a.opponent].hp as int;
      && (!Hit(r) ==> after == before)
      && (Hit(r) ==> after == Max(0, before - Max(0, r.damage as int - r.reduction as int)))
      && before - after <= a.skills.strength as int
    ensures a.opponent !in st.fighters ==> forall id :: id in st.fighters ==> st'.fighters[id].hp == st.fighters[id].hp
    ensures st'.gone == st.gone + (if a.opponent in st.fighters && Hit(r) && st'.fighters[a.opponent].hp == 0 then {a.opponent} else {})
    ensures a.opponent in st.fighters && Hit(r) ==>
      st'.next == st.next + 2 && st'.effects == st.effects[st.next + 1 := Timeout(MarkerLifetime, [st.next])]
    ensures !(a.opponent in st.fighters && Hit(r)) ==> st'.next == st.next && st'.effects == st.effects
  {
    var st1 :=
      if a.opponent in st.fighters then Land(st, a.opponent, r)
      else st.(fighters := st.fighters[a.attacker := st.fighters[a.attacker].(fighting := None)]);
    var f := st1.fighters[a.attacker];
    st1.(fighters := st1.fighters[a.attacker := f.(attackCooldown := f.attackCooldown + Cooldown)])
  }

  /** Every work item has its attacker in the store and rolls that fit it. */
  ghost predicate RollsFor(fs: map<Id, Fighter>, items: seq<Attack>, rolls: map<Id, Rolls>) {
    forall k :: 0 <= k < |items| ==>
      && items[k].attacker in fs
      && items[k].attacker in rolls
      && (items[k].opponent in fs ==> Fits(rolls[items[k].attacker], items[k].skills, fs[items[k].opponent]))
  }

  /** Phase B over the work items, in order. Nobody leaves the store, nobody
      gains hit points, and whoever is queued for removal is at zero. */
  function ResolveAll(st: Arena, items: seq<Attack>, rolls: map<Id, Rolls>): (st': Arena)
    requires RollsFor(st.fighters, items, rolls)
    ensures st'.fighters.Keys == st.fighters.Keys
    ensures forall id :: id in st.fighters ==> Kept(st.fighters[id], st'.fighters[id])
    ensures st.gone <= st'.gone
    ensures forall id :: id in st'.gone - st.gone ==> id in st.fighters && st'.fighters[id].hp == 0
    ensures st.next <= st'.next
    decreases |items|
  {
    if items == [] then st
    else
      RollsForTail(st.fighters, st.fighters, items, rolls);
      var st1 := Strike(st, items[0], rolls[items[0].attacker]);
      RollsForTail(st.fighters, st1.fighters, items, rolls);
      ResolveAll(st1, items[1..], rolls)
  }

  /** The work items hold distinct attackers and an item of `id`, with an
      opponent that no longer exists. */
  ghost predicate Stale(items: seq<Attack>, fs: map<Id, Fighter>, id: Id) {
    exists k :: 0 <= k < |items| && items[k].attacker == id && items[k].opponent !in fs
  }

  /** How the attackers of the work items relate to those of all but the first. */
  lemma TailAttackers(items: seq<Attack>, fs: map<Id, Fighter>, id: Id)
    requires items != [] && DistinctAttackers(items)
    ensures DistinctAttackers(items[1..])
    ensures items[0].attacker == id ==> !IsAttacker(items[1..], id) && !Stale(items[1..], fs, id)
    ensures items[0].attacker == id ==> IsAttacker(items, id)
    ensures items[0].attacker == id ==> (Stale(items, fs, id) <==> items[0].opponent !in fs)
    ensures items[0].attacker != id ==> (IsAttacker(items, id) <==> IsAttacker(items[1..], id))
    ensures items[0].attacker != id ==> (Stale(items, fs, id) <==> Stale(items[1..], fs, id))
  {
    forall k | 0 <= k < |items| - 1 ensures items[1..][k] == items[k + 1] { }
    if items[0].attacker != id {
      if IsAttacker(items, id) {
        var k :| 0 <= k < |items| && items[k].attacker == id;
        assert items[1..][k - 1].attacker == id;
      }
      if Stale(items, fs, id) {
        var k :| 0 <= k < |items| && items[k].attacker == id && items[k].opponent !in fs;
        assert items[1..][k - 1] == items[k];
      }
    } else {
      if Stale(items, fs, id) {
        var k :| 0 <= k < |items| && items[k].attacker == id && items[k].opponent !in fs;
        assert k == 0;
      }
    }
  }

  /** With one work item per attacker, phase B adds `Cooldown` to the cooldown
      of every attacker, hit, miss or stale alike, and to nobody else's. */
  lemma {:induction false} ResolveRearms(st: Arena, items: seq<Attack>, rolls: map<Id, Rolls>, id: Id)
    requires RollsFor(st.fighters, items, rolls) && DistinctAttackers(items) && id in st.fighters
    ensures ResolveAll(st, items, rolls).fighters[id].attackCooldown
      == st.fighters[id].attackCooldown + (if IsAttacker(items, id) then Cooldown else 0)
    decreases |items|
  {
    if items != [] {
      RollsForTail(st.fighters, st.fighters, items, rolls);
      var st1 := Strike(st, items[0], rolls[items[0].attacker]);
      RollsForTail(st.fighters, st1.fighters, items, rolls);
      TailAttackers(items, st.fighters, id);
      ResolveRearms(st1, items[1..], rolls, id);
    }
  }

  /** With one work item per attacker, phase B drops exactly the links of the
      attackers whose opponent no longer exists; no other link changes. */
  lemma {:induction false} ResolveLinks(st: Arena, items: seq<Attack>, rolls: map<Id, Rolls>, id: Id)
    requires RollsFor(st.fighters, items, rolls) && DistinctAttackers(items) && id in st.fighters
    ensures ResolveAll(st, items, rolls).fighters[id].fighting
      == (if Stale(items, st.fighters, id) then None else st.fighters[id].fighting)
    decreases |items|
  {
    if items != [] {
      RollsForTail(st.fighters, st.fighters, items, rolls);
      var st1 := Strike(st, items[0], rolls[items[0].attacker]);
      RollsForTail(st.fighters, st1.fighters, items, rolls);
      TailAttackers(items, st.fighters, id);
      ResolveLinks(st1, items[1..], rolls, id);
    }
  }

  /** Every fighter that phase B brings down to zero hit points is queued for
      removal. */
  lemma {:induction false} ResolveBuries(st: Arena, items: seq<Attack>, rolls: map<Id, Rolls>, id: Id)
    requires RollsFor(st.fighters, items, rolls) && id in st.fighters
    requires st.fighters[id].hp > 0 && ResolveAll(st, items, rolls).fighters[id].hp == 0
    ensures id in ResolveAll(st, items, rolls).gone
    decreases |items|
  {
    if items != [] {
      RollsForTail(st.fighters, st.fighters, items, rolls);
      var st1 := Strike(st, items[0], rolls[items[0].attacker]);
      RollsForTail(st.fighters, st1.fighters, items, rolls);
      if st1.fighters[id].hp > 0 {
        ResolveBuries(st1, items[1..], rolls, id);
      } else {
        assert id in st1.gone;
      }
    }
  }

  /** Every effect is a damage marker of the full lifetime whose own id and
      whose texts' ids were allocated from the range `lo .. hi - 1`. */
  ghost predicate Markers(effects: map<Id, Timeout>, lo: Id, hi: Id) {
    forall id :: id in effects ==>
      && lo <= id < hi
      && effects[id].timeLeft == MarkerLifetime
      && forall x :: x in effects[id].tiedTo ==> lo <= x < hi
  }

  /** Phase B only spawns markers, each with the ids it takes from `next`
      onwards. */
  lemma {:induction false} ResolveMarks(st: Arena, items: seq<Attack>, rolls: map<Id, Rolls>, lo: Id)
    requires RollsFor(st.fighters, items, rolls)
    requires lo <= st.next && Markers(st.effects, lo, st.next)
    ensures Markers(ResolveAll(st, items, rolls).effects, lo, ResolveAll(st, items, rolls).next)
    decreases |items|
  {
    if items != [] {
      RollsForTail(st.fighters, st.fighters, items, rolls);
      var st1 := Strike(st, items[0], rolls[items[0].attacker]);
      RollsForTail(st.fighters, st1.fighters, items, rolls);
      ResolveMarks(st1, items[1..], rolls, lo);
    }
  }

  /** Phase B for one work item, as the body of the loop over the received
      items runs it. */
  method StrikeOnce(fighters: map<Id, Fighter>, effects: map<Id, Timeout>, gone: set<Id>, next: Id, a: Attack, r: Rolls)
    returns (fighters': map<Id, Fighter>, effects': map<Id, Timeout>, gone': set<Id>, next': Id)
    requires a.attacker in fighters
    requires a.opponent in fighters ==> Fits(r, a.skills, fighters[a.opponent])
    ensures Arena(fighters', effects', gone', next') == Strike(Arena(fighters, effects, gone, next), a, r)
  {
    fighters', effects', gone', next' := fighters, effects, gone, next;
    if a.opponent in fighters' {
      var fought := fighters'[a.opponent];
      if r.attack > r.defence {
        var dmg := r.damage;
        var actual := SaturatingSub(dmg, r.reduction);
        fought := fought.(hp := SaturatingSub(fought.hp, actual));
        fighters' := fighters'[a.opponent := fought];
        var text := next';
        effects' := effects'[text + 1 := TiedTo(NewTimeout(MarkerLifetime), [text])];
        next' := next' + 2;
        if fought.hp == 0 {
          gone' := gone' + {a.opponent};
        }
      }
    } else {
      fighters' := fighters'[a.attacker := fighters'[a.attacker].(fighting := None)];
    }
    var f := fighters'[a.attacker];
    fighters' := fighters'[a.attacker := f.(attackCooldown := f.attackCooldown + Cooldown)];
  }

  /** Rolls that fit the remaining work items still fit them after one item:
      nobody's skills or protection change. */
  lemma RollsForTail(fs: map<Id, Fighter>, fs': map<Id, Fighter>, items: seq<Attack>, rolls: map<Id, Rolls>)
    requires RollsFor(fs, items, rolls) && items != []
    requires fs'.Keys == fs.Keys && forall id :: id in fs ==> Kept(fs[id], fs'[id])
    ensures items[0].attacker in fs && items[0].attacker in rolls
    ensures items[0].opponent in fs ==> Fits(rolls[items[0].attacker], items[0].skills, fs[items[0].opponent])
    ensures RollsFor(fs', items[1..], rolls)
  {
    forall k | 0 <= k < |items| - 1
      ensures items[1..][k].attacker in fs' && items[1..][k].attacker in rolls
      ensures items[1..][k].opponent in fs' ==> Fits(rolls[items[1..][k].attacker], items[1..][k].skills, fs'[items[1..][k].opponent])
    {
      assert items[1..][k] == items[k + 1];
    }
  }

  /** Phase B as the system runs it: the work items one after the other. */
  method ResolvePhase(st: Arena, items: seq<Attack>, rolls: map<Id, Rolls>) returns (out: Arena)
    requires RollsFor(st.fighters, items, rolls)
    ensures out == ResolveAll(st, items, rolls)
  {
    var fighters, effects, gone, next := st.fighters, st.effects, st.gone, st.next;
    var k := 0;
    while k < |items|
      invariant 0 <= k <= |items|
      invariant fighters.Keys == st.fighters.Keys
      invariant RollsFor(fighters, items[k..], rolls)
      invariant ResolveAll(Arena(fighters, effects, gone, next), items[k..], rolls) == ResolveAll(st, items, rolls)
    {
      var a := items[k];
      assert items[k..][0] == a;
      RollsForTail(fighters, fighters, items[k..], rolls);
      var fighters', effects', gone', next' := StrikeOnce(fighters, effects, gone, next, a, rolls[a.attacker]);
      RollsForTail(fighters, fighters', items[k..], rolls);
      fighters, effects, gone, next := fighters', effects', gone', next';
      assert items[k..][1..] == items[k + 1..];
      k := k + 1;
    }
    out := Arena(fighters, effects, gone, next);
  }

  // ---------------------------------------------------------------- the system

  /** Every engaged fighter whose opponent exists has rolls that fit that fight. */
  ghost predicate RollsForEngaged(fs: map<Id, Fighter>, rolls: map<Id, Rolls>) {
    forall id :: id in fs && fs[id].fighting.Some? ==>
      && id in rolls
      && (fs[id].fighting.value in fs ==> Fits(rolls[id], fs[id].skills, fs[fs[id].fighting.value]))
  }

  /** What one run of the combat system leaves: phase B over the items phase
      A emits, starting from the cooled fighters with no markers, nothing
      queued for removal, and `next` as the next free entity id. */
  function Fight(fs: map<Id, Fighter>, order: seq<Id>, delta: nat, rolls: map<Id, Rolls>, next: Id): (r: Arena)
    requires Enumerates(order, fs.Keys)
    requires RollsForEngaged(fs, rolls)
    ensures next <= r.next && Markers(r.effects, next, r.next)
    ensures (forall id :: id in fs ==> id < next) ==>
      forall id :: id in r.effects ==> id !in fs && forall x :: x in r.effects[id].tiedTo ==> x !in fs
  {
    ReadyRollsFit(fs, order, delta, rolls);
    ResolveMarks(Arena(CoolAll(fs, delta), map[], {}, next), ReadyItems(fs, order, delta), rolls, next);
    ResolveAll(Arena(CoolAll(fs, delta), map[], {}, next), ReadyItems(fs, order, delta), rolls)
  }

  /** The rolls of the engaged fighters fit the work items phase A emits. */
  lemma ReadyRollsFit(fs: map<Id, Fighter>, order: seq<Id>, delta: nat, rolls: map<Id, Rolls>)
    requires Enumerates(order, fs.Keys)
    requires RollsForEngaged(fs, rolls)
    ensures RollsFor(CoolAll(fs, delta), ReadyItems(fs, order, delta), rolls)
  {
    ReadyItemsExact(fs, order, delta);
  }

  /** After one run of the combat system, a fighter that attacked has a
      cooldown of exactly `Cooldown` (phase A clamped it to zero first, so no
      overdue time carries over) and any other a cooldown counted down and
      clamped at zero; an attacker whose opponent no longer exists has dropped
      its link, and no other link changes. */
  lemma FightRearmsAndUnlinks(fs: map<Id, Fighter>, order: seq<Id>, delta: nat, rolls: map<Id, Rolls>, next: Id, id: Id)
    requires Enumerates(order, fs.Keys)
    requires RollsForEngaged(fs, rolls)
    requires id in fs
    ensures var f := Fight(fs, order, delta, rolls, next).fighters[id];
      && f.attackCooldown == (if Ready(fs[id], delta) then Cooldown else Max(0, fs[id].attackCooldown - delta))
      && f.fighting == (if Ready(fs[id], delta) && fs[id].fighting.value !in fs then None else fs[id].fighting)
  {
    var items := ReadyItems(fs, order, delta);
    var st := Arena(CoolAll(fs, delta), map[], {}, next);
    ReadyItemsExact(fs, order, delta);
    ReadyRollsFit(fs, order, delta, rolls);
    ResolveRearms(st, items, rolls, id);
    ResolveLinks(st, items, rolls, id);
    if Ready(fs[id], delta) {
      assert IsAttacker(items, id);
      var k :| 0 <= k < |items| && items[k].attacker == id;
      if fs[id].fighting.value !in fs {
        assert Stale(items, st.fighters, id);
      } else {
        assert !Stale(items, st.fighters, id);
      }
    } else {
      assert !IsAttacker(items, id);
      assert !Stale(items, st.fighters, id);
    }
  }

  /** After one run of the combat system, whoever is queued for removal is at
      zero hit points, and whoever was brought down to zero is queued. */
  lemma FightBuries(fs: map<Id, Fighter>, order: seq<Id>, delta: nat, rolls: map<Id, Rolls>, next: Id)
    requires Enumerates(order, fs.Keys)
    requires RollsForEngaged(fs, rolls)
    ensures var out := Fight(fs, order, delta, rolls, next);
      && (forall id :: id in out.gone ==> id in fs && out.fighters[id].hp == 0)
      && (forall id :: id in fs && fs[id].hp > 0 && out.fighters[id].hp == 0 ==> id in out.gone)
  {
    var items := ReadyItems(fs, order, delta);
    var st := Arena(CoolAll(fs, delta), map[], {}, next);
    ReadyRollsFit(fs, order, delta, rolls);
    var out := ResolveAll(st, items, rolls);
    forall id | id in fs && fs[id].hp > 0 && out.fighters[id].hp == 0 ensures id in out.gone {
      ResolveBuries(st, items, rolls, id);
    }
  }

  /** After one run of the combat system nobody has left the store or gained
      hit points, nobody's skills, protection or blocking flag has changed,
      every cooldown is at zero or above, and entity ids are only ever
      allocated upwards. */
  lemma FightKeeps(fs: map<Id, Fighter>, order: seq<Id>, delta: nat, rolls: map<Id, Rolls>, next: Id)
    requires Enumerates(order, fs.Keys)
    requires RollsForEngaged(fs, rolls)
    ensures var out := Fight(fs, order, delta, rolls, next);
      && out.fighters.Keys == fs.Keys
      && (forall id :: id in fs ==> Kept(fs[id], out.fighters[id]))
      && (forall id :: id in fs ==> out.fighters[id].attackCooldown >= 0)
      && next <= out.next
  {
    var out := Fight(fs, order, delta, rolls, next);
    forall id | id in fs ensures out.fighters[id].attackCooldown >= 0 {
      FightRearmsAndUnlinks(fs, order, delta, rolls, next, id);
    }
  }

  /** One run of the combat system over the fighters in query order: phase A,
      then phase B over the items phase A emitted. */
  method FightingSystem(fs: map<Id, Fighter>, order: seq<Id>, delta: nat, rolls: map<Id, Rolls>, next: Id)
    returns (out: Arena)
    requires Enumerates(order, fs.Keys)
    requires RollsForEngaged(fs, rolls)
    ensures out == Fight(fs, order, delta, rolls, next)
  {
    var cooled, items := CooldownPhase(fs, order, delta);
    ReadyRollsFit(fs, order, delta, rolls);
    out := ResolvePhase(Arena(cooled, map[], {}, next), items, rolls);
  }
}
