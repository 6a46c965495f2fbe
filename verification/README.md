# sidewars simulation core, in Dafny

sidewars is a two-sided lane battle. Fighters walk towards each other across the
field. A fighter that runs into a unit of its own side waits behind it. Fighters
of opposite sides that meet lock into combat and trade blows on a cooldown.
A fighter that walks off either edge of the field is removed and scores its
siege level for its side. Each hit leaves a short-lived damage marker.

This project models the systems that drive that simulation, each as one
deterministic update of an entity store:

- **Entities** (`entities.dfy`): the `Fighter` record and its constructors,
  the `moving` predicate, and the `Timeout` record. It also holds the `u8` and
  `i32` integer widths and the deferred removal of entities. Every system
  queues removals, and they are applied once the system has run.
- **Movement** (`movement.dfy`): `fighter_movement`. Only a moving fighter
  walks.
- **Collision** (`collision.dfy`): `collision_system`, the pairwise sweep.
  - A same-facing overlap blocks one member, chosen by a facing by contact-side
    table.
  - An opposite-facing overlap links both members in combat.
  - A pair that does not overlap proposes clearing `waiting` through a map in
    which a mark overwrites and a clear is only recorded where nothing is.
- **Combat** (`combat.dfy`): `fighting_system`.
  - Phase A counts cooldowns down and emits one work item per ready fighter.
  - Phase B resolves the items in order. Each item is an opposed roll, `u8`
    saturating damage, a damage marker, the removal of a defender at zero hit
    points, or the drop of a stale link. Every item re-arms its attacker's
    cooldown.
- **Siege** (`siege.dfy`): `figter_siege`. A fighter outside the window is
  removed, and its siege level is added to or subtracted from the one `i32`
  score.
- **Lifecycle** (`lifecycle.dfy`): `timeout_system`. An expired timeout removes
  itself and everything tied to it. It is also followed over many frames for
  the damage marker.
- **Frame** (`frame.dfy`): how the siege and combat systems meet across
  frames.

Each system is a method with its loop and invariants, over maps from entity
id to component. Entities are visited in a query order, given as a sequence
that lists every entity once. Each method is proved equal to a specification
function (`Outcome`, `Fight`, `Countdown`/`Doomed`, `Gain`). The system's
properties are lemmas about those functions.

Units: time is in milliseconds, so `COOLDOWN` is 1000 and the marker lifetime
is 1150. Positions are integers. In the movement step they are thousandths of
a pixel, which makes three pixels per second per speed level an exact integer
step.

## Behaviour of the code worth knowing

- **No overdue carry-over.** Phase A clamps an overdue cooldown to zero before
  phase B adds `COOLDOWN`, so overdue time never carries forward.
  `Combat.FightRearmsAndUnlinks` proves that every attacker ends at exactly
  `Cooldown`.
- **No economy.** There is no kill bounty and no per-side balance. The only
  score the code keeps is the single `i32` of `figter_siege`.
- **`waiting` does not depend on pair order, `fighting` does.** Any two visit
  orders of the same pairs give every fighter the same `waiting` flag
  (`Collision.CollisionWaitingOrderIndependent`). When one fighter overlaps
  two enemies, its final link names the pair visited last
  (`Collision.FightingDependsOnVisitOrder`).
- **The sweep never clears `fighting`.** A link is only dropped by the combat
  system, once its opponent is gone (`Combat.FightRearmsAndUnlinks`,
  `Frame.SiegedFoeReleased`).

## Model

| member | source | states |
|---|---|---|
| Entities.SaturatingSub | src/main.rs:410-412 | `u8::saturating_sub`: the result never exceeds the minuend; it is the difference when that is not negative and 0 otherwise |
| Entities.WrapI32 | src/main.rs:305-308 | the `i32` score update: the result agrees with the exact sum modulo 2^32 and equals it whenever it is in range |
| Entities.NewFighter | src/main.rs:73-82 | a fresh fighter has full hit points, no protection, no opponent, cooldown 0 and is not waiting, so it is moving |
| Entities.WithProtection | src/main.rs:83-91 | differs from `Fighter::new` in `protection` alone, and is moving |
| Entities.Fighter.Moving | src/main.rs:89-91 | a fighter moves exactly when it is neither waiting nor linked to an opponent |
| Entities.NewTimeout | src/main.rs:104-109 | a new timeout keeps its time and has nothing tied to it |
| Entities.TiedTo | src/main.rs:110-115 | the builder replaces the tied list and keeps the time left |
| Entities.Despawn | src/main.rs:446-448 | applying queued removals drops exactly the queued entities with all their components and keeps every other component and the score |
| Movement.Advance | src/main.rs:272-280 | a fighter that is not moving keeps its transform; a moving one shifts x by three per speed level per unit time, in the direction it faces, and keeps y and facing |
| Movement.FighterMovement | src/main.rs:262-287 | every fighter's transform becomes its `Advance`; transforms without a fighter and non-moving fighters stay put |
| Collision.PairsAreOrderedIndexPairs | src/main.rs:328-330 | the sweep visits exactly the pairs `(ents[i], ents[j])` with `i < j` |
| Collision.PairsVisitEachPairOnce | src/main.rs:328-330 | over distinct entities no pair is visited twice, in either orientation, and nobody is paired with itself |
| Collision.Waiter | src/main.rs:342-358 | the facing by contact-side table: facing right, Left/Top blocks the first member and Right/Bottom/Inside the second; facing left, the reverse |
| Collision.Visit | src/main.rs:341-370 | the body for one pair (blocking, linking or proposing to clear) keeps the set of fighters and records proposals only for the pair's two members |
| Collision.SweepAll | src/main.rs:330-371 | the sweep keeps the set of fighters and records proposals only for fighters |
| Collision.ApplyPending | src/main.rs:373-375 | applying proposals keeps the set of fighters |
| Collision.Outcome | src/main.rs:324-376 | the system's result has the same fighters as its input |
| Collision.VisitKeepsRecords | src/main.rs:341-370 | visiting one pair leaves everything but `waiting` and `fighting` unchanged |
| Collision.SweepKeepsRecords | src/main.rs:330-371 | the whole sweep leaves hp, cooldown, protection and skills unchanged |
| Collision.VisitWaiting | src/main.rs:349-369 | one pair sets `waiting` on the member it blocks, records `true` for it, and records `false` for a waiting member of a non-overlapping pair only when nothing is recorded for it yet |
| Collision.SweepWaiting | src/main.rs:330-371 | after the sweep a fighter's flag and its recorded proposal follow from whether some pair blocked it and whether some non-overlapping pair contained it |
| Collision.SweepFighting | src/main.rs:359-362 | after the sweep a link is unchanged unless some pair engaged the fighter, and is then a foe it was engaged with; it is never cleared |
| Collision.CollisionWaiting | src/main.rs:350-375 | a fighter ends waiting exactly when some visited pair blocks it, or it was waiting and no visited pair containing it is apart |
| Collision.CollisionWaitingOrderIndependent | src/main.rs:350-375 | any two visit orders of the same pairs give every fighter the same `waiting` flag |
| Collision.CollisionFighting | src/main.rs:341-362 | the system changes at most `waiting` and `fighting`; a link is untouched unless some pair engages the fighter, and then names one of its foes |
| Collision.VisitPair | src/main.rs:334-370 | the closure body computes exactly `Visit` |
| Collision.ApplyProposals | src/main.rs:373-375 | the second loop computes `ApplyPending`: every fighter recorded `false` stops waiting, nothing else changes |
| Collision.CollisionSystem | src/main.rs:324-376 | the system computes `Outcome` over `compare_self_mut`'s pairs, with the closed form of every `waiting` flag |
| Collision.FightingDependsOnVisitOrder | src/main.rs:359-362 | two orders of the same overlapping pairs leave a fighter linked to different foes |
| Combat.Cool | src/main.rs:394-396 | a cooldown counts down by the frame time and is clamped at 0; nothing else changes |
| Combat.CoolAll | src/main.rs:392-401 | phase A keeps the set of fighters |
| Combat.ReadyItems | src/main.rs:392-401 | the work items phase A sends, in visit order; at most one per fighter visited |
| Combat.ReadyItemsExact | src/main.rs:395-399 | phase A emits a work item for a fighter exactly when its counted-down cooldown is at most 0 and it has an opponent, at most one per fighter, naming that opponent and its skills |
| Combat.CoolOne | src/main.rs:393-400 | the closure body cools the fighter and sends the work item exactly when the fighter is ready |
| Combat.CoolAt | src/main.rs:392-401 | one step of phase A keeps the loop invariant: the visited fighters are cooled and their items emitted in order |
| Combat.CooldownPhase | src/main.rs:392-401 | phase A computes `CoolAll` and `ReadyItems`, and every cooldown ends at 0 or above |
| Combat.Land | src/main.rs:406-448 | against a present defender: a miss changes nothing; a hit sets its hp to the saturated difference, changes no other fighter and no other field, spawns a 1150 ms marker under the next id but one, tied to a text under the next id, advances the free id by two and queues the defender once it is at 0 hp |
| Combat.Strike | src/main.rs:405-456 | one work item: against a present defender, a hit lowers hp by the saturated damage, by at most the attacker's strength, spawns a 1150 ms marker tied to a text entity, and queues the defender when it reaches 0; a miss changes no hp; a missing opponent clears the link and deals no damage; in every case the attacker's cooldown grows by exactly `Cooldown` |
| Combat.ResolveAll | src/main.rs:405-456 | phase B keeps the fighters and their skills, protection and `waiting` flags, never raises hp, queues only fighters that end at 0 hp, and only allocates ids upwards |
| Combat.ResolveRearms | src/main.rs:454-455 | each attacker's cooldown grows by exactly `Cooldown` once, hit, miss or stale, and nobody else's changes |
| Combat.ResolveLinks | src/main.rs:450-453 | exactly the attackers whose opponent is gone lose their link; no other link changes |
| Combat.ResolveBuries | src/main.rs:446-448 | every fighter phase B brings down to 0 hp is queued for removal |
| Combat.ResolveMarks | src/main.rs:414-444 | phase B only spawns 1150 ms markers, and each marker's id and its text's id are taken from the free ids it advances over |
| Combat.StrikeOnce | src/main.rs:405-456 | the loop body computes exactly `Strike` |
| Combat.ResolvePhase | src/main.rs:405-456 | the queue-draining loop computes exactly `ResolveAll` |
| Combat.ReadyRollsFit | src/main.rs:405-412 | the rolls of the engaged fighters fit every item phase A emits |
| Combat.FightRearmsAndUnlinks | src/main.rs:392-456 | after the system an attacker has cooldown exactly `Cooldown`, any other fighter its counted-down cooldown clamped at 0, and an attacker whose opponent is gone has no link |
| Combat.FightBuries | src/main.rs:446-448 | after the system every queued entity is a fighter at 0 hp, and every fighter the system brought down to 0 hp is queued |
| Combat.FightKeeps | src/main.rs:382-457 | the system keeps every fighter, never raises hp, never changes skills, protection or `waiting`, leaves every cooldown at 0 or above and allocates ids upwards |
| Combat.Fight | src/main.rs:382-457 | one run of the system: phase B over phase A's items from the cooled fighters; every effect it spawns is a marker with ids at or above `next`, so with `next` above every fighter id no marker or text takes a fighter's id |
| Combat.FightingSystem | src/main.rs:382-457 | the system computes exactly `Fight` |
| Siege.Worth | src/main.rs:303-309 | past the right edge a fighter is worth its siege level, past the left edge minus it, inside the window nothing |
| Siege.Gain | src/main.rs:301-310 | the exact sum of the fighters' worth, over the query order |
| Siege.GainInBounds | src/main.rs:301-310 | with every fighter inside the window the score does not move |
| Siege.GainBounded | src/main.rs:305-308 | the exact sum of the fighters' worth, before wrapping into the `i32` score, lies within ±255 per fighter |
| Siege.WrapAdd | src/main.rs:305-308 | adding to the wrapped score is wrapping the exact sum |
| Siege.EscapeesExactly | src/main.rs:303-307 | the fighters queued are exactly the ones outside the window |
| Siege.SiegeOne | src/main.rs:302-309 | the loop body removes the fighter exactly when it is outside the window and moves the score by its worth, wrapped |
| Siege.SiegeAt | src/main.rs:301-310 | one step of the loop keeps its invariant: escaped fighters queued, score equal to the wrapped running total |
| Siege.FighterSiege | src/main.rs:289-311 | the system removes exactly the fighters outside the window, the score becomes the wrapped sum of their worth, and with nobody outside nothing is removed and the score is unchanged |
| Siege.EscapedExactly | src/main.rs:301-310 | the queued set is the set of escaped fighters, and empty means the score does not move |
| Lifecycle.Countdown | src/main.rs:493-495 | every timer drops by the frame time and keeps its tied list |
| Lifecycle.DoomedBy | src/main.rs:496-500 | the entities the given timeouts remove: each expired one and everything tied to it |
| Lifecycle.Doomed | src/main.rs:496-500 | the entities all the timeouts remove |
| Lifecycle.DoomedByOneMore | src/main.rs:496-500 | handling one more timeout adds it and its tied entities when it has expired and nothing otherwise |
| Lifecycle.DespawnTied | src/main.rs:498-500 | the inner loop queues every tied entity |
| Lifecycle.ExpireOne | src/main.rs:494-501 | the loop body counts one timer down and queues it and its tied entities exactly when it has run out |
| Lifecycle.ExpireAt | src/main.rs:493-502 | one step of the loop keeps its invariant: visited timers counted down, their removals queued |
| Lifecycle.TimeoutSystem | src/main.rs:488-503 | the system counts every timer down and queues exactly the expired timeouts and everything tied to them |
| Lifecycle.ExpiredTakesTied | src/main.rs:496-500 | an expired timeout is removed with every entity tied to it |
| Lifecycle.DoomedOnlyExpired | src/main.rs:496-500 | nothing else is removed: a removed entity is an expired timeout or tied to one |
| Lifecycle.TimeoutTick | src/main.rs:488-503 | one frame of the system on the store: timers counted down, then the doomed entities removed |
| Lifecycle.MarkerTick | src/main.rs:493-501 | one frame on a lone marker either shortens its time or, once that runs out, removes it and its text |
| Lifecycle.QuietTick | src/main.rs:493-501 | a frame on a store without timeouts changes nothing |
| Lifecycle.MarkerLeftTick | src/main.rs:493-501 | one frame takes the frame time off the time a lone marker has left |
| Lifecycle.MarkerLeftFirst | src/main.rs:493-501 | the first frame of a run turns a marker with `r` ms left into one with `r - delta` left |
| Lifecycle.MarkerLeftTicks | src/main.rs:493-501 | over any run of frames a lone marker loses exactly the time elapsed |
| Lifecycle.MarkerLifetimeHolds | src/main.rs:444 | a damage marker and its text stay, with their time shortened by the time elapsed, until the elapsed time reaches the marker's lifetime, and are gone from then on |
| Lifecycle.MarkerAndTextGoTogether | src/main.rs:444 | the marker and its text exist exactly while the elapsed time is below the marker's lifetime |
| Frame.SiegeLeavesInside | src/main.rs:301-310 | once the siege system's removals are applied, exactly the fighters inside the window are left, each unchanged, and the score is untouched by the removal |
| Frame.SiegedFoeReleased | src/main.rs:450-455 | once the siege system's removal set is applied by `Despawn`, a fighter whose opponent walked off the field drops the link on its next attack, re-arms to exactly `Cooldown`, and moves again unless it is blocked |

## Left out

- Bevy app wiring and presentation: `main`, `setup`, `Materials`, sprite bundles, `spawn_fighter`'s sprite and child creation, `fighter_health_bar_system`, `scoreboard_text_system`. The text and sprite built for a hit (src/main.rs:414-443) are kept only as one marker timeout tied to one text entity.
- Input and camera: `exit_on_esc_system`, `mouse_location_system` and `soldier_placement_system`. The siege system's `world_to_viewport` is a foreign call, so each fighter's viewport x and the window width are parameters. The panic when the projection fails is not modelled.
- Movement.Advance: the vertical lane wrap (`%` on floats, src/main.rs:283-285) is not modelled. The horizontal step is exact integer arithmetic instead of `f32`, and `scale.x` is taken as ±1 by facing.
- Floating point: cooldowns, timers and positions are integers. Frame time comes in as a parameter in milliseconds.
- Randomness: the four rolls of each attack are a parameter, keyed by attacker, constrained to the ranges `gen_range` draws from. With strength 0, `gen_range(1..=0)` panics on a hit. No rolls fit that case, so the model has no run for it.
- Bevy's `collide` is an oracle from an ordered pair of entities to the contact side, if any. Sprite sizes are not modelled.
- `compare_self_mut` is modelled as visiting every pair `(i, j)` with `i < j` row by row. The proposal map's iteration order is irrelevant, since applying proposals touches each fighter once.
- Concurrency: `par_iter_mut` and the channel of phase A, and the parallel movement step, are modelled as sequential loops over any query order. Each closure touches only its own entity, and the items reach phase B in the order they are sent.
- `despawn_recursive` also removes children (health bars). The model removes the entity alone, since children carry no simulation state.
- Entities.WrapI32: `i32` overflow of the score panics in debug builds. The model wraps as release builds do.
- Every scoreboard is updated by `for_each_mut`. The model keeps the single score the game spawns.
- Economy and spawning the code does not have: item prices, per-side balances, kill bounty and an autonomous spawner.
