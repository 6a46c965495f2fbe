/** The timeout system (`timeout_system`): every timeout entity counts down by
    the frame time; once its time runs out it removes itself and every entity
    tied to it. The damage text a hit leaves behind is such a pair: a marker
    timeout of 1150 ms tied to the text entity. */
module Lifecycle {
  import opened Entities

  /** The timeout has run out. */
  predicate Expired(t: Timeout) {
    t.timeLeft <= 0
  }

  /** Every timer, `delta` milliseconds later. */
  function Countdown(ts: map<Id, Timeout>, delta: nat): (r: map<Id, Timeout>)
    ensures r.Keys == ts.Keys
    ensures forall id :: id in r ==> r[id].timeLeft == ts[id].timeLeft - delta
    ensures forall id :: id in r ==> r[id].tiedTo == ts[id].tiedTo
  {
    map id | id in ts :: ts[id].(timeLeft := ts[id].timeLeft - delta)
  }

  /** The entities the timeouts among `ids` remove: each expired one and
      everything tied to it. */
  ghost function DoomedBy(ts: map<Id, Timeout>, ids: set<Id>): set<Id> {
    set id, x | id in ids && id in ts && x in [id] + ts[id].tiedTo && Expired(ts[id]) :: x
  }

  /** The entities all the timeouts remove. */
  ghost function Doomed(ts: map<Id, Timeout>): set<Id> {
    DoomedBy(ts, ts.Keys)
  }

  /** Handling one more timeout removes what it removes, and nothing else. */
  lemma DoomedByOneMore(ts: map<Id, Timeout>, ids: set<Id>, id: Id)
    requires id in ts
    ensures DoomedBy(ts, ids + {id})
         == DoomedBy(ts, ids) + (if Expired(ts[id]) then {id} + set x | x in ts[id].tiedTo else {})
  {
    var lhs := DoomedBy(ts, ids + {id});
    var rhs := DoomedBy(ts, ids) + (if Expired(ts[id]) then {id} + set x | x in ts[id].tiedTo else {});
    forall x | x in lhs ensures x in rhs {
      var e :| e in ids + {id} && e in ts && x in [e] + ts[e].tiedTo && Expired(ts[e]);
      if e != id {
        assert x in DoomedBy(ts, ids);
      }
    }
    forall x | x in rhs ensures x in lhs {
      if x in DoomedBy(ts, ids) {
        var e :| e in ids && e in ts && x in [e] + ts[e].tiedTo && Expired(ts[e]);
        assert e in ids + {id};
      } else {
        assert x in [id] + ts[id].tiedTo;
      }
    }
  }

  /** What the `for` over `tied_to` queues: the removals so far, and each tied
      entity in turn. */
  method DespawnTied(gone: set<Id>, tiedTo: seq<Id>) returns (gone': set<Id>)
    ensures gone' == gone + set x | x in tiedTo
  {
    gone' := gone;
    var j := 0;
    while j < |tiedTo|
      invariant 0 <= j <= |tiedTo|
      invariant gone' == gone + set x | x in tiedTo[..j]
    {
      assert tiedTo[..j + 1] == tiedTo[..j] + [tiedTo[j]];
      gone' := gone' + {tiedTo[j]};
      j := j + 1;
    }
    assert tiedTo[..j] == tiedTo;
  }

  /** The loop body for one timeout: count it down, and if it has run out,
      queue it and the entities tied to it. */
  method ExpireOne(t: Timeout, id: Id, delta: nat, gone: set<Id>) returns (t': Timeout, gone': set<Id>)
    ensures t' == t.(timeLeft := t.timeLeft - delta)
    ensures gone' == gone + (if Expired(t') then {id} + set x | x in t'.tiedTo else {})
  {
    t' := t.(timeLeft := t.timeLeft - delta);
    gone' := gone;
    if t'.timeLeft <= 0 {
      gone' := gone' + {id};
      gone' := DespawnTied(gone', t'.tiedTo);
    }
  }

  /** The timers so far: counted down for the timeouts in `seen`, untouched
      for the others. */
  ghost predicate CountedFor(cur: map<Id, Timeout>, ts: map<Id, Timeout>, next: map<Id, Timeout>, seen: set<Id>)
    requires ts.Keys == next.Keys
  {
    && cur.Keys == ts.Keys
    && forall id :: id in cur ==> cur[id] == if id in seen then next[id] else ts[id]
  }

  /** The loop body for the timeout `id`, not yet visited, with what it keeps:
      the timers visited are counted down and their removals queued. */
  method ExpireAt(ts: map<Id, Timeout>, delta: nat, ghost seen: set<Id>, id: Id, cur: map<Id, Timeout>, gone: set<Id>)
    returns (cur': map<Id, Timeout>, gone': set<Id>)
    requires id in ts && id !in seen
    requires CountedFor(cur, ts, Countdown(ts, delta), seen)
    requires gone == DoomedBy(Countdown(ts, delta), seen)
    ensures CountedFor(cur', ts, Countdown(ts, delta), seen + {id})
    ensures gone' == DoomedBy(Countdown(ts, delta), seen + {id})
  {
    DoomedByOneMore(Countdown(ts, delta), seen, id);
    var t;
    t, gone' := ExpireOne(cur[id], id, delta, gone);
    cur' := cur[id := t];
  }

  /** One run of the system over every timeout, in query order: every timer
      counts down by `delta`, and exactly the expired timeouts and the entities
      tied to them are queued for removal. */
  method TimeoutSystem(ts: map<Id, Timeout>, order: seq<Id>, delta: nat)
    returns (ts': map<Id, Timeout>, gone: set<Id>)
    requires Enumerates(order, ts.Keys)
    ensures ts' == Countdown(ts, delta)
    ensures gone == Doomed(ts')
  {
    ts', gone := ts, {};
    var k := 0;
    while k < |order|
      invariant 0 <= k <= |order|
      invariant CountedFor(ts', ts, Countdown(ts, delta), Visited(order, k))
      invariant gone == DoomedBy(Countdown(ts, delta), Visited(order, k))
    {
      VisitNext(order, k, ts.Keys);
      ts', gone := ExpireAt(ts, delta, Visited(order, k), order[k], ts', gone);
      k := k + 1;
    }
    VisitedAll(order, ts.Keys);
  }

  /** An expired timeout removes itself and every entity tied to it. */
  lemma ExpiredTakesTied(ts: map<Id, Timeout>, id: Id)
    requires id in ts && Expired(ts[id])
    ensures id in Doomed(ts)
    ensures forall x :: x in ts[id].tiedTo ==> x in Doomed(ts)
  {
    assert id in [id] + ts[id].tiedTo;
    forall x | x in ts[id].tiedTo ensures x in Doomed(ts) {
      assert x in [id] + ts[id].tiedTo;
    }
  }

  /** Nothing else is removed: an entity goes only when it is an expired
      timeout or is tied to one. */
  lemma DoomedOnlyExpired(ts: map<Id, Timeout>, x: Id)
    requires x in Doomed(ts)
    ensures (x in ts && Expired(ts[x])) || exists e :: e in ts && Expired(ts[e]) && x in ts[e].tiedTo
  {
    var e :| e in ts && x in [e] + ts[e].tiedTo && Expired(ts[e]);
    if x != e {
      assert x in ts[e].tiedTo;
    }
  }

  /** One tick of the system on the entity store, its queued removals applied. */
  ghost function TimeoutTick(w: World, delta: nat): World {
    var ts := Countdown(w.timeouts, delta);
    Despawn(w.(timeouts := ts), Doomed(ts))
  }

  /** Successive ticks with the given frame times. */
  ghost function Ticks(w: World, deltas: seq<nat>): World
    decreases deltas
  {
    if deltas == [] then w else Ticks(TimeoutTick(w, deltas[0]), deltas[1..])
  }

  /** Total time of a run of frames. */
  function Elapsed(deltas: seq<nat>): nat {
    if deltas == [] then 0 else deltas[0] + Elapsed(deltas[1..])
  }

  /** A store holding only a damage marker `e`, with `t` ms left, tied to its
      text entity `x`. */
  function Marker(e: Id, x: Id, t: int): World {
    World({e, x}, map[], map[], map[e := Timeout(t, [x])], 0)
  }

  /** The store once everything is gone. */
  function Cleared(): World {
    World({}, map[], map[], map[], 0)
  }

  /** A lone marker expires with its text exactly when its time runs out. */
  lemma MarkerTick(e: Id, x: Id, t: int, delta: nat)
    requires e != x
    ensures TimeoutTick(Marker(e, x, t), delta) == if t - delta <= 0 then Cleared() else Marker(e, x, t - delta)
  {
    var ts := Countdown(Marker(e, x, t).timeouts, delta);
    assert ts == map[e := Timeout(t - delta, [x])];
    if t - delta <= 0 {
      assert e in [e] + ts[e].tiedTo && x in [e] + ts[e].tiedTo;
      assert Doomed(ts) == {e, x};
    } else {
      assert Doomed(ts) == {};
    }
  }

  /** A frame in a store without timeouts changes nothing. */
  lemma QuietTick(w: World, delta: nat)
    requires w.timeouts == map[]
    ensures TimeoutTick(w, delta) == w
  {
    var ts := Countdown(w.timeouts, delta);
    assert ts == map[];
    assert Doomed(ts) == {};
    assert w.(timeouts := ts) == w;
  }

  /** A lone damage marker with `r` ms left, or nothing once that is used up. */
  function MarkerLeft(e: Id, x: Id, r: int): World {
    if r > 0 then Marker(e, x, r) else Cleared()
  }

  /** One tick takes `delta` off the time a lone marker has left. */
  lemma MarkerLeftTick(e: Id, x: Id, r: int, delta: nat)
    requires e != x
    ensures TimeoutTick(MarkerLeft(e, x, r), delta) == MarkerLeft(e, x, r - delta)
  {
    if r > 0 {
      MarkerTick(e, x, r, delta);
    } else {
      QuietTick(Cleared(), delta);
    }
  }

  /** The first frame of a run, on a lone marker. */
  lemma MarkerLeftFirst(e: Id, x: Id, r: int, deltas: seq<nat>)
    requires e != x && deltas != []
    ensures Ticks(MarkerLeft(e, x, r), deltas) == Ticks(MarkerLeft(e, x, r - deltas[0]), deltas[1..])
    ensures Elapsed(deltas) == deltas[0] + Elapsed(deltas[1..])
  {
    MarkerLeftTick(e, x, r, deltas[0]);
  }

  /** Over any run of frames, a lone marker loses exactly the time elapsed. */
  lemma {:induction false} MarkerLeftTicks(e: Id, x: Id, r: int, deltas: seq<nat>)
    requires e != x
    ensures Ticks(MarkerLeft(e, x, r), deltas) == MarkerLeft(e, x, r - Elapsed(deltas))
    decreases deltas
  {
    if deltas != [] {
      MarkerLeftFirst(e, x, r, deltas);
      MarkerLeftTicks(e, x, r - deltas[0], deltas[1..]);
    }
  }

  /** Over any run of frames, a damage marker and its text stay, with the time
      left reduced by the time elapsed, until the elapsed time reaches the
      marker's lifetime; from then on both are gone. */
  lemma MarkerLifetimeHolds(e: Id, x: Id, t: int, deltas: seq<nat>)
    requires e != x && t > 0
    ensures Elapsed(deltas) < t ==> Ticks(Marker(e, x, t), deltas) == Marker(e, x, t - Elapsed(deltas))
    ensures Elapsed(deltas) >= t ==> Ticks(Marker(e, x, t), deltas) == Cleared()
  {
    assert Marker(e, x, t) == MarkerLeft(e, x, t);
    MarkerLeftTicks(e, x, t, deltas);
  }

  /** The marker and its text go together: both exist exactly while the time
      elapsed is below the marker's lifetime. */
  lemma MarkerAndTextGoTogether(e: Id, x: Id, t: int, deltas: seq<nat>)
    requires e != x && t > 0
    ensures e in Ticks(Marker(e, x, t), deltas).entities <==> Elapsed(deltas) < t
    ensures x in Ticks(Marker(e, x, t), deltas).entities <==> Elapsed(deltas) < t
  {
    MarkerLifetimeHolds(e, x, t, deltas);
  }
}
