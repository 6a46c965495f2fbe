/** The movement system (`fighter_movement`): every fighter that is moving
    walks horizontally in the direction it faces; a blocked or engaged fighter
    stays where it is. Positions are in thousandths of a pixel and time in
    milliseconds, so that `3 * scale.x * speed * delta` pixels per second is an
    exact integer step. */
module Movement {
  import opened Entities

  /** Horizontal distance walked in `delta` milliseconds at a speed level, in
      thousandths of a pixel (three pixels per second per level). */
  function Stride(speed: u8, delta: nat): nat {
    3 * speed as nat * delta
  }

  /** Where one fighter's transform ends up after one tick. */
  function Advance(t: Transform, f: Fighter, delta: nat): (r: Transform)
    ensures !f.Moving() ==> r == t
    ensures r.y == t.y && r.flipped == t.flipped
    ensures f.Moving() && !t.flipped ==> r.x - t.x == Stride(f.skills.speed, delta)
    ensures f.Moving() && t.flipped ==> t.x - r.x == Stride(f.skills.speed, delta)
  {
    if !f.Moving() then t
    else
      var scale := if t.flipped then -1 else 1;
      t.(x := t.x + scale * Stride(f.skills.speed, delta))
  }

  /** One run of the system over every entity that has both a transform and a
      fighter, in the order the query hands them over. */
  method FighterMovement(tf: map<Id, Transform>, fs: map<Id, Fighter>, order: seq<Id>, delta: nat)
    returns (moved: map<Id, Transform>)
    requires Enumerates(order, tf.Keys * fs.Keys)
    ensures moved.Keys == tf.Keys
    ensures forall id :: id in tf && id in fs ==> moved[id] == Advance(tf[id], fs[id], delta)
    ensures forall id :: id in tf && (id !in fs || !fs[id].Moving()) ==> moved[id] == tf[id]
  {
    moved := tf;
    var k := 0;
    while k < |order|
      invariant 0 <= k <= |order|
      invariant moved.Keys == tf.Keys
      invariant forall id :: id in tf && id in fs && id in order[..k] ==> moved[id] == Advance(tf[id], fs[id], delta)
      invariant forall id :: id in tf && id !in order[..k] ==> moved[id] == tf[id]
    {
      var id := order[k];
      assert id in tf.Keys * fs.Keys;
      var f := fs[id];
      if f.Moving() {
        var t := moved[id];
        var scale := if t.flipped then -1 else 1;
        moved := moved[id := t.(x := t.x + scale * Stride(f.skills.speed, delta))];
      }
      assert forall i :: 0 <= i < k ==> order[i] != id;
      assert order[..k + 1] == order[..k] + [id];
      k := k + 1;
    }
    assert order[..k] == order;
  }
}
