/** The siege system (`figter_siege`): a fighter whose viewport position lies
    past the right edge of the window is removed and its siege level is added
    to the score; past the left edge, removed and its siege level subtracted.
    Projecting a world position into the viewport is a foreign camera call, so
    each fighter's viewport x comes in as a parameter, with the window width.
    The score is an `i32` and wraps around on overflow. */
module Siege {
  import opened Entities

  /** The fighter's viewport position lies outside the window. */
  predicate Escaped(viewX: int, width: int) {
    viewX > width || viewX < 0
  }

  /** What one fighter at viewport position `viewX` adds to the score. */
  function Worth(f: Fighter, viewX: int, width: int): (w: int)
    ensures viewX > width ==> w == f.skills.siege as int
    ensures viewX <= width && viewX < 0 ==> w == -(f.skills.siege as int)
    ensures !Escaped(viewX, width) ==> w == 0
  {
    if viewX > width then f.skills.siege as int
    else if viewX < 0 then -(f.skills.siege as int)
    else 0
  }

  /** What the fighters in `ents` add to the score together. */
  function Gain(fs: map<Id, Fighter>, viewX: map<Id, int>, ents: seq<Id>, width: int): int
    requires forall id :: id in ents ==> id in fs && id in viewX
  {
    if ents == [] then 0
    else
      var id := ents[|ents| - 1];
      Gain(fs, viewX, ents[..|ents| - 1], width) + Worth(fs[id], viewX[id], width)
  }

  /** When no fighter has left the window, the score does not move. */
  lemma {:induction false} GainInBounds(fs: map<Id, Fighter>, viewX: map<Id, int>, ents: seq<Id>, width: int)
    requires forall id :: id in ents ==> id in fs && id in viewX
    requires forall id :: id in ents ==> !Escaped(viewX[id], width)
    ensures Gain(fs, viewX, ents, width) == 0
  {
    if ents != [] {
      var init := ents[..|ents| - 1];
      assert forall id :: id in init ==> id in ents;
      GainInBounds(fs, viewX, init, width);
      assert ents[|ents| - 1] in ents;
    }
  }

  /** The gain is bounded by the siege levels at stake: at most 255 per fighter
      either way. */
  lemma {:induction false} GainBounded(fs: map<Id, Fighter>, viewX: map<Id, int>, ents: seq<Id>, width: int)
    requires forall id :: id in ents ==> id in fs && id in viewX
    ensures -255 * |ents| <= Gain(fs, viewX, ents, width) <= 255 * |ents|
  {
    if ents != [] {
      var init := ents[..|ents| - 1];
      assert forall id :: id in init ==> id in ents;
      GainBounded(fs, viewX, init, width);
    }
  }

  /** Adding to a wrapped score is adding to the unwrapped one, then wrapping. */
  lemma WrapAdd(v: int, d: int)
    ensures WrapI32(WrapI32(v) as int + d) == WrapI32(v + d)
  {
    WrapCongruent(WrapI32(v) as int + d, v + d);
  }

  /** Integers that agree modulo 2^32 wrap to the same `i32`. */
  lemma WrapCongruent(a: int, b: int)
    requires (a - b) % 0x1_0000_0000 == 0
    ensures WrapI32(a) == WrapI32(b)
  {
    var ra, rb := WrapI32(a) as int, WrapI32(b) as int;
    var ka := (ra - a) / 0x1_0000_0000;
    var kb := (rb - b) / 0x1_0000_0000;
    var k := (a - b) / 0x1_0000_0000;
    assert ra - a == 0x1_0000_0000 * ka;
    assert rb - b == 0x1_0000_0000 * kb;
    assert a - b == 0x1_0000_0000 * k;
    assert ra - rb == 0x1_0000_0000 * (ka + k - kb);
  }

  /** The fighters among `ents` that have left the window, in a form that
      grows one fighter at a time. */
  function Escapees(viewX: map<Id, int>, ents: seq<Id>, width: int): set<Id>
    requires forall id :: id in ents ==> id in viewX
  {
    if ents == [] then {}
    else
      var id := ents[|ents| - 1];
      Escapees(viewX, ents[..|ents| - 1], width) + (if Escaped(viewX[id], width) then {id} else {})
  }

  /** `Escapees` holds exactly the escaped fighters of `ents`. */
  lemma {:induction false} EscapeesExactly(viewX: map<Id, int>, ents: seq<Id>, width: int)
    requires forall id :: id in ents ==> id in viewX
    ensures forall id :: id in Escapees(viewX, ents, width) <==> id in ents && Escaped(viewX[id], width)
  {
    if ents != [] {
      var init := ents[..|ents| - 1];
      assert forall x :: x in ents <==> x in init || x == ents[|ents| - 1];
      EscapeesExactly(viewX, init, width);
    }
  }

  /** The loop body for one fighter: whether it is removed, and the score
      after it. `total` is the score the wrapped `score` stands for. */
  method SiegeOne(f: Fighter, viewX: int, width: int, score: i32, ghost total: int) returns (escaped: bool, score': i32)
    requires score == WrapI32(total)
    ensures escaped <==> Escaped(viewX, width)
    ensures score' == WrapI32(total + Worth(f, viewX, width))
  {
    escaped, score' := false, score;
    WrapAdd(total, Worth(f, viewX, width));
    if viewX > width {
      escaped := true;
      score' := WrapI32(score as int + f.skills.siege as int);
    } else if viewX < 0 {
      escaped := true;
      score' := WrapI32(score as int - f.skills.siege as int);
    }
  }

  /** The loop body at position `k` of the query order, with what it keeps:
      the queued fighters are the escaped ones so far, and the score stands
      for the starting score plus what they are worth. */
  method SiegeAt(fs: map<Id, Fighter>, viewX: map<Id, int>, ents: seq<Id>, width: int, score: i32,
                 k: nat, gone: set<Id>, current: i32, ghost total: int)
    returns (gone': set<Id>, current': i32, ghost total': int)
    requires k < |ents|
    requires forall id :: id in ents ==> id in fs && id in viewX
    requires gone == Escapees(viewX, ents[..k], width)
    requires total == score as int + Gain(fs, viewX, ents[..k], width)
    requires current == WrapI32(total)
    ensures gone' == Escapees(viewX, ents[..k + 1], width)
    ensures total' == score as int + Gain(fs, viewX, ents[..k + 1], width)
    ensures current' == WrapI32(total')
  {
    var id := ents[k];
    assert ents[..k + 1][..k] == ents[..k];
    var escaped;
    escaped, current' := SiegeOne(fs[id], viewX[id], width, current, total);
    total' := total + Worth(fs[id], viewX[id], width);
    gone' := gone;
    if escaped {
      gone' := gone' + {id};
    }
  }

  /** One run of the system over the fighters in query order. The fighters
      outside the window are removed, and the score moves by what they are
      worth; with every fighter inside, nothing is removed and the score stays. */
  method FighterSiege(fs: map<Id, Fighter>, viewX: map<Id, int>, ents: seq<Id>, width: int, score: i32)
    returns (gone: set<Id>, score': i32)
    requires Enumerates(ents, fs.Keys)
    requires fs.Keys <= viewX.Keys
    ensures gone == set id | id in fs && Escaped(viewX[id], width)
    ensures score' == WrapI32(score as int + Gain(fs, viewX, ents, width))
    ensures gone == {} ==> score' == score
  {
    assert forall id :: id in ents ==> id in fs && id in viewX;
    gone, score' := {}, score;
    ghost var total := score as int;
    var k := 0;
    while k < |ents|
      invariant 0 <= k <= |ents|
      invariant gone == Escapees(viewX, ents[..k], width)
      invariant total == score as int + Gain(fs, viewX, ents[..k], width)
      invariant score' == WrapI32(total)
    {
      gone, score', total := SiegeAt(fs, viewX, ents, width, score, k, gone, score', total);
      k := k + 1;
    }
    assert ents[..k] == ents;
    EscapeesExactly(viewX, ents, width);
    EscapedExactly(fs, viewX, ents, width, gone);
  }

  /** The fighters the loop queued, when they are exactly the escaped ones in
      `ents`: that is the set of escaped fighters, and if it is empty the
      fighters are worth nothing together. */
  lemma EscapedExactly(fs: map<Id, Fighter>, viewX: map<Id, int>, ents: seq<Id>, width: int, gone: set<Id>)
    requires Enumerates(ents, fs.Keys)
    requires fs.Keys <= viewX.Keys
    requires forall id :: id in gone <==> id in ents && Escaped(viewX[id], width)
    ensures gone == set id | id in fs && Escaped(viewX[id], width)
    ensures gone == {} ==> Gain(fs, viewX, ents, width) == 0
  {
    if gone == {} {
      forall id | id in ents ensures !Escaped(viewX[id], width) {
        assert id !in gone;
      }
      GainInBounds(fs, viewX, ents, width);
    }
  }
}
