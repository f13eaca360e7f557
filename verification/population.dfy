/**
 The germ population's step engine: the division pass of multiplyGerms with its
 overflow check and offset-splice removal, the growth pass of growGerms, and the
 scheduling check of checkInvariant.
 */
module Population {
  import opened Germs
  import opened JsArray

  /** The germs, in list order, whose division step is `step`. */
  function Due(s: seq<Germ>, step: int): (r: seq<Germ>)
    ensures |r| <= |s|
    decreases |s|
  {
    if s == [] then []
    else (if s[0].multiplyAt == step then [s[0]] else []) + Due(s[1..], step)
  }

  /** The germs, in list order, whose division step is not `step`. */
  function Survivors(s: seq<Germ>, step: int): (r: seq<Germ>)
    ensures |r| <= |s|
    decreases |s|
  {
    if s == [] then []
    else (if s[0].multiplyAt == step then [] else [s[0]]) + Survivors(s[1..], step)
  }

  /** Due germs and survivors split the list: each germ lands in exactly one. */
  lemma {:induction false} DueSurvivorsCount(s: seq<Germ>, step: int)
    ensures |Due(s, step)| + |Survivors(s, step)| == |s|
    decreases |s|
  {
    if s != [] {
      DueSurvivorsCount(s[1..], step);
    }
  }

  /** Survivors are germs of the list, none of them due, in an order that keeps
      any ascending ids ascending. */
  lemma {:induction false} SurvivorsAreKept(s: seq<Germ>, step: int)
    ensures forall k :: 0 <= k < |Survivors(s, step)| ==>
      Survivors(s, step)[k] in s && Survivors(s, step)[k].multiplyAt != step
    ensures (forall i, j :: 0 <= i < j < |s| ==> s[i].germId < s[j].germId) ==>
      forall i, j :: 0 <= i < j < |Survivors(s, step)| ==>
        Survivors(s, step)[i].germId < Survivors(s, step)[j].germId
    decreases |s|
  {
    if s != [] {
      SurvivorsAreKept(s[1..], step);
      var tail := Survivors(s[1..], step);
      assert forall k :: 0 <= k < |tail| ==> tail[k] in s by {
        forall k | 0 <= k < |tail| ensures tail[k] in s {
          var x := tail[k];
          assert x in s[1..];
          var m :| 0 <= m < |s[1..]| && s[1..][m] == x;
          assert s[m + 1] == x;
        }
      }
      if forall i, j :: 0 <= i < j < |s| ==> s[i].germId < s[j].germId {
        forall a, b | 0 <= a < b < |s[1..]| ensures s[1..][a].germId < s[1..][b].germId {
          assert s[1..][a] == s[a + 1] && s[1..][b] == s[b + 1];
        }
        forall k | 0 <= k < |tail| ensures s[0].germId < tail[k].germId {
          var x := tail[k];
          var m :| 0 <= m < |s[1..]| && s[1..][m] == x;
          assert s[m + 1] == x;
        }
      }
    }
  }

  /** The due germs are germs of the list, each due at `step`. */
  lemma {:induction false} DueAreDue(s: seq<Germ>, step: int)
    ensures forall k :: 0 <= k < |Due(s, step)| ==>
      Due(s, step)[k] in s && Due(s, step)[k].multiplyAt == step
    decreases |s|
  {
    if s != [] {
      DueAreDue(s[1..], step);
      var tail := Due(s[1..], step);
      forall k | 0 <= k < |tail| ensures tail[k] in s {
        var m :| 0 <= m < |s[1..]| && s[1..][m] == tail[k];
        assert s[m + 1] == tail[k];
      }
    }
  }

  /** The positions of the germs due at `step`, in ascending order, the first
      germ of `s` being at position `base`: the list multiplyGerms collects in `toDelete`. */
  function DueIndices(s: seq<Germ>, step: int, base: int): (r: seq<int>)
    ensures Ascending(r)
    ensures forall k :: 0 <= k < |r| ==> base <= r[k] < base + |s|
    ensures forall j :: 0 <= j < |s| ==> (base + j in r <==> s[j].multiplyAt == step)
    decreases |s|
  {
    if s == [] then []
    else
      var r := (if s[0].multiplyAt == step then [base] else []) + DueIndices(s[1..], step, base + 1);
      assert forall j :: 1 <= j < |s| ==> s[1..][j - 1] == s[j];
      r
  }

  /** Filtering out the due positions leaves exactly the survivors. */
  lemma {:induction false} WithoutDueIndices(s: seq<Germ>, step: int, base: int)
    ensures Without(s, DueIndices(s, step, base), base) == Survivors(s, step)
    decreases |s|
  {
    if s != [] {
      WithoutDueIndices(s[1..], step, base + 1);
      WithoutAgree(s[1..], DueIndices(s, step, base), DueIndices(s[1..], step, base + 1), base + 1);
    }
  }

  /** A germ whose body has risen above five sixths of the window height. */
  predicate Overflows(env: Env, c: Germ)
  {
    c.pos.y > env.height * 5.0 / 6.0
  }

  predicate AnyOverflow(env: Env, s: seq<Germ>)
  {
    exists j :: 0 <= j < |s| && Overflows(env, s[j])
  }

  /** The createGerm options for a dividing germ's first or second child: half
      the radius, the parent's resistances, the second nudged right by 1/500 of the width. */
  function ChildSpec(p: Germ, env: Env, second: bool): (o: GermSpec)
    ensures o.r * 2.0 == p.radius && o.y == p.pos.y
    ensures o.resistances == Some(p.resistances)
    ensures o.x - p.pos.x == if second then env.width / 500.0 else 0.0
  {
    GermSpec(if second then p.pos.x + env.width / 500.0 else p.pos.x, p.pos.y,
             p.radius / 2.0, Some(p.resistances))
  }

  /** The two children of `p`, numbered on from `lastId`, each taking one draw for its delay. */
  function ChildPair(p: Germ, step: int, lastId: int, env: Env, draws: seq<real>): (r: seq<Germ>)
    requires UnitDraws(draws) && |draws| >= 2
  {
    var c1 := ChildSpec(p, env, false);
    var c2 := ChildSpec(p, env, true);
    [NewGerm(lastId + 1, step, RandomMultiplyTime(draws[0]), env, p.resistances, c1.r, Pos(c1.x, c1.y)),
     NewGerm(lastId + 2, step, RandomMultiplyTime(draws[1]), env, p.resistances, c2.r, Pos(c2.x, c2.y))]
  }

  /** The reference for what the division pass appends: for each parent in
      order, its two children, numbered on from `lastId`. */
  function Offspring(parents: seq<Germ>, step: int, lastId: int, env: Env, draws: seq<real>): (r: seq<Germ>)
    requires UnitDraws(draws) && |draws| >= 2 * |parents|
    ensures |r| == 2 * |parents|
    decreases |parents|
  {
    if parents == [] then []
    else ChildPair(parents[0], step, lastId, env, draws)
         + Offspring(parents[1..], step, lastId + 2, env, draws[2..])
  }

  lemma OffspringCons(p: Germ, parents: seq<Germ>, step: int, lastId: int, env: Env, draws: seq<real>)
    requires UnitDraws(draws) && |draws| >= 2 * (1 + |parents|)
    ensures Offspring([p] + parents, step, lastId, env, draws)
         == ChildPair(p, step, lastId, env, draws) + Offspring(parents, step, lastId + 2, env, draws[2..])
  {
  }

  /** The two createGerm calls for a dividing germ `s`: both children appended with the next two ids. */
  function DivideOne(g: GameState, env: Env, s: Germ, draws: seq<real>): (d: Drawn)
    requires UnitDraws(draws) && |draws| >= 2
    ensures d.state == g.(germs := g.germs + ChildPair(s, g.step, g.nextGermId, env, draws),
                          nextGermId := g.nextGermId + 2)
    ensures d.rest == draws[2..]
  {
    var c1 := CreateGerm(g, env, ChildSpec(s, env, false), draws);
    var c2 := CreateGerm(c1.state, env, ChildSpec(s, env, true), c1.rest);
    assert c2.state.germs[..|g.germs|] == g.germs by {
      assert c2.state.germs[..|c1.state.germs|] == c1.state.germs;
    }
    assert c2.state.germs == g.germs + ChildPair(s, g.step, g.nextGermId, env, draws);
    c2
  }

  /** What a child of `p` born at `step` is: half its parent's radius, the
      parent's resistances and height, and a division step at least two steps on. */
  predicate ChildOf(c: Germ, p: Germ, step: int, env: Env)
  {
    && c.createdAt == step
    && c.multiplyAt == step + c.multiplySteps
    && MinMultiplyTime <= c.multiplySteps <= MaxMultiplyTime
    && c.growthRate == env.growthRateForSteps(c.multiplySteps)
    && c.radius == p.radius / 2.0
    && c.resistances == p.resistances
    && c.pos.y == p.pos.y
  }

  /** The k-th offspring is a child of the (k/2)-th parent and has id lastId + k + 1;
      so none of them divides in the pass that created it, and none overflows
      unless its parent did. */
  lemma {:induction false} OffspringFacts(parents: seq<Germ>, step: int, lastId: int, env: Env, draws: seq<real>)
    requires UnitDraws(draws) && |draws| >= 2 * |parents|
    ensures forall k :: 0 <= k < |parents| ==>
      var os := Offspring(parents, step, lastId, env, draws);
      && ChildOf(os[2 * k], parents[k], step, env) && ChildOf(os[2 * k + 1], parents[k], step, env)
      && os[2 * k].germId == lastId + 2 * k + 1 && os[2 * k + 1].germId == lastId + 2 * k + 2
    decreases |parents|
  {
    if parents != [] {
      var os := Offspring(parents, step, lastId, env, draws);
      var tail := Offspring(parents[1..], step, lastId + 2, env, draws[2..]);
      OffspringFacts(parents[1..], step, lastId + 2, env, draws[2..]);
      forall k | 1 <= k < |parents|
        ensures ChildOf(os[2 * k], parents[k], step, env) && ChildOf(os[2 * k + 1], parents[k], step, env)
        ensures os[2 * k].germId == lastId + 2 * k + 1 && os[2 * k + 1].germId == lastId + 2 * k + 2
      {
        assert parents[1..][k - 1] == parents[k];
        assert os[2 * k] == tail[2 * (k - 1)] && os[2 * k + 1] == tail[2 * (k - 1) + 1];
      }
    }
  }

  /** Every offspring id exceeds `lastId` and they ascend, and no offspring is due at `step`. */
  lemma {:induction false} OffspringFresh(parents: seq<Germ>, step: int, lastId: int, env: Env, draws: seq<real>)
    requires UnitDraws(draws) && |draws| >= 2 * |parents|
    ensures var os := Offspring(parents, step, lastId, env, draws);
      && (forall k :: 0 <= k < |os| ==> os[k].germId == lastId + k + 1)
      && (forall k :: 0 <= k < |os| ==> os[k].multiplyAt >= step + MinMultiplyTime)
  {
    var os := Offspring(parents, step, lastId, env, draws);
    OffspringFacts(parents, step, lastId, env, draws);
    forall k | 0 <= k < |os|
      ensures os[k].germId == lastId + k + 1 && os[k].multiplyAt >= step + MinMultiplyTime
    {
      var h := k / 2;
      assert k == 2 * h || k == 2 * h + 1;
      assert ChildOf(os[2 * h], parents[h], step, env) && ChildOf(os[2 * h + 1], parents[h], step, env);
    }
  }

  /** The state of the division pass: the game state, the indices recorded for removal, the unused draws. */
  datatype Pass = Pass(state: GameState, toDelete: seq<int>, rest: seq<real>)

  /** A germ's overflow check: an overflowing germ fails the level. */
  function Checked(g: GameState, env: Env, s: Germ): (r: GameState)
    ensures r.condition == Failed <==> Overflows(env, s) || g.condition == Failed
    ensures r.condition != g.condition ==> r.condition == Failed
    ensures r == g.(condition := r.condition)
  {
    if Overflows(env, s) then g.(condition := Failed) else g
  }

  /** multiplyGerms' loop over the germs `scan` still to visit, the first being at
      index `i`: each germ is checked for overflow and, when due, gets two children
      appended and its index recorded. The loop visits the germs present when it
      began; those are left in place by the appends, so this is the list it reads. */
  function DivideFrom(g: GameState, env: Env, scan: seq<Germ>, i: int, toDelete: seq<int>, draws: seq<real>): (p: Pass)
    requires UnitDraws(draws) && |draws| >= 2 * |Due(scan, g.step)|
    ensures |p.state.germs| >= |g.germs| && p.state.germs[..|g.germs|] == g.germs
    ensures p.state.step == g.step && p.state.score == g.score
    ensures p.state.resistanceChance == g.resistanceChance
    decreases |scan|
  {
    if scan == [] then Pass(g, toDelete, draws)
    else
      var s := scan[0];
      var g1 := Checked(g, env, s);
      if g1.step == s.multiplyAt then
        var c := DivideOne(g1, env, s, draws);
        var p := DivideFrom(c.state, env, scan[1..], i + 1, toDelete + [i], c.rest);
        assert p.state.germs[..|g.germs|] == p.state.germs[..|c.state.germs|][..|g.germs|];
        p
      else
        DivideFrom(g1, env, scan[1..], i + 1, toDelete, draws)
  }

  /** What the division pass over `scan` achieves, stated of its result `p`: it
      appends exactly the offspring of the due germs, records exactly their
      indices, consumes two draws per division and fails the level exactly when
      some scanned germ overflows. */
  predicate PassMeets(p: Pass, g: GameState, env: Env, scan: seq<Germ>, i: int, toDelete: seq<int>, draws: seq<real>)
    requires UnitDraws(draws) && |draws| >= 2 * |Due(scan, g.step)|
  {
    var due := Due(scan, g.step);
    && p.state.germs == g.germs + Offspring(due, g.step, g.nextGermId, env, draws)
    && p.state.nextGermId == g.nextGermId + 2 * |due|
    && p.toDelete == toDelete + DueIndices(scan, g.step, i)
    && p.state.condition == (if AnyOverflow(env, scan) then Failed else g.condition)
    && p.rest == draws[2 * |due|..]
  }

  /** Some germ of `s` overflows when its first does or some later one does. */
  lemma AnyOverflowCons(env: Env, s: seq<Germ>)
    requires |s| > 0
    ensures AnyOverflow(env, s) <==> Overflows(env, s[0]) || AnyOverflow(env, s[1..])
  {
  }

  /** One turn of the division pass over a germ that is not due. */
  lemma SkipStep(p: Pass, g: GameState, env: Env, scan: seq<Germ>, i: int, toDelete: seq<int>, draws: seq<real>)
    requires |scan| > 0 && g.step != scan[0].multiplyAt
    requires UnitDraws(draws) && |draws| >= 2 * |Due(scan, g.step)|
    requires PassMeets(p, Checked(g, env, scan[0]), env, scan[1..], i + 1, toDelete, draws)
    ensures PassMeets(p, g, env, scan, i, toDelete, draws)
  {
    AnyOverflowCons(env, scan);
    assert Due(scan, g.step) == Due(scan[1..], g.step);
    assert DueIndices(scan, g.step, i) == DueIndices(scan[1..], g.step, i + 1);
  }

  /** One turn of the division pass over a due germ: two children appended, its index recorded. */
  lemma DivideStep(p: Pass, g: GameState, c: GameState, env: Env, scan: seq<Germ>, i: int, toDelete: seq<int>, draws: seq<real>)
    requires |scan| > 0 && g.step == scan[0].multiplyAt
    requires UnitDraws(draws) && |draws| >= 2 * |Due(scan, g.step)|
    requires c.germs == g.germs + ChildPair(scan[0], g.step, g.nextGermId, env, draws)
    requires c.nextGermId == g.nextGermId + 2 && c.step == g.step
    requires c.condition == if Overflows(env, scan[0]) then Failed else g.condition
    requires PassMeets(p, c, env, scan[1..], i + 1, toDelete + [i], draws[2..])
    ensures PassMeets(p, g, env, scan, i, toDelete, draws)
  {
    var due' := Due(scan[1..], g.step);
    var due := Due(scan, g.step);
    assert due == [scan[0]] + due';
    assert p.state.germs == g.germs + Offspring(due, g.step, g.nextGermId, env, draws) by {
      var pair := ChildPair(scan[0], g.step, g.nextGermId, env, draws);
      var later := Offspring(due', g.step, g.nextGermId + 2, env, draws[2..]);
      OffspringCons(scan[0], due', g.step, g.nextGermId, env, draws);
      assert p.state.germs == (g.germs + pair) + later;
      assert (g.germs + pair) + later == g.germs + (pair + later);
    }
    assert p.toDelete == toDelete + DueIndices(scan, g.step, i) by {
      var later := DueIndices(scan[1..], g.step, i + 1);
      assert DueIndices(scan, g.step, i) == [i] + later;
      assert (toDelete + [i]) + later == toDelete + ([i] + later);
    }
    assert p.state.condition == (if AnyOverflow(env, scan) then Failed else g.condition) by {
      AnyOverflowCons(env, scan);
    }
    assert p.rest == draws[2 * |due|..] by {
      assert draws[2..][2 * |due'|..] == draws[2 * |due|..];
    }
  }

  /** The division pass meets PassMeets over every list of germs. */
  lemma {:induction false} DivideFromSpec(g: GameState, env: Env, scan: seq<Germ>, i: int, toDelete: seq<int>, draws: seq<real>)
    requires UnitDraws(draws) && |draws| >= 2 * |Due(scan, g.step)|
    ensures PassMeets(DivideFrom(g, env, scan, i, toDelete, draws), g, env, scan, i, toDelete, draws)
    decreases |scan|
  {
    var p := DivideFrom(g, env, scan, i, toDelete, draws);
    if scan == [] {
      assert g.germs + [] == g.germs;
    } else {
      var s := scan[0];
      var g1 := Checked(g, env, s);
      if g1.step == s.multiplyAt {
        var c := DivideOne(g1, env, s, draws);
        assert p == DivideFrom(c.state, env, scan[1..], i + 1, toDelete + [i], c.rest);
        DivideFromSpec(c.state, env, scan[1..], i + 1, toDelete + [i], c.rest);
        DivideStep(p, g, c.state, env, scan, i, toDelete, draws);
      } else {
        assert p == DivideFrom(g1, env, scan[1..], i + 1, toDelete, draws);
        DivideFromSpec(g1, env, scan[1..], i + 1, toDelete, draws);
        SkipStep(p, g, env, scan, i, toDelete, draws);
      }
    }
  }

  /** multiplyGerms: the division pass over the germs present at entry, then the
      removal of the divided germs by splicing each recorded index minus the count
      already removed. The germs due at the current step are replaced by their
      offspring, appended after the survivors; the level fails exactly when some
      germ has overflowed; nothing else changes. */
  function MultiplyGerms(g: GameState, env: Env, draws: seq<real>): (d: Drawn)
    requires UnitDraws(draws) && |draws| >= 2 * |Due(g.germs, g.step)|
    ensures var due := Due(g.germs, g.step);
      && d.state.germs == Survivors(g.germs, g.step) + Offspring(due, g.step, g.nextGermId, env, draws)
      && d.state.nextGermId == g.nextGermId + 2 * |due|
      && d.state.condition == (if AnyOverflow(env, g.germs) then Failed else g.condition)
      && d.state.step == g.step && d.state.score == g.score
      && d.state.resistanceChance == g.resistanceChance
      && d.rest == draws[2 * |due|..]
  {
    var p := DivideFrom(g, env, g.germs, 0, [], draws);
    DivideFromSpec(g, env, g.germs, 0, [], draws);
    var kids := Offspring(Due(g.germs, g.step), g.step, g.nextGermId, env, draws);
    var toDelete := DueIndices(g.germs, g.step, 0);
    assert p.toDelete == toDelete;
    SpliceOutRemovesExactly(g.germs, kids, toDelete);
    WithoutDueIndices(g.germs, g.step, 0);
    Drawn(p.state.(germs := SpliceOut(p.state.germs, p.toDelete, 0)), p.rest)
  }

  /** The germ count after the division pass grows by exactly one per divided germ. */
  lemma MultiplyGermsCount(g: GameState, env: Env, draws: seq<real>)
    requires UnitDraws(draws) && |draws| >= 2 * |Due(g.germs, g.step)|
    ensures |MultiplyGerms(g, env, draws).state.germs| == |g.germs| + |Due(g.germs, g.step)|
  {
    DueSurvivorsCount(g.germs, g.step);
  }

  /** A germ after one growth step: its radius scaled by its growth rate. */
  function Grown(c: Germ): Germ
  {
    c.(radius := c.radius * c.growthRate)
  }

  /** growGerms' loop from index `i`: each germ in turn is replaced in place,
      by a one-element splice, with its grown copy. */
  function GrowFrom(germs: seq<Germ>, i: nat): (r: seq<Germ>)
    requires i <= |germs|
    ensures |r| == |germs|
    ensures r[..i] == germs[..i]
    ensures forall k :: i <= k < |germs| ==> r[k] == Grown(germs[k])
    decreases |germs| - i
  {
    if i == |germs| then germs
    else
      var next := Splice(germs, i, 1, [Grown(germs[i])]);
      assert next[..i] == germs[..i];
      GrowFrom(next, i + 1)
  }

  /** growGerms: the list keeps its length and order; the germ at each index keeps
      its id, schedule, resistances and position, with its radius multiplied by its growth rate. */
  function GrowGerms(germs: seq<Germ>): (r: seq<Germ>)
    ensures |r| == |germs|
    ensures forall k :: 0 <= k < |germs| ==>
      r[k].radius == germs[k].radius * germs[k].growthRate
      && r[k] == germs[k].(radius := r[k].radius)
  {
    GrowFrom(germs, 0)
  }

  /** A germ whose division step has already passed. */
  predicate Stale(g: GameState)
  {
    exists j :: 0 <= j < |g.germs| && g.step > g.germs[j].multiplyAt
  }

  /** checkInvariant's loop from index `i`: a germ whose division step has passed fails the level. */
  function CheckFrom(g: GameState, i: nat): (r: GameState)
    requires i <= |g.germs|
    ensures r == g.(condition := r.condition)
    ensures r.condition ==
      if exists j :: i <= j < |g.germs| && g.step > g.germs[j].multiplyAt then Failed else g.condition
    decreases |g.germs| - i
  {
    if i == |g.germs| then g
    else CheckFrom(if g.step > g.germs[i].multiplyAt then g.(condition := Failed) else g, i + 1)
  }

  /** checkInvariant: the level fails when some germ's division step has passed,
      and is left alone otherwise. */
  function CheckInvariant(g: GameState): (r: GameState)
    ensures r == g.(condition := if Stale(g) then Failed else g.condition)
  {
    CheckFrom(g, 0)
  }
}
