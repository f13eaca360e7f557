/**
 The game layer's update step and its scheduler: each scheduled step advances
 the physics, counts the step, runs the division pass and then switches on the
 level's condition. The physics engine is outside the model; its effect on the
 germs is the list of body positions it leaves behind.
 */
module Game {
  import opened Germs
  import opened Population

  /** The level's state and whether `update` is still scheduled. */
  datatype Game = Game(state: GameState, scheduled: bool)

  /** A game after one timer tick, with the draws it left unused. */
  datatype Ticked = Ticked(game: Game, rest: seq<real>)

  /** The physics step: each germ's body ends at the position given for it,
      and nothing else about the germ changes. */
  function Move(germs: seq<Germ>, positions: seq<Pos>): (r: seq<Germ>)
    requires |positions| == |germs|
    ensures |r| == |germs|
    ensures forall k :: 0 <= k < |germs| ==> r[k].pos == positions[k] && r[k].(pos := germs[k].pos) == germs[k]
  {
    seq(|germs|, k requires 0 <= k < |germs| => germs[k].(pos := positions[k]))
  }

  /** Whether a germ overflows after the physics step depends only on where
      physics left it: some germ overflows iff some given position is above
      five sixths of the height. */
  lemma MoveOverflow(env: Env, germs: seq<Germ>, positions: seq<Pos>)
    requires |positions| == |germs|
    ensures AnyOverflow(env, Move(germs, positions))
        <==> exists k :: 0 <= k < |positions| && positions[k].y > env.height * 5.0 / 6.0
  {
  }

  /** update: physics, the step count, the division pass, then the condition
      switch. A continuing level grows its germs; a failed level unschedules
      update; any other condition leaves things as they are. The germs end as
      the survivors of the pass followed by the offspring of the divided germs,
      each grown exactly when the level is still continuing. */
  function Update(game: Game, env: Env, positions: seq<Pos>, draws: seq<real>): (u: Ticked)
    requires |positions| == |game.state.germs|
    requires UnitDraws(draws) && |draws| >= 2 * |game.state.germs|
    ensures var g := game.state;
      var g' := u.game.state;
      var moved := Move(g.germs, positions);
      var due := Due(moved, g'.step);
      var mid := Survivors(moved, g'.step) + Offspring(due, g'.step, g.nextGermId, env, draws);
      && g'.step == g.step + 1
      && g'.score == g.score && g'.resistanceChance == g.resistanceChance
      && g'.condition == (if AnyOverflow(env, moved) then Failed else g.condition)
      && (g'.condition == Continuing <==> !AnyOverflow(env, moved) && g.condition == Continuing)
      && u.game.scheduled == (game.scheduled && g'.condition != Failed)
      && g'.nextGermId == g.nextGermId + 2 * |due|
      && |g'.germs| == |mid|
      && (forall k :: 0 <= k < |mid| ==>
            g'.germs[k] == if g'.condition == Continuing then Grown(mid[k]) else mid[k])
      && u.rest == draws[2 * |due|..]
  {
    var a := game.state.(step := game.state.step + 1, germs := Move(game.state.germs, positions));
    var m := MultiplyGerms(a, env, draws);
    var s := m.state;
    match s.condition
    case Continuing => Ticked(Game(s.(germs := GrowGerms(s.germs)), game.scheduled), m.rest)
    case Failed => Ticked(Game(s, false), m.rest)
    case _ => Ticked(Game(s, game.scheduled), m.rest)
  }

  /** One timer tick: update runs only while it is scheduled. A level that has
      left the continuing condition never returns to it, and a failed level stays failed. */
  function Tick(game: Game, env: Env, positions: seq<Pos>, draws: seq<real>): (u: Ticked)
    requires |positions| == |game.state.germs|
    requires UnitDraws(draws) && |draws| >= 2 * |game.state.germs|
    ensures !game.scheduled ==> u == Ticked(game, draws)
    ensures u.game.state.condition == Continuing ==> game.state.condition == Continuing
    ensures game.state.condition == Failed ==> u.game.state.condition == Failed
    ensures game.scheduled && u.game.state.condition == Failed ==> !u.game.scheduled
    ensures u.game.scheduled ==> game.scheduled
  {
    if game.scheduled then Update(game, env, positions, draws) else Ticked(game, draws)
  }

  /** The level as the layer starts it: `n` seed germs, with update scheduled. */
  function Start(env: Env, n: nat, draws: seq<real>): (u: Ticked)
    requires UnitDraws(draws) && |draws| >= 5 * n
    ensures u.game.scheduled && u.game.state.condition == Continuing
    ensures |u.game.state.germs| == n
    ensures u.game.state == StartLevel(env, n, draws).state
    ensures u.rest == draws[5 * n..]
  {
    var d := StartLevel(env, n, draws);
    Ticked(Game(d.state, true), d.rest)
  }

  /** What the layer's surroundings guarantee: a window of positive height and a
      positive growth factor for every division interval a germ can draw. */
  predicate EnvOk(env: Env)
  {
    && env.height > 0.0
    && forall t :: MinMultiplyTime <= t <= MaxMultiplyTime ==> env.growthRateForSteps(t) > 0.0
  }

  /** A germ in good standing at `step`: created no later than now, due strictly
      later, with a drawn delay, its matching growth rate and a positive radius. */
  predicate GermOk(env: Env, c: Germ, step: int)
  {
    && c.createdAt <= step < c.multiplyAt
    && c.multiplyAt == c.createdAt + c.multiplySteps
    && MinMultiplyTime <= c.multiplySteps <= MaxMultiplyTime
    && c.growthRate == env.growthRateForSteps(c.multiplySteps)
    && c.radius > 0.0
  }

  predicate IdsAscending(s: seq<Germ>)
  {
    forall i, j :: 0 <= i < j < |s| ==> s[i].germId < s[j].germId
  }

  predicate IdsIssued(s: seq<Germ>, nextGermId: int)
  {
    forall k :: 0 <= k < |s| ==> 1 <= s[k].germId <= nextGermId
  }

  /** The invariant of a running game: every germ is in good standing (so none
      has let its division step pass), ids are issued in ascending list order,
      and update is scheduled exactly while the level continues. */
  predicate Inv(env: Env, game: Game)
  {
    var g := game.state;
    && EnvOk(env)
    && (forall k :: 0 <= k < |g.germs| ==> GermOk(env, g.germs[k], g.step))
    && IdsAscending(g.germs)
    && IdsIssued(g.germs, g.nextGermId) && g.nextGermId >= 0
    && (g.condition == Continuing || g.condition == Failed)
    && (game.scheduled <==> g.condition == Continuing)
  }

  /** A freshly started level meets the invariant. */
  lemma StartInv(env: Env, n: nat, draws: seq<real>)
    requires EnvOk(env)
    requires UnitDraws(draws) && |draws| >= 5 * n
    ensures Inv(env, Start(env, n, draws).game)
  {
    var d := StartLevel(env, n, draws);
    forall k | 0 <= k < n ensures GermOk(env, d.state.germs[k], 0) {
      assert IsSeed(d.state.germs[k], 0, env);
    }
  }

  /** Survivors of the division pass at `step` are in good standing at `step`. */
  lemma SurvivorsOk(env: Env, s: seq<Germ>, step: int, nextGermId: int)
    requires forall k :: 0 <= k < |s| ==> GermOk(env, s[k], step - 1)
    requires IdsAscending(s) && IdsIssued(s, nextGermId)
    ensures var r := Survivors(s, step);
      && (forall k :: 0 <= k < |r| ==> GermOk(env, r[k], step))
      && IdsAscending(r) && IdsIssued(r, nextGermId)
  {
    var r := Survivors(s, step);
    SurvivorsAreKept(s, step);
    forall k | 0 <= k < |r|
      ensures GermOk(env, r[k], step) && 1 <= r[k].germId <= nextGermId
    {
      var j :| 0 <= j < |s| && s[j] == r[k];
    }
  }

  /** Offspring of germs due at `step` are in good standing at `step`, with ids
      issued after `lastId` in ascending order. */
  lemma OffspringOk(env: Env, s: seq<Germ>, step: int, lastId: int, draws: seq<real>)
    requires EnvOk(env)
    requires forall k :: 0 <= k < |s| ==> GermOk(env, s[k], step - 1)
    requires UnitDraws(draws) && |draws| >= 2 * |Due(s, step)|
    ensures forall k :: 0 <= k < 2 * |Due(s, step)| ==>
      GermOk(env, Offspring(Due(s, step), step, lastId, env, draws)[k], step)
    ensures forall k :: 0 <= k < 2 * |Due(s, step)| ==>
      Offspring(Due(s, step), step, lastId, env, draws)[k].germId == lastId + k + 1
  {
    var due := Due(s, step);
    var os := Offspring(due, step, lastId, env, draws);
    DueAreDue(s, step);
    OffspringFacts(due, step, lastId, env, draws);
    OffspringFresh(due, step, lastId, env, draws);
    forall k | 0 <= k < |os| ensures GermOk(env, os[k], step) {
      var h := k / 2;
      assert k == 2 * h || k == 2 * h + 1;
      assert ChildOf(os[k], due[h], step, env);
      var j :| 0 <= j < |s| && s[j] == due[h];
      assert due[h].radius > 0.0;
    }
  }

  /** Survivors followed by offspring numbered after every survivor keep ids ascending and issued. */
  lemma JoinOk(env: Env, r: seq<Germ>, os: seq<Germ>, lastId: int, step: int)
    requires IdsAscending(r) && IdsIssued(r, lastId) && lastId >= 0
    requires forall k :: 0 <= k < |os| ==> os[k].germId == lastId + k + 1
    requires forall k :: 0 <= k < |r| ==> GermOk(env, r[k], step)
    requires forall k :: 0 <= k < |os| ==> GermOk(env, os[k], step)
    ensures IdsAscending(r + os) && IdsIssued(r + os, lastId + |os|)
    ensures forall k :: 0 <= k < |r + os| ==> GermOk(env, (r + os)[k], step)
  {
  }

  /** The division pass keeps every germ in good standing, one step on. */
  lemma DivisionOk(env: Env, g: GameState, draws: seq<real>)
    requires EnvOk(env) && g.nextGermId >= 0
    requires forall k :: 0 <= k < |g.germs| ==> GermOk(env, g.germs[k], g.step - 1)
    requires IdsAscending(g.germs) && IdsIssued(g.germs, g.nextGermId)
    requires UnitDraws(draws) && |draws| >= 2 * |Due(g.germs, g.step)|
    ensures var m := MultiplyGerms(g, env, draws).state;
      && (forall k :: 0 <= k < |m.germs| ==> GermOk(env, m.germs[k], g.step))
      && IdsAscending(m.germs) && IdsIssued(m.germs, m.nextGermId)
  {
    var r := Survivors(g.germs, g.step);
    var os := Offspring(Due(g.germs, g.step), g.step, g.nextGermId, env, draws);
    SurvivorsOk(env, g.germs, g.step, g.nextGermId);
    OffspringOk(env, g.germs, g.step, g.nextGermId, draws);
    JoinOk(env, r, os, g.nextGermId, g.step);
  }

  /** The physics step keeps every germ in good standing and its id where it was. */
  lemma MoveOk(env: Env, germs: seq<Germ>, positions: seq<Pos>, step: int, nextGermId: int)
    requires |positions| == |germs|
    requires forall k :: 0 <= k < |germs| ==> GermOk(env, germs[k], step)
    requires IdsAscending(germs) && IdsIssued(germs, nextGermId)
    ensures forall k :: 0 <= k < |germs| ==> GermOk(env, Move(germs, positions)[k], step)
    ensures IdsAscending(Move(germs, positions)) && IdsIssued(Move(germs, positions), nextGermId)
  {
  }

  /** Growing every germ keeps each in good standing and every id in place. */
  lemma GrowAllOk(env: Env, germs: seq<Germ>, step: int, nextGermId: int)
    requires EnvOk(env)
    requires forall k :: 0 <= k < |germs| ==> GermOk(env, germs[k], step)
    requires IdsAscending(germs) && IdsIssued(germs, nextGermId)
    ensures forall k :: 0 <= k < |germs| ==> GermOk(env, GrowGerms(germs)[k], step)
    ensures IdsAscending(GrowGerms(germs)) && IdsIssued(GrowGerms(germs), nextGermId)
  {
  }

  /** One scheduled update keeps the invariant; so no germ ever lets its
      division step pass and checkInvariant, run after it, never fires. */
  lemma UpdateInv(game: Game, env: Env, positions: seq<Pos>, draws: seq<real>)
    requires Inv(env, game) && game.scheduled
    requires |positions| == |game.state.germs|
    requires UnitDraws(draws) && |draws| >= 2 * |game.state.germs|
    ensures Inv(env, Update(game, env, positions, draws).game)
    ensures !Stale(Update(game, env, positions, draws).game.state)
    ensures CheckInvariant(Update(game, env, positions, draws).game.state)
         == Update(game, env, positions, draws).game.state
  {
    var g := game.state;
    var a := g.(step := g.step + 1, germs := Move(g.germs, positions));
    MoveOk(env, g.germs, positions, g.step, g.nextGermId);
    DivisionOk(env, a, draws);
    var m := MultiplyGerms(a, env, draws).state;
    var g' := Update(game, env, positions, draws).game.state;
    if m.condition == Continuing {
      GrowAllOk(env, m.germs, m.step, m.nextGermId);
      assert g' == m.(germs := GrowGerms(m.germs));
    } else {
      assert g' == m;
    }
    assert !Stale(g') by {
      forall j | 0 <= j < |g'.germs| ensures g'.step <= g'.germs[j].multiplyAt {
        assert GermOk(env, g'.germs[j], g'.step);
      }
    }
  }

  /** A tick from a game meeting the invariant keeps it, and checkInvariant never fires. */
  lemma TickInv(game: Game, env: Env, positions: seq<Pos>, draws: seq<real>)
    requires Inv(env, game)
    requires |positions| == |game.state.germs|
    requires UnitDraws(draws) && |draws| >= 2 * |game.state.germs|
    ensures var u := Tick(game, env, positions, draws);
      && Inv(env, u.game)
      && !Stale(u.game.state)
      && CheckInvariant(u.game.state) == u.game.state
  {
    if game.scheduled {
      UpdateInv(game, env, positions, draws);
    } else {
      assert !Stale(game.state) by {
        forall j | 0 <= j < |game.state.germs| ensures game.state.step <= game.state.germs[j].multiplyAt {
          assert GermOk(env, game.state.germs[j], game.state.step);
        }
      }
    }
  }
}
