/**
 The germ data model of the Epidemic game layer and the operations that create
 germs: the level's game state, the random division delay, the antibiotic
 resistance roll, and seeding a level.

 Every call of Math.random is a value taken, in call order, from a stream of
 draws in [0, 1) that the caller supplies; the physics engine's positions and
 the growth rate for a division interval (2 to the power 1/t) are inputs too.
 */
module Germs {

  datatype Option<T> = None | Some(value: T)

  /** The antibiotics, in the order their names are enumerated. */
  datatype Antibiotic = Penicillin | Ciprofloxacin

  const Antibiotics: seq<Antibiotic> := [Penicillin, Ciprofloxacin]

  /** The level's condition, which `update` switches on. */
  datatype Condition = Continuing | Failed | Success | AntibioticUnlocked

  const AverageDoublingPeriod: int := 3   // seconds
  const StepsInSecond: int := 30
  const InitialResistanceChance: real := 0.10

  /** The largest delay draw: Math.random() * 2 * averageDoublingPeriod * stepsInSecond rounds to at most this. */
  const MaxDelayDraw: int := 2 * AverageDoublingPeriod * StepsInSecond

  /** The delay added to every rounded draw. */
  const DelayOffset: int := 2

  const MinMultiplyTime: int := DelayOffset
  const MaxMultiplyTime: int := MaxDelayDraw + DelayOffset

  /** Draws taken by one seed germ: x offset, radius, division delay, and one
      per antibiotic (3 + |Antibiotics|). Contracts about n seeds write the
      total as the literal product `5 * n`. */
  const SeedDraws: nat := 5

  datatype Pos = Pos(x: real, y: real)

  /** What the game layer takes from outside the model: the window size and the
      per-step growth factor for a division interval of t steps. */
  datatype Env = Env(width: real, height: real, growthRateForSteps: int -> real)

  /** A germ: its user data, the radius of its circle shape and the position of its body. */
  datatype Germ = Germ(
    germId: int,
    createdAt: int,
    multiplySteps: int,
    multiplyAt: int,
    growthRate: real,
    resistances: map<Antibiotic, bool>,
    radius: real,
    pos: Pos)

  /** One level's state; `resistanceChance` is the per-antibiotic chance that a new germ is resistant. */
  datatype GameState = GameState(
    score: int,
    step: int,
    resistanceChance: map<Antibiotic, real>,
    condition: Condition,
    germs: seq<Germ>,
    nextGermId: int)

  /** The options object handed to createGerm; children pass their parent's resistances. */
  datatype GermSpec = GermSpec(x: real, y: real, r: real, resistances: Option<map<Antibiotic, bool>>)

  /** A state together with the draws not yet consumed. */
  datatype Drawn = Drawn(state: GameState, rest: seq<real>)

  /** Every draw is a value Math.random can return. */
  predicate UnitDraws(draws: seq<real>)
  {
    forall i :: 0 <= i < |draws| ==> 0.0 <= draws[i] < 1.0
  }

  /** Math.round: the nearest integer, halves rounded up. */
  function JsRound(x: real): (n: int)
    ensures x - 0.5 < n as real <= x + 0.5
  {
    (x + 0.5).Floor
  }

  /** randomMultiplyTime: the number of steps until a new germ divides. */
  function RandomMultiplyTime(u: real): (t: int)
    requires 0.0 <= u < 1.0
    ensures MinMultiplyTime <= t <= MaxMultiplyTime
  {
    JsRound(u * (MaxDelayDraw as real)) + DelayOffset
  }

  /** Every delay in [MinMultiplyTime, MaxMultiplyTime] is produced by some draw,
      so the bound of RandomMultiplyTime is tight at both ends. */
  lemma MultiplyTimeAttained(t: int)
    requires MinMultiplyTime <= t <= MaxMultiplyTime
    ensures exists u :: 0.0 <= u < 1.0 && RandomMultiplyTime(u) == t
  {
    var k := t - DelayOffset;
    var u := if k == 0 then 0.0 else (k as real - 0.25) / (MaxDelayDraw as real);
    assert u * (MaxDelayDraw as real) + 0.5 == if k == 0 then 0.5 else k as real + 0.25;
    assert JsRound(u * (MaxDelayDraw as real)) == k;
    assert RandomMultiplyTime(u) == t;
  }

  /** The initial resistance-chance table: `chance` for every antibiotic named. */
  function ChanceTable(names: seq<Antibiotic>, chance: real): (m: map<Antibiotic, real>)
    ensures m.Keys == set a | a in names
    ensures forall a :: a in m ==> m[a] == chance
  {
    if names == [] then map[]
    else ChanceTable(names[1..], chance)[names[0] := chance]
  }

  /** One antibiotic's roll: Math.random() < chance; a missing chance reads as undefined, which no draw is below. */
  predicate Resistant(draw: real, chances: map<Antibiotic, real>, a: Antibiotic)
  {
    a in chances && draw < chances[a]
  }

  /** antibioticResistances: one independent roll per antibiotic, the k-th using the k-th draw. */
  function RollResistances(names: seq<Antibiotic>, chances: map<Antibiotic, real>, draws: seq<real>): (m: map<Antibiotic, bool>)
    requires |draws| >= |names|
    requires forall i, j :: 0 <= i < j < |names| ==> names[i] != names[j]
    ensures forall a :: a in m <==> a in names
    ensures forall k :: 0 <= k < |names| ==> m[names[k]] == Resistant(draws[k], chances, names[k])
  {
    if names == [] then map[]
    else
      var tail := RollResistances(names[1..], chances, draws[1..]);
      var m := tail[names[0] := Resistant(draws[0], chances, names[0])];
      assert forall a :: a in m <==> a in names by {
        assert names == [names[0]] + names[1..];
      }
      assert forall k :: 0 <= k < |names| ==> m[names[k]] == Resistant(draws[k], chances, names[k]) by {
        forall k | 1 <= k < |names|
          ensures m[names[k]] == Resistant(draws[k], chances, names[k])
        {
          assert names[1..][k - 1] == names[k] && draws[1..][k - 1] == draws[k];
        }
      }
      m
  }

  function AntibioticResistances(chances: map<Antibiotic, real>, draws: seq<real>): (m: map<Antibiotic, bool>)
    requires |draws| >= |Antibiotics|
    ensures m.Keys == {Penicillin, Ciprofloxacin}
    ensures m[Penicillin] == Resistant(draws[0], chances, Penicillin)
    ensures m[Ciprofloxacin] == Resistant(draws[1], chances, Ciprofloxacin)
  {
    RollResistances(Antibiotics, chances, draws)
  }

  /** initGameState: a fresh level. */
  function InitGameState(): (g: GameState)
    ensures g.score == 0 && g.step == 0 && g.germs == [] && g.nextGermId == 0
    ensures g.condition == Continuing
    ensures g.resistanceChance.Keys == {Penicillin, Ciprofloxacin}
    ensures forall a :: a in g.resistanceChance ==> g.resistanceChance[a] == InitialResistanceChance
  {
    GameState(0, 0, ChanceTable(Antibiotics, InitialResistanceChance), Continuing, [], 0)
  }

  /** The draws createGerm consumes: the delay, then a roll per antibiotic unless resistances are given. */
  function DrawsFor(o: GermSpec): nat
  {
    if o.resistances.Some? then 1 else 1 + |Antibiotics|
  }

  /** The germ record createGerm builds once its id and delay are fixed. */
  function NewGerm(id: int, step: int, t: int, env: Env, res: map<Antibiotic, bool>, r: real, pos: Pos): Germ
  {
    Germ(id, step, t, step + t, env.growthRateForSteps(t), res, r, pos)
  }

  /** createGerm: appends a germ with the next id, created now and due to divide
      a random delay from now. */
  function CreateGerm(g: GameState, env: Env, o: GermSpec, draws: seq<real>): (d: Drawn)
    requires UnitDraws(draws) && |draws| >= DrawsFor(o)
    ensures |d.state.germs| == |g.germs| + 1 && d.state.germs[..|g.germs|] == g.germs
    ensures d.state.nextGermId == g.nextGermId + 1
    ensures var c := d.state.germs[|g.germs|];
      && c.germId == d.state.nextGermId
      && c.createdAt == g.step
      && c.multiplySteps == RandomMultiplyTime(draws[0])
      && c.multiplyAt == c.createdAt + c.multiplySteps
      && MinMultiplyTime <= c.multiplySteps <= MaxMultiplyTime
      && c.growthRate == env.growthRateForSteps(c.multiplySteps)
      && c.radius == o.r && c.pos == Pos(o.x, o.y)
      && (o.resistances.Some? ==> c.resistances == o.resistances.value)
      && (o.resistances.None? ==> c.resistances == AntibioticResistances(g.resistanceChance, draws[1..]))
    ensures d.state == g.(germs := d.state.germs, nextGermId := d.state.nextGermId)
    ensures d.rest == draws[DrawsFor(o)..]
  {
    var t := RandomMultiplyTime(draws[0]);
    var res := match o.resistances
      case Some(r) => r
      case None => AntibioticResistances(g.resistanceChance, draws[1..]);
    var id := g.nextGermId + 1;
    var c := NewGerm(id, g.step, t, env, res, o.r, Pos(o.x, o.y));
    Drawn(g.(germs := g.germs + [c], nextGermId := id), draws[DrawsFor(o)..])
  }

  /** The average germ radius, a fortieth of the window height. */
  function AverageGermSize(env: Env): real
  {
    env.height / 40.0
  }

  /** The options createGerms passes for one seed germ, from its x and radius
      draws: at half height, with resistances left to be rolled. */
  function SeedSpec(env: Env, dx: real, dr: real): (o: GermSpec)
    ensures o.y == env.height / 2.0 && o.resistances.None?
  {
    GermSpec(env.width / 2.0 + env.width / 2.0 * (dx - 0.5), env.height / 2.0,
             AverageGermSize(env) * (0.8 + dr * 0.4), None)
  }

  /** Scaling by a positive factor keeps a half-open range. */
  lemma ScaleRange(a: real, lo: real, t: real, hi: real)
    requires a > 0.0 && lo <= t < hi
    ensures a * lo <= a * t < a * hi
  {
  }

  /** A seed's x lies in the middle half of the window and its radius between
      0.8 and 1.2 times the average germ size. */
  lemma SeedSpecBounds(env: Env, dx: real, dr: real)
    requires 0.0 <= dx < 1.0 && 0.0 <= dr < 1.0
    ensures env.width > 0.0 ==>
      env.width / 4.0 <= SeedSpec(env, dx, dr).x < env.width * 3.0 / 4.0
    ensures env.height > 0.0 ==>
      0.8 * AverageGermSize(env) <= SeedSpec(env, dx, dr).r < 1.2 * AverageGermSize(env)
  {
    if env.width > 0.0 {
      var h := env.width / 2.0;
      ScaleRange(h, -0.5, dx - 0.5, 0.5);
      assert SeedSpec(env, dx, dr).x == h + h * (dx - 0.5);
    }
    if env.height > 0.0 {
      ScaleRange(AverageGermSize(env), 0.8, 0.8 + dr * 0.4, 1.2);
    }
  }

  /** A germ as createGerms leaves it when created at `step`. */
  predicate IsSeed(c: Germ, step: int, env: Env)
  {
    && c.createdAt == step
    && c.multiplyAt == c.createdAt + c.multiplySteps
    && MinMultiplyTime <= c.multiplySteps <= MaxMultiplyTime
    && c.growthRate == env.growthRateForSteps(c.multiplySteps)
    && c.pos.y == env.height / 2.0
    && (env.height > 0.0 ==> c.radius > 0.0)
    && c.resistances.Keys == {Penicillin, Ciprofloxacin}
  }

  /** The seed germ createGerm builds from the five draws starting `ds`
      (x, radius, delay, then one resistance roll per antibiotic): it is a
      seed numbered `id`, and its delay, resistances, radius and position are
      the ones those draws give. */
  function SeedGerm(id: int, step: int, chances: map<Antibiotic, real>, env: Env, ds: seq<real>): (c: Germ)
    requires UnitDraws(ds) && |ds| >= SeedDraws
    ensures c.germId == id && IsSeed(c, step, env)
    ensures c.multiplySteps == RandomMultiplyTime(ds[2])
    ensures c.resistances == AntibioticResistances(chances, ds[3..])
    ensures c.radius == SeedSpec(env, ds[0], ds[1]).r
    ensures c.pos.x == SeedSpec(env, ds[0], ds[1]).x
  {
    var o := SeedSpec(env, ds[0], ds[1]);
    assert env.height > 0.0 ==> o.r > 0.0 by {
      SeedSpecBounds(env, ds[0], ds[1]);
    }
    NewGerm(id, step, RandomMultiplyTime(ds[2]), env, AntibioticResistances(chances, ds[3..]), o.r, Pos(o.x, o.y))
  }

  /** The reference for what createGerms appends: `n` seed germs numbered on
      from `lastId`, each built from the next block of five draws. */
  function Seeds(step: int, lastId: int, chances: map<Antibiotic, real>, env: Env, n: nat, draws: seq<real>): (r: seq<Germ>)
    requires UnitDraws(draws) && |draws| >= 5 * n
    ensures |r| == n
    ensures forall k :: 0 <= k < n ==> r[k].germId == lastId + k + 1 && IsSeed(r[k], step, env)
    decreases n
  {
    if n == 0 then []
    else
      var later := Seeds(step, lastId + 1, chances, env, n - 1, draws[SeedDraws..]);
      var first := SeedGerm(lastId + 1, step, chances, env, draws);
      var r := [first] + later;
      assert forall k :: 0 <= k < n ==> r[k].germId == lastId + k + 1 && IsSeed(r[k], step, env) by {
        forall k | 0 <= k < n
          ensures r[k].germId == lastId + k + 1 && IsSeed(r[k], step, env)
        {
          if k > 0 {
            assert r[k] == later[k - 1];
          }
        }
      }
      r
  }

  /** One turn of createGerms: a seed germ built from the next draws (x, then
      radius, then the creation draws). */
  function AddSeed(g: GameState, env: Env, draws: seq<real>): (d: Drawn)
    requires UnitDraws(draws) && |draws| >= SeedDraws
    ensures d.state.germs == g.germs + [SeedGerm(g.nextGermId + 1, g.step, g.resistanceChance, env, draws)]
    ensures d.state.nextGermId == g.nextGermId + 1
    ensures d.state == g.(germs := d.state.germs, nextGermId := d.state.nextGermId)
    ensures d.rest == draws[SeedDraws..]
  {
    var o := SeedSpec(env, draws[0], draws[1]);
    assert UnitDraws(draws[2..]);
    var first := CreateGerm(g, env, o, draws[2..]);
    var c := first.state.germs[|g.germs|];
    assert c == SeedGerm(g.nextGermId + 1, g.step, g.resistanceChance, env, draws) by {
      assert draws[2..][1..] == draws[3..];
    }
    assert first.state.germs == g.germs + [c] by {
      assert first.state.germs[..|g.germs|] == g.germs;
    }
    first
  }

  /** Seeds unfolded once: the first seed from the first five draws, then the rest. */
  lemma SeedsCons(step: int, lastId: int, chances: map<Antibiotic, real>, env: Env, n: nat, draws: seq<real>)
    requires UnitDraws(draws) && |draws| >= 5 * n && n > 0
    ensures UnitDraws(draws[SeedDraws..])
    ensures Seeds(step, lastId, chances, env, n, draws)
         == [SeedGerm(lastId + 1, step, chances, env, draws)] + Seeds(step, lastId + 1, chances, env, n - 1, draws[SeedDraws..])
  {
  }

  /** createGerms: `n` seed germs appended, each built from its own five draws,
      and nothing else changed but the id counter. */
  function CreateGerms(g: GameState, env: Env, n: nat, draws: seq<real>): (d: Drawn)
    requires UnitDraws(draws) && |draws| >= 5 * n
    ensures d.state.germs == g.germs + Seeds(g.step, g.nextGermId, g.resistanceChance, env, n, draws)
    ensures d.state.nextGermId == g.nextGermId + n
    ensures d.state == g.(germs := d.state.germs, nextGermId := d.state.nextGermId)
    ensures d.rest == draws[5 * n..]
    decreases n
  {
    if n == 0 then
      assert g.germs + [] == g.germs;
      Drawn(g, draws)
    else
      var first := AddSeed(g, env, draws);
      var others := CreateGerms(first.state, env, n - 1, first.rest);
      assert others.state.germs == g.germs + Seeds(g.step, g.nextGermId, g.resistanceChance, env, n, draws) by {
        SeedsCons(g.step, g.nextGermId, g.resistanceChance, env, n, draws);
        assert first.state.germs == g.germs + [SeedGerm(g.nextGermId + 1, g.step, g.resistanceChance, env, draws)];
        SeqAssoc(g.germs, [SeedGerm(g.nextGermId + 1, g.step, g.resistanceChance, env, draws)],
                 Seeds(g.step, g.nextGermId + 1, g.resistanceChance, env, n - 1, draws[SeedDraws..]));
      }
      assert others.rest == draws[5 * n..] by {
        assert first.rest[5 * (n - 1)..] == draws[5 * n..];
      }
      others
  }

  /** Concatenation is associative. */
  lemma SeqAssoc<T>(a: seq<T>, b: seq<T>, c: seq<T>)
    ensures (a + b) + c == a + (b + c)
  {
  }

  /** startLevel: a fresh state with `n` seed germs. */
  function StartLevel(env: Env, n: nat, draws: seq<real>): (d: Drawn)
    requires UnitDraws(draws) && |draws| >= 5 * n
    ensures d.state.score == 0 && d.state.step == 0 && d.state.condition == Continuing
    ensures |d.state.germs| == n && d.state.nextGermId == n
    ensures forall k :: 0 <= k < n ==> d.state.germs[k].germId == k + 1
    ensures forall k :: 0 <= k < n ==> IsSeed(d.state.germs[k], 0, env)
    ensures forall k :: 0 <= k < n ==> d.state.germs[k].multiplyAt >= MinMultiplyTime
    ensures d.state.germs == Seeds(0, 0, InitGameState().resistanceChance, env, n, draws)
    ensures d.rest == draws[5 * n..]
  {
    var d := CreateGerms(InitGameState(), env, n, draws);
    assert d.state.germs == Seeds(0, 0, InitGameState().resistanceChance, env, n, draws);
    d
  }
}
