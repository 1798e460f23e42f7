/** The rules of hungrycat/game.js as functions on values: the `world` record, what
    `updateScore`, `endGame` and `resetGame` make of it, the slow-motion countdown of an
    idle frame, and one played frame of `update`. */
module Rules {
  import opened Geometry
  import opened Difficulty
  import opened Drops
  import opened CatMotion

  /** Seconds of slow motion shown after a game over. */
  const SlowmoSeconds: real := 0.45
  /** Largest step the frame loop hands to `update`. */
  const MaxStep: real := 0.033

  datatype Phase = Idle | Playing | GameOver

  /** `world`: the phase flags, the score and best score, the difficulty, the spawn
      clock and the slow-motion timer. */
  datatype World = World(started: bool, gameOver: bool, score: int, best: int,
                         speed: int, spawnEveryMs: int,
                         lastSpawnAt: real, time: real, slowmo: real)
  {
    /** The phase the two flags encode; `gameOver` wins. */
    function CurrentPhase(): Phase {
      if gameOver then GameOver else if started then Playing else Idle
    }

    /** Never started and over at once, the difficulty follows the score, and the
        slow-motion timer is not negative. */
    ghost predicate Valid() {
      !(started && gameOver) &&
      speed == SpeedFor(score) && spawnEveryMs == IntervalFor(score) &&
      0.0 <= slowmo
    }
  }

  /** The world on page load, with the persisted high score `storedBest`. */
  function InitialWorld(storedBest: int): (w: World)
    ensures w.Valid() && w.CurrentPhase() == Idle && w.best == storedBest && w.score == 0
  {
    World(false, false, 0, storedBest, 140, 950, 0.0, 0.0, 0.0)
  }

  /** The world `resetGame` leaves: it depends on nothing but the best score, which it
      keeps. */
  function FreshWorld(best: int): (w: World)
    ensures w.Valid() && w.CurrentPhase() == Playing && w.best == best && w.score == 0
    ensures w.time == w.lastSpawnAt == w.slowmo == 0.0
  {
    World(true, false, 0, best, 140, 950, 0.0, 0.0, 0.0)
  }

  /** `updateScore(delta)`: the score moves by `delta`, the speed and the spawn interval
      follow it within their caps, and nothing else changes. */
  function Scored(w: World, delta: int): (r: World)
    ensures r.score == w.score + delta
    ensures r.speed == SpeedFor(r.score) && r.spawnEveryMs == IntervalFor(r.score)
    ensures r.speed <= SpeedCap && r.spawnEveryMs >= IntervalFloor
    ensures r == w.(score := r.score, speed := r.speed, spawnEveryMs := r.spawnEveryMs)
    ensures w.Valid() ==> r.Valid()
  {
    var s := w.score + delta;
    w.(score := s, speed := SpeedFor(s), spawnEveryMs := IntervalFor(s))
  }

  /** Two score updates in a row amount to one by their sum; an update by 0 changes
      nothing in a valid world; a gain never slows the fall nor lengthens the interval. */
  lemma ScoredCompose(w: World, a: int, b: int)
    ensures Scored(Scored(w, a), b) == Scored(w, a + b)
    ensures w.Valid() ==> Scored(w, 0) == w
    ensures w.Valid() && a >= 0 ==>
            Scored(w, a).speed >= w.speed && Scored(w, a).spawnEveryMs <= w.spawnEveryMs
  {
    if w.Valid() && a >= 0 {
      ProgressionMonotone(w.score, w.score + a);
    }
  }

  /** `endGame`: the game is over, slow motion starts, the best score becomes the larger
      of itself and the final score, and the score, difficulty and clock are kept. */
  function Ended(w: World): (r: World)
    ensures r.CurrentPhase() == GameOver && !r.started && r.slowmo == SlowmoSeconds
    ensures r.best >= w.best && r.best >= w.score && (r.best == w.best || r.best == w.score)
    ensures r.score == w.score && r.speed == w.speed && r.spawnEveryMs == w.spawnEveryMs
    ensures r.time == w.time && r.lastSpawnAt == w.lastSpawnAt
    ensures w.Valid() ==> r.Valid()
  {
    w.(gameOver := true, started := false, slowmo := SlowmoSeconds,
       best := if w.score > w.best then w.score else w.best)
  }

  /** The idle branch of `update`: a running slow-motion timer runs down by `dt` but not
      below 0, and nothing else changes. */
  function Countdown(w: World, dt: real): (r: World)
    ensures r == w.(slowmo := r.slowmo)
    ensures 0.0 <= w.slowmo && 0.0 <= dt ==> r.slowmo == Max(0.0, w.slowmo - dt)
    ensures w.slowmo <= 0.0 ==> r.slowmo == w.slowmo
  {
    if w.slowmo > 0.0 then w.(slowmo := w.slowmo - Min(dt, w.slowmo)) else w
  }

  /** After the clock has advanced by `dt`, the spawn interval has elapsed since the last
      spawn. */
  predicate SpawnDue(w: World, dt: real) {
    w.time + dt - w.lastSpawnAt >= w.spawnEveryMs as real / 1000.0
  }

  /** The clock part of `update`: time advances and a due spawn resets the spawn time. */
  function Clocked(w: World, dt: real): World {
    var t := w.time + dt;
    w.(time := t, lastSpawnAt := if t - w.lastSpawnAt >= w.spawnEveryMs as real / 1000.0
                                 then t else w.lastSpawnAt)
  }

  /** The drops after the spawn step of a frame: at most one drop is appended, built by
      `spawnDrop` at the current speed, and only when the spawn is due. */
  function Spawned(ds: seq<Drop>, w: World, dt: real, rolls: Rolls): (r: seq<Drop>)
    requires rolls.Valid()
    ensures |r| == |ds| + (if SpawnDue(w, dt) then 1 else 0)
    ensures r[..|ds|] == ds
    ensures SpawnDue(w, dt) ==> r[|ds|] == NewDrop(rolls, w.speed as real)
    ensures OnScreen(ds) ==> OnScreen(r)
  {
    if SpawnDue(w, dt) then
      var d := NewDrop(rolls, w.speed as real);
      assert OnScreen([d]);
      assert OnScreen(ds) ==> OnScreen(ds + [d]) by {
        if OnScreen(ds) { OnScreenConcat(ds, [d]); }
      }
      assert (ds + [d])[..|ds|] == ds;
      ds + [d]
    else ds
  }

  /** What one frame works on: the world, the cat and the drops. */
  datatype Frame = Frame(world: World, cat: Cat, drops: seq<Drop>)
  {
    /** A valid world, the cat on its line between the margins and every drop on
        screen. */
    ghost predicate Valid() {
      world.Valid() && Margin <= cat.x <= MaxCatX && cat.y == CatY && OnScreen(drops)
    }
  }

  /** The drops a played frame resolves: the old ones and a due spawn. */
  function Pending(f: Frame, dt: real, rolls: Rolls): seq<Drop>
    requires rolls.Valid()
  {
    Spawned(f.drops, f.world, dt, rolls)
  }

  /** One played frame of `update`: the clock and spawn, then the cat steered by the
      inputs and tilt, then the drop loop over the moved cat, whose points are scored
      and whose caught water drop ends the game. */
  function PlayStep(f: Frame, inputs: Inputs, tilt: Tilt, dt: real, rolls: Rolls, friction: real): Frame
    requires dt >= 0.0 && rolls.Valid() && 0.0 < friction <= 1.0
  {
    var c := MoveCat(f.cat, Direction(inputs, tilt), dt, friction);
    var r := SweepDrops(Pending(f, dt, rolls), c.Box(), dt);
    var w := Scored(Clocked(f.world, dt), r.gained);
    Frame(if r.splashed then Ended(w) else w, c, r.kept)
  }

  /** A played frame keeps the frame valid, advances the clock by `dt`, never lowers
      the score or the best score, moves the cat as `MoveCat` says, and either keeps
      the game going or ends it. */
  lemma PlayStepValid(f: Frame, inputs: Inputs, tilt: Tilt, dt: real, rolls: Rolls, friction: real)
    requires f.Valid() && f.world.CurrentPhase() == Playing
    requires dt >= 0.0 && rolls.Valid() && 0.0 < friction <= 1.0
    ensures var g := PlayStep(f, inputs, tilt, dt, rolls, friction);
            && g.Valid()
            && g.world.time == f.world.time + dt
            && g.world.score >= f.world.score && g.world.best >= f.world.best
            && g.cat == MoveCat(f.cat, Direction(inputs, tilt), dt, friction)
            && g.world.CurrentPhase() != Idle
  {
    var c := MoveCat(f.cat, Direction(inputs, tilt), dt, friction);
    SweepOnScreen(Pending(f, dt, rolls), c.Box(), dt);
  }

  /** A played frame ends the game exactly when some pending drop, once moved, is a
      water drop the moved cat catches; otherwise the game goes on. */
  lemma PlayStepPhase(f: Frame, inputs: Inputs, tilt: Tilt, dt: real, rolls: Rolls, friction: real)
    requires f.world.CurrentPhase() == Playing
    requires dt >= 0.0 && rolls.Valid() && 0.0 < friction <= 1.0
    ensures var g := PlayStep(f, inputs, tilt, dt, rolls, friction);
            g.world.CurrentPhase() ==
            if NoSplash(Pending(f, dt, rolls), g.cat.Box(), dt) then Playing else GameOver
  {
    var c := MoveCat(f.cat, Direction(inputs, tilt), dt, friction);
    SplashedIffCaughtWater(Pending(f, dt, rolls), c.Box(), dt);
  }

  /** In a frame without a caught water drop the drops left are the moved pending drops
      that are neither eaten nor fallen, in order, the score grows by the points of the
      eaten ones and the best score is untouched. */
  lemma PlayStepWithoutSplash(f: Frame, inputs: Inputs, tilt: Tilt, dt: real, rolls: Rolls, friction: real)
    requires dt >= 0.0 && rolls.Valid() && 0.0 < friction <= 1.0
    requires NoSplash(Pending(f, dt, rolls), MoveCat(f.cat, Direction(inputs, tilt), dt, friction).Box(), dt)
    ensures var g := PlayStep(f, inputs, tilt, dt, rolls, friction);
            var box := g.cat.Box();
            && g.drops == Survivors(Pending(f, dt, rolls), box, dt)
            && g.world.score == f.world.score + Points(Pending(f, dt, rolls), box, dt)
            && g.world.best == f.world.best
  {
    var c := MoveCat(f.cat, Direction(inputs, tilt), dt, friction);
    SweepWithoutSplash(Pending(f, dt, rolls), c.Box(), dt);
  }

  /** In a frame where the pending drop at index j is the last caught water drop, the
      loop stops there: the drops before it are left as they were, the water drop stays
      (moved), only the drops after it are resolved and scored, and the game ends with
      the best score brought up to the final score. */
  lemma PlayStepWithSplash(f: Frame, inputs: Inputs, tilt: Tilt, dt: real, rolls: Rolls, friction: real, j: nat)
    requires dt >= 0.0 && rolls.Valid() && 0.0 < friction <= 1.0
    requires var box := MoveCat(f.cat, Direction(inputs, tilt), dt, friction).Box();
             var ds := Pending(f, dt, rolls);
             j < |ds| && Resolve(box, Fall(ds[j], dt)) == Splash && NoSplash(ds[j + 1..], box, dt)
    ensures var g := PlayStep(f, inputs, tilt, dt, rolls, friction);
            var box := g.cat.Box();
            var ds := Pending(f, dt, rolls);
            && g.drops == ds[..j] + [Fall(ds[j], dt)] + Survivors(ds[j + 1..], box, dt)
            && g.world.score == f.world.score + Points(ds[j + 1..], box, dt)
            && g.world.CurrentPhase() == GameOver
            && g.world.best == (if g.world.score > f.world.best then g.world.score else f.world.best)
  {
    var c := MoveCat(f.cat, Direction(inputs, tilt), dt, friction);
    SweepStopsAtLastSplash(Pending(f, dt, rolls), c.Box(), dt, j);
  }
}
