/** The game state of hungrycat/game.js (`world`, `cat`, `inputs`, `tilt` and `drops`) and
    the operations that update it in place: start, game over, scoring, spawning, input
    and the per-frame step. */
module Session {
  import opened Geometry
  import opened Drops
  import opened CatMotion
  import opened Rules

  /** Replacing the element after `pre` and then splicing it out. */
  lemma ReplaceThenSplice<T>(pre: seq<T>, x: T, y: T, post: seq<T>)
    ensures (pre + [x] + post)[|pre| := y] == pre + ([y] + post)
    ensures (pre + ([y] + post))[..|pre|] + (pre + ([y] + post))[|pre| + 1..] == pre + post
  {
    assert (pre + ([y] + post))[..|pre|] == pre;
    assert (pre + ([y] + post))[|pre| + 1..] == post;
  }

  /** The facts one iteration of the drop loop at index i needs: the iteration extends
      the sweep of the drops after i by one `Visit`, and replacing drop i by its moved
      copy, or splicing it out, is what the sweep does with it. */
  lemma DropLoopStep(s0: seq<Drop>, i: nat, box: Rect, dt: real)
    requires i < |s0| && !SweepDrops(s0[i + 1..], box, dt).splashed
    ensures var later := SweepDrops(s0[i + 1..], box, dt);
            var d := Fall(s0[i], dt);
            && SweepDrops(s0[i..], box, dt) == Visit(d, later, box)
            && (s0[..i + 1] + later.kept)[i] == s0[i]
            && (s0[..i + 1] + later.kept)[i := d] == s0[..i] + ([d] + later.kept)
            && (s0[..i] + ([d] + later.kept))[..i] + (s0[..i] + ([d] + later.kept))[i + 1..] ==
               s0[..i] + later.kept
  {
    var later := SweepDrops(s0[i + 1..], box, dt);
    assert s0[i..][0] == s0[i] && s0[i..][1..] == s0[i + 1..];
    assert s0[..i + 1] == s0[..i] + [s0[i]];
    ReplaceThenSplice(s0[..i], s0[i], Fall(s0[i], dt), later.kept);
  }

  class Game {
    var world: World
    var cat: Cat
    var inputs: Inputs
    var tilt: Tilt
    var drops: seq<Drop>

    /** The state the game keeps between frames: a valid frame and a tilt reading within
        range. */
    ghost predicate Valid()
      reads this
    {
      Frame(world, cat, drops).Valid() && -TiltRange <= tilt.gamma <= TiltRange
    }

    /** The state on page load; `storedBest` is the persisted high score. */
    constructor (storedBest: int)
      ensures Valid() && world == InitialWorld(storedBest)
      ensures cat == Cat(StartX, CatY, 0.0) && drops == []
      ensures inputs == Inputs(false, false) && tilt == Tilt(false, 0.0)
    {
      world := World(false, false, 0, storedBest, 140, 950, 0.0, 0.0, 0.0);
      cat := Cat(StartX, CatY, 0.0);
      inputs := Inputs(false, false);
      tilt := Tilt(false, 0.0);
      drops := [];
    }

    /** `resetGame`: from any valid state, a fresh game in the Playing phase with the
        cat centred and at rest and no drops; only the best score is carried over. */
    method ResetGame()
      requires Valid()
      modifies this`world, this`cat, this`drops
      ensures Valid()
      ensures world == FreshWorld(old(world.best))
      ensures cat == Cat(StartX, CatY, 0.0) && drops == []
    {
      world := world.(started := true, gameOver := false, score := 0, speed := 140,
                      spawnEveryMs := 950, lastSpawnAt := 0.0, time := 0.0, slowmo := 0.0);
      drops := [];
      cat := Cat(StartX, CatY, 0.0);
      UpdateScore(0);
    }

    /** `endGame`. */
    method EndGame()
      modifies this`world
      ensures world == Ended(old(world))
      ensures old(Valid()) ==> Valid()
    {
      world := world.(gameOver := true, started := false, slowmo := SlowmoSeconds);
      if world.score > world.best {
        world := world.(best := world.score);
      }
    }

    /** `updateScore`. */
    method UpdateScore(delta: int)
      modifies this`world
      ensures world == Scored(old(world), delta)
      ensures old(Valid()) ==> Valid()
    {
      world := world.(score := world.score + delta);
      var s := world.score;
      world := world.(speed := if 540 <= 140 + s * 8 then 540 else 140 + s * 8,
                      spawnEveryMs := if 360 >= 950 - s * 12 then 360 else 950 - s * 12);
    }

    /** `spawnDrop`: appends one new drop built from `rolls` at the current speed. */
    method SpawnDrop(rolls: Rolls)
      requires rolls.Valid()
      modifies this`drops
      ensures drops == old(drops) + [NewDrop(rolls, world.speed as real)]
      ensures old(Valid()) ==> Valid()
    {
      var d := NewDrop(rolls, world.speed as real);
      drops := drops + [d];
    }

    /** `setInput`: "left" and "right" set the matching key; any other name is ignored. */
    method SetInput(which: string, pressed: bool)
      modifies this`inputs
      ensures inputs.left == (if which == "left" then pressed else old(inputs.left))
      ensures inputs.right == (if which == "right" then pressed else old(inputs.right))
      ensures old(Valid()) ==> Valid()
    {
      if which == "left" {
        inputs := inputs.(left := pressed);
      }
      if which == "right" {
        inputs := inputs.(right := pressed);
      }
    }

    /** The outcome of `enableTiltIfAvailable` when orientation events are available. */
    method EnableTilt()
      modifies this`tilt
      ensures tilt == old(tilt).(active := true)
      ensures old(Valid()) ==> Valid()
    {
      tilt := tilt.(active := true);
    }

    /** `onTilt`: a numeric left-right reading is stored clamped to [-45, 45] degrees. */
    method OnTilt(gamma: real)
      modifies this`tilt
      ensures tilt == old(tilt).(gamma := Clamp(gamma, -TiltRange, TiltRange))
      ensures -TiltRange <= tilt.gamma <= TiltRange
      ensures -TiltRange <= gamma <= TiltRange ==> tilt.gamma == gamma
      ensures old(Valid()) ==> Valid()
    {
      tilt := tilt.(gamma := Clamp(gamma, -TiltRange, TiltRange));
    }

    /** `update`: one frame of `dt` seconds. Outside the Playing phase only the slow
        motion timer runs down; while playing, the frame is `PlayStep`. */
    method Update(dt: real, rolls: Rolls, friction: real)
      requires Valid() && 0.0 <= dt <= MaxStep
      requires rolls.Valid() && 0.0 < friction <= 1.0
      modifies this`world, this`cat, this`drops
      ensures Valid()
      ensures old(world.CurrentPhase()) != Playing ==>
                world == Countdown(old(world), dt) && cat == old(cat) && drops == old(drops)
      ensures old(world.CurrentPhase()) == Playing ==>
                Frame(world, cat, drops) ==
                PlayStep(Frame(old(world), old(cat), old(drops)), inputs, tilt, dt, rolls, friction)
    {
      if !world.started || world.gameOver {
        if world.slowmo > 0.0 {
          var t := Min(dt, world.slowmo);
          world := world.(slowmo := world.slowmo - t);
        }
        return;
      }
      ghost var before := Frame(world, cat, drops);
      PlayStepValid(before, inputs, tilt, dt, rolls, friction);

      Tick(dt, rolls);
      // The desired direction from the inputs and tilt steers the cat.
      cat := MoveCat(cat, Direction(inputs, tilt), dt, friction);
      MoveDrops(dt);
    }

    /** The clock part of `update`: time advances by `dt`, and once the spawn interval
        has elapsed since the last spawn a drop is spawned and the spawn time reset. */
    method Tick(dt: real, rolls: Rolls)
      requires rolls.Valid()
      modifies this`world, this`drops
      ensures world == Clocked(old(world), dt)
      ensures drops == Spawned(old(drops), old(world), dt, rolls)
    {
      world := world.(time := world.time + dt);
      if world.time - world.lastSpawnAt >= world.spawnEveryMs as real / 1000.0 {
        world := world.(lastSpawnAt := world.time);
        SpawnDrop(rolls);
      }
    }

    /** The drop loop of `update`: walks the drops from the last to the first, moving each
        one; a caught fish or gold scores and is spliced out, a caught water drop ends the
        game and stops the loop, and an uncaught drop below the off-screen line is spliced
        out. The outcome is the sweep over the cat's box. */
    method MoveDrops(dt: real)
      requires world.Valid()
      modifies this`world, this`drops
      ensures var r := SweepDrops(old(drops), cat.Box(), dt);
              && drops == r.kept
              && world == (if r.splashed then Ended(Scored(old(world), r.gained))
                           else Scored(old(world), r.gained))
    {
      ghost var s0 := drops;
      var box := cat.Box();
      assert s0[..|s0|] == s0 && s0[|s0|..] == [];
      ScoredCompose(world, 0, 0);
      // What the iterations so far have done with the drops after index i.
      ghost var done := SweepDrops(s0[|s0|..], box, dt);
      var ds := drops;
      for i := |ds| downto 0
        invariant done == SweepDrops(s0[i..], box, dt) && !done.splashed
        invariant ds == s0[..i] + done.kept
        invariant world == Scored(old(world), done.gained)
      {
        ghost var later := done;
        DropLoopStep(s0, i, box, dt);
        done := Visit(Fall(s0[i], dt), later, box);

        var d := Fall(ds[i], dt);
        ds := ds[i := d];

        if RectsIntersect(box, d.Box()) {
          if d.kind == Water {
            assert done == Sweep([d] + later.kept, later.gained, true);
            EndGame();
            SweepSplashInSuffix(s0, box, dt, i);
            break;
          } else if d.kind == Fish {
            assert done == Sweep(later.kept, later.gained + 1, false);
            ScoredCompose(old(world), later.gained, 1);
            UpdateScore(1);
            ds := ds[..i] + ds[i + 1..];
            continue;
          } else if d.kind == Gold {
            assert done == Sweep(later.kept, later.gained + 3, false);
            ScoredCompose(old(world), later.gained, 3);
            UpdateScore(3);
            ds := ds[..i] + ds[i + 1..];
            continue;
          }
        }

        if d.y > OffscreenLimit {
          assert done == later;
          ds := ds[..i] + ds[i + 1..];
        } else {
          assert done == Sweep([d] + later.kept, later.gained, false);
        }
      }
      drops := ds;
      assert s0[0..] == s0;
    }
  }
}
