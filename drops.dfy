/** Falling objects: the type roll and construction of `spawnDrop`, the fall, and the
    outcome of the backwards move-and-collide loop of `update`. */
module Drops {
  import opened Geometry

  /** A drop whose top is below this line is discarded. */
  const OffscreenLimit: real := ViewHeight + 80.0
  /** `Math.PI` to the precision the game's number type prints it with. */
  const Pi: real := 3.141592653589793

  datatype Kind = Fish | Gold | Water

  datatype Drop = Drop(kind: Kind, x: real, y: real, width: real, height: real,
                       rotation: real, rotationSpeed: real, vy: real)
  {
    function Box(): Rect { Rect(x, y, width, height) }
  }

  /** The six values `Math.random()` supplies to one spawn, in the order they are drawn. */
  datatype Rolls = Rolls(kind: real, size: real, x: real, rotation: real, spin: real, speed: real)
  {
    predicate Valid() {
      0.0 <= kind < 1.0 && 0.0 <= size < 1.0 && 0.0 <= x < 1.0 &&
      0.0 <= rotation < 1.0 && 0.0 <= spin < 1.0 && 0.0 <= speed < 1.0
    }
  }

  /** The type chosen from a roll: above 0.82 gold, below 0.22 water, fish in between
      (both bounds inclusive). */
  function Classify(roll: real): (k: Kind)
    ensures k == Gold <==> roll > 0.82
    ensures k == Water <==> roll < 0.22
    ensures k == Fish <==> 0.22 <= roll <= 0.82
  {
    var isGold := roll > 0.82;
    var isWater := !isGold && roll < 0.22;
    if isWater then Water else if isGold then Gold else Fish
  }

  function BaseSize(k: Kind): real { if k == Water then 44.0 else 48.0 }

  /** The drop `spawnDrop` builds at fall speed `speed`: a square of jittered size whose
      bottom edge sits on the top of the view. */
  function NewDrop(r: Rolls, speed: real): (d: Drop)
    requires r.Valid()
    ensures d.kind == Classify(r.kind)
    ensures d.width == d.height && d.y == -d.height
    ensures BaseSize(d.kind) <= d.width < BaseSize(d.kind) + 12.0
    ensures 24.0 <= d.x < ViewWidth - 24.0
    ensures -0.4 <= d.rotationSpeed < 0.4
  {
    var kind := Classify(r.kind);
    var width := BaseSize(kind) + r.size * 12.0;
    var height := width;
    // 752 is the view width less twice the 24-pixel inset.
    Drop(kind, 24.0 + r.x * 752.0, -height, width, height,
         r.rotation * Pi - Pi / 2.0, r.spin * 0.8 - 0.4, speed * (0.9 + r.speed * 0.25))
  }

  /** A new drop starts at an angle within a half turn around upright, and falls at
      between 0.9 and 1.15 times the current speed. */
  lemma NewDropMotion(r: Rolls, speed: real)
    requires r.Valid()
    ensures -Pi / 2.0 <= NewDrop(r, speed).rotation < Pi / 2.0
    ensures speed >= 0.0 ==> 0.9 * speed <= NewDrop(r, speed).vy <= 1.15 * speed
  {
    assert 0.0 <= r.rotation * Pi < Pi by {
      ScaleBelow(Pi, r.rotation);
      assert r.rotation * Pi < 1.0 * Pi;
    }
    if speed >= 0.0 {
      ScaleBelow(speed, r.speed);
      assert NewDrop(r, speed).vy == speed * (0.9 + r.speed * 0.25);
      assert speed * (0.9 + r.speed * 0.25) == 0.9 * speed + 0.25 * (speed * r.speed);
      assert 0.0 <= 0.25 * (speed * r.speed) <= 0.25 * speed;
    }
  }

  /** One step of fall: `y` and `rotation` advance with their rates; nothing else changes. */
  function Fall(d: Drop, dt: real): Drop {
    d.(y := d.y + d.vy * dt, rotation := d.rotation + d.rotationSpeed * dt)
  }

  /** Points for catching a drop of a kind. */
  function Reward(k: Kind): nat {
    match k
    case Fish => 1
    case Gold => 3
    case Water => 0
  }

  /** What the loop body does with one drop that has already been moved. */
  datatype Fate = Splash | Eaten(points: nat) | Fell | Kept

  /** The fate of a moved drop `d` against the cat's box: a caught water drop splashes,
      a caught fish or gold is eaten for its reward, an uncaught drop below the
      off-screen line falls out and every other drop is kept. */
  function Resolve(catBox: Rect, d: Drop): Fate {
    if RectsIntersect(catBox, d.Box()) then
      match d.kind
      case Water => Splash
      case Fish => Eaten(1)
      case Gold => Eaten(3)
    else if d.y > OffscreenLimit then Fell
    else Kept
  }

  /** The four fates split the cases: only a caught water drop splashes, only a caught
      fish or gold is eaten (for its positive reward), only an uncaught drop below the
      off-screen line falls out, and a kept drop is on screen. */
  lemma ResolveCases(catBox: Rect, d: Drop)
    ensures var f := Resolve(catBox, d);
            && (f == Splash <==> RectsIntersect(catBox, d.Box()) && d.kind == Water)
            && (f.Eaten? <==> RectsIntersect(catBox, d.Box()) && d.kind != Water)
            && (f.Eaten? ==> f.points == Reward(d.kind) && f.points > 0)
            && (f == Fell <==> !RectsIntersect(catBox, d.Box()) && d.y > OffscreenLimit)
            && (f == Kept ==> d.y <= OffscreenLimit)
  {
  }

  /** Every drop is at or above the off-screen line. */
  predicate OnScreen(ds: seq<Drop>) {
    forall k :: 0 <= k < |ds| ==> ds[k].y <= OffscreenLimit
  }

  /** Being on screen is kept by concatenation and by taking a prefix. */
  lemma OnScreenConcat(a: seq<Drop>, b: seq<Drop>)
    requires OnScreen(a) && OnScreen(b)
    ensures OnScreen(a + b)
  {
    assert forall k :: 0 <= k < |a + b| ==> (a + b)[k] == if k < |a| then a[k] else b[k - |a|];
  }

  lemma OnScreenSlice(a: seq<Drop>, lo: nat, hi: nat)
    requires OnScreen(a) && lo <= hi <= |a|
    ensures OnScreen(a[lo..hi])
  {
    assert forall k :: 0 <= k < hi - lo ==> a[lo..hi][k] == a[lo + k];
  }

  /** The outcome of one pass of the drop loop: the drops left, the points scored and
      whether a water drop was caught (which ends the game). */
  datatype Sweep = Sweep(kept: seq<Drop>, gained: nat, splashed: bool)

  /** No drop, once moved, is a water drop the cat catches. */
  predicate NoSplash(ds: seq<Drop>, catBox: Rect, dt: real) {
    forall k :: 0 <= k < |ds| ==> Resolve(catBox, Fall(ds[k], dt)) != Splash
  }

  /** One iteration of the loop on a drop `d` that has just been moved, once the drops
      after it have given `later`. */
  function Visit(d: Drop, later: Sweep, catBox: Rect): Sweep {
    match Resolve(catBox, d)
    case Splash => Sweep([d] + later.kept, later.gained, true)
    case Eaten(p) => Sweep(later.kept, later.gained + p, false)
    case Fell => Sweep(later.kept, later.gained, false)
    case Kept => Sweep([d] + later.kept, later.gained, false)
  }

  /** The drop loop of `update`, which walks the drops from the last to the first:
      `ds[1..]` is handled before `ds[0]`. Once a water drop is caught the loop stops,
      and the drops it has not reached stay where they are. */
  function SweepDrops(ds: seq<Drop>, catBox: Rect, dt: real): (r: Sweep)
    ensures |r.kept| <= |ds|
  {
    if ds == [] then Sweep([], 0, false)
    else
      var later := SweepDrops(ds[1..], catBox, dt);
      if later.splashed then Sweep([ds[0]] + later.kept, later.gained, true)
      else Visit(Fall(ds[0], dt), later, catBox)
  }

  /** The loop ends the game exactly when some drop, once moved, is a water drop the
      cat catches. */
  lemma {:induction false} SplashedIffCaughtWater(ds: seq<Drop>, catBox: Rect, dt: real)
    ensures SweepDrops(ds, catBox, dt).splashed <==> !NoSplash(ds, catBox, dt)
  {
    if ds != [] {
      SplashedIffCaughtWater(ds[1..], catBox, dt);
      assert forall k :: 1 <= k < |ds| ==> ds[1..][k - 1] == ds[k];
    }
  }

  /** The loop leaves no drop below the off-screen line: when no water drop is caught
      every kept drop has been checked, and otherwise the drops the loop did not reach
      were already on screen and the caught water drop overlaps the cat. */
  lemma {:induction false} SweepOnScreen(ds: seq<Drop>, catBox: Rect, dt: real)
    ensures !SweepDrops(ds, catBox, dt).splashed ==> OnScreen(SweepDrops(ds, catBox, dt).kept)
    ensures OnScreen(ds) && catBox.y + catBox.height <= OffscreenLimit ==>
            OnScreen(SweepDrops(ds, catBox, dt).kept)
  {
    if ds != [] {
      SweepOnScreen(ds[1..], catBox, dt);
      if OnScreen(ds) {
        OnScreenSlice(ds, 1, |ds|);
        assert ds[1..|ds|] == ds[1..];
      }
    }
  }

  /** Reference, front to back and without the early stop: the moved drops that are kept,
      in their original order. */
  function Survivors(ds: seq<Drop>, catBox: Rect, dt: real): (s: seq<Drop>)
    ensures |s| <= |ds|
    ensures OnScreen(s)
  {
    if ds == [] then []
    else
      var d := Fall(ds[0], dt);
      (if Resolve(catBox, d) == Kept then [d] else []) + Survivors(ds[1..], catBox, dt)
  }

  /** Reference: the rewards of all eaten drops. */
  function Points(ds: seq<Drop>, catBox: Rect, dt: real): nat {
    if ds == [] then 0
    else
      var f := Resolve(catBox, Fall(ds[0], dt));
      (if f.Eaten? then f.points else 0) + Points(ds[1..], catBox, dt)
  }

  lemma {:induction false} NoSplashTail(ds: seq<Drop>, catBox: Rect, dt: real)
    requires ds != [] && NoSplash(ds, catBox, dt)
    ensures NoSplash(ds[1..], catBox, dt)
    ensures Resolve(catBox, Fall(ds[0], dt)) != Splash
  {
    forall k | 0 <= k < |ds| - 1
      ensures Resolve(catBox, Fall(ds[1..][k], dt)) != Splash
    {
      assert ds[1..][k] == ds[k + 1];
    }
  }

  /** When no water drop is caught, the loop keeps exactly the survivors, in order, and
      scores exactly their points. */
  lemma {:induction false} SweepWithoutSplash(ds: seq<Drop>, catBox: Rect, dt: real)
    requires NoSplash(ds, catBox, dt)
    ensures SweepDrops(ds, catBox, dt) == Sweep(Survivors(ds, catBox, dt), Points(ds, catBox, dt), false)
  {
    if ds != [] {
      NoSplashTail(ds, catBox, dt);
      SweepWithoutSplash(ds[1..], catBox, dt);
    }
  }

  /** When the water drop at index j is the last one caught (the first the backwards loop
      meets), the drops after it are resolved as usual, the water drop stays in place
      (moved), the drops before it are left untouched and only the points of the drops
      after it are scored. */
  lemma {:induction false} SweepStopsAtLastSplash(ds: seq<Drop>, catBox: Rect, dt: real, j: nat)
    requires j < |ds| && Resolve(catBox, Fall(ds[j], dt)) == Splash
    requires NoSplash(ds[j + 1..], catBox, dt)
    ensures SweepDrops(ds, catBox, dt) ==
            Sweep(ds[..j] + [Fall(ds[j], dt)] + Survivors(ds[j + 1..], catBox, dt),
                  Points(ds[j + 1..], catBox, dt), true)
  {
    var w := Fall(ds[j], dt);
    var after := Survivors(ds[j + 1..], catBox, dt);
    if j == 0 {
      SweepWithoutSplash(ds[1..], catBox, dt);
      var later := SweepDrops(ds[1..], catBox, dt);
      assert later == Sweep(after, Points(ds[1..], catBox, dt), false);
      assert SweepDrops(ds, catBox, dt) == Visit(w, later, catBox);
      assert ds[..j] + [w] + after == [w] + after;
    } else {
      assert ds[1..][j - 1] == ds[j];
      assert ds[1..][j..] == ds[j + 1..];
      SweepStopsAtLastSplash(ds[1..], catBox, dt, j - 1);
      var later := SweepDrops(ds[1..], catBox, dt);
      assert later == Sweep(ds[1..][..j - 1] + [w] + after, Points(ds[j + 1..], catBox, dt), true);
      assert SweepDrops(ds, catBox, dt) == Sweep([ds[0]] + later.kept, later.gained, true);
      assert ds[..j] == [ds[0]] + ds[1..][..j - 1];
      assert [ds[0]] + later.kept == ds[..j] + [w] + after;
    }
  }

  /** A splash in a suffix ends the loop there: the prefix the loop never reaches is
      kept untouched. */
  lemma {:induction false} SweepSplashInSuffix(ds: seq<Drop>, catBox: Rect, dt: real, i: nat)
    requires i <= |ds| && SweepDrops(ds[i..], catBox, dt).splashed
    ensures SweepDrops(ds, catBox, dt) ==
            Sweep(ds[..i] + SweepDrops(ds[i..], catBox, dt).kept,
                  SweepDrops(ds[i..], catBox, dt).gained, true)
  {
    if i == 0 {
      assert ds[i..] == ds;
    } else {
      var tail := SweepDrops(ds[i..], catBox, dt);
      assert ds[1..][i - 1..] == ds[i..];
      SweepSplashInSuffix(ds[1..], catBox, dt, i - 1);
      var later := SweepDrops(ds[1..], catBox, dt);
      assert later == Sweep(ds[1..][..i - 1] + tail.kept, tail.gained, true);
      assert SweepDrops(ds, catBox, dt) == Sweep([ds[0]] + later.kept, later.gained, true);
      assert ds[..i] == [ds[0]] + ds[1..][..i - 1];
      assert [ds[0]] + (ds[1..][..i - 1] + tail.kept) == ds[..i] + tail.kept;
    }
  }

  /** Survivors and points distribute over concatenation. */
  lemma {:induction false} ReferenceAppend(a: seq<Drop>, b: seq<Drop>, catBox: Rect, dt: real)
    ensures Survivors(a + b, catBox, dt) == Survivors(a, catBox, dt) + Survivors(b, catBox, dt)
    ensures Points(a + b, catBox, dt) == Points(a, catBox, dt) + Points(b, catBox, dt)
  {
    if a == [] {
      assert a + b == b;
    } else {
      assert (a + b)[1..] == a[1..] + b;
      ReferenceAppend(a[1..], b, catBox, dt);
    }
  }

  /** Catching a fish scores exactly 1, catching a gold drop exactly 3, and in both cases
      exactly that drop is removed while its neighbours are resolved as before. */
  lemma CaughtDropEaten(pre: seq<Drop>, d: Drop, post: seq<Drop>, catBox: Rect, dt: real)
    requires RectsIntersect(catBox, Fall(d, dt).Box()) && d.kind != Water
    ensures Survivors(pre + [d] + post, catBox, dt) == Survivors(pre, catBox, dt) + Survivors(post, catBox, dt)
    ensures Points(pre + [d] + post, catBox, dt) ==
            Points(pre, catBox, dt) + (if d.kind == Fish then 1 else 3) + Points(post, catBox, dt)
  {
    ResolveCases(catBox, Fall(d, dt));
    assert [d][1..] == [];
    assert Survivors([d], catBox, dt) == [];
    assert Points([d], catBox, dt) == (if d.kind == Fish then 1 else 3);
    ReferenceAppend(pre + [d], post, catBox, dt);
    ReferenceAppend(pre, [d], catBox, dt);
  }

  /** A drop the cat misses scores nothing and is kept, moved, unless it has fallen
      below the off-screen line. */
  lemma MissedDropKept(pre: seq<Drop>, d: Drop, post: seq<Drop>, catBox: Rect, dt: real)
    requires !RectsIntersect(catBox, Fall(d, dt).Box())
    ensures Survivors(pre + [d] + post, catBox, dt) ==
            Survivors(pre, catBox, dt) +
            (if Fall(d, dt).y > OffscreenLimit then [] else [Fall(d, dt)]) +
            Survivors(post, catBox, dt)
    ensures Points(pre + [d] + post, catBox, dt) == Points(pre, catBox, dt) + Points(post, catBox, dt)
  {
    ResolveCases(catBox, Fall(d, dt));
    assert [d][1..] == [];
    assert Survivors([d], catBox, dt) == (if Fall(d, dt).y > OffscreenLimit then [] else [Fall(d, dt)]);
    assert Points([d], catBox, dt) == 0;
    ReferenceAppend(pre + [d], post, catBox, dt);
    ReferenceAppend(pre, [d], catBox, dt);
  }
}
