/** One tick of car dynamics (`Car.update`) and the car's placement on its start tile.
    main.py and game/core.py carry two near-identical copies of the car; they differ only in
    top speed and in whether the space bar works as a handbrake, which `Variant` records. */
module Dynamics {
  import opened Outcome
  import opened Numeric
  import opened Constants
  import opened Tracks

  /** The keys `Car.update` reads: throttle, reverse, steer left, steer right, handbrake. */
  datatype Keys = Keys(w: bool, s: bool, a: bool, d: bool, space: bool)

  const NoKeys: Keys := Keys(false, false, false, false, false)

  /** Car state in world units and degrees. `handbrake` is the flag main.py's car remembers. */
  datatype Car = Car(x: real, y: real, angle: real, speed: real, handbrake: bool)

  /** The two car variants: main.py (also driven by the AI runner) and game/core.py. */
  datatype Variant = Variant(maxSpeed: real, hasHandbrake: bool)

  const MainVariant: Variant := Variant(10.0, true)
  const CoreVariant: Variant := Variant(4.0, false)

  const Acceleration: real := 0.15
  const ReverseFactor: real := 0.7
  const Friction: real := 0.1
  const Steering: real := 2.5
  const HandbrakeGrip: real := 0.05

  /** `math.pi` as a double. */
  const Pi: real := 3.141592653589793

  /** Cosine and sine of an angle in radians. They are parameters: the model states its properties
      under the hypotheses below, never about a particular implementation of them. */
  datatype Trig = Trig(cos: real -> real, sin: real -> real)

  /** Both functions stay within [-1, 1]. */
  ghost predicate TrigBounded(trig: Trig) {
    forall a :: -1.0 <= trig.cos(a) <= 1.0 && -1.0 <= trig.sin(a) <= 1.0
  }

  /** `math.radians`. */
  function Radians(deg: real): real {
    deg * Pi / 180.0
  }

  /** Speeds a car of top speed `maxSpeed` can have after an update. */
  predicate InSpeedRange(speed: real, maxSpeed: real) {
    -maxSpeed / 2.0 <= speed <= maxSpeed
  }

  /** Throttle and reverse, the clamp to `[-maxSpeed/2, maxSpeed]`, then friction toward zero when
      neither pedal is held. */
  function NextSpeed(speed: real, keys: Keys, maxSpeed: real): (s: real)
    requires maxSpeed > 0.0
    ensures InSpeedRange(s, maxSpeed)
    ensures !keys.w && !keys.s && InSpeedRange(speed, maxSpeed) ==>
      && (speed >= 0.0 ==> 0.0 <= s <= speed && speed - s <= Friction)
      && (speed <= 0.0 ==> speed <= s <= 0.0 && s - speed <= Friction)
      && (s == 0.0 || Abs(speed - s) == Friction)
    ensures keys.w && keys.s && InSpeedRange(speed + 0.045, maxSpeed) ==> s == speed + 0.045
    ensures keys.w && keys.s && InSpeedRange(speed, maxSpeed) ==> s == Min(speed + 0.045, maxSpeed)
    ensures keys.w && !keys.s && InSpeedRange(speed, maxSpeed) ==> s == Min(speed + 0.15, maxSpeed)
    ensures keys.s && !keys.w && InSpeedRange(speed, maxSpeed) ==> s == Max(speed - 0.105, -maxSpeed / 2.0)
  {
    var throttled := if keys.w then speed + Acceleration else speed;
    var pedalled := if keys.s then throttled - Acceleration * ReverseFactor else throttled;
    var clamped := Max(-maxSpeed / 2.0, Min(pedalled, maxSpeed));
    if keys.w || keys.s then clamped
    else if clamped > 0.0 then Max(0.0, clamped - Friction)
    else if clamped < 0.0 then Min(0.0, clamped + Friction)
    else clamped
  }

  /** Steering: each held steering key turns by `Steering` scaled by the speed fraction. */
  function NextAngle(angle: real, speed: real, keys: Keys, maxSpeed: real): (r: real)
    requires maxSpeed > 0.0
    ensures keys.a == keys.d ==> r == angle
    ensures speed == 0.0 ==> r == angle
    ensures keys.a && !keys.d ==> r == angle - Steering * Abs(speed) / maxSpeed
    ensures keys.d && !keys.a ==> r == angle + Steering * Abs(speed) / maxSpeed
    ensures Abs(speed) <= maxSpeed ==> Abs(r - angle) <= Steering
  {
    var turn := Steering * (Abs(speed) / maxSpeed);
    TurnBound(speed, maxSpeed);
    var left := if keys.a then angle - turn else angle;
    if keys.d then left + turn else left
  }

  /** The turn per tick is non-negative and, within the speed range, at most `Steering`. */
  lemma TurnBound(speed: real, maxSpeed: real)
    requires maxSpeed > 0.0
    ensures Steering * (Abs(speed) / maxSpeed) >= 0.0
    ensures Abs(speed) <= maxSpeed ==> Steering * (Abs(speed) / maxSpeed) <= Steering
  {
    var a := Abs(speed);
    var f := a / maxSpeed;
    assert f * maxSpeed == a;
    if a <= maxSpeed && f > 1.0 {
      assert false;
    }
    if f < 0.0 {
      assert false;
    }
  }

  /** Intended displacement along the heading: `speed * cos(radians(angle))` and the sine part. */
  function Dx(c: Car, trig: Trig): real {
    c.speed * trig.cos(Radians(c.angle))
  }

  function Dy(c: Car, trig: Trig): real {
    c.speed * trig.sin(Radians(c.angle))
  }

  /** The traction the car gets at `(x, y)`, cut to 5% when the handbrake is on. */
  function Traction(t: TrackRecord, x: real, y: real, handbrake: bool): (k: real)
    requires Indexable(t)
    ensures 0.0 < k <= 1.0
    ensures handbrake ==> k <= HandbrakeGrip
    ensures !handbrake ==> (k == 1.0 <==> GetTile(t, x, y) == Asphalt)
    ensures var grip := SurfaceOf(GetTile(t, x, y)).traction;
      k == (if handbrake then HandbrakeGrip * grip else grip)
  {
    var grip := SurfaceInfo(t, x, y).traction;
    if handbrake then grip * HandbrakeGrip else grip
  }

  /** The translation step: the intended displacement `(Dx, Dy)` scaled by the traction `k`.
      Only the position changes; heading and speed are not attenuated by traction. */
  function Move(c: Car, trig: Trig, k: real): (m: Car)
    requires 0.0 < k <= 1.0
    ensures m.angle == c.angle && m.speed == c.speed && m.handbrake == c.handbrake
    ensures c.speed == 0.0 ==> m == c
    ensures k == 1.0 ==> m.x == c.x + Dx(c, trig) && m.y == c.y + Dy(c, trig)
  {
    c.(x := c.x + Dx(c, trig) * k, y := c.y + Dy(c, trig) * k)
  }

  /** `Move` goes along the heading: each axis moves in the direction of the intended displacement,
      by the fraction `k` of it, and the travelled vector is parallel to `(Dx, Dy)`. */
  lemma MoveAlongHeading(c: Car, trig: Trig, k: real)
    requires 0.0 < k <= 1.0
    ensures var m := Move(c, trig, k);
      && Abs(m.x - c.x) == k * Abs(Dx(c, trig)) && Abs(m.y - c.y) == k * Abs(Dy(c, trig))
      && (Dx(c, trig) >= 0.0 ==> m.x >= c.x) && (Dx(c, trig) <= 0.0 ==> m.x <= c.x)
      && (Dy(c, trig) >= 0.0 ==> m.y >= c.y) && (Dy(c, trig) <= 0.0 ==> m.y <= c.y)
      && (m.x - c.x) * Dy(c, trig) == (m.y - c.y) * Dx(c, trig)
  {
    var dx, dy := Dx(c, trig), Dy(c, trig);
    var m := Move(c, trig, k);
    ShiftFacts(c.x, m.x, dx, k);
    ShiftFacts(c.y, m.y, dy, k);
    SameDirection(dx, dy, k);
  }

  /** Moving from `p` by `d` scaled by a positive factor keeps the direction of `d` and covers
      that fraction of its length. */
  lemma ShiftFacts(p: real, p': real, d: real, k: real)
    requires 0.0 < k && p' == p + d * k
    ensures Abs(p' - p) == k * Abs(d)
    ensures (d >= 0.0 ==> p' >= p) && (d <= 0.0 ==> p' <= p)
  {
    if d >= 0.0 {
      assert d * k >= 0.0;
    } else {
      assert d * k <= 0.0;
      assert -(d * k) == k * -d;
    }
  }

  /** Scaling both axes by the same factor keeps the direction of travel. */
  lemma SameDirection(dx: real, dy: real, k: real)
    ensures (dx * k) * dy == (dy * k) * dx
  {
  }

  /** A non-negative length scaled by `k <= cap` is at most `cap` times that length. */
  lemma ScaleAtMost(a: real, k: real, cap: real)
    requires a >= 0.0 && k <= cap
    ensures k * a <= cap * a
  {
  }

  /** Whether the handbrake cuts traction in this tick: main.py's car only. */
  function HandbrakeOn(keys: Keys, v: Variant): bool {
    v.hasHandbrake && keys.space
  }

  /** The control half of `Car.update`: pedals, clamp, friction, the handbrake flag and steering.
      The position is left for `Move`. */
  function Control(car: Car, keys: Keys, v: Variant): (c: Car)
    requires v.maxSpeed > 0.0
    ensures c.x == car.x && c.y == car.y
    ensures InSpeedRange(c.speed, v.maxSpeed)
    ensures !keys.w && !keys.s && InSpeedRange(car.speed, v.maxSpeed) ==>
      && Abs(c.speed) <= Abs(car.speed)
      && (car.speed >= 0.0 ==> c.speed >= 0.0)
      && (car.speed <= 0.0 ==> c.speed <= 0.0)
    ensures keys.a == keys.d || c.speed == 0.0 ==> c.angle == car.angle
    ensures Abs(c.angle - car.angle) <= Steering
    ensures v.hasHandbrake ==> c.handbrake == keys.space
    ensures !v.hasHandbrake ==> c.handbrake == car.handbrake
    ensures c.speed == NextSpeed(car.speed, keys, v.maxSpeed)
    ensures c.angle == NextAngle(car.angle, c.speed, keys, v.maxSpeed)
  {
    var speed := NextSpeed(car.speed, keys, v.maxSpeed);
    var handbrake := if v.hasHandbrake then keys.space else car.handbrake;
    car.(speed := speed, angle := NextAngle(car.angle, speed, keys, v.maxSpeed), handbrake := handbrake)
  }

  /** One tick of `Car.update` for the given variant. Traction is read at the prospective position
      `(x + Dx, y + Dy)` computed from the new speed and heading, before the car moves there. */
  function Update(car: Car, keys: Keys, t: TrackRecord, v: Variant, trig: Trig): (r: Car)
    requires Indexable(t) && v.maxSpeed > 0.0
    ensures InSpeedRange(r.speed, v.maxSpeed)
    ensures !keys.w && !keys.s && InSpeedRange(car.speed, v.maxSpeed) ==>
      && Abs(r.speed) <= Abs(car.speed)
      && (car.speed >= 0.0 ==> r.speed >= 0.0)
      && (car.speed <= 0.0 ==> r.speed <= 0.0)
    ensures keys.a == keys.d || r.speed == 0.0 ==> r.angle == car.angle
    ensures Abs(r.angle - car.angle) <= Steering
    ensures r.speed == 0.0 ==> r.x == car.x && r.y == car.y
    ensures v.hasHandbrake ==> r.handbrake == keys.space
    ensures !v.hasHandbrake ==> r.handbrake == car.handbrake
    ensures r.speed == NextSpeed(car.speed, keys, v.maxSpeed)
    ensures r.angle == NextAngle(car.angle, r.speed, keys, v.maxSpeed)
  {
    var c := Control(car, keys, v);
    Move(c, trig, Traction(t, c.x + Dx(c, trig), c.y + Dy(c, trig), HandbrakeOn(keys, v)))
  }

  /** The car moves along its new heading by the intended displacement scaled by the grip at the
      prospective position: never further than intended, and at most 5% of it under the handbrake. */
  lemma UpdateDisplacement(car: Car, keys: Keys, t: TrackRecord, v: Variant, trig: Trig)
    requires Indexable(t) && v.maxSpeed > 0.0
    ensures var c, r := Control(car, keys, v), Update(car, keys, t, v, trig);
      && Abs(r.x - car.x) <= Abs(Dx(c, trig)) && Abs(r.y - car.y) <= Abs(Dy(c, trig))
      && (HandbrakeOn(keys, v) ==>
            Abs(r.x - car.x) <= HandbrakeGrip * Abs(Dx(c, trig))
            && Abs(r.y - car.y) <= HandbrakeGrip * Abs(Dy(c, trig)))
  {
    var c := Control(car, keys, v);
    var k := Traction(t, c.x + Dx(c, trig), c.y + Dy(c, trig), HandbrakeOn(keys, v));
    UpdateMoves(car, keys, t, v, trig);
    assert c.x == car.x && c.y == car.y;
    MoveWithinGrip(c, trig, k, 1.0);
    if HandbrakeOn(keys, v) {
      MoveWithinGrip(c, trig, k, HandbrakeGrip);
    }
  }

  /** A move whose grip is at most `cap` covers at most `cap` of the intended displacement per axis. */
  lemma MoveWithinGrip(c: Car, trig: Trig, k: real, cap: real)
    requires 0.0 < k <= 1.0 && k <= cap
    ensures var m := Move(c, trig, k);
      Abs(m.x - c.x) <= cap * Abs(Dx(c, trig)) && Abs(m.y - c.y) <= cap * Abs(Dy(c, trig))
  {
    MoveAlongHeading(c, trig, k);
    ScaleAtMost(Abs(Dx(c, trig)), k, cap);
    ScaleAtMost(Abs(Dy(c, trig)), k, cap);
  }

  /** Grip is looked up where the car is heading, not where it stands: the car covers the
      intended displacement times the traction of the tile at the prospective position (1.0 for
      asphalt, 0.3 for offroad, 0.6 for curb or an unknown code), and a twentieth of that under the
      handbrake. The tile the car stands on plays no part. */
  lemma TractionLookahead(car: Car, keys: Keys, t: TrackRecord, v: Variant, trig: Trig)
    requires Indexable(t) && v.maxSpeed > 0.0
    ensures var c, r := Control(car, keys, v), Update(car, keys, t, v, trig);
      var grip := SurfaceOf(GetTile(t, car.x + Dx(c, trig), car.y + Dy(c, trig))).traction;
      var f := if HandbrakeOn(keys, v) then HandbrakeGrip * grip else grip;
      r.x == car.x + Dx(c, trig) * f && r.y == car.y + Dy(c, trig) * f
  {
    var c := Control(car, keys, v);
    UpdateByTraction(car, keys, t, v, trig);
    var k := Traction(t, car.x + Dx(c, trig), car.y + Dy(c, trig), HandbrakeOn(keys, v));
  }

  /** The car moves the intended displacement times the traction ahead of its own position. */
  lemma UpdateByTraction(car: Car, keys: Keys, t: TrackRecord, v: Variant, trig: Trig)
    requires Indexable(t) && v.maxSpeed > 0.0
    ensures var c, r := Control(car, keys, v), Update(car, keys, t, v, trig);
      var k := Traction(t, car.x + Dx(c, trig), car.y + Dy(c, trig), HandbrakeOn(keys, v));
      r.x == car.x + Dx(c, trig) * k && r.y == car.y + Dy(c, trig) * k
  {
    var c := Control(car, keys, v);
    var k := Traction(t, car.x + Dx(c, trig), car.y + Dy(c, trig), HandbrakeOn(keys, v));
    UpdateMoves(car, keys, t, v, trig);
    MoveScaled(c, trig, k);
    assert c.x == car.x && c.y == car.y;
  }

  /** `Move` adds the grip fraction of the intended displacement to each coordinate. */
  lemma MoveScaled(c: Car, trig: Trig, k: real)
    requires 0.0 < k <= 1.0
    ensures Move(c, trig, k).x == c.x + Dx(c, trig) * k && Move(c, trig, k).y == c.y + Dy(c, trig) * k
  {
  }

  /** `Update` is the control step followed by the move scaled by the grip ahead. */
  lemma UpdateMoves(car: Car, keys: Keys, t: TrackRecord, v: Variant, trig: Trig)
    requires Indexable(t) && v.maxSpeed > 0.0
    ensures var c := Control(car, keys, v);
      Update(car, keys, t, v, trig) == Move(c, trig, Traction(t, c.x + Dx(c, trig), c.y + Dy(c, trig), HandbrakeOn(keys, v)))
    ensures var c := Control(car, keys, v);
      Update(car, keys, t, v, trig) == Move(c, trig, Traction(t, car.x + Dx(c, trig), car.y + Dy(c, trig), HandbrakeOn(keys, v)))
  {
    var c := Control(car, keys, v);
    assert c.x == car.x && c.y == car.y;
  }

  /** Without the handbrake the car covers all of the intended displacement towards asphalt, 30% of
      it towards offroad and 60% towards curb or an unknown code. */
  lemma FreeRollingLookahead(car: Car, keys: Keys, t: TrackRecord, v: Variant, trig: Trig)
    requires Indexable(t) && v.maxSpeed > 0.0 && !HandbrakeOn(keys, v)
    ensures var c, r := Control(car, keys, v), Update(car, keys, t, v, trig);
      var ahead := GetTile(t, car.x + Dx(c, trig), car.y + Dy(c, trig));
      && (ahead == Asphalt ==> r.x == car.x + Dx(c, trig) && r.y == car.y + Dy(c, trig))
      && (ahead == Offroad ==> r.x == car.x + Dx(c, trig) * 0.3 && r.y == car.y + Dy(c, trig) * 0.3)
      && (ahead != Asphalt && ahead != Offroad ==> r.x == car.x + Dx(c, trig) * 0.6 && r.y == car.y + Dy(c, trig) * 0.6)
  {
    TractionLookahead(car, keys, t, v, trig);
  }

  /** Under the handbrake the car covers 5% of the intended displacement towards asphalt, 1.5%
      towards offroad and 3% towards curb or an unknown code. */
  lemma HandbrakeLookahead(car: Car, keys: Keys, t: TrackRecord, v: Variant, trig: Trig)
    requires Indexable(t) && v.maxSpeed > 0.0 && HandbrakeOn(keys, v)
    ensures var c, r := Control(car, keys, v), Update(car, keys, t, v, trig);
      var ahead := GetTile(t, car.x + Dx(c, trig), car.y + Dy(c, trig));
      && (ahead == Asphalt ==> r.x == car.x + Dx(c, trig) * 0.05 && r.y == car.y + Dy(c, trig) * 0.05)
      && (ahead == Offroad ==> r.x == car.x + Dx(c, trig) * 0.015 && r.y == car.y + Dy(c, trig) * 0.015)
      && (ahead != Asphalt && ahead != Offroad ==> r.x == car.x + Dx(c, trig) * 0.03 && r.y == car.y + Dy(c, trig) * 0.03)
  {
    TractionLookahead(car, keys, t, v, trig);
  }

  /** A prospective position off the grid reads as curb: the car covers 60% of the intended
      displacement, or 3% under the handbrake. */
  lemma OffGridLookahead(car: Car, keys: Keys, t: TrackRecord, v: Variant, trig: Trig)
    requires Indexable(t) && v.maxSpeed > 0.0 && t.tileSize > 0
    ensures var c, r := Control(car, keys, v), Update(car, keys, t, v, trig);
      !InWorld(t, car.x + Dx(c, trig), car.y + Dy(c, trig)) ==>
        var f := if HandbrakeOn(keys, v) then 0.03 else 0.6;
        r.x == car.x + Dx(c, trig) * f && r.y == car.y + Dy(c, trig) * f
  {
    TractionLookahead(car, keys, t, v, trig);
  }

  /** With bounded trigonometry the intended displacement is at most the speed on each axis,
      so a tick moves the car at most `|speed|` along each axis, and at most 5% of that under
      the handbrake. */
  lemma StepWithinSpeed(car: Car, keys: Keys, t: TrackRecord, v: Variant, trig: Trig)
    requires Indexable(t) && v.maxSpeed > 0.0 && TrigBounded(trig)
    ensures var r := Update(car, keys, t, v, trig);
      && WithinBox(car.x, car.y, r.x, r.y, Abs(r.speed))
      && (HandbrakeOn(keys, v) ==> WithinBox(car.x, car.y, r.x, r.y, HandbrakeGrip * Abs(r.speed)))
  {
    var c := Control(car, keys, v);
    var k := Traction(t, c.x + Dx(c, trig), c.y + Dy(c, trig), HandbrakeOn(keys, v));
    assert Update(car, keys, t, v, trig) == Move(c, trig, k);
    IntendedWithinSpeed(c, trig);
    MoveWithinBox(c, trig, k);
    if HandbrakeOn(keys, v) {
      MoveWithinGripBox(c, trig, k);
    }
  }

  /** Moving by a traction fraction `k` of a displacement whose components are at most the speed
      stays within `|speed|` of the start along each axis. */
  lemma MoveWithinBox(c: Car, trig: Trig, k: real)
    requires 0.0 < k <= 1.0
    requires Abs(Dx(c, trig)) <= Abs(c.speed) && Abs(Dy(c, trig)) <= Abs(c.speed)
    ensures var m := Move(c, trig, k);
      WithinBox(c.x, c.y, m.x, m.y, Abs(c.speed))
  {
    var m := Move(c, trig, k);
    ScaledStepInBox(c.x, c.y, m.x, m.y, Dx(c, trig), Dy(c, trig), c.speed, k, 1.0);
    assert 1.0 * Abs(c.speed) == Abs(c.speed);
  }

  /** With handbrake grip (`k <= 0.05`) the same move stays within 5% of the speed per axis. */
  lemma MoveWithinGripBox(c: Car, trig: Trig, k: real)
    requires 0.0 < k <= HandbrakeGrip
    requires Abs(Dx(c, trig)) <= Abs(c.speed) && Abs(Dy(c, trig)) <= Abs(c.speed)
    ensures var m := Move(c, trig, k);
      WithinBox(c.x, c.y, m.x, m.y, HandbrakeGrip * Abs(c.speed))
  {
    var m := Move(c, trig, k);
    ScaledStepInBox(c.x, c.y, m.x, m.y, Dx(c, trig), Dy(c, trig), c.speed, k, HandbrakeGrip);
  }

  /** Moving from `(x0, y0)` by the fraction `k <= cap` of a displacement whose components are at
      most `|s|` stays within `cap * |s|` of the start along each axis. */
  lemma ScaledStepInBox(x0: real, y0: real, x1: real, y1: real, dx: real, dy: real, s: real, k: real, cap: real)
    requires x1 == x0 + dx * k && y1 == y0 + dy * k
    requires Abs(dx) <= Abs(s) && Abs(dy) <= Abs(s) && 0.0 < k <= cap
    ensures WithinBox(x0, y0, x1, y1, cap * Abs(s))
  {
    assert Abs(dx * k) == k * Abs(dx) && Abs(dy * k) == k * Abs(dy);
    ScaledBelow(dx * k, Abs(dx), s, k, cap);
    ScaledBelow(dy * k, Abs(dy), s, k, cap);
  }

  /** A displacement that is the fraction `k <= cap` of a length at most `|s|` is at most
      `cap * |s|` long. */
  lemma ScaledBelow(d: real, a: real, s: real, k: real, cap: real)
    requires Abs(d) == k * a && 0.0 <= a <= Abs(s) && 0.0 < k <= cap
    ensures Abs(d) <= cap * Abs(s)
  {
    ScaleAtMost(a, k, cap);
    assert cap * a <= cap * Abs(s);
  }

  /** With bounded trigonometry each component of the intended displacement is at most the speed. */
  lemma IntendedWithinSpeed(c: Car, trig: Trig)
    requires TrigBounded(trig)
    ensures Abs(Dx(c, trig)) <= Abs(c.speed) && Abs(Dy(c, trig)) <= Abs(c.speed)
  {
    var co, si := trig.cos(Radians(c.angle)), trig.sin(Radians(c.angle));
    BoundedProduct(c.speed, co);
    BoundedProduct(c.speed, si);
    assert Dx(c, trig) == c.speed * co && Dy(c, trig) == c.speed * si;
  }

  lemma BoundedProduct(s: real, f: real)
    requires -1.0 <= f <= 1.0
    ensures Abs(s * f) <= Abs(s)
  {
    if s >= 0.0 {
      assert s * f <= s * 1.0 && s * f >= s * -1.0;
    } else {
      assert s * f >= s * 1.0 && s * f <= s * -1.0;
    }
  }

  /** `cos` and `sin` of every angle lie on the unit circle. */
  ghost predicate UnitTrig(trig: Trig) {
    forall a :: trig.cos(a) * trig.cos(a) + trig.sin(a) * trig.sin(a) == 1.0
  }

  /** The Euclidean distance a car moves in one tick is at most its new speed. */
  lemma MoveDistanceBound(car: Car, keys: Keys, t: TrackRecord, v: Variant, trig: Trig)
    requires Indexable(t) && v.maxSpeed > 0.0 && UnitTrig(trig)
    ensures var r := Update(car, keys, t, v, trig);
      WithinDistance(car.x, car.y, r.x, r.y, r.speed)
  {
    var c := Control(car, keys, v);
    var k := Traction(t, c.x + Dx(c, trig), c.y + Dy(c, trig), HandbrakeOn(keys, v));
    assert Update(car, keys, t, v, trig) == Move(c, trig, k);
    MoveWithinSpeed(c, trig, k);
  }

  /** Moving along a unit direction by a traction fraction of the intended displacement covers a
      Euclidean distance of at most the speed. */
  lemma MoveWithinSpeed(c: Car, trig: Trig, k: real)
    requires 0.0 < k <= 1.0 && UnitTrig(trig)
    ensures var m := Move(c, trig, k);
      WithinDistance(c.x, c.y, m.x, m.y, c.speed)
  {
    var m := Move(c, trig, k);
    var co := trig.cos(Radians(c.angle));
    var si := trig.sin(Radians(c.angle));
    assert co * co + si * si == 1.0;
    SquaredShrink(c.speed, co, si, k, m.x - c.x, m.y - c.y);
  }

  /** The vector `s * (co, si)` along a unit direction, scaled by `k` in (0, 1], has squared
      length at most `s * s`. */
  lemma SquaredShrink(s: real, co: real, si: real, k: real, ex: real, ey: real)
    requires co * co + si * si == 1.0
    requires 0.0 < k <= 1.0 && ex == (s * co) * k && ey == (s * si) * k
    ensures ex * ex + ey * ey <= s * s
  {
    var a, b := s * co, s * si;
    SquareOfProduct(a, k);
    SquareOfProduct(b, k);
    SquareOfProduct(s, co);
    SquareOfProduct(s, si);
    var kk := k * k;
    var ss := s * s;
    assert a * a + b * b == ss * (co * co) + ss * (si * si);
    assert ss * (co * co) + ss * (si * si) == ss * (co * co + si * si);
    assert a * a + b * b == ss;
    assert ex * ex + ey * ey == (a * a + b * b) * kk;
    assert kk <= 1.0 by {
      assert k * k <= k * 1.0;
    }
    assert ss >= 0.0;
    assert ss * kk <= ss * 1.0;
  }

  lemma SquareOfProduct(a: real, b: real)
    ensures (a * b) * (a * b) == (a * a) * (b * b)
  {
  }

  /** Runs `Update` once per element of `inputs`, as the game loop does once per frame. */
  function Drive(car: Car, inputs: seq<Keys>, t: TrackRecord, v: Variant, trig: Trig): Car
    requires Indexable(t) && v.maxSpeed > 0.0
    decreases |inputs|
  {
    if |inputs| == 0 then car
    else Drive(Update(car, inputs[0], t, v, trig), inputs[1..], t, v, trig)
  }

  /** Whatever keys are held, frame after frame, the speed stays in `[-maxSpeed/2, maxSpeed]`, and
      a car that starts in that range never leaves it. */
  lemma {:induction false} DriveKeepsSpeedInRange(car: Car, inputs: seq<Keys>, t: TrackRecord, v: Variant, trig: Trig)
    requires Indexable(t) && v.maxSpeed > 0.0
    requires InSpeedRange(car.speed, v.maxSpeed) || |inputs| > 0
    ensures InSpeedRange(Drive(car, inputs, t, v, trig).speed, v.maxSpeed)
    decreases |inputs|
  {
    if |inputs| > 0 {
      var next := Update(car, inputs[0], t, v, trig);
      DriveKeepsSpeedInRange(next, inputs[1..], t, v, trig);
      assert Drive(car, inputs, t, v, trig) == Drive(next, inputs[1..], t, v, trig);
    }
  }

  /** game/core.py's car has no handbrake: the space bar changes nothing in a tick, and its speed
      stays in `[-2, 4]`. */
  lemma CoreIgnoresSpace(car: Car, keys: Keys, t: TrackRecord, trig: Trig)
    requires Indexable(t)
    ensures Update(car, keys, t, CoreVariant, trig) == Update(car, keys.(space := false), t, CoreVariant, trig)
    ensures -2.0 <= Update(car, keys, t, CoreVariant, trig).speed <= 4.0
  {
    assert Control(car, keys, CoreVariant) == Control(car, keys.(space := false), CoreVariant);
  }

  /** Why the Python code would fail to build a car. */
  datatype StartError = MissingStartPosition

  /** `Game.__init__`: the car starts at rest at the centre of its start tile,
      `x = sx * ts + ts // 2`, facing the start angle (0 when the file gives none). */
  function StartCar(t: TrackRecord): (r: Result<Car, StartError>)
    ensures r.Err? <==> t.start.None?
    ensures r.Ok? ==> r.value.speed == 0.0 && !r.value.handbrake
    ensures r.Ok? ==> r.value.angle == ValueOr(t.start.value.angle, 0.0)
    ensures r.Ok? ==>
      && r.value.x == (t.start.value.x * t.tileSize + t.tileSize / 2) as real
      && r.value.y == (t.start.value.y * t.tileSize + t.tileSize / 2) as real
    ensures r.Ok? && Indexable(t) && t.tileSize >= 1 && InTiles(t, t.start.value.x, t.start.value.y) ==>
      GetTile(t, r.value.x, r.value.y) == t.grid[t.start.value.y][t.start.value.x]
  {
    match t.start
    case None => Err(MissingStartPosition)
    case Some(p) =>
      var c := Car(
        (p.x * t.tileSize + t.tileSize / 2) as real,
        (p.y * t.tileSize + t.tileSize / 2) as real,
        ValueOr(p.angle, 0.0), 0.0, false);
      CentreInTile(p.x, t.tileSize);
      CentreInTile(p.y, t.tileSize);
      if Indexable(t) && t.tileSize >= 1 && InTiles(t, p.x, p.y) then
        TileSquare(t, p.x, p.y, c.x, c.y);
        Ok(c)
      else
        Ok(c)
  }

  /** The centre `k * ts + ts // 2` of tile `k` lies inside that tile's square. */
  lemma CentreInTile(k: int, tileSize: int)
    ensures tileSize >= 1 ==>
      k * tileSize <= k * tileSize + tileSize / 2 < (k + 1) * tileSize
  {
  }
}
