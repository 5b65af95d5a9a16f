/** The AI runner of test_ai.py: the eight-number observation the policy sees (speed, heading,
    five distance rays) and the table from the policy's discrete action to held keys. The policy
    itself is an opaque trained network and is not part of this model. The runner drives
    main.py's car, so the top speed is `MainVariant.maxSpeed`. */
module Agent {
  import opened Outcome
  import opened Numeric
  import opened Constants
  import opened Tracks
  import opened Dynamics

  /** Actions 0..8 have a meaning; any other id holds no key. */
  const ActionCount: int := 9

  /** Rays sample every `RayStep` world units from distance 0 up to, not including, `MaxRayDistance`. */
  const MaxRayDistance: int := 200
  const RayStep: int := 4

  /** Number of samples along one ray: `len(range(0, 200, 4))`. */
  const SampleCount: int := 50

  /** Ray directions relative to the heading, in degrees, in observation order. */
  const RayOffsets: seq<real> := [-90.0, -45.0, 0.0, 45.0, 90.0]

  /** Length of the observation vector: speed, sine, cosine and one entry per ray. */
  const ObservationSize: int := 8

  // ---------------------------------------------------------------------------------------------
  // Action table
  // ---------------------------------------------------------------------------------------------

  /** `AIAgent.action_to_keys`: the `if/elif` chain over action ids. */
  function ActionToKeys(action: int): (k: Keys)
    ensures !(k.w && k.s) && !(k.a && k.d)
    ensures !(0 <= action < ActionCount) ==> k == NoKeys
    ensures k.space <==> action == 8
    ensures k.space ==> !k.w && !k.s && !k.a && !k.d
    ensures 0 <= action < ActionCount ==> KeyCount(k) == (if 4 <= action <= 7 then 2 else 1)
  {
    if action == 0 then NoKeys.(w := true)
    else if action == 1 then NoKeys.(s := true)
    else if action == 2 then NoKeys.(a := true)
    else if action == 3 then NoKeys.(d := true)
    else if action == 4 then NoKeys.(w := true, a := true)
    else if action == 5 then NoKeys.(w := true, d := true)
    else if action == 6 then NoKeys.(s := true, a := true)
    else if action == 7 then NoKeys.(s := true, d := true)
    else if action == 8 then NoKeys.(space := true)
    else NoKeys
  }

  /** How many of the five keys are held. */
  function KeyCount(k: Keys): nat {
    (if k.w then 1 else 0) + (if k.s then 1 else 0) + (if k.a then 1 else 0)
    + (if k.d then 1 else 0) + (if k.space then 1 else 0)
  }

  /** The action that holds exactly the keys `k`, read off the keys one pedal and one steering
      direction at a time; `None` for key sets no action produces. */
  function KeysToAction(k: Keys): (r: Option<int>)
    ensures r.Some? ==> 0 <= r.value < ActionCount
  {
    if k.space then
      (if !k.w && !k.s && !k.a && !k.d then Some(8) else None)
    else if (k.w && k.s) || (k.a && k.d) then None
    else
      var pedal := if k.w then 1 else if k.s then 2 else 0;
      var steer := if k.a then 1 else if k.d then 2 else 0;
      if pedal == 0 && steer == 0 then None
      else if steer == 0 then Some(pedal - 1)
      else if pedal == 0 then Some(steer + 1)
      else Some(2 + 2 * pedal + steer - 1)
  }

  /** Every action id is recovered from the keys it holds, and every key set the inverse accepts
      comes from exactly that action: the table is a bijection between 0..8 and nine key sets. */
  lemma ActionKeysRoundTrip(action: int, k: Keys)
    ensures 0 <= action < ActionCount ==> KeysToAction(ActionToKeys(action)) == Some(action)
    ensures KeysToAction(k).Some? ==> ActionToKeys(KeysToAction(k).value) == k
  {
  }

  /** Distinct actions hold distinct key sets. */
  lemma ActionsDistinct(a1: int, a2: int)
    requires 0 <= a1 < ActionCount && 0 <= a2 < ActionCount && a1 != a2
    ensures ActionToKeys(a1) != ActionToKeys(a2)
  {
    ActionKeysRoundTrip(a1, NoKeys);
    ActionKeysRoundTrip(a2, NoKeys);
  }

  // ---------------------------------------------------------------------------------------------
  // Observation features
  // ---------------------------------------------------------------------------------------------

  /** `np.clip(v, 0.0, 1.0)`. */
  function Clip01(v: real): real {
    Min(Max(v, 0.0), 1.0)
  }

  /** The speed rescaled so that the speed range `[-maxSpeed/2, maxSpeed]` maps onto `[0, 1]`,
      then clipped. */
  function NormSpeed(speed: real, maxSpeed: real): (r: real)
    requires maxSpeed > 0.0
    ensures 0.0 <= r <= 1.0
    ensures r == 0.0 <==> speed <= -maxSpeed / 2.0
    ensures r == 1.0 <==> speed >= maxSpeed
    ensures InSpeedRange(speed, maxSpeed) ==> speed == r * (1.5 * maxSpeed) - maxSpeed / 2.0
  {
    var scale := 1.5 * maxSpeed;
    var raw := (speed + maxSpeed / 2.0) / scale;
    assert raw * scale == speed + maxSpeed / 2.0;
    AtLeastOneScaled(raw, scale);
    assert raw >= 1.0 <==> speed >= maxSpeed;
    assert raw <= 0.0 <==> speed <= -maxSpeed / 2.0;
    Clip01(raw)
  }

  /** For a positive scale, `v >= 1` exactly when `v * scale >= scale`. */
  lemma AtLeastOneScaled(v: real, scale: real)
    requires scale > 0.0
    ensures v >= 1.0 <==> v * scale >= scale
  {
    if v >= 1.0 {
      assert (v - 1.0) * scale >= 0.0;
    } else {
      assert (1.0 - v) * scale > 0.0;
    }
  }

  /** A faster car never gets a smaller speed feature. */
  lemma NormSpeedMonotone(s1: real, s2: real, maxSpeed: real)
    requires maxSpeed > 0.0 && s1 <= s2
    ensures NormSpeed(s1, maxSpeed) <= NormSpeed(s2, maxSpeed)
  {
    var scale := 1.5 * maxSpeed;
    DivMonotone(s1 + maxSpeed / 2.0, s2 + maxSpeed / 2.0, scale);
  }

  lemma DivMonotone(a: real, b: real, d: real)
    requires d > 0.0 && a <= b
    ensures a / d <= b / d
  {
    var qa, qb := a / d, b / d;
    assert qa * d == a && qb * d == b;
    if qa > qb {
      assert false;
    }
  }

  /** `(v + 1) / 2`: maps a sine or cosine from `[-1, 1]` onto `[0, 1]`. */
  function HeadingFeature(v: real): (r: real)
    ensures -1.0 <= v <= 1.0 <==> 0.0 <= r <= 1.0
    ensures 2.0 * r - 1.0 == v
  {
    (v + 1.0) / 2.0
  }

  // ---------------------------------------------------------------------------------------------
  // Rays
  // ---------------------------------------------------------------------------------------------

  /** The world point `RayStep * i` units from the car along heading `angle + offset`. */
  function SamplePoint(car: Car, trig: Trig, offset: real, i: int): (real, real) {
    var rad := Radians(car.angle + offset);
    var d := (i * RayStep) as real;
    (car.x + d * trig.cos(rad), car.y + d * trig.sin(rad))
  }

  /** Sample `i` of the ray lands on offroad or curb, the codes `cast_ray` stops at. */
  predicate Blocked(t: TrackRecord, car: Car, trig: Trig, offset: real, i: int)
    requires Indexable(t)
  {
    var p := SamplePoint(car, trig, offset, i);
    var tile := GetTile(t, p.0, p.1);
    tile == Offroad || tile == Curb
  }

  /** The ray value reported for a stop at sample `i`: `d / max_distance` with `d = 4 * i`. */
  function SampleFraction(i: int): real {
    (i * RayStep) as real / MaxRayDistance as real
  }

  /** `cast_ray` from sample `i` on: the fraction at the first blocked sample, or 1 when none of the
      remaining samples is blocked. */
  function RayFrom(t: TrackRecord, car: Car, trig: Trig, offset: real, i: nat): (r: real)
    requires Indexable(t)
    decreases SampleCount - i
    ensures 0.0 <= r <= 1.0
    ensures r == 1.0 <==> forall j :: i <= j < SampleCount ==> !Blocked(t, car, trig, offset, j)
    ensures r < 1.0 ==> exists j :: i <= j < SampleCount && FirstBlocked(t, car, trig, offset, i, j) && r == SampleFraction(j)
  {
    if i >= SampleCount then 1.0
    else if Blocked(t, car, trig, offset, i) then
      assert FirstBlocked(t, car, trig, offset, i, i);
      SampleFraction(i)
    else
      var r := RayFrom(t, car, trig, offset, i + 1);
      if r < 1.0 then
        var j :| i + 1 <= j < SampleCount && FirstBlocked(t, car, trig, offset, i + 1, j) && r == SampleFraction(j);
        assert FirstBlocked(t, car, trig, offset, i, j);
        r
      else
        r
  }

  /** Sample `j` is blocked and no sample from `i` up to `j` is. */
  predicate FirstBlocked(t: TrackRecord, car: Car, trig: Trig, offset: real, i: int, j: int)
    requires Indexable(t)
  {
    && Blocked(t, car, trig, offset, j)
    && forall m :: i <= m < j ==> !Blocked(t, car, trig, offset, m)
  }

  /** `cast_ray(offset)`: the whole ray from the car outward. */
  function CastRay(t: TrackRecord, car: Car, trig: Trig, offset: real): (r: real)
    requires Indexable(t)
    ensures 0.0 <= r <= 1.0
  {
    RayFrom(t, car, trig, offset, 0)
  }

  /** A ray reads 1 exactly when it never meets offroad or curb, and otherwise the distance to the
      first such sample over 200. */
  lemma CastRayMeaning(t: TrackRecord, car: Car, trig: Trig, offset: real)
    requires Indexable(t)
    ensures CastRay(t, car, trig, offset) == 1.0 <==>
      forall j :: 0 <= j < SampleCount ==> !Blocked(t, car, trig, offset, j)
    ensures CastRay(t, car, trig, offset) < 1.0 <==>
      exists j :: 0 <= j < SampleCount && FirstBlocked(t, car, trig, offset, 0, j)
        && CastRay(t, car, trig, offset) == SampleFraction(j)
  {
    var r := CastRay(t, car, trig, offset);
    if exists j :: 0 <= j < SampleCount && FirstBlocked(t, car, trig, offset, 0, j) && r == SampleFraction(j) {
      var j :| 0 <= j < SampleCount && FirstBlocked(t, car, trig, offset, 0, j) && r == SampleFraction(j);
      assert SampleFraction(j) < 1.0;
    }
  }

  /** Sample 0 is the car's own position, so a car standing on offroad or curb sees every ray at 0. */
  lemma RaysZeroOffTrack(t: TrackRecord, car: Car, trig: Trig, offset: real)
    requires Indexable(t)
    requires GetTile(t, car.x, car.y) == Offroad || GetTile(t, car.x, car.y) == Curb
    ensures CastRay(t, car, trig, offset) == 0.0
  {
    assert SamplePoint(car, trig, offset, 0) == (car.x, car.y);
    assert Blocked(t, car, trig, offset, 0);
  }

  // ---------------------------------------------------------------------------------------------
  // Observation and the agent step
  // ---------------------------------------------------------------------------------------------

  /** `AIAgent.get_action`'s observation: normalised speed, sine and cosine features of the heading,
      then the five rays in `RayOffsets` order. */
  function Observe(t: TrackRecord, car: Car, trig: Trig): (obs: seq<real>)
    requires Indexable(t)
    ensures |obs| == ObservationSize
    ensures obs[0] == NormSpeed(car.speed, MainVariant.maxSpeed)
    ensures obs[1] == HeadingFeature(trig.sin(Radians(car.angle)))
    ensures obs[2] == HeadingFeature(trig.cos(Radians(car.angle)))
    ensures forall n :: 0 <= n < |RayOffsets| ==> obs[3 + n] == CastRay(t, car, trig, RayOffsets[n])
  {
    var rad := Radians(car.angle);
    [NormSpeed(car.speed, MainVariant.maxSpeed),
     HeadingFeature(trig.sin(rad)),
     HeadingFeature(trig.cos(rad))]
    + seq(|RayOffsets|, n requires 0 <= n < |RayOffsets| => CastRay(t, car, trig, RayOffsets[n]))
  }

  /** With bounded trigonometry every observation component lies in `[0, 1]`, the box the policy's
      observation space declares; the speed feature reads 0 at full reverse, 1 at top speed. */
  lemma ObservationInUnitBox(t: TrackRecord, car: Car, trig: Trig)
    requires Indexable(t) && TrigBounded(trig)
    ensures forall n :: 0 <= n < ObservationSize ==> 0.0 <= Observe(t, car, trig)[n] <= 1.0
    ensures Observe(t, car, trig)[0] == 0.0 <==> car.speed <= -MainVariant.maxSpeed / 2.0
    ensures Observe(t, car, trig)[0] == 1.0 <==> car.speed >= MainVariant.maxSpeed
  {
    var obs := Observe(t, car, trig);
    var rad := Radians(car.angle);
    assert -1.0 <= trig.sin(rad) <= 1.0 && -1.0 <= trig.cos(rad) <= 1.0;
    forall n | 0 <= n < ObservationSize
      ensures 0.0 <= obs[n] <= 1.0
    {
      if n >= 3 {
        assert obs[n] == CastRay(t, car, trig, RayOffsets[n - 3]);
      }
    }
  }

  /** On an offroad or curb tile all five ray components are 0. */
  lemma ObservationOffTrack(t: TrackRecord, car: Car, trig: Trig)
    requires Indexable(t)
    requires GetTile(t, car.x, car.y) == Offroad || GetTile(t, car.x, car.y) == Curb
    ensures forall n :: 3 <= n < ObservationSize ==> Observe(t, car, trig)[n] == 0.0
  {
    var obs := Observe(t, car, trig);
    forall n | 3 <= n < ObservationSize
      ensures obs[n] == 0.0
    {
      RaysZeroOffTrack(t, car, trig, RayOffsets[n - 3]);
    }
  }

  /** Ray `n` of the observation looks `RayOffsets[n]` degrees off the heading, from -90 (left) to
      90 (right), and reads 1 exactly when no sample along that direction is offroad or curb,
      otherwise the distance to the first such sample over 200. */
  lemma ObservationRays(t: TrackRecord, car: Car, trig: Trig, n: int)
    requires Indexable(t) && 0 <= n < |RayOffsets|
    ensures RayOffsets[n] == -90.0 + 45.0 * n as real
    ensures Observe(t, car, trig)[3 + n] == 1.0 <==>
      forall j :: 0 <= j < SampleCount ==> !Blocked(t, car, trig, RayOffsets[n], j)
    ensures Observe(t, car, trig)[3 + n] < 1.0 <==>
      exists j :: 0 <= j < SampleCount && FirstBlocked(t, car, trig, RayOffsets[n], 0, j)
        && Observe(t, car, trig)[3 + n] == SampleFraction(j)
  {
    CastRayMeaning(t, car, trig, RayOffsets[n]);
  }

  /** `AIAgent.update_car`: the chosen action's keys fed to main.py's `Car.update`. */
  function AgentStep(car: Car, action: int, t: TrackRecord, trig: Trig): (r: Car)
    requires Indexable(t)
    ensures InSpeedRange(r.speed, MainVariant.maxSpeed)
    ensures r.handbrake <==> action == 8
    ensures !(0 <= action < ActionCount) && InSpeedRange(car.speed, MainVariant.maxSpeed) ==>
      Abs(r.speed) <= Abs(car.speed) && r.angle == car.angle
    ensures r.speed == NextSpeed(car.speed, ActionToKeys(action), MainVariant.maxSpeed)
    ensures r.angle == NextAngle(car.angle, r.speed, ActionToKeys(action), MainVariant.maxSpeed)
  {
    Update(car, ActionToKeys(action), t, MainVariant, trig)
  }

  /** Action 4 (throttle and left) speeds a car in range up by one acceleration step, capped at the
      top speed, and turns it left by the steering rate scaled by the new speed fraction. */
  lemma ThrottleLeftAction(car: Car, t: TrackRecord, trig: Trig)
    requires Indexable(t) && InSpeedRange(car.speed, MainVariant.maxSpeed)
    ensures var r := AgentStep(car, 4, t, trig);
      && r.speed == Min(car.speed + Acceleration, MainVariant.maxSpeed)
      && r.angle == car.angle - Steering * Abs(r.speed) / MainVariant.maxSpeed
  {
    var keys := ActionToKeys(4);
    var c := Control(car, keys, MainVariant);
    var k := Traction(t, c.x + Dx(c, trig), c.y + Dy(c, trig), HandbrakeOn(keys, MainVariant));
    assert AgentStep(car, 4, t, trig) == Move(c, trig, k);
  }

  /** Action 8 pulls the handbrake: with bounded trigonometry the car then moves at most 5% of its
      speed along each axis. */
  lemma HandbrakeActionCrawls(car: Car, t: TrackRecord, trig: Trig)
    requires Indexable(t) && TrigBounded(trig)
    ensures var r := AgentStep(car, 8, t, trig);
      WithinBox(car.x, car.y, r.x, r.y, HandbrakeGrip * Abs(r.speed))
  {
    StepWithinSpeed(car, ActionToKeys(8), t, MainVariant, trig);
  }
}
