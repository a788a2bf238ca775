/**
 * Which boat a weapon threatens (packages/client/src/render/threat.ts).
 *
 * Headings are given as vectors, and the distance under which a target counts as threatened is an
 * arbitrary function of the target. A closest approach is compared by its square: squaring keeps the order
 * of distances, and a square root is never taken.
 */
module Threats {
  import opened Options
  import opened Measures
  import opened MatchTypes

  type Key = int

  const THREAT_HORIZON_SECONDS := 45.0
  const THREAT_UNKNOWN_SPEED_MS := 22.0

  /** `loadSpeed` stands in for a speed not measured, and is absent when the load is unknown as well. */
  datatype Weapon = Weapon(key: Key, pos: Vec2, heading: Vec2, speed: Option<real>, loadSpeed: Option<real>)

  datatype Target = Target(id: EntityId, pos: Vec2, course: Vec2, speed: real)

  datatype Approach = Approach(seconds: real, missSquared: real)

  datatype Threat = Threat(weapon: Key, target: EntityId, from: Vec2, to: Vec2, seconds: real, missSquared: real)

  function SpeedOf(w: Weapon): real {
    if w.speed.Some? then w.speed.value
    else if w.loadSpeed.Some? then w.loadSpeed.value
    else THREAT_UNKNOWN_SPEED_MS
  }

  /** A measured speed counts before that of an identified load, and either before the fallback. */
  lemma BestKnownSpeed(w: Weapon, speed: real)
    ensures w.speed == Some(speed) ==> SpeedOf(w) == speed
    ensures w.speed == None && w.loadSpeed == Some(speed) ==> SpeedOf(w) == speed
    ensures w.speed == None && w.loadSpeed == None ==> SpeedOf(w) == 22.0
  {
  }

  // ── Closest approach ──────────────────────────────────────────────────────────────

  function Dot(a: Vec2, b: Vec2): real {
    a.x * b.x + a.y * b.y
  }

  function Relative(w: Weapon, t: Target): Vec2 {
    Vec2(w.pos.x - t.pos.x, w.pos.y - t.pos.y)
  }

  /** The weapon's velocity as the target sees it. */
  function Drift(w: Weapon, speed: real, t: Target): Vec2 {
    Vec2(speed * w.heading.x - t.speed * t.course.x, speed * w.heading.y - t.speed * t.course.y)
  }

  function Moved(r: Vec2, v: Vec2, seconds: real): Vec2 {
    Vec2(r.x + v.x * seconds, r.y + v.y * seconds)
  }

  /** The square of the distance between the two, this many seconds on, if neither alters course. */
  function SeparationSquared(r: Vec2, v: Vec2, seconds: real): real {
    Dot(Moved(r, v, seconds), Moved(r, v, seconds))
  }

  function Approaching(r: Vec2, v: Vec2): Option<Approach> {
    var closing := Dot(r, v);
    if closing >= 0.0 then None
    else
      var rate := Dot(v, v);
      if rate <= 0.0 then None
      else Some(Approach(-closing / rate, SeparationSquared(r, v, -closing / rate)))
  }

  function ApproachOf(w: Weapon, speed: real, t: Target): Option<Approach> {
    Approaching(Relative(w, t), Drift(w, speed, t))
  }

  lemma ProductIsPositive(x: real, y: real) returns (product: real)
    requires x > 0.0 && y > 0.0
    ensures product == x * y && product > 0.0
  {
    product := x * y;
  }

  /** Something closing is moving: the test for a matched speed on a matched course never decides anything. */
  lemma ClosingMeansMoving(r: Vec2, v: Vec2)
    requires Dot(r, v) < 0.0
    ensures Dot(v, v) > 0.0
  {
    if v.x != 0.0 {
      var square := NonZeroSquare(v.x);
    } else if v.y != 0.0 {
      var square := NonZeroSquare(v.y);
    }
  }

  lemma NonZeroSquare(x: real) returns (square: real)
    requires x != 0.0
    ensures square == x * x && square > 0.0
  {
    if x > 0.0 {
      square := ProductIsPositive(x, x);
    } else {
      square := ProductIsPositive(-x, -x);
      assert (-x) * (-x) == x * x;
    }
  }

  lemma PositiveTimesSquare(rate: real, x: real) returns (product: real)
    requires rate > 0.0 && x != 0.0
    ensures product == rate * (x * x) && product > 0.0
  {
    var square := NonZeroSquare(x);
    product := ProductIsPositive(rate, square);
  }

  /** A squared distance along a straight course, written out in powers of the time. */
  function Parabola(start: real, closing: real, rate: real, t: real): real {
    start + 2.0 * (closing * t) + rate * (t * t)
  }

  lemma SeparationIsAParabola(r: Vec2, v: Vec2, t: real)
    ensures SeparationSquared(r, v, t) == Parabola(Dot(r, r), Dot(r, v), Dot(v, v), t)
  {
    assert Dot(r, v) * t == r.x * v.x * t + r.y * v.y * t;
    assert Dot(v, v) * (t * t) == v.x * v.x * (t * t) + v.y * v.y * (t * t);
  }

  lemma ParabolaFromItsLowest(start: real, closing: real, rate: real, lowest: real, t: real)
    requires rate * lowest == -closing
    ensures Parabola(start, closing, rate, t) ==
      Parabola(start, closing, rate, lowest) + rate * ((t - lowest) * (t - lowest))
  {
    var gap := t - lowest;
    assert t == lowest + gap;
    assert t * t == lowest * lowest + 2.0 * (lowest * gap) + gap * gap;
    assert closing * t == closing * lowest + closing * gap;
    assert rate * (t * t) == rate * (lowest * lowest) + 2.0 * (rate * lowest * gap) + rate * (gap * gap) by {
      assert rate * (2.0 * (lowest * gap)) == 2.0 * (rate * lowest * gap);
    }
    assert rate * lowest * gap == -(closing * gap);
  }

  /** Where something is after `t` seconds on its present course. */
  function Ahead(pos: Vec2, speed: real, course: Vec2, t: real): Vec2 {
    Vec2(pos.x + speed * t * course.x, pos.y + speed * t * course.y)
  }

  function DistanceSquared(a: Vec2, b: Vec2): real {
    (b.x - a.x) * (b.x - a.x) + (b.y - a.y) * (b.y - a.y)
  }

  /** The square of the distance between weapon and target when both have kept their courses for `t` seconds. */
  function Apart(w: Weapon, speed: real, target: Target, t: real): real {
    DistanceSquared(Ahead(w.pos, speed, w.heading, t), Ahead(target.pos, target.speed, target.course, t))
  }

  lemma ApartIsTheSeparation(w: Weapon, speed: real, target: Target, t: real)
    ensures Apart(w, speed, target, t) == SeparationSquared(Relative(w, target), Drift(w, speed, target), t)
  {
    var x := w.pos.x - target.pos.x + (speed * w.heading.x - target.speed * target.course.x) * t;
    var y := w.pos.y - target.pos.y + (speed * w.heading.y - target.speed * target.course.y) * t;
    var a, b := Ahead(w.pos, speed, w.heading, t), Ahead(target.pos, target.speed, target.course, t);
    Spread(speed, w.heading.x, target.speed, target.course.x, t);
    Spread(speed, w.heading.y, target.speed, target.course.y, t);
    assert b.x - a.x == -x && b.y - a.y == -y;
    SquareOfMinus(x);
    SquareOfMinus(y);
  }

  lemma Spread(speed: real, along: real, speed': real, along': real, t: real)
    ensures (speed * along - speed' * along') * t == speed * t * along - speed' * t * along'
  {
  }

  lemma SquareOfMinus(x: real)
    ensures (-x) * (-x) == x * x
  {
  }

  /**
   * The reported time is the one instant when weapon and target, each on its present course, are nearest;
   * and the reported distance is theirs then.
   */
  lemma ApproachIsTheClosest(w: Weapon, speed: real, target: Target, t: real)
    requires ApproachOf(w, speed, target).Some?
    ensures var a := ApproachOf(w, speed, target).value;
      && a.seconds > 0.0
      && a.missSquared == Apart(w, speed, target, a.seconds)
      && (t != a.seconds ==> a.missSquared < Apart(w, speed, target, t))
  {
    ApproachingIsTheClosest(Relative(w, target), Drift(w, speed, target), t);
    ApartIsTheSeparation(w, speed, target, t);
    ApartIsTheSeparation(w, speed, target, ApproachOf(w, speed, target).value.seconds);
  }

  lemma LowestIsLowest(start: real, closing: real, rate: real, lowest: real, t: real)
    requires rate > 0.0 && rate * lowest == -closing
    ensures t != lowest ==> Parabola(start, closing, rate, lowest) < Parabola(start, closing, rate, t)
  {
    ParabolaFromItsLowest(start, closing, rate, lowest, t);
    if t != lowest {
      var rise := PositiveTimesSquare(rate, t - lowest);
    }
  }

  lemma ApproachingIsTheClosest(r: Vec2, v: Vec2, t: real)
    requires Approaching(r, v).Some?
    ensures var a := Approaching(r, v).value;
      && a.seconds > 0.0
      && a.missSquared == SeparationSquared(r, v, a.seconds)
      && (t != a.seconds ==> a.missSquared < SeparationSquared(r, v, t))
  {
    var seconds := Approaching(r, v).value.seconds;
    SeparationIsAParabola(r, v, t);
    SeparationIsAParabola(r, v, seconds);
    LowestIsLowest(Dot(r, r), Dot(r, v), Dot(v, v), seconds, t);
  }

  /** Nothing is reported exactly when the two are never nearer than they are now. */
  lemma NoApproachExactlyWhenOpening(w: Weapon, speed: real, target: Target)
    ensures ApproachOf(w, speed, target) == None <==>
            forall t :: t >= 0.0 ==> Apart(w, speed, target, t) >= Apart(w, speed, target, 0.0)
  {
    var r, v := Relative(w, target), Drift(w, speed, target);
    OpeningExactlyWhenNeverNearer(r, v);
    forall t ensures Apart(w, speed, target, t) == SeparationSquared(r, v, t) {
      ApartIsTheSeparation(w, speed, target, t);
    }
    if ApproachOf(w, speed, target) != None {
      var a := ApproachOf(w, speed, target).value;
      ApproachIsTheClosest(w, speed, target, 0.0);
      assert Apart(w, speed, target, a.seconds) < Apart(w, speed, target, 0.0);
    }
  }

  lemma OpeningExactlyWhenNeverNearer(r: Vec2, v: Vec2)
    ensures Approaching(r, v) == None <==>
            forall t :: t >= 0.0 ==> SeparationSquared(r, v, t) >= SeparationSquared(r, v, 0.0)
  {
    if Dot(r, v) >= 0.0 {
      forall t | t >= 0.0 ensures SeparationSquared(r, v, t) >= SeparationSquared(r, v, 0.0) {
        SeparationIsAParabola(r, v, t);
        SeparationIsAParabola(r, v, 0.0);
      }
    } else {
      ClosingMeansMoving(r, v);
      ApproachingIsTheClosest(r, v, 0.0);
    }
  }

  // ── The one target it threatens most ──────────────────────────────────────────────

  /** Whether a distance, given by its square, is beyond a reach. */
  predicate Beyond(missSquared: real, reach: real) {
    reach < 0.0 || missSquared > reach * reach
  }

  /** The three gates: closing, within the horizon, and passing near enough. */
  predicate Passes(w: Weapon, speed: real, t: Target, reach: Target -> real) {
    var solved := ApproachOf(w, speed, t);
    solved.Some? && solved.value.seconds <= THREAT_HORIZON_SECONDS && !Beyond(solved.value.missSquared, reach(t))
  }

  function ThreatTo(w: Weapon, speed: real, t: Target): Threat
    requires ApproachOf(w, speed, t).Some?
  {
    var solved := ApproachOf(w, speed, t).value;
    Threat(w.key, t.id, w.pos, t.pos, solved.seconds, solved.missSquared)
  }

  /** Nearer at its closest, or as near and sooner. */
  predicate Worse(a: Threat, b: Threat) {
    a.missSquared < b.missSquared || (a.missSquared == b.missSquared && a.seconds < b.seconds)
  }

  /** `k` is the first of the passing targets that no passing target is worse than. */
  ghost predicate IsTheWorst(w: Weapon, speed: real, targets: seq<Target>, reach: Target -> real, k: int) {
    && 0 <= k < |targets| && Passes(w, speed, targets[k], reach)
    && (forall j :: 0 <= j < |targets| && Passes(w, speed, targets[j], reach) ==>
          !Worse(ThreatTo(w, speed, targets[j]), ThreatTo(w, speed, targets[k])))
    && (forall j :: 0 <= j < k && Passes(w, speed, targets[j], reach) ==>
          Worse(ThreatTo(w, speed, targets[k]), ThreatTo(w, speed, targets[j])))
  }

  /** Weapon and target, each on its present course, are nearest at this time and at no other. */
  ghost predicate NearestAt(w: Weapon, speed: real, t: Target, seconds: real) {
    0.0 < seconds && forall s :: s != seconds ==> Apart(w, speed, t, seconds) < Apart(w, speed, t, s)
  }

  lemma NearestAtTheApproach(w: Weapon, speed: real, t: Target)
    requires ApproachOf(w, speed, t).Some?
    ensures var a := ApproachOf(w, speed, t).value;
      NearestAt(w, speed, t, a.seconds) && a.missSquared == Apart(w, speed, t, a.seconds)
  {
    var a := ApproachOf(w, speed, t).value;
    forall s ensures a.missSquared == Apart(w, speed, t, a.seconds)
      && (s != a.seconds ==> Apart(w, speed, t, a.seconds) < Apart(w, speed, t, s))
    {
      ApproachIsTheClosest(w, speed, t, s);
    }
    ApproachIsTheClosest(w, speed, t, 0.0);
  }

  lemma NearestOnlyAtTheApproach(w: Weapon, speed: real, t: Target, seconds: real)
    requires NearestAt(w, speed, t, seconds)
    ensures ApproachOf(w, speed, t).Some? && ApproachOf(w, speed, t).value.seconds == seconds
  {
    NoApproachExactlyWhenOpening(w, speed, t);
    assert Apart(w, speed, t, seconds) < Apart(w, speed, t, 0.0);
    var a := ApproachOf(w, speed, t).value;
    NearestAtTheApproach(w, speed, t);
  }

  predicate Within(missSquared: real, reach: real) {
    0.0 <= reach && missSquared <= reach * reach
  }

  /** The two are nearest at this time, within the horizon, and then no further apart than the reach. */
  ghost predicate Threatens(w: Weapon, speed: real, t: Target, reach: real, seconds: real, missSquared: real) {
    && NearestAt(w, speed, t, seconds) && seconds <= 45.0
    && missSquared == Apart(w, speed, t, seconds) && Within(missSquared, reach)
  }

  /** A target passes the gates exactly when the weapon threatens it, and is reported as it does. */
  lemma PassesExactlyWhenThreatened(w: Weapon, speed: real, t: Target, reach: Target -> real, seconds: real, missSquared: real)
    ensures Threatens(w, speed, t, reach(t), seconds, missSquared) <==>
            Passes(w, speed, t, reach) && seconds == ThreatTo(w, speed, t).seconds
            && missSquared == ThreatTo(w, speed, t).missSquared
  {
    if NearestAt(w, speed, t, seconds) {
      NearestOnlyAtTheApproach(w, speed, t, seconds);
    }
    if ApproachOf(w, speed, t).Some? {
      NearestAtTheApproach(w, speed, t);
      WithinExactlyWhenNotBeyond(ApproachOf(w, speed, t).value.missSquared, reach(t));
    }
  }

  lemma WithinExactlyWhenNotBeyond(missSquared: real, reach: real)
    ensures Within(missSquared, reach) <==> !Beyond(missSquared, reach)
  {
  }

  /** Of all the ways the weapon threatens any of the targets, `best` is the nearest, then the soonest, then the first listed. */
  ghost predicate ReportsTheWorst(w: Weapon, speed: real, targets: seq<Target>, reach: Target -> real, best: Threat, k: int) {
    && 0 <= k < |targets| && Threatens(w, speed, targets[k], reach(targets[k]), best.seconds, best.missSquared)
    && best.weapon == w.key && best.target == targets[k].id && best.from == w.pos && best.to == targets[k].pos
    && forall j, seconds, missSquared ::
         0 <= j < |targets| && Threatens(w, speed, targets[j], reach(targets[j]), seconds, missSquared) ==>
         || best.missSquared < missSquared
         || (best.missSquared == missSquared && best.seconds < seconds)
         || (best.missSquared == missSquared && best.seconds == seconds && k <= j)
  }

  lemma WorstIsReported(w: Weapon, speed: real, targets: seq<Target>, reach: Target -> real, k: int)
    requires IsTheWorst(w, speed, targets, reach, k)
    ensures ReportsTheWorst(w, speed, targets, reach, ThreatTo(w, speed, targets[k]), k)
  {
    var best := ThreatTo(w, speed, targets[k]);
    PassesExactlyWhenThreatened(w, speed, targets[k], reach, best.seconds, best.missSquared);
    forall j, seconds, missSquared
      | 0 <= j < |targets| && Threatens(w, speed, targets[j], reach(targets[j]), seconds, missSquared)
      ensures best.missSquared < missSquared
        || (best.missSquared == missSquared && best.seconds < seconds)
        || (best.missSquared == missSquared && best.seconds == seconds && k <= j)
    {
      PassesExactlyWhenThreatened(w, speed, targets[j], reach, seconds, missSquared);
      assert Passes(w, speed, targets[j], reach);
      assert !Worse(ThreatTo(w, speed, targets[j]), best);
    }
  }

  lemma NoneIsReported(w: Weapon, speed: real, targets: seq<Target>, reach: Target -> real)
    ensures (forall j :: 0 <= j < |targets| ==> !Passes(w, speed, targets[j], reach)) <==>
            forall j, seconds, missSquared :: 0 <= j < |targets| ==>
              !Threatens(w, speed, targets[j], reach(targets[j]), seconds, missSquared)
  {
    forall j, seconds, missSquared | 0 <= j < |targets|
      ensures Threatens(w, speed, targets[j], reach(targets[j]), seconds, missSquared) <==>
              Passes(w, speed, targets[j], reach) && seconds == ThreatTo(w, speed, targets[j]).seconds
              && missSquared == ThreatTo(w, speed, targets[j]).missSquared
    {
      PassesExactlyWhenThreatened(w, speed, targets[j], reach, seconds, missSquared);
    }
    forall j | 0 <= j < |targets| && Passes(w, speed, targets[j], reach)
      ensures exists seconds, missSquared :: Threatens(w, speed, targets[j], reach(targets[j]), seconds, missSquared)
    {
      var it := ThreatTo(w, speed, targets[j]);
      assert Threatens(w, speed, targets[j], reach(targets[j]), it.seconds, it.missSquared);
    }
  }

  method ThreatOf(w: Weapon, targets: seq<Target>, reach: Target -> real)
    returns (best: Option<Threat>, ghost worst: int)
    ensures best.Some? ==> SpeedOf(w) > 0.0 && IsTheWorst(w, SpeedOf(w), targets, reach, worst)
    ensures best.Some? ==> best.value == ThreatTo(w, SpeedOf(w), targets[worst])
    ensures best.Some? ==> ReportsTheWorst(w, SpeedOf(w), targets, reach, best.value, worst)
    ensures best.None? <==> (SpeedOf(w) <= 0.0 ||
      forall j, seconds, missSquared :: 0 <= j < |targets| ==>
        !Threatens(w, SpeedOf(w), targets[j], reach(targets[j]), seconds, missSquared))
  {
    var speed := SpeedOf(w);
    best, worst := None, -1;
    if speed <= 0.0 {
      return;
    }
    var i := 0;
    while i < |targets|
      invariant 0 <= i <= |targets|
      invariant best.None? ==> forall j :: 0 <= j < i ==> !Passes(w, speed, targets[j], reach)
      invariant best.Some? ==>
        0 <= worst < i && IsTheWorst(w, speed, targets[..i], reach, worst) && best.value == ThreatTo(w, speed, targets[worst])
    {
      var target := targets[i];
      var solved := ApproachOf(w, speed, target);
      if solved.Some? && solved.value.seconds <= THREAT_HORIZON_SECONDS && !Beyond(solved.value.missSquared, reach(target)) {
        if best.None? || solved.value.missSquared < best.value.missSquared
           || (solved.value.missSquared == best.value.missSquared && solved.value.seconds < best.value.seconds)
        {
          best := Some(Threat(w.key, target.id, w.pos, target.pos, solved.value.seconds, solved.value.missSquared));
          worst := i;
        }
      }
      i := i + 1;
    }
    assert targets[..i] == targets;
    NoneIsReported(w, speed, targets, reach);
    if best.Some? {
      WorstIsReported(w, speed, targets, reach, worst);
    }
  }
}
