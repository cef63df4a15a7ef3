/**
 * The sight and range helpers of the Kron AI base plugin: resolving an actor id
 * to the map actor it names, map distance, the range test and the sight test
 * (range, facing cone, and region-based line of sight).
 */
module Sight {
  import opened Wrappers

  // ---------------------------------------------------------------------------
  // Actors and id resolution
  // ---------------------------------------------------------------------------

  /** A map actor's cell and facing direction (2 down, 4 left, 6 right, 8 up). */
  datatype Actor = Actor(x: int, y: int, direction: int)

  /** The actors the helpers can address: map events by id, the player, and the followers. */
  datatype World = World(events: map<int, Actor>, player: Actor, followers: seq<Actor>)

  /** What an actor id designates. */
  datatype Subject = CallingEvent | Player | Follower(index: nat) | Event(id: int)

  /** The id convention: 0 is the calling event, -1 the player, -2, -3, ... the followers, anything else an event id. */
  function Classify(id: int): (s: Subject)
    ensures s == CallingEvent <==> id == 0
    ensures s == Player <==> id == -1
    ensures s.Follower? <==> id < -1
    ensures s.Event? <==> id > 0
  {
    if id == 0 then CallingEvent
    else if id == -1 then Player
    else if id < -1 then Follower(-id - 2)
    else Event(id)
  }

  /** The id that designates a subject. */
  function IdOf(s: Subject): int {
    match s
    case CallingEvent => 0
    case Player => -1
    case Follower(k) => -(k as int) - 2
    case Event(e) => e
  }

  /** Classification is a bijection between ids and subjects whose event id is positive. */
  lemma ClassifyRoundTrip(id: int, s: Subject)
    ensures IdOf(Classify(id)) == id
    ensures (!s.Event? || s.id > 0) ==> Classify(IdOf(s)) == s
    ensures Classify(id).Follower? ==> Classify(id).index == -id - 2
  {
  }

  function Lookup(events: map<int, Actor>, id: int): Option<Actor> {
    if id in events then Some(events[id]) else None
  }

  /**
   * getXY and getDirection: the actor an id designates, seen from the calling
   * event. A missing event or follower gives None (the plugin would fail on it).
   */
  function Resolve(w: World, id: int, caller: int): (r: Option<Actor>)
    ensures id == -1 ==> r == Some(w.player)
    ensures id == 0 ==> r == Lookup(w.events, caller)
    ensures id > 0 ==> r == Lookup(w.events, id)
    ensures id < -1 ==> (r.Some? <==> -id - 2 < |w.followers|)
    ensures id < -1 && r.Some? ==> r.value == w.followers[-id - 2]
  {
    match Classify(id)
    case CallingEvent => Lookup(w.events, caller)
    case Player => Some(w.player)
    case Follower(k) => if k < |w.followers| then Some(w.followers[k]) else None
    case Event(e) => Lookup(w.events, e)
  }

  // ---------------------------------------------------------------------------
  // Distance
  // ---------------------------------------------------------------------------

  function Abs(n: int): nat {
    if n < 0 then -n else n
  }

  function Max(a: int, b: int): int {
    if a > b then a else b
  }

  /** The integer square root. */
  function ISqrt(n: nat): (r: nat)
    ensures r * r <= n < (r + 1) * (r + 1)
  {
    if n == 0 then 0
    else
      var r := ISqrt(n - 1);
      if (r + 1) * (r + 1) <= n then
        assert n <= (r + 1) * (r + 1);
        assert (r + 1) * (r + 1) < (r + 2) * (r + 2);
        r + 1
      else r
  }

  lemma SquareMonotone(a: nat, b: nat)
    requires a <= b
    ensures a * a <= b * b
  {
    assert a * a <= a * b <= b * b;
  }

  /** The integer square root is the only natural number that brackets n between squares. */
  lemma ISqrtUnique(n: nat, d: nat)
    requires d * d <= n < (d + 1) * (d + 1)
    ensures ISqrt(n) == d
  {
    var r := ISqrt(n);
    if r < d {
      SquareMonotone(r + 1, d);
    } else if r > d {
      SquareMonotone(d + 1, r);
    }
  }

  /** getDistance: floor of the Euclidean distance between two cells. */
  function Distance(x1: int, y1: int, x2: int, y2: int): (d: nat)
    ensures d * d <= (x1 - x2) * (x1 - x2) + (y1 - y2) * (y1 - y2) < (d + 1) * (d + 1)
  {
    ISqrt((x1 - x2) * (x1 - x2) + (y1 - y2) * (y1 - y2))
  }

  lemma DistanceSymmetric(x1: int, y1: int, x2: int, y2: int)
    ensures Distance(x1, y1, x2, y2) == Distance(x2, y2, x1, y1)
  {
    assert (x1 - x2) * (x1 - x2) == (x2 - x1) * (x2 - x1);
    assert (y1 - y2) * (y1 - y2) == (y2 - y1) * (y2 - y1);
  }

  lemma DistanceZeroIffSameCell(x1: int, y1: int, x2: int, y2: int)
    ensures Distance(x1, y1, x2, y2) == 0 <==> x1 == x2 && y1 == y2
  {
    var dx, dy := x1 - x2, y1 - y2;
    if dx != 0 {
      assert dx * dx > 0;
    }
    if dy != 0 {
      assert dy * dy > 0;
    }
  }

  /** A natural number whose square is at most n is at most the root of n. */
  lemma ISqrtAtLeast(n: nat, k: nat)
    requires k * k <= n
    ensures k <= ISqrt(n)
  {
    if ISqrt(n) < k {
      SquareMonotone(ISqrt(n) + 1, k);
    }
  }

  /** A natural number whose successor squared exceeds n is at least the root of n. */
  lemma ISqrtAtMost(n: nat, k: nat)
    requires n < (k + 1) * (k + 1)
    ensures ISqrt(n) <= k
  {
    if ISqrt(n) > k {
      SquareMonotone(k + 1, ISqrt(n));
    }
  }

  /** The distance lies between the larger coordinate difference and the sum of both. */
  lemma DistanceBounds(x1: int, y1: int, x2: int, y2: int)
    ensures Max(Abs(x1 - x2), Abs(y1 - y2)) <= Distance(x1, y1, x2, y2) <= Abs(x1 - x2) + Abs(y1 - y2)
  {
    var a, b := Abs(x1 - x2), Abs(y1 - y2);
    AbsSquare(x1 - x2);
    AbsSquare(y1 - y2);
    RootBounds(a, b);
  }

  lemma AbsSquare(n: int)
    ensures Abs(n) * Abs(n) == n * n
  {
  }

  lemma RootBounds(a: nat, b: nat)
    ensures Max(a, b) <= ISqrt(a * a + b * b) <= a + b
  {
    var n: nat := a * a + b * b;
    MaxSquareAtMost(a, b);
    ISqrtAtLeast(n, Max(a, b));
    SumSquareAbove(a, b);
    ISqrtAtMost(n, a + b);
  }

  lemma MaxSquareAtMost(a: nat, b: nat)
    ensures Max(a, b) * Max(a, b) <= a * a + b * b
  {
    var aa, bb := a * a, b * b;
    assert aa >= 0 && bb >= 0;
  }

  lemma SumSquareAbove(a: nat, b: nat)
    ensures a * a + b * b < (a + b + 1) * (a + b + 1)
  {
    var ab := a * b;
    assert ab >= 0;
    assert (a + b + 1) * (a + b + 1) == a * a + b * b + 2 * ab + 2 * a + 2 * b + 1;
  }

  lemma DistanceExamples()
    ensures Distance(0, 0, 3, 4) == 5
    ensures Distance(0, 0, 1, 1) == 1
  {
    ISqrtUnique(25, 5);
    ISqrtUnique(2, 1);
  }

  // ---------------------------------------------------------------------------
  // Range, cone and line of sight
  // ---------------------------------------------------------------------------

  /** eventDistance: the distance between the two designated actors. */
  function EventDistance(w: World, caller: int, id1: int, id2: int): (r: Option<nat>)
    ensures r.Some? <==> Resolve(w, id1, caller).Some? && Resolve(w, id2, caller).Some?
    ensures r.Some? ==> var a, b := Resolve(w, id1, caller).value, Resolve(w, id2, caller).value;
                        r.value * r.value <= (a.x - b.x) * (a.x - b.x) + (a.y - b.y) * (a.y - b.y) < (r.value + 1) * (r.value + 1)
  {
    match (Resolve(w, id1, caller), Resolve(w, id2, caller))
    case (Some(a), Some(b)) => Some(Distance(a.x, a.y, b.x, b.y))
    case _ => None
  }

  /** eventInRange: the two actors are at most `range` apart. */
  function EventInRange(w: World, caller: int, id1: int, id2: int, range: int): (r: Option<bool>)
    ensures r.Some? <==> Resolve(w, id1, caller).Some? && Resolve(w, id2, caller).Some?
    ensures r.Some? ==> (r.value <==> EventDistance(w, caller, id1, id2).value <= range)
  {
    match EventDistance(w, caller, id1, id2)
    case Some(d) => Some(!(d > range))
    case None => None
  }

  /** `slope || 1`: an omitted or zero slope stands for 1. */
  function EffectiveSlope(slope: Option<int>): (s: int)
    ensures s != 0
    ensures slope.Some? && slope.value != 0 ==> s == slope.value
    ensures slope.None? || slope.value == 0 ==> s == 1
  {
    match slope
    case Some(v) => if v != 0 then v else 1
    case None => 1
  }

  /**
   * The facing-cone test on the offset (dx, dy) from viewer to target: for the
   * four facings, the target must be strictly ahead and no farther sideways than
   * `slope` times its distance ahead. Any other direction value passes.
   */
  predicate ConeAdmits(direction: int, dx: int, dy: int, slope: int): (r: bool)
    ensures r && IsFacing(direction) ==> dx != 0 || dy != 0
    ensures !IsFacing(direction) ==> r
  {
    && (direction == 2 ==> dy > 0 && Abs(dx) <= slope * Abs(dy))
    && (direction == 4 ==> dx < 0 && Abs(dy) <= slope * Abs(dx))
    && (direction == 8 ==> dy < 0 && Abs(dx) <= slope * Abs(dy))
    && (direction == 6 ==> dx > 0 && Abs(dy) <= slope * Abs(dx))
  }

  predicate IsFacing(direction: int) {
    direction == 2 || direction == 4 || direction == 6 || direction == 8
  }

  /** The offset along the facing direction. */
  function Ahead(direction: int, dx: int, dy: int): int {
    if direction == 2 then dy else if direction == 8 then -dy else if direction == 6 then dx else -dx
  }

  /** The offset across the facing direction. */
  function Across(direction: int, dx: int, dy: int): int {
    if direction == 2 || direction == 8 then dx else dy
  }

  /** For the four facings the cone is a wedge: strictly ahead, and within `slope` of the axis. */
  lemma ConeIsWedge(direction: int, dx: int, dy: int, slope: int)
    requires IsFacing(direction)
    ensures ConeAdmits(direction, dx, dy, slope) <==>
              Ahead(direction, dx, dy) > 0 && Abs(Across(direction, dx, dy)) <= slope * Ahead(direction, dx, dy)
  {
  }

  /** A viewer with one of the four facings never has its own cell in its cone. */
  lemma ConeExcludesOwnCell(direction: int, slope: int)
    requires IsFacing(direction)
    ensures !ConeAdmits(direction, 0, 0, slope)
  {
  }

  /** Any other direction value does not reject. */
  lemma ConeIgnoresOtherDirections(direction: int, dx: int, dy: int, slope: int)
    requires !IsFacing(direction)
    ensures ConeAdmits(direction, dx, dy, slope)
  {
  }

  /** A larger slope widens the cone. */
  lemma ConeWidensWithSlope(direction: int, dx: int, dy: int, slope: int, slope': int)
    requires slope <= slope' && ConeAdmits(direction, dx, dy, slope)
    ensures ConeAdmits(direction, dx, dy, slope')
  {
    var a, b := Abs(dx), Abs(dy);
    assert slope * a <= slope' * a && slope * b <= slope' * b;
  }

  /**
   * The rounded coordinate of line-of-sight sample `i` along a difference `d`
   * spread over `steps` steps: Math.round(start + i * d / steps), computed
   * exactly, where Math.round(v) is floor(v + 1/2).
   */
  function SampleAt(start: int, d: int, steps: nat, i: int): (r: int)
    ensures steps == 0 ==> r == start
    ensures steps > 0 ==> 2 * steps * (r - start) <= 2 * i * d + steps < 2 * steps * (r - start + 1)
  {
    if steps == 0 then start else start + (2 * i * d + steps) / (2 * steps)
  }

  /** Sample 0 is the viewer's cell and the last sample is the target's cell. */
  lemma SampleEnds(start: int, d: int, steps: nat)
    ensures SampleAt(start, d, steps, 0) == start
    ensures steps > 0 ==> SampleAt(start, d, steps, steps) == start + d
  {
    if steps > 0 {
      DivPlusHalf(0, steps);
      assert 2 * steps * d + steps == (2 * steps) * d + steps;
      DivPlusHalf(d, steps);
    }
  }

  lemma DivPlusHalf(q: int, steps: nat)
    requires steps > 0
    ensures ((2 * steps) * q + steps) / (2 * steps) == q
  {
    var m := 2 * steps;
    var n := m * q + steps;
    var r := n / m;
    assert n == m * r + n % m;
    assert 0 <= n % m < m;
    assert m * (r - q) == steps - n % m;
    if r < q {
      MulAtMostNegative(m, r - q);
    } else if r > q {
      MulAtLeast(m, r - q);
    }
  }

  lemma MulAtMostNegative(m: nat, k: int)
    requires k < 0
    ensures m * k <= -(m as int)
  {
    assert m * k == -(m * -k);
    MulAtLeast(m, -k);
  }

  lemma MulAtLeast(m: nat, k: int)
    requires k > 0
    ensures m * k >= m
  {
  }

  /** Every sample from 0 to `steps` lies on a cell with the viewer's region. */
  predicate ClearLine(x1: int, y1: int, dx: int, dy: int, steps: nat, region: (int, int) -> int): (r: bool)
    ensures r && steps > 0 ==> region(x1 + dx, y1 + dy) == region(x1, y1)
  {
    SampleEnds(x1, dx, steps);
    SampleEnds(y1, dy, steps);
    forall i :: 0 <= i <= steps ==> region(SampleAt(x1, dx, steps, i), SampleAt(y1, dy, steps, i)) == region(x1, y1)
  }

  /** The number of line-of-sight steps: the larger coordinate difference. */
  function Steps(dx: int, dy: int): (n: nat)
    ensures n >= Abs(dx) && n >= Abs(dy)
    ensures n == Abs(dx) || n == Abs(dy)
  {
    if Abs(dx) > Abs(dy) then Abs(dx) else Abs(dy)
  }

  /** The sight test on two resolved actors, with the slope already defaulted. */
  predicate InSight(a: Actor, b: Actor, range: int, slope: int, region: (int, int) -> int): (r: bool)
    ensures r ==> Distance(a.x, a.y, b.x, b.y) <= range
    ensures r ==> region(b.x, b.y) == region(a.x, a.y)
  {
    var dx, dy := b.x - a.x, b.y - a.y;
    && !(Distance(a.x, a.y, b.x, b.y) > range)
    && ConeAdmits(a.direction, dx, dy, slope)
    && ClearLine(a.x, a.y, dx, dy, Steps(dx, dy), region)
  }

  /** A target out of range is never in sight. */
  lemma OutOfRangeNotInSight(a: Actor, b: Actor, range: int, slope: int, region: (int, int) -> int)
    requires Distance(a.x, a.y, b.x, b.y) > range
    ensures !InSight(a, b, range, slope, region)
  {
  }

  /** A viewer with one of the four facings never sees a target on its own cell. */
  lemma NotInSightOnOwnCell(a: Actor, b: Actor, range: int, slope: int, region: (int, int) -> int)
    requires IsFacing(a.direction) && a.x == b.x && a.y == b.y
    ensures !InSight(a, b, range, slope, region)
  {
    ConeExcludesOwnCell(a.direction, slope);
  }

  /** A target in sight stands on a cell with the viewer's region. */
  lemma InSightSharesRegion(a: Actor, b: Actor, range: int, slope: int, region: (int, int) -> int)
    requires InSight(a, b, range, slope, region)
    ensures region(b.x, b.y) == region(a.x, a.y)
  {
    var dx, dy := b.x - a.x, b.y - a.y;
    var steps := Steps(dx, dy);
    SampleEnds(a.x, dx, steps);
    SampleEnds(a.y, dy, steps);
    if steps == 0 {
      assert dx == 0 && dy == 0;
    } else {
      assert region(SampleAt(a.x, dx, steps, steps), SampleAt(a.y, dy, steps, steps)) == region(a.x, a.y);
    }
  }

  /** A viewer at (5,5) facing down sees a target at (5,8) with range 5 and slope 1 over uniform regions. */
  lemma SeenOverUniformRegions()
    ensures InSight(Actor(5, 5, 2), Actor(5, 8, 2), 5, 1, (x, y) => 0)
  {
    ISqrtUnique(9, 3);
  }

  /** The same viewer and target, with a different region at (5,6), the second sample. */
  lemma BlockedByRegion()
    ensures !InSight(Actor(5, 5, 2), Actor(5, 8, 2), 5, 1, (x, y) => if x == 5 && y == 6 then 1 else 0)
  {
    assert SampleAt(5, 0, 3, 1) == 5;
    assert SampleAt(5, 3, 3, 1) == 6;
  }

  /** A target at (8,5) is outside the cone of a viewer at (5,5) facing down, whatever the regions. */
  lemma OutsideConeNotSeen(region: (int, int) -> int)
    ensures !InSight(Actor(5, 5, 2), Actor(8, 5, 2), 5, 1, region)
  {
  }

  /**
   * eventInSight: false when the target is out of range, outside the viewer's
   * facing cone, or when some sample of the line from viewer to target lies on
   * a region different from the viewer's own cell.
   */
  method EventInSight(w: World, caller: int, id1: int, id2: int, range: int, slope: Option<int>, region: (int, int) -> int)
    returns (r: Option<bool>)
    ensures r.Some? <==> Resolve(w, id1, caller).Some? && Resolve(w, id2, caller).Some?
    ensures r.Some? ==> (r.value <==> InSight(Resolve(w, id1, caller).value, Resolve(w, id2, caller).value,
                                              range, EffectiveSlope(slope), region))
  {
    var s := EffectiveSlope(slope);
    var e1 := Resolve(w, id1, caller);
    var e2 := Resolve(w, id2, caller);
    if e1.None? || e2.None? {
      return None;
    }
    var a, b := e1.value, e2.value;
    var dx, dy := b.x - a.x, b.y - a.y;
    if !EventInRange(w, caller, id1, id2, range).value {
      return Some(false);
    }
    if !ConeAdmits(a.direction, dx, dy, s) {
      return Some(false);
    }
    var home := region(a.x, a.y);
    var steps := Steps(dx, dy);
    var i := 0;
    while i <= steps
      invariant 0 <= i <= steps + 1
      invariant forall j :: 0 <= j < i ==> region(SampleAt(a.x, dx, steps, j), SampleAt(a.y, dy, steps, j)) == home
    {
      if region(SampleAt(a.x, dx, steps, i), SampleAt(a.y, dy, steps, i)) != home {
        return Some(false);
      }
      i := i + 1;
    }
    return Some(true);
  }
}
