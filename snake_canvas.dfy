/**
 * The game canvas: one play session of the snake. The fields of
 * `SnakeCanvas` are the mutable references of the canvas component (snake,
 * committed and pending direction, foods, food counter, particles, canvas
 * size). `Update` is the pure specification of one animation frame and
 * `SnakeCanvas.Tick` carries it out step by step.
 *
 * Random draws (food position, food id, particle velocities) arrive in a
 * `Roll`; the square root of the platform arrives as `root`.
 */
module Canvas {
  import opened Types
  import opened Constants
  import opened GameUtils

  /** A cosmetic spark: position, remaining life (drawn as opacity), velocity. */
  datatype Particle = Particle(pos: Point, life: real, vel: Point)

  /**
   * The random draws one frame may consume: two factors in [0, 1) that place
   * a new food, the id of that food, and the velocity of the i-th particle
   * of a burst (the cosine and sine of a random angle times a random speed).
   */
  datatype Roll = Roll(foodX: real, foodY: real, foodId: real, spark: int -> Point) {
    predicate Valid() {
      0.0 <= foodX < 1.0 && 0.0 <= foodY < 1.0
    }
  }

  /** What a frame reports to the application shell through its callbacks. */
  datatype Signal = Quiet | GameOver | AteNormal | AteSpecial

  /** The state of a session, as held by the canvas references. */
  datatype Session = Session(
    snake: seq<Point>,
    direction: Point,
    pending: Point,
    foods: seq<Food>,
    foodCounter: nat,
    particles: seq<Particle>)

  // ----- Direction buffer -----

  /** Exactly one component is non-zero: movement is along one axis. */
  predicate Aligned(d: Point) {
    (d.x != 0.0) != (d.y != 0.0)
  }

  function Dot(a: Point, b: Point): real {
    a.x * b.x + a.y * b.y
  }

  /**
   * Both directions are axis-aligned and the pending one is the committed
   * one or perpendicular to it.
   */
  predicate DirectionsOk(direction: Point, pending: Point) {
    Aligned(direction) && Aligned(pending) && (pending == direction || Dot(pending, direction) == 0.0)
  }

  /**
   * setDirection: a horizontal request is taken only while the committed
   * horizontal velocity is zero, a vertical one only while the committed
   * vertical velocity is zero; the vertical test comes second and wins.
   */
  function Steer(direction: Point, pending: Point, x: real, y: real): (p: Point)
    ensures p == pending || (Aligned(p) && Dot(p, direction) == 0.0)
    ensures p != pending ==> (p.x != 0.0 ==> direction.x == 0.0) && (p.y != 0.0 ==> direction.y == 0.0)
    ensures y != 0.0 && direction.y == 0.0 ==> p == Point(0.0, y)
    ensures x != 0.0 && direction.x == 0.0 && !(y != 0.0 && direction.y == 0.0) ==> p == Point(x, 0.0)
    ensures (x == 0.0 || direction.x != 0.0) && (y == 0.0 || direction.y != 0.0) ==> p == pending
  {
    var afterX := if x != 0.0 && direction.x == 0.0 then Point(x, 0.0) else pending;
    if y != 0.0 && direction.y == 0.0 then Point(0.0, y) else afterX
  }

  /** A request through `Steer` keeps the buffer consistent with the committed direction. */
  lemma SteerKeepsDirectionsOk(direction: Point, pending: Point, x: real, y: real)
    requires DirectionsOk(direction, pending)
    ensures DirectionsOk(direction, Steer(direction, pending, x, y))
  {
  }

  /**
   * The buffered direction never points backwards: it is never the reverse
   * of the committed direction and has no component against it.
   */
  lemma NeverReverse(direction: Point, pending: Point)
    requires DirectionsOk(direction, pending)
    ensures 0.0 <= Dot(pending, direction)
    ensures pending != Point(-direction.x, -direction.y)
  {
    SquareNonNegative(direction.x);
    SquareNonNegative(direction.y);
  }

  /** The arrow keys; any other key is ignored. */
  datatype Key = ArrowUp | ArrowDown | ArrowLeft | ArrowRight | OtherKey

  /** The request an arrow key makes, in the terms of `Steer` (y grows downwards). */
  function KeyVector(key: Key): Point {
    match key
    case ArrowUp => Point(0.0, -1.0)
    case ArrowDown => Point(0.0, 1.0)
    case ArrowLeft => Point(-1.0, 0.0)
    case ArrowRight => Point(1.0, 0.0)
    case OtherKey => Point(0.0, 0.0)
  }

  // ----- Particles -----

  /** Particles per burst. */
  const PARTICLE_COUNT: nat := 8
  /** Life a particle loses per frame. */
  const PARTICLE_DECAY: real := 0.05

  /** A burst at `at`: PARTICLE_COUNT particles of full life with the drawn velocities. */
  function Burst(at: Point, spark: int -> Point): (b: seq<Particle>)
    ensures |b| == PARTICLE_COUNT
    ensures forall i :: 0 <= i < |b| ==> b[i].pos == at && b[i].life == 1.0
  {
    seq(PARTICLE_COUNT, i requires 0 <= i < PARTICLE_COUNT => Particle(at, 1.0, spark(i)))
  }

  /** One frame of a particle: moved by its velocity, with less life. */
  function Advance(p: Particle): Particle {
    Particle(Point(p.pos.x + p.vel.x, p.pos.y + p.vel.y), p.life - PARTICLE_DECAY, p.vel)
  }

  /** The particle pass: every particle advanced, those left without life dropped. */
  function Survivors(ps: seq<Particle>): (r: seq<Particle>)
    ensures |r| <= |ps|
    ensures forall q :: q in r ==> 0.0 < q.life
  {
    if ps == [] then []
    else
      var p := Advance(ps[0]);
      (if 0.0 < p.life then [p] else []) + Survivors(ps[1..])
  }

  /** The pass works particle by particle, so it distributes over concatenation. */
  lemma {:induction false} SurvivorsAppend(a: seq<Particle>, b: seq<Particle>)
    ensures Survivors(a + b) == Survivors(a) + Survivors(b)
    decreases |a|
  {
    if a == [] {
      assert a + b == b;
    } else {
      assert (a + b)[0] == a[0];
      assert (a + b)[1..] == a[1..] + b;
      SurvivorsAppend(a[1..], b);
    }
  }

  /**
   * Exactly the particles whose advanced life is positive survive, advanced:
   * a particle is in the result iff it is the advance of an input particle
   * and has life left.
   */
  lemma {:induction false} SurvivorsExactly(ps: seq<Particle>, q: Particle)
    ensures q in Survivors(ps) <==> 0.0 < q.life && exists i :: 0 <= i < |ps| && Advance(ps[i]) == q
    decreases |ps|
  {
    if ps != [] {
      SurvivorsExactly(ps[1..], q);
      if exists i :: 0 <= i < |ps[1..]| && Advance(ps[1..][i]) == q {
        var i :| 0 <= i < |ps[1..]| && Advance(ps[1..][i]) == q;
        assert Advance(ps[i + 1]) == q;
      }
      if exists i :: 0 <= i < |ps| && Advance(ps[i]) == q {
        var i :| 0 <= i < |ps| && Advance(ps[i]) == q;
        if i > 0 {
          assert Advance(ps[1..][i - 1]) == q;
        }
      }
    }
  }

  /** Particles with more than one frame of life left all survive, in order. */
  lemma {:induction false} SurvivorsKeepLively(ps: seq<Particle>)
    requires forall i :: 0 <= i < |ps| ==> PARTICLE_DECAY < ps[i].life
    ensures Survivors(ps) == seq(|ps|, i requires 0 <= i < |ps| => Advance(ps[i]))
    decreases |ps|
  {
    if ps != [] {
      SurvivorsKeepLively(ps[1..]);
    }
  }

  // ----- Food -----

  /** Inset from the canvas border inside which food is placed. */
  const FOOD_MARGIN: real := 50.0

  /** The head eats a food closer than the food's size plus the snake's size. */
  function CaptureRadius(kind: FoodType): real {
    if kind == SPECIAL then SPECIAL_FOOD_SIZE + SNAKE_SIZE else FOOD_SIZE + SNAKE_SIZE
  }

  predicate InReach(head: Point, f: Food) {
    DistSq(head, f.position) < CaptureRadius(f.kind) * CaptureRadius(f.kind)
  }

  /** findIndex: the first food in list order within reach of the head, or -1. */
  function EatenIndex(head: Point, foods: seq<Food>): (k: int)
    ensures -1 <= k < |foods|
    ensures k == -1 <==> forall i :: 0 <= i < |foods| ==> !InReach(head, foods[i])
    ensures 0 <= k ==> InReach(head, foods[k]) && forall i :: 0 <= i < k ==> !InReach(head, foods[i])
  {
    if foods == [] then -1
    else if InReach(head, foods[0]) then 0
    else
      var k := EatenIndex(head, foods[1..]);
      if k == -1 then -1 else k + 1
  }

  /** spawnFood: a food of the given kind at a random spot of the inset canvas. */
  function Spawned(width: nat, height: nat, kind: FoodType, roll: Roll): (f: Food)
    requires roll.Valid()
    ensures f.kind == kind
    ensures 2.0 * FOOD_MARGIN < width as real ==> FOOD_MARGIN <= f.position.x < width as real - FOOD_MARGIN
    ensures 2.0 * FOOD_MARGIN < height as real ==> FOOD_MARGIN <= f.position.y < height as real - FOOD_MARGIN
  {
    Food(RandomPosition(width as real, height as real, FOOD_MARGIN, roll.foodX, roll.foodY), kind, roll.foodId)
  }

  /**
   * The kind of the food that replaces an eaten NORMAL one, given the food
   * counter before the pickup. The canvas raises its counter inside a state
   * updater that React runs only after the frame, so the test in the frame
   * still sees the count before the pickup and adds one to it: the
   * replacement is SPECIAL exactly when the new count is a multiple of
   * FOOD_TO_TRIGGER_SPECIAL.
   */
  function ReplacementKind(counterBefore: nat): (kind: FoodType)
    ensures kind == SPECIAL <==>
      (counterBefore + 1) / FOOD_TO_TRIGGER_SPECIAL * FOOD_TO_TRIGGER_SPECIAL == counterBefore + 1
    ensures counterBefore + 1 < FOOD_TO_TRIGGER_SPECIAL ==> kind == NORMAL
    ensures counterBefore + 1 == FOOD_TO_TRIGGER_SPECIAL ==> kind == SPECIAL
  {
    if (counterBefore + 1) % FOOD_TO_TRIGGER_SPECIAL == 0 then SPECIAL else NORMAL
  }

  /** How many of the first `n` normal pickups are replaced by a special orb. */
  function SpecialsAmong(n: nat): nat {
    if n == 0 then 0
    else SpecialsAmong(n - 1) + (if ReplacementKind(n - 1) == SPECIAL then 1 else 0)
  }

  /** Exactly every fifth normal pickup brings a special orb: 5th, 10th, ... */
  lemma {:induction false} SpecialEveryFifth(n: nat)
    ensures SpecialsAmong(n) == n / FOOD_TO_TRIGGER_SPECIAL
  {
    if n > 0 {
      SpecialEveryFifth(n - 1);
      var q, r := (n - 1) / 5, (n - 1) % 5;
      assert n - 1 == 5 * q + r;
      if r == 4 {
        assert n == 5 * (q + 1);
        assert n % 5 == 0 && n / 5 == q + 1;
      } else {
        assert n == 5 * q + (r + 1) && r + 1 < 5;
        assert n % 5 != 0 && n / 5 == q;
      }
    }
  }

  // ----- Soft wrap -----

  /**
   * The soft wrap of the head: a coordinate below 0 moves to the far edge,
   * one beyond the far edge moves to 0, any other stays.
   */
  function Wrap(p: Point, width: nat, height: nat): (q: Point)
    ensures 0.0 <= q.x <= width as real && 0.0 <= q.y <= height as real
    ensures 0.0 <= p.x <= width as real ==> q.x == p.x
    ensures 0.0 <= p.y <= height as real ==> q.y == p.y
    ensures p.x < 0.0 ==> q.x == width as real
    ensures p.y < 0.0 ==> q.y == height as real
    ensures width as real < p.x ==> q.x == 0.0
    ensures height as real < p.y ==> q.y == 0.0
  {
    var x := if p.x < 0.0 then width as real else p.x;
    var x' := if x > width as real then 0.0 else x;
    var y := if p.y < 0.0 then height as real else p.y;
    var y' := if y > height as real then 0.0 else y;
    Point(x', y')
  }

  // ----- A fresh session -----

  /** The initial snake: INITIAL_LENGTH points on a horizontal line, extending left of the centre. */
  function InitialSnake(cx: real, cy: real): (s: seq<Point>)
    ensures |s| == INITIAL_LENGTH && s[0] == Point(cx, cy)
    ensures forall i :: 0 <= i < |s| ==> s[i].y == cy
    ensures forall i :: 1 <= i < |s| ==>
              s[i].x == s[i - 1].x - SEGMENT_DISTANCE &&
              DistSq(s[i - 1], s[i]) == SEGMENT_DISTANCE * SEGMENT_DISTANCE
  {
    var s := seq(INITIAL_LENGTH, i requires 0 <= i < INITIAL_LENGTH => Point(cx - (i as real) * SEGMENT_DISTANCE, cy));
    InitialGaps(s, cx, cy);
    s
  }

  lemma InitialGaps(s: seq<Point>, cx: real, cy: real)
    requires s == seq(INITIAL_LENGTH, i requires 0 <= i < INITIAL_LENGTH => Point(cx - (i as real) * SEGMENT_DISTANCE, cy))
    ensures forall i :: 1 <= i < |s| ==>
              s[i].x == s[i - 1].x - SEGMENT_DISTANCE &&
              DistSq(s[i - 1], s[i]) == SEGMENT_DISTANCE * SEGMENT_DISTANCE
  {
    forall i | 1 <= i < |s|
      ensures s[i].x == s[i - 1].x - SEGMENT_DISTANCE
      ensures DistSq(s[i - 1], s[i]) == SEGMENT_DISTANCE * SEGMENT_DISTANCE
    {
      var a, b := s[i - 1], s[i];
      assert a.x - b.x == SEGMENT_DISTANCE && a.y - b.y == 0.0;
      assert DistSq(a, b) == SEGMENT_DISTANCE * SEGMENT_DISTANCE + 0.0 * 0.0;
    }
  }

  /** initGame: centred snake moving right, one NORMAL food, zero counter, no particles. */
  function InitialSession(width: nat, height: nat, roll: Roll): (s: Session)
    requires roll.Valid()
    ensures |s.snake| == INITIAL_LENGTH && s.snake[0] == Point(width as real / 2.0, height as real / 2.0)
    ensures s.direction == Point(1.0, 0.0) && s.pending == s.direction
    ensures |s.foods| == 1 && s.foods[0].kind == NORMAL && s.foods[0].id == roll.foodId
    ensures s.foodCounter == 0 && s.particles == []
  {
    Session(
      InitialSnake(width as real / 2.0, height as real / 2.0),
      Point(1.0, 0.0), Point(1.0, 0.0),
      [Spawned(width, height, NORMAL, roll)],
      0, [])
  }

  /**
   * What every frame keeps: a snake at least as long as a fresh one, a single
   * food on the board, a consistent direction buffer, only live particles.
   */
  predicate Invariant(s: Session) {
    INITIAL_LENGTH <= |s.snake| && |s.foods| == 1 &&
    DirectionsOk(s.direction, s.pending) &&
    forall p :: p in s.particles ==> 0.0 < p.life
  }

  lemma InitialSessionOk(width: nat, height: nat, roll: Roll)
    requires roll.Valid()
    ensures Invariant(InitialSession(width, height, roll))
    ensures InitialSession(width, height, roll).foods[0].kind == NORMAL
  {
  }

  // ----- One frame -----

  /** The snake moved along the pending direction, with its head wrapped. */
  function Moved(s: Session, width: nat, height: nat, speed: real, root: real -> real): (m: seq<Point>)
    requires IsSqrt(root) && 0 < |s.snake|
    ensures |m| == |s.snake|
    ensures m[0] == Wrap(MoveHead(s.snake[0], s.pending, speed), width, height)
    ensures 0.0 <= m[0].x <= width as real && 0.0 <= m[0].y <= height as real
  {
    var moved := Resolve(root, s.snake, s.pending, speed);
    moved[0 := Wrap(moved[0], width, height)]
  }

  /**
   * The food step of a PLAYING frame, on the moved snake: the first food in
   * reach of the head, if any, is removed, a burst is made at it and one
   * replacement is spawned; a NORMAL food also grows the snake by a copy of
   * its tail and raises the counter.
   */
  function Feed(s: Session, width: nat, height: nat, roll: Roll): (r: (Session, Signal))
    requires roll.Valid() && 0 < |s.snake|
    ensures r.1 != GameOver && r.0.direction == s.direction && r.0.pending == s.pending
    ensures r.1 == Quiet <==> EatenIndex(s.snake[0], s.foods) == -1
    ensures r.1 == Quiet ==> r.0 == s
    ensures |r.0.snake| == |s.snake| + (if r.1 == AteNormal then 1 else 0)
  {
    var k := EatenIndex(s.snake[0], s.foods);
    if k == -1 then (s, Quiet)
    else
      var eaten := s.foods[k];
      var foods := s.foods[..k] + s.foods[k + 1..];
      var particles := s.particles + Burst(eaten.position, roll.spark);
      if eaten.kind == SPECIAL then
        (s.(foods := foods + [Spawned(width, height, NORMAL, roll)],
            particles := particles), AteSpecial)
      else
        (s.(snake := s.snake + [s.snake[|s.snake| - 1]],
            foods := foods + [Spawned(width, height, ReplacementKind(s.foodCounter), roll)],
            foodCounter := s.foodCounter + 1,
            particles := particles), AteNormal)
  }

  /**
   * The gameplay half of a frame in the PLAYING state: commit the buffered
   * direction, move, wrap the head, stop on a self collision, and otherwise
   * eat at most one food.
   */
  function Play(s: Session, width: nat, height: nat, speed: real, root: real -> real, roll: Roll): (r: (Session, Signal))
    requires IsSqrt(root) && roll.Valid() && 0 < |s.snake|
    ensures r.0.direction == s.pending && r.0.pending == s.pending
    ensures r.1 == GameOver <==> SelfCollides(Moved(s, width, height, speed, root), GRACE_PERIOD)
    ensures r.1 == GameOver ==> r.0.foods == s.foods && r.0.particles == s.particles
  {
    var snake := Moved(s, width, height, speed, root);
    var committed := s.(snake := snake, direction := s.pending);
    if SelfCollides(snake, GRACE_PERIOD) then (committed, GameOver)
    else Feed(committed, width, height, roll)
  }

  /**
   * update: one animation frame. Gameplay runs only while PLAYING; the
   * particle pass runs in every state, except on the frame that ends the
   * game, which returns before drawing.
   */
  function Update(s: Session, state: GameState, width: nat, height: nat, speed: real,
                  root: real -> real, roll: Roll): (r: (Session, Signal))
    requires IsSqrt(root) && roll.Valid() && (state == PLAYING ==> 0 < |s.snake|)
    ensures state != PLAYING ==> r.1 == Quiet
    ensures r.1 != GameOver ==> forall p :: p in r.0.particles ==> 0.0 < p.life
  {
    if state != PLAYING then (s.(particles := Survivors(s.particles)), Quiet)
    else
      var played := Play(s, width, height, speed, root, roll);
      if played.1 == GameOver then played
      else (played.0.(particles := Survivors(played.0.particles)), played.1)
  }

  // ----- Properties of a frame -----

  /** Outside PLAYING a frame changes nothing but the particles, which still age. */
  lemma UpdateFrozenUnlessPlaying(s: Session, state: GameState, width: nat, height: nat, speed: real,
                                  root: real -> real, roll: Roll)
    requires IsSqrt(root) && roll.Valid() && state != PLAYING
    ensures Update(s, state, width, height, speed, root, roll) == (s.(particles := Survivors(s.particles)), Quiet)
  {
  }

  /** Every frame keeps the session invariant. */
  lemma UpdateKeepsInvariant(s: Session, state: GameState, width: nat, height: nat, speed: real,
                             root: real -> real, roll: Roll)
    requires IsSqrt(root) && roll.Valid() && Invariant(s)
    ensures Invariant(Update(s, state, width, height, speed, root, roll).0)
  {
    if state == PLAYING {
      PlayShape(s, width, height, speed, root, roll);
    }
  }

  /** The parts of a played frame that the invariant depends on. */
  lemma PlayShape(s: Session, width: nat, height: nat, speed: real, root: real -> real, roll: Roll)
    requires IsSqrt(root) && roll.Valid() && 0 < |s.snake|
    ensures var r := Play(s, width, height, speed, root, roll);
      r.0.direction == s.pending && r.0.pending == s.pending &&
      |s.snake| <= |r.0.snake| && |r.0.foods| == |s.foods| &&
      (r.1 == GameOver ==> r.0.particles == s.particles)
  {
    var m := Moved(s, width, height, speed, root);
    if !SelfCollides(m, GRACE_PERIOD) {
      FeedShape(s.(snake := m, direction := s.pending), width, height, roll);
    }
  }

  /** What the food step changes and what it leaves alone. */
  lemma FeedShape(s: Session, width: nat, height: nat, roll: Roll)
    requires roll.Valid() && 0 < |s.snake|
    ensures var r := Feed(s, width, height, roll);
      var k := EatenIndex(s.snake[0], s.foods);
      r.0.direction == s.direction && r.0.pending == s.pending &&
      |r.0.foods| == |s.foods| && r.1 != GameOver &&
      (r.1 == Quiet <==> k == -1) &&
      (k == -1 ==> r.0 == s) &&
      (0 <= k ==>
         (r.1 == AteSpecial <==> s.foods[k].kind == SPECIAL) &&
         (r.1 == AteNormal <==> s.foods[k].kind == NORMAL) &&
         r.0.foods == s.foods[..k] + s.foods[k + 1..] +
           [Spawned(width, height, if r.1 == AteSpecial then NORMAL else ReplacementKind(s.foodCounter), roll)] &&
         r.0.particles == s.particles + Burst(s.foods[k].position, roll.spark) &&
         r.0.snake == (if r.1 == AteSpecial then s.snake else s.snake + [s.snake[|s.snake| - 1]]) &&
         r.0.foodCounter == s.foodCounter + (if r.1 == AteNormal then 1 else 0))
  {
    var k := EatenIndex(s.snake[0], s.foods);
    if 0 <= k {
      assert |s.foods[..k] + s.foods[k + 1..]| == |s.foods| - 1;
      if s.foods[k].kind == SPECIAL {
        FeedSpecial(s, width, height, roll, k);
      } else {
        FeedNormal(s, width, height, roll, k);
      }
    } else {
      assert Feed(s, width, height, roll) == (s, Quiet);
    }
  }

  /** Eating a special food: no growth, a normal replacement, the counter kept. */
  lemma FeedSpecial(s: Session, width: nat, height: nat, roll: Roll, k: int)
    requires roll.Valid() && 0 < |s.snake|
    requires k == EatenIndex(s.snake[0], s.foods) && 0 <= k && s.foods[k].kind == SPECIAL
    ensures Feed(s, width, height, roll) ==
      (s.(foods := s.foods[..k] + s.foods[k + 1..] + [Spawned(width, height, NORMAL, roll)],
          particles := s.particles + Burst(s.foods[k].position, roll.spark)), AteSpecial)
  {
  }

  /** Eating a normal food: growth by the tail, a counted replacement, the counter advanced. */
  lemma FeedNormal(s: Session, width: nat, height: nat, roll: Roll, k: int)
    requires roll.Valid() && 0 < |s.snake|
    requires k == EatenIndex(s.snake[0], s.foods) && 0 <= k && s.foods[k].kind == NORMAL
    ensures Feed(s, width, height, roll) ==
      (s.(snake := s.snake + [s.snake[|s.snake| - 1]],
          foods := s.foods[..k] + s.foods[k + 1..] + [Spawned(width, height, ReplacementKind(s.foodCounter), roll)],
          foodCounter := s.foodCounter + 1,
          particles := s.particles + Burst(s.foods[k].position, roll.spark)), AteNormal)
  {
  }

  /** While PLAYING the committed direction becomes the buffered one, never its reverse. */
  lemma UpdateCommitsDirection(s: Session, width: nat, height: nat, speed: real, root: real -> real, roll: Roll)
    requires IsSqrt(root) && roll.Valid() && Invariant(s)
    ensures var t := Update(s, PLAYING, width, height, speed, root, roll).0;
      t.direction == s.pending && t.pending == s.pending &&
      0.0 <= Dot(t.direction, s.direction) &&
      t.direction != Point(-s.direction.x, -s.direction.y)
  {
    NeverReverse(s.direction, s.pending);
  }

  /** While PLAYING the head ends the frame inside the canvas. */
  lemma UpdateWrapsHead(s: Session, width: nat, height: nat, speed: real, root: real -> real, roll: Roll)
    requires IsSqrt(root) && roll.Valid() && 0 < |s.snake|
    ensures var t := Update(s, PLAYING, width, height, speed, root, roll).0;
      0 < |t.snake| &&
      0.0 <= t.snake[0].x <= width as real && 0.0 <= t.snake[0].y <= height as real
  {
  }

  /**
   * While PLAYING no two consecutive body segments end the frame farther
   * apart than SEGMENT_DISTANCE; the head keeps that bound too unless the
   * wrap moved it to the other side.
   */
  lemma UpdateKeepsChain(s: Session, width: nat, height: nat, speed: real, root: real -> real, roll: Roll)
    requires IsSqrt(root) && roll.Valid() && 0 < |s.snake|
    ensures var t := Update(s, PLAYING, width, height, speed, root, roll).0;
      forall i :: 2 <= i < |t.snake| ==>
        DistSq(t.snake[i - 1], t.snake[i]) <= SEGMENT_DISTANCE * SEGMENT_DISTANCE
    ensures var t := Update(s, PLAYING, width, height, speed, root, roll).0;
      var h := MoveHead(s.snake[0], s.pending, speed);
      0.0 <= h.x <= width as real && 0.0 <= h.y <= height as real && 1 < |t.snake| ==>
        DistSq(t.snake[0], t.snake[1]) <= SEGMENT_DISTANCE * SEGMENT_DISTANCE
  {
    var t := Update(s, PLAYING, width, height, speed, root, roll).0;
    var moved := Resolve(root, s.snake, s.pending, speed);
    var m := Moved(s, width, height, speed, root);
    var headKept := Wrap(moved[0], width, height) == moved[0];
    forall i | 1 <= i < |m| && (i >= 2 || headKept)
      ensures DistSq(m[i - 1], m[i]) <= SEGMENT_DISTANCE * SEGMENT_DISTANCE
    {
      ResolveLinks(root, s.snake, s.pending, speed, i);
    }
    PlayedSnake(s, width, height, speed, root, roll);
    GrownChain(m, t.snake, headKept);
  }

  /** The snake a played frame ends with: the moved snake, grown by one on a normal pickup. */
  lemma PlayedSnake(s: Session, width: nat, height: nat, speed: real, root: real -> real, roll: Roll)
    requires IsSqrt(root) && roll.Valid() && 0 < |s.snake|
    ensures var m := Moved(s, width, height, speed, root);
      var t := Update(s, PLAYING, width, height, speed, root, roll).0;
      t.snake == m || t.snake == m + [m[|m| - 1]]
  {
    var m := Moved(s, width, height, speed, root);
    if !SelfCollides(m, GRACE_PERIOD) {
      FeedShape(s.(snake := m, direction := s.pending), width, height, roll);
    }
  }

  /** Doubling the tail segment keeps every link of a chain within SEGMENT_DISTANCE. */
  lemma GrownChain(m: seq<Point>, q: seq<Point>, headKept: bool)
    requires 0 < |m| && (q == m || q == m + [m[|m| - 1]])
    requires forall i :: 1 <= i < |m| && (i >= 2 || headKept) ==>
      DistSq(m[i - 1], m[i]) <= SEGMENT_DISTANCE * SEGMENT_DISTANCE
    ensures forall i :: 1 <= i < |q| && (i >= 2 || headKept) ==>
      DistSq(q[i - 1], q[i]) <= SEGMENT_DISTANCE * SEGMENT_DISTANCE
  {
    forall i | 1 <= i < |q| && (i >= 2 || headKept)
      ensures DistSq(q[i - 1], q[i]) <= SEGMENT_DISTANCE * SEGMENT_DISTANCE
    {
      if i < |m| {
        assert q[i - 1] == m[i - 1] && q[i] == m[i];
      } else {
        assert q[i] == q[i - 1];
        SquareNonNegative(0.0);
      }
    }
  }

  /**
   * A self collision is detected on the moved snake and ends the frame: the
   * game is over and no food is examined, nothing is eaten and the particles
   * are left as they were.
   */
  lemma UpdateCollision(s: Session, state: GameState, width: nat, height: nat, speed: real,
                        root: real -> real, roll: Roll)
    requires IsSqrt(root) && roll.Valid() && 0 < |s.snake|
    ensures var r := Update(s, state, width, height, speed, root, roll);
      r.1 == GameOver <==> state == PLAYING && SelfCollides(Moved(s, width, height, speed, root), GRACE_PERIOD)
    ensures var r := Update(s, state, width, height, speed, root, roll);
      r.1 == GameOver ==>
        r.0 == s.(snake := Moved(s, width, height, speed, root), direction := s.pending)
  {
  }

  /**
   * While PLAYING at most one food is eaten per frame: the first in list
   * order within reach of the head. It is removed and exactly one
   * replacement is appended, so the number of foods does not change.
   */
  lemma UpdateEatsFirstInReach(s: Session, width: nat, height: nat, speed: real, root: real -> real, roll: Roll)
    requires IsSqrt(root) && roll.Valid() && 0 < |s.snake|
    ensures var r := Update(s, PLAYING, width, height, speed, root, roll);
      |r.0.foods| == |s.foods|
    ensures var r := Update(s, PLAYING, width, height, speed, root, roll);
      var m := Moved(s, width, height, speed, root);
      var k := EatenIndex(m[0], s.foods);
      !SelfCollides(m, GRACE_PERIOD) ==>
        (r.1 == Quiet <==> k == -1) &&
        (k == -1 ==> r.0.foods == s.foods) &&
        (0 <= k ==>
           (r.1 == AteSpecial <==> s.foods[k].kind == SPECIAL) &&
           (r.1 == AteNormal <==> s.foods[k].kind == NORMAL) &&
           r.0.foods == s.foods[..k] + s.foods[k + 1..] +
             [Spawned(width, height, if r.1 == AteSpecial then NORMAL else ReplacementKind(s.foodCounter), roll)])
  {
    var m := Moved(s, width, height, speed, root);
    if !SelfCollides(m, GRACE_PERIOD) {
      FeedShape(s.(snake := m, direction := s.pending), width, height, roll);
    }
  }

  /**
   * Eating NORMAL food: the snake grows by one point that copies its moved
   * tail, the counter goes up by one, the replacement is SPECIAL exactly when
   * the new count is a multiple of FOOD_TO_TRIGGER_SPECIAL, and a burst of
   * PARTICLE_COUNT particles appears at the food, aged by one frame.
   */
  lemma UpdateNormalPickup(s: Session, width: nat, height: nat, speed: real, root: real -> real, roll: Roll)
    requires IsSqrt(root) && roll.Valid() && 0 < |s.snake|
    requires Update(s, PLAYING, width, height, speed, root, roll).1 == AteNormal
    ensures var t := Update(s, PLAYING, width, height, speed, root, roll).0;
      var m := Moved(s, width, height, speed, root);
      var eaten := s.foods[EatenIndex(m[0], s.foods)];
      eaten.kind == NORMAL &&
      t.snake == m + [m[|m| - 1]] &&
      t.foodCounter == s.foodCounter + 1 &&
      0 < |t.foods| &&
      (t.foods[|t.foods| - 1].kind == SPECIAL <==> t.foodCounter % FOOD_TO_TRIGGER_SPECIAL == 0) &&
      t.particles == Survivors(s.particles) +
        seq(PARTICLE_COUNT, i requires 0 <= i < PARTICLE_COUNT => Advance(Particle(eaten.position, 1.0, roll.spark(i))))
  {
    var m := Moved(s, width, height, speed, root);
    FeedShape(s.(snake := m, direction := s.pending), width, height, roll);
    var eaten := s.foods[EatenIndex(m[0], s.foods)];
    BurstAgesWhole(s.particles, eaten.position, roll.spark);
  }

  /**
   * Eating a SPECIAL orb: the snake does not grow, the counter stays, the
   * replacement is NORMAL and the same burst of particles appears.
   */
  lemma UpdateSpecialPickup(s: Session, width: nat, height: nat, speed: real, root: real -> real, roll: Roll)
    requires IsSqrt(root) && roll.Valid() && 0 < |s.snake|
    requires Update(s, PLAYING, width, height, speed, root, roll).1 == AteSpecial
    ensures var t := Update(s, PLAYING, width, height, speed, root, roll).0;
      var m := Moved(s, width, height, speed, root);
      var eaten := s.foods[EatenIndex(m[0], s.foods)];
      eaten.kind == SPECIAL &&
      t.snake == m &&
      t.foodCounter == s.foodCounter &&
      0 < |t.foods| && t.foods[|t.foods| - 1].kind == NORMAL &&
      t.particles == Survivors(s.particles) +
        seq(PARTICLE_COUNT, i requires 0 <= i < PARTICLE_COUNT => Advance(Particle(eaten.position, 1.0, roll.spark(i))))
  {
    var m := Moved(s, width, height, speed, root);
    FeedShape(s.(snake := m, direction := s.pending), width, height, roll);
    var eaten := s.foods[EatenIndex(m[0], s.foods)];
    BurstAgesWhole(s.particles, eaten.position, roll.spark);
  }

  /**
   * Only a NORMAL pickup raises the food counter, by one; every signal other
   * than Quiet comes from a PLAYING frame.
   */
  lemma UpdateCounts(s: Session, state: GameState, width: nat, height: nat, speed: real,
                     root: real -> real, roll: Roll)
    requires IsSqrt(root) && roll.Valid() && (state == PLAYING ==> 0 < |s.snake|)
    ensures var r := Update(s, state, width, height, speed, root, roll);
      r.0.foodCounter == s.foodCounter + (if r.1 == AteNormal then 1 else 0) &&
      (r.1 != Quiet ==> state == PLAYING)
  {
  }

  /** A fresh burst survives its first particle pass whole. */
  lemma BurstAgesWhole(ps: seq<Particle>, at: Point, spark: int -> Point)
    ensures Survivors(ps + Burst(at, spark)) ==
      Survivors(ps) + seq(PARTICLE_COUNT, i requires 0 <= i < PARTICLE_COUNT => Advance(Particle(at, 1.0, spark(i))))
  {
    var b := Burst(at, spark);
    SurvivorsAppend(ps, b);
    SurvivorsKeepLively(b);
    assert seq(|b|, i requires 0 <= i < |b| => Advance(b[i]))
        == seq(PARTICLE_COUNT, i requires 0 <= i < PARTICLE_COUNT => Advance(Particle(at, 1.0, spark(i))));
  }

  // ----- The canvas component -----

  /** The mutable references of one mounted canvas, and the canvas size. */
  class SnakeCanvas {
    var width: nat
    var height: nat
    var snake: seq<Point>
    var direction: Point
    var pending: Point
    var foods: seq<Food>
    var foodCounter: nat
    var particles: seq<Particle>

    function Current(): Session
      reads this
    {
      Session(snake, direction, pending, foods, foodCounter, particles)
    }

    ghost predicate Valid()
      reads this
    {
      Invariant(Current())
    }

    /**
     * Mounting a canvas: the references start empty with the snake set to
     * move right, then the size is read and, the snake being empty, a game
     * is initialised.
     */
    constructor (width: nat, height: nat, state: GameState, roll: Roll)
      requires roll.Valid()
      ensures Valid() && this.width == width && this.height == height
      ensures Current() == InitialSession(width, height, roll)
    {
      this.width, this.height := width, height;
      snake := [];
      direction, pending := Point(1.0, 0.0), Point(1.0, 0.0);
      foods := [];
      foodCounter := 0;
      particles := [];
      new;
      Resize(width, height, state, roll);
    }

    /**
     * A resize takes the new size; the game is initialised again only on
     * the menu or while the snake is still empty.
     */
    method Resize(w: nat, h: nat, state: GameState, roll: Roll)
      requires roll.Valid() && (Valid() || snake == [])
      modifies this
      ensures Valid() && width == w && height == h
      ensures state == MENU || old(snake) == [] ==> Current() == InitialSession(w, h, roll)
      ensures state != MENU && old(snake) != [] ==> Current() == old(Current())
    {
      width, height := w, h;
      if state == MENU || |snake| == 0 {
        InitGame(roll);
      }
    }

    /** initGame: a fresh snake, direction buffer, food and counters. */
    method InitGame(roll: Roll)
      requires roll.Valid()
      modifies this
      ensures Valid() && width == old(width) && height == old(height)
      ensures Current() == InitialSession(width, height, roll)
    {
      snake := InitialSnake(width as real / 2.0, height as real / 2.0);
      direction := Point(1.0, 0.0);
      pending := Point(1.0, 0.0);
      foods := [];
      SpawnFood(NORMAL, roll);
      foodCounter := 0;
      particles := [];
      InitialSessionOk(width, height, roll);
    }

    /** spawnFood: push one food of the given kind. */
    method SpawnFood(kind: FoodType, roll: Roll)
      requires roll.Valid()
      modifies this`foods
      ensures foods == old(foods) + [Spawned(width, height, kind, roll)]
    {
      var position := RandomPosition(width as real, height as real, FOOD_MARGIN, roll.foodX, roll.foodY);
      foods := foods + [Food(position, kind, roll.foodId)];
    }

    /** createParticles: push a burst of full-life particles at `at`. */
    method CreateParticles(at: Point, spark: int -> Point)
      modifies this`particles
      ensures particles == old(particles) + Burst(at, spark)
    {
      ghost var burst := Burst(at, spark);
      for i := 0 to PARTICLE_COUNT
        invariant particles == old(particles) + burst[..i]
      {
        assert burst[..i + 1] == burst[..i] + [Particle(at, 1.0, spark(i))];
        particles := particles + [Particle(at, 1.0, spark(i))];
      }
      assert burst[..PARTICLE_COUNT] == burst;
    }

    /**
     * The particle pass: walk the list from the back, advance each particle
     * and splice out those left without life.
     */
    method UpdateParticles()
      modifies this`particles
      ensures particles == Survivors(old(particles))
    {
      ghost var ps := particles;
      var i := |particles|;
      while i > 0
        invariant 0 <= i <= |ps|
        invariant particles == ps[..i] + Survivors(ps[i..])
      {
        i := i - 1;
        assert ps[i..][1..] == ps[i + 1..];
        assert particles[i] == ps[i] && particles[..i] == ps[..i];
        assert particles[i + 1..] == Survivors(ps[i + 1..]);
        var p := Advance(particles[i]);
        if p.life <= 0.0 {
          particles := particles[..i] + particles[i + 1..];
        } else {
          particles := particles[i := p];
          assert particles == ps[..i] + [p] + Survivors(ps[i + 1..]);
        }
      }
    }

    /** The food step of a frame: findIndex, splice, particles, growth and respawn. */
    method EatFood(roll: Roll) returns (signal: Signal)
      requires roll.Valid() && 0 < |snake|
      modifies this`snake, this`foods, this`foodCounter, this`particles
      ensures (Current(), signal) == Feed(old(Current()), width, height, roll)
    {
      signal := Quiet;
      var k := EatenIndex(snake[0], foods);
      if k != -1 {
        var eaten := foods[k];
        foods := foods[..k] + foods[k + 1..];
        CreateParticles(eaten.position, roll.spark);
        if eaten.kind == SPECIAL {
          signal := AteSpecial;
          SpawnFood(NORMAL, roll);
        } else {
          signal := AteNormal;
          // The counter update is deferred past this frame (see ReplacementKind).
          var kind := ReplacementKind(foodCounter);
          foodCounter := foodCounter + 1;
          snake := snake + [snake[|snake| - 1]];
          SpawnFood(kind, roll);
        }
      }
    }

    /** setDirection: the buffered direction, changed only along an axis at rest. */
    method SetDirection(x: real, y: real)
      requires Valid()
      modifies this`pending
      ensures Valid()
      ensures pending == Steer(direction, old(pending), x, y)
    {
      if x != 0.0 && direction.x == 0.0 {
        pending := Point(x, 0.0);
      }
      if y != 0.0 && direction.y == 0.0 {
        pending := Point(0.0, y);
      }
      SteerKeepsDirectionsOk(direction, old(pending), x, y);
    }

    /**
     * The arrow-key handler: ignored unless PLAYING, otherwise the same rule
     * as `SetDirection` with the unit vector of the key.
     */
    method HandleKey(state: GameState, key: Key)
      requires Valid()
      modifies this`pending
      ensures Valid()
      ensures pending == if state == PLAYING then Steer(direction, old(pending), KeyVector(key).x, KeyVector(key).y)
                         else old(pending)
    {
      if state != PLAYING {
        return;
      }
      match key {
        case ArrowUp =>
          if direction.y == 0.0 { pending := Point(0.0, -1.0); }
        case ArrowDown =>
          if direction.y == 0.0 { pending := Point(0.0, 1.0); }
        case ArrowLeft =>
          if direction.x == 0.0 { pending := Point(-1.0, 0.0); }
        case ArrowRight =>
          if direction.x == 0.0 { pending := Point(1.0, 0.0); }
        case OtherKey =>
      }
      SteerKeepsDirectionsOk(direction, old(pending), KeyVector(key).x, KeyVector(key).y);
    }

    /**
     * update: one animation frame, returning what it reports through the
     * callbacks (game over, a normal pickup, a special pickup).
     */
    method Tick(state: GameState, speed: real, root: real -> real, roll: Roll) returns (signal: Signal)
      requires Valid() && IsSqrt(root) && roll.Valid()
      modifies this
      ensures Valid() && width == old(width) && height == old(height)
      ensures (Current(), signal) == Update(old(Current()), state, width, height, speed, root, roll)
    {
      UpdateKeepsInvariant(Current(), state, width, height, speed, root, roll);
      signal := Quiet;
      if state == PLAYING {
        signal := PlayFrame(speed, root, roll);
        if signal == GameOver {
          return;
        }
      }
      UpdateParticles();
    }

    /** The gameplay half of a frame: commit, move, wrap, the collision test and the food step. */
    method PlayFrame(speed: real, root: real -> real, roll: Roll) returns (signal: Signal)
      requires IsSqrt(root) && roll.Valid() && 0 < |snake|
      modifies this`snake, this`direction, this`foods, this`foodCounter, this`particles
      ensures (Current(), signal) == Play(old(Current()), width, height, speed, root, roll)
    {
      direction := pending;
      var moved := ResolveSnakeMovement(root, snake, direction, speed);
      snake := moved[0 := Wrap(moved[0], width, height)];
      var hit := CheckSelfCollision(snake, GRACE_PERIOD);
      if hit {
        return GameOver;
      }
      signal := EatFood(roll);
    }
  }
}
