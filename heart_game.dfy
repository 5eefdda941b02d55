/**
 * The heart-collecting mini-game: a character moved by keys or touch drags
 * inside the viewport, eight hearts laid out at mount, a collision pass that
 * collects every heart within reach, and a win flag that is set once.
 *
 * React's state variables become the fields of class `Game`; each input
 * handler is a method, and the collision and win effects run explicitly at
 * the end of the handlers that change the character position. The viewport
 * size and the random draws are parameters of the operations that read them.
 */
module HeartGame {
  import opened Wrappers

  datatype Point = Point(x: real, y: real)

  datatype Heart = Heart(id: int, x: real, y: real)

  const HeartsToWin: nat := 5
  const CharacterSize: real := 60.0
  const HeartSize: real := 40.0
  const MoveSpeed: real := 15.0
  const HeartCount: nat := 8
  const StartPos: Point := Point(50.0, 50.0)

  /** (CharacterSize / 2 + HeartSize / 2) squared: the collision effect compares the distance against 50. */
  const ReachSquared: real := 2500.0

  // ---------------------------------------------------------------------
  // Movement
  // ---------------------------------------------------------------------

  datatype Direction = Up | Down | Left | Right

  /** The switch on e.key: arrow keys and WASD in either case. */
  function KeyDirection(key: string): (d: Option<Direction>)
    ensures d == Some(Up) <==> key in {"ArrowUp", "w", "W"}
    ensures d == Some(Down) <==> key in {"ArrowDown", "s", "S"}
    ensures d == Some(Left) <==> key in {"ArrowLeft", "a", "A"}
    ensures d == Some(Right) <==> key in {"ArrowRight", "d", "D"}
  {
    if key in {"ArrowUp", "w", "W"} then Some(Up)
    else if key in {"ArrowDown", "s", "S"} then Some(Down)
    else if key in {"ArrowLeft", "a", "A"} then Some(Left)
    else if key in {"ArrowRight", "d", "D"} then Some(Right)
    else None
  }

  function Max(a: real, b: real): real { if a >= b then a else b }

  function Min(a: real, b: real): real { if a <= b then a else b }

  /** The character lies inside the viewport of the given size. */
  predicate InBounds(p: Point, width: real, height: real)
  {
    0.0 <= p.x <= width - CharacterSize && 0.0 <= p.y <= height - CharacterSize
  }

  /** The position after one key press, for a viewport of the given size. */
  function KeyStep(p: Point, key: string, width: real, height: real): (q: Point)
    ensures KeyDirection(key) == None ==> q == p
    ensures KeyDirection(key) == Some(Up) ==>
      q.x == p.x && (p.y >= MoveSpeed ==> q.y == p.y - MoveSpeed) && (p.y < MoveSpeed ==> q.y == 0.0)
    ensures KeyDirection(key) == Some(Down) ==>
      q.x == p.x &&
      (p.y + MoveSpeed <= height - CharacterSize ==> q.y == p.y + MoveSpeed) &&
      (p.y + MoveSpeed > height - CharacterSize ==> q.y == height - CharacterSize)
    ensures KeyDirection(key) == Some(Left) ==>
      q.y == p.y && (p.x >= MoveSpeed ==> q.x == p.x - MoveSpeed) && (p.x < MoveSpeed ==> q.x == 0.0)
    ensures KeyDirection(key) == Some(Right) ==>
      q.y == p.y &&
      (p.x + MoveSpeed <= width - CharacterSize ==> q.x == p.x + MoveSpeed) &&
      (p.x + MoveSpeed > width - CharacterSize ==> q.x == width - CharacterSize)
  {
    match KeyDirection(key)
    case Some(Up) => Point(p.x, Max(0.0, p.y - MoveSpeed))
    case Some(Down) => Point(p.x, Min(height - CharacterSize, p.y + MoveSpeed))
    case Some(Left) => Point(Max(0.0, p.x - MoveSpeed), p.y)
    case Some(Right) => Point(Min(width - CharacterSize, p.x + MoveSpeed), p.y)
    case None => p
  }

  /** A key press keeps an in-bounds character in bounds. */
  lemma KeyStepKeepsBounds(p: Point, key: string, width: real, height: real)
    requires width >= CharacterSize && height >= CharacterSize
    requires InBounds(p, width, height)
    ensures InBounds(KeyStep(p, key, width, height), width, height)
    ensures KeyDirection(key).Some? ==>
      (KeyStep(p, key, width, height).x == p.x) != (KeyStep(p, key, width, height).y == p.y) ||
      KeyStep(p, key, width, height) == p
  {
  }

  /** Math.max(0, Math.min(hi, v)). */
  function Clamp(v: real, hi: real): (r: real)
    ensures hi >= 0.0 ==> 0.0 <= r <= hi
    ensures 0.0 <= v <= hi ==> r == v
    ensures v < 0.0 ==> r == 0.0
    ensures hi < 0.0 ==> r == 0.0
    ensures hi >= 0.0 && v > hi ==> r == hi
  {
    Max(0.0, Min(hi, v))
  }

  /** The position after a touch drag from `from` to `to`: half the delta, then clamped. */
  function TouchStep(p: Point, from: Point, to: Point, width: real, height: real): (q: Point)
    ensures width >= CharacterSize && height >= CharacterSize ==> InBounds(q, width, height)
    ensures InBounds(Point(p.x + (to.x - from.x) * 0.5, p.y + (to.y - from.y) * 0.5), width, height) ==>
      q == Point(p.x + (to.x - from.x) * 0.5, p.y + (to.y - from.y) * 0.5)
    ensures var nx, hi := p.x + (to.x - from.x) * 0.5, width - CharacterSize;
      (0.0 <= nx <= hi ==> q.x == nx) && (nx < 0.0 || hi < 0.0 ==> q.x == 0.0) &&
      (hi >= 0.0 && nx > hi ==> q.x == hi)
    ensures var ny, hi := p.y + (to.y - from.y) * 0.5, height - CharacterSize;
      (0.0 <= ny <= hi ==> q.y == ny) && (ny < 0.0 || hi < 0.0 ==> q.y == 0.0) &&
      (hi >= 0.0 && ny > hi ==> q.y == hi)
  {
    Point(Clamp(p.x + (to.x - from.x) * 0.5, width - CharacterSize),
          Clamp(p.y + (to.y - from.y) * 0.5, height - CharacterSize))
  }

  // ---------------------------------------------------------------------
  // Hearts and the collision pass
  // ---------------------------------------------------------------------

  /**
   * The collision effect's test: the distance between the stored top-left
   * coordinates of character and heart (not their centres) is below 50.
   */
  predicate Colliding(c: Point, h: Heart)
    ensures Colliding(c, h) ==> -50.0 < c.x - h.x < 50.0 && -50.0 < c.y - h.y < 50.0
    ensures c.x == h.x && c.y == h.y ==> Colliding(c, h)
  {
    (c.x - h.x) * (c.x - h.x) + (c.y - h.y) * (c.y - h.y) < ReachSquared
  }

  predicate NoneColliding(hearts: seq<Heart>, c: Point)
  {
    forall h :: h in hearts ==> !Colliding(c, h)
  }

  function Ids(s: seq<Heart>): set<int>
  {
    if s == [] then {} else Ids(s[..|s| - 1]) + {s[|s| - 1].id}
  }

  predicate DistinctIds(s: seq<Heart>)
  {
    s == [] || (DistinctIds(s[..|s| - 1]) && s[|s| - 1].id !in Ids(s[..|s| - 1]))
  }

  /** The hearts out of reach of c, in their original order. */
  function Survivors(s: seq<Heart>, c: Point): seq<Heart>
  {
    if s == [] then []
    else Survivors(s[..|s| - 1], c) + (if Colliding(c, s[|s| - 1]) then [] else [s[|s| - 1]])
  }

  /** The ids of the hearts within reach of c. */
  function CollidedIds(s: seq<Heart>, c: Point): set<int>
  {
    if s == [] then {}
    else CollidedIds(s[..|s| - 1], c) + (if Colliding(c, s[|s| - 1]) then {s[|s| - 1].id} else {})
  }

  /** The number of hearts within reach of c. */
  function CountCollisions(s: seq<Heart>, c: Point): nat
  {
    if s == [] then 0
    else CountCollisions(s[..|s| - 1], c) + (if Colliding(c, s[|s| - 1]) then 1 else 0)
  }

  /** prev.filter(h => h.id not in ids). */
  function WithoutIds(s: seq<Heart>, ids: set<int>): seq<Heart>
  {
    if s == [] then []
    else WithoutIds(s[..|s| - 1], ids) + (if s[|s| - 1].id in ids then [] else [s[|s| - 1]])
  }

  lemma {:induction false} WithoutIdsTwice(s: seq<Heart>, a: set<int>, b: set<int>)
    ensures WithoutIds(WithoutIds(s, a), b) == WithoutIds(s, a + b)
  {
    if s != [] {
      var t, h := s[..|s| - 1], s[|s| - 1];
      WithoutIdsTwice(t, a, b);
      var w := WithoutIds(t, a);
      if h.id !in a {
        assert (w + [h])[..|w + [h]| - 1] == w;
      } else {
        assert w + [] == w;
      }
    }
  }

  lemma {:induction false} WithoutIrrelevantId(s: seq<Heart>, ids: set<int>, d: int)
    requires d !in Ids(s)
    ensures WithoutIds(s, ids + {d}) == WithoutIds(s, ids)
  {
    if s != [] {
      WithoutIrrelevantId(s[..|s| - 1], ids, d);
    }
  }

  lemma {:induction false} CollidedIdsAreIds(s: seq<Heart>, c: Point)
    ensures CollidedIds(s, c) <= Ids(s)
  {
    if s != [] {
      CollidedIdsAreIds(s[..|s| - 1], c);
    }
  }

  /**
   * With distinct ids, filtering by the ids of the colliding hearts removes
   * exactly the colliding hearts.
   */
  lemma {:induction false} FilterByIdIsSurvivors(s: seq<Heart>, c: Point)
    requires DistinctIds(s)
    ensures WithoutIds(s, CollidedIds(s, c)) == Survivors(s, c)
  {
    if s != [] {
      var t, h := s[..|s| - 1], s[|s| - 1];
      FilterByIdIsSurvivors(t, c);
      CollidedIdsAreIds(t, c);
      if Colliding(c, h) {
        WithoutIrrelevantId(t, CollidedIds(t, c), h.id);
      } else {
        assert CollidedIds(s, c) == CollidedIds(t, c);
      }
    }
  }

  /** Every heart either survives or is counted as collected. */
  lemma {:induction false} SurvivorsCount(s: seq<Heart>, c: Point)
    ensures |Survivors(s, c)| + CountCollisions(s, c) == |s|
  {
    if s != [] {
      SurvivorsCount(s[..|s| - 1], c);
    }
  }

  /** The survivors are exactly the hearts of s out of reach of c. */
  lemma {:induction false} SurvivorsMembers(s: seq<Heart>, c: Point, h: Heart)
    ensures h in Survivors(s, c) <==> h in s && !Colliding(c, h)
  {
    if s != [] {
      var t := s[..|s| - 1];
      SurvivorsMembers(t, c, h);
      assert s == t + [s[|s| - 1]];
    }
  }

  /** The pass keeps order: it distributes over concatenation. */
  lemma {:induction false} SurvivorsAppend(a: seq<Heart>, b: seq<Heart>, c: Point)
    ensures Survivors(a + b, c) == Survivors(a, c) + Survivors(b, c)
  {
    if b == [] {
      assert a + b == a;
    } else {
      var t := b[..|b| - 1];
      SurvivorsAppend(a, t, c);
      assert (a + b)[..|a + b| - 1] == a + t;
    }
  }

  lemma {:induction false} SurvivorsIds(s: seq<Heart>, c: Point)
    requires DistinctIds(s)
    ensures Ids(Survivors(s, c)) <= Ids(s)
    ensures DistinctIds(Survivors(s, c))
  {
    if s != [] {
      var t, h := s[..|s| - 1], s[|s| - 1];
      SurvivorsIds(t, c);
      var u := Survivors(t, c);
      if !Colliding(c, h) {
        assert (u + [h])[..|u + [h]| - 1] == u;
      } else {
        assert u + [] == u;
      }
    }
  }

  /** After a pass, no remaining heart is within reach: a second pass does nothing. */
  lemma SurvivorsSettled(s: seq<Heart>, c: Point)
    ensures NoneColliding(Survivors(s, c), c)
    ensures NoneColliding(s, c) ==> Survivors(s, c) == s
  {
    forall h | h in Survivors(s, c)
      ensures !Colliding(c, h)
    {
      SurvivorsMembers(s, c, h);
    }
    if NoneColliding(s, c) {
      SurvivorsOfNoneColliding(s, c);
    }
  }

  lemma {:induction false} SurvivorsOfNoneColliding(s: seq<Heart>, c: Point)
    requires NoneColliding(s, c)
    ensures Survivors(s, c) == s
  {
    if s != [] {
      var t := s[..|s| - 1];
      assert forall h :: h in t ==> h in s;
      SurvivorsOfNoneColliding(t, c);
      assert s[|s| - 1] in s;
      assert t + [s[|s| - 1]] == s;
    }
  }

  /**
   * The collision effect: for every heart of the snapshot that is within
   * reach, filter its id out of the list and add one to the score.
   */
  method CollisionPass(hearts: seq<Heart>, c: Point) returns (remaining: seq<Heart>, collected: nat)
    ensures remaining == WithoutIds(hearts, CollidedIds(hearts, c))
    ensures collected == CountCollisions(hearts, c)
    ensures DistinctIds(hearts) ==> remaining == Survivors(hearts, c)
    ensures DistinctIds(hearts) ==> |remaining| + collected == |hearts|
  {
    remaining, collected := hearts, 0;
    assert hearts[..0] == [];
    WithoutNothing(hearts);
    for i := 0 to |hearts|
      invariant remaining == WithoutIds(hearts, CollidedIds(hearts[..i], c))
      invariant collected == CountCollisions(hearts[..i], c)
    {
      PassStep(hearts, i, c);
      ghost var done := CollidedIds(hearts[..i], c);
      if Colliding(c, hearts[i]) {
        WithoutIdsTwice(hearts, done, {hearts[i].id});
        remaining := WithoutIds(remaining, {hearts[i].id});
        collected := collected + 1;
        assert CollidedIds(hearts[..i + 1], c) == done + {hearts[i].id};
      } else {
        assert CollidedIds(hearts[..i + 1], c) == done;
      }
    }
    assert hearts[..|hearts|] == hearts;
    if DistinctIds(hearts) {
      FilterByIdIsSurvivors(hearts, c);
      SurvivorsCount(hearts, c);
    }
  }

  lemma PassStep(s: seq<Heart>, i: nat, c: Point)
    requires i < |s|
    ensures CollidedIds(s[..i + 1], c) ==
      CollidedIds(s[..i], c) + (if Colliding(c, s[i]) then {s[i].id} else {})
    ensures CountCollisions(s[..i + 1], c) == CountCollisions(s[..i], c) + (if Colliding(c, s[i]) then 1 else 0)
  {
    assert s[..i + 1][..i] == s[..i];
  }

  lemma {:induction false} WithoutNothing(s: seq<Heart>)
    ensures WithoutIds(s, {}) == s
  {
    if s != [] {
      WithoutNothing(s[..|s| - 1]);
      assert s[..|s| - 1] + [s[|s| - 1]] == s;
    }
  }

  // ---------------------------------------------------------------------
  // Heart layout
  // ---------------------------------------------------------------------

  /** The i-th generated heart: x from draw 2i, y from draw 2i+1, inset by 50. */
  function LayoutHeart(width: real, height: real, rnd: seq<real>, i: nat): Heart
    requires 2 * i + 1 < |rnd|
  {
    Heart(i, rnd[2 * i] * (width - HeartSize - 100.0) + 50.0,
             rnd[2 * i + 1] * (height - HeartSize - 100.0) + 50.0)
  }

  /** The layout generateHearts produces from the first 16 draws. */
  function Layout(width: real, height: real, rnd: seq<real>): (hs: seq<Heart>)
    requires |rnd| >= 2 * HeartCount
    ensures |hs| == HeartCount
  {
    seq(HeartCount, i requires 0 <= i < HeartCount => LayoutHeart(width, height, rnd, i))
  }

  lemma ScaleBound(r: real, d: real)
    requires 0.0 <= r < 1.0 && d >= 0.0
    ensures 0.0 <= r * d <= d
  {
  }

  /** Hearts numbered by position have distinct ids, exactly 0..n-1 for the first n. */
  lemma {:induction false} IndexedIds(s: seq<Heart>, n: nat)
    requires n <= |s|
    requires forall i :: 0 <= i < |s| ==> s[i].id == i
    ensures DistinctIds(s[..n])
    ensures forall k :: k in Ids(s[..n]) <==> 0 <= k < n
  {
    if n > 0 {
      IndexedIds(s, n - 1);
      assert s[..n][..n - 1] == s[..n - 1];
    }
  }

  /** generateHearts produces eight hearts with ids 0..7. */
  lemma LayoutIds(width: real, height: real, rnd: seq<real>)
    requires |rnd| >= 2 * HeartCount
    ensures DistinctIds(Layout(width, height, rnd))
    ensures forall k :: k in Ids(Layout(width, height, rnd)) <==> 0 <= k < HeartCount
  {
    var hs := Layout(width, height, rnd);
    IndexedIds(hs, HeartCount);
    assert hs[..HeartCount] == hs;
  }

  /**
   * Each generated heart is inset by 50 from the top-left corner and by 90
   * from the bottom-right one when the viewport is at least 140 wide and high.
   */
  lemma LayoutInset(width: real, height: real, rnd: seq<real>, i: nat)
    requires 2 * i + 1 < |rnd|
    requires 0.0 <= rnd[2 * i] < 1.0 && 0.0 <= rnd[2 * i + 1] < 1.0
    requires width >= 140.0 && height >= 140.0
    ensures 50.0 <= LayoutHeart(width, height, rnd, i).x <= width - 90.0
    ensures 50.0 <= LayoutHeart(width, height, rnd, i).y <= height - 90.0
  {
    var h := LayoutHeart(width, height, rnd, i);
    var rx, ry := rnd[2 * i], rnd[2 * i + 1];
    var dx, dy := width - 140.0, height - 140.0;
    assert h.x == rx * dx + 50.0 && h.y == ry * dy + 50.0;
    ScaleBound(rx, dx);
    ScaleBound(ry, dy);
  }

  /** The generateHearts loop: push eight hearts. */
  method GenerateHearts(width: real, height: real, rnd: seq<real>) returns (hs: seq<Heart>)
    requires |rnd| >= 2 * HeartCount
    ensures hs == Layout(width, height, rnd)
  {
    hs := [];
    for i := 0 to HeartCount
      invariant hs == Layout(width, height, rnd)[..i]
    {
      hs := hs + [LayoutHeart(width, height, rnd, i)];
    }
  }

  // ---------------------------------------------------------------------
  // The component state machine
  // ---------------------------------------------------------------------

  class Game {
    var pos: Point
    var hearts: seq<Heart>
    var score: nat
    var gameWon: bool
    var gameStarted: bool
    var touchStart: Option<Point>
    /** How many times the win dialog has been shown. */
    var winDialogs: nat
    /** The host's onClose has been called after the win dialog was dismissed. */
    var closeRequested: bool

    /** What holds between a position update and the effects after it. */
    ghost predicate Consistent()
      reads this
    {
      |hearts| + score == HeartCount &&
      DistinctIds(hearts) &&
      (gameWon <==> score >= HeartsToWin) &&
      (gameWon ==> NoneColliding(hearts, pos)) &&
      winDialogs == (if gameWon then 1 else 0) &&
      (closeRequested ==> gameWon)
    }

    /** The state after every event: no remaining heart is within reach. */
    ghost predicate Valid()
      reads this
    {
      Consistent() && NoneColliding(hearts, pos)
    }

    /** Mount: the initial state, generateHearts, then the first collision and win effects. */
    constructor (width: real, height: real, rnd: seq<real>)
      requires |rnd| >= 2 * HeartCount
      ensures Valid()
      ensures pos == StartPos && !gameStarted && touchStart == None && !closeRequested
      ensures hearts == Survivors(Layout(width, height, rnd), StartPos)
      ensures score == CountCollisions(Layout(width, height, rnd), StartPos)
    {
      pos := StartPos;
      hearts := [];
      score := 0;
      gameWon := false;
      gameStarted := false;
      touchStart := None;
      winDialogs := 0;
      closeRequested := false;
      new;
      var layout := GenerateHearts(width, height, rnd);
      LayoutIds(width, height, rnd);
      hearts := layout;
      RunEffects();
    }

    /**
     * The collision effect followed by the win effect. The win dialog is
     * shown once, however many hearts one pass collects.
     */
    method RunEffects()
      requires Consistent()
      modifies this
      ensures Valid()
      ensures pos == old(pos) && gameStarted == old(gameStarted)
      ensures touchStart == old(touchStart) && closeRequested == old(closeRequested)
      ensures old(gameWon) ==> hearts == old(hearts) && score == old(score) && gameWon
      ensures !old(gameWon) ==> hearts == Survivors(old(hearts), pos)
      ensures !old(gameWon) ==> score == old(score) + CountCollisions(old(hearts), pos)
      ensures winDialogs == old(winDialogs) + (if !old(gameWon) && gameWon then 1 else 0)
    {
      if gameWon {
        return;
      }
      var remaining, collected := CollisionPass(hearts, pos);
      SurvivorsIds(hearts, pos);
      SurvivorsSettled(hearts, pos);
      assert remaining == Survivors(hearts, pos) && |remaining| + collected == |hearts|;
      assert DistinctIds(remaining) && NoneColliding(remaining, pos);
      hearts := remaining;
      score := score + collected;
      assert |hearts| + score == HeartCount;
      if score >= HeartsToWin && !gameWon {
        gameWon := true;
        winDialogs := winDialogs + 1;
      }
    }

    /** handleKeyPress for a keydown event, then the effects if the position was replaced. */
    method HandleKeyPress(key: string, width: real, height: real)
      requires Valid()
      modifies this
      ensures Valid()
      ensures old(gameWon) ==> unchanged(this)
      ensures !old(gameWon) ==> gameStarted && pos == KeyStep(old(pos), key, width, height)
      ensures !old(gameWon) ==> hearts == Survivors(old(hearts), pos)
      ensures !old(gameWon) ==> score == old(score) + CountCollisions(old(hearts), pos)
      ensures winDialogs == old(winDialogs) + (if !old(gameWon) && gameWon then 1 else 0)
      ensures touchStart == old(touchStart) && closeRequested == old(closeRequested)
    {
      if gameWon {
        return;
      }
      if !gameStarted {
        gameStarted := true;
      }
      pos := KeyStep(pos, key, width, height);
      if KeyDirection(key).Some? {
        RunEffects();
      } else {
        SurvivorsSettled(hearts, pos);
        SurvivorsCount(hearts, pos);
      }
    }

    /** handleTouchStart: remember where the finger went down. */
    method HandleTouchStart(p: Point)
      requires Valid()
      modifies this
      ensures Valid()
      ensures old(gameWon) ==> unchanged(this)
      ensures !old(gameWon) ==> gameStarted && touchStart == Some(p)
      ensures pos == old(pos) && hearts == old(hearts) && score == old(score)
      ensures gameWon == old(gameWon) && winDialogs == old(winDialogs)
      ensures closeRequested == old(closeRequested)
    {
      if gameWon {
        return;
      }
      if !gameStarted {
        gameStarted := true;
      }
      touchStart := Some(p);
    }

    /** handleTouchMove: move by half the drag since the last touch point, then the effects. */
    method HandleTouchMove(p: Point, width: real, height: real)
      requires Valid()
      modifies this
      ensures Valid()
      ensures old(touchStart).None? || old(gameWon) ==> unchanged(this)
      ensures old(touchStart).Some? && !old(gameWon) ==>
        pos == TouchStep(old(pos), old(touchStart).value, p, width, height) &&
        touchStart == Some(p) &&
        hearts == Survivors(old(hearts), pos) &&
        score == old(score) + CountCollisions(old(hearts), pos)
      ensures winDialogs == old(winDialogs) + (if !old(gameWon) && gameWon then 1 else 0)
      ensures gameStarted == old(gameStarted) && closeRequested == old(closeRequested)
    {
      if touchStart.None? || gameWon {
        return;
      }
      pos := TouchStep(pos, touchStart.value, p, width, height);
      touchStart := Some(p);
      RunEffects();
    }

    /** handleTouchEnd: forget the touch point. */
    method HandleTouchEnd()
      requires Valid()
      modifies this
      ensures Valid()
      ensures touchStart == None
      ensures pos == old(pos) && hearts == old(hearts) && score == old(score)
      ensures gameWon == old(gameWon) && gameStarted == old(gameStarted)
      ensures winDialogs == old(winDialogs) && closeRequested == old(closeRequested)
    {
      touchStart := None;
    }

    /** The win dialog was dismissed: its `then` callback calls the host's onClose. */
    method WinDialogDismissed()
      requires Valid() && winDialogs > 0
      modifies this
      ensures Valid()
      ensures closeRequested
      ensures pos == old(pos) && hearts == old(hearts) && score == old(score)
      ensures gameWon == old(gameWon) && gameStarted == old(gameStarted)
      ensures touchStart == old(touchStart) && winDialogs == old(winDialogs)
    {
      closeRequested := true;
    }
  }

  /** A heart at (55, 55) is within reach of a character at (50, 50). */
  method ScenarioSingleCollision()
  {
    var remaining, collected := CollisionPass([Heart(0, 55.0, 55.0)], StartPos);
    assert Colliding(StartPos, Heart(0, 55.0, 55.0));
    assert DistinctIds([Heart(0, 55.0, 55.0)]) by {
      assert [Heart(0, 55.0, 55.0)][..0] == [];
    }
    assert collected == 1 && remaining == [];
  }
}
