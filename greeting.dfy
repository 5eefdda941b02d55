/**
 * The greeting flow of the proposal page: the rejection counter, the
 * escalating No-button label, the growing Yes button, the dialogs shown
 * once under their shown-flags, the celebration gif carousel and the
 * floating sprites placed on hover.
 *
 * React's state variables become the fields of class `Page`; each event
 * handler is a method, and the effects that React runs after a render are
 * run explicitly at the end of the handler that changes their dependencies.
 * A dialog is recorded as an entry in the `dialogs` log.
 */
module Greeting {
  import opened Wrappers

  /** The No-button labels, in escalation order. */
  const Phrases: seq<string> := [
    "No",
    "Are you sure?",
    "Really sure?",
    "Think again!",
    "Pretty please?",
    "Have a heart! \U{2764}\U{FE0F}",
    "I'm not giving up!",
    "Give me a chance!"
  ]

  /** Number of rejection gifs (NoGifs) and of celebration gifs (YesGifs). */
  const NoGifCount: nat := 10
  const YesGifCount: nat := 7

  /** The rejection count from which the rejection gifs cycle and acceptance sticks. */
  const Threshold: nat := 4

  /** The exact rejection count at which the milestone dialog is shown. */
  const MilestoneCount: nat := 25

  /** Number of floating sprites placed on each hover. */
  const SpriteCount: nat := 10

  /** The minimum sprite separation (15 viewport units), squared. */
  const MinDistanceSquared: real := 225.0

  // ---------------------------------------------------------------------
  // Pure derivations from the state
  // ---------------------------------------------------------------------

  /** getNoButtonText: the phrase for the count, clamped to the last phrase. */
  function NoButtonText(noCount: nat): (r: string)
    ensures noCount < |Phrases| ==> r == Phrases[noCount]
    ensures noCount >= |Phrases| - 1 ==> r == "Give me a chance!"
    ensures r in Phrases
  {
    Phrases[if noCount < |Phrases| - 1 then noCount else |Phrases| - 1]
  }

  /** The label the No button shows: "No" at count 0, else getNoButtonText. */
  function NoButtonLabel(noCount: nat): (r: string)
    ensures r == NoButtonText(noCount)
    ensures noCount == 0 ==> r == "No"
  {
    if noCount == 0 then "No" else NoButtonText(noCount)
  }

  /** The font size of the Yes button. */
  function YesButtonSize(noCount: nat): (r: nat)
    ensures r >= 16 && r % 16 == 0
  {
    noCount * 16 + 16
  }

  /** The Yes button grows by 16 with every rejection, so it strictly increases. */
  lemma YesButtonGrows(m: nat, n: nat)
    requires m < n
    ensures YesButtonSize(m) < YesButtonSize(n)
    ensures YesButtonSize(m + 1) == YesButtonSize(m) + 16
  {
  }

  /** The NoGifs index shown after a No click that brings the count to nextCount. */
  function RejectionGifIndex(nextCount: nat): (r: nat)
    requires nextCount >= Threshold
    ensures r < NoGifCount
    ensures nextCount < Threshold + NoGifCount ==> r == nextCount - Threshold
  {
    (nextCount - Threshold) % NoGifCount
  }

  /** Each further rejection advances the rejection gif by one, wrapping after the last. */
  lemma RejectionGifCycles(n: nat)
    requires n >= Threshold
    ensures RejectionGifIndex(n + 1) == (RejectionGifIndex(n) + 1) % NoGifCount
    ensures RejectionGifIndex(n + NoGifCount) == RejectionGifIndex(n)
  {
  }

  /** One tick of the celebration carousel. */
  function NextCelebrationIndex(i: nat): (r: nat)
    ensures r < YesGifCount
    ensures i + 1 < YesGifCount ==> r == i + 1
    ensures i + 1 == YesGifCount ==> r == 0
  {
    (i + 1) % YesGifCount
  }

  // ---------------------------------------------------------------------
  // Floating sprites and the spacing rule
  // ---------------------------------------------------------------------

  /** A sprite position in viewport units (vh for top, vw for left). */
  datatype Placement = Placement(top: real, left: real)

  datatype Sprite = HeartSprite | SadSprite

  datatype FloatingGif = FloatingGif(id: string, sprite: Sprite, pos: Placement, duration: real)

  /** Every draw of the random source lies in [0, 1). */
  predicate UnitDraws(rnd: seq<real>)
  {
    forall i :: 0 <= i < |rnd| ==> 0.0 <= rnd[i] < 1.0
  }

  /** Dropping draws from the front keeps the rest in [0, 1). */
  lemma UnitDrawsDrop(rnd: seq<real>, n: nat)
    requires UnitDraws(rnd) && n <= |rnd|
    ensures UnitDraws(rnd[n..])
  {
    forall i | 0 <= i < |rnd| - n
      ensures 0.0 <= rnd[n..][i] < 1.0
    {
      assert rnd[n..][i] == rnd[n + i];
    }
  }

  /** The square of the distance generateRandomPositionWithSpacing compares against 15. */
  function SquaredDistance(p: Placement, q: Placement): real
  {
    (p.left - q.left) * (p.left - q.left) + (p.top - q.top) * (p.top - q.top)
  }

  /** q is at least the minimum distance away from every existing position. */
  predicate Spaced(existing: seq<Placement>, q: Placement)
  {
    forall i :: 0 <= i < |existing| ==> SquaredDistance(existing[i], q) >= MinDistanceSquared
  }

  /** Both coordinates lie in [0, 90). */
  predicate InField(p: Placement)
  {
    0.0 <= p.top < 90.0 && 0.0 <= p.left < 90.0
  }

  /** The j-th candidate of a do-while retry: two draws, top then left, scaled by 90. */
  function Candidate(rnd: seq<real>, j: nat): (p: Placement)
    requires 2 * j + 1 < |rnd|
    ensures UnitDraws(rnd) ==> InField(p)
  {
    Placement(rnd[2 * j] * 90.0, rnd[2 * j + 1] * 90.0)
  }

  /**
   * The index of the first candidate, from the j-th on, that is spaced from
   * every existing position; `None` when no candidate the draws allow is.
   */
  function FirstSpaced(existing: seq<Placement>, rnd: seq<real>, j: nat): Option<nat>
    decreases |rnd| - 2 * j
  {
    if 2 * j + 1 >= |rnd| then None
    else if Spaced(existing, Candidate(rnd, j)) then Some(j)
    else FirstSpaced(existing, rnd, j + 1)
  }

  /**
   * FirstSpaced finds the first spaced candidate from the j-th on: the one it
   * names is spaced and every candidate between j and it is too close; when
   * it names none, every candidate the draws allow from j on is too close.
   */
  lemma {:induction false} FirstSpacedIsFirst(existing: seq<Placement>, rnd: seq<real>, j: nat)
    ensures FirstSpaced(existing, rnd, j).Some? ==>
      var k := FirstSpaced(existing, rnd, j).value;
      j <= k && 2 * k + 1 < |rnd| && Spaced(existing, Candidate(rnd, k)) &&
      forall i :: j <= i < k ==> !Spaced(existing, Candidate(rnd, i))
    ensures FirstSpaced(existing, rnd, j).None? ==>
      forall i :: j <= i && 2 * i + 1 < |rnd| ==> !Spaced(existing, Candidate(rnd, i))
    decreases |rnd| - 2 * j
  {
    if 2 * j + 1 < |rnd| && !Spaced(existing, Candidate(rnd, j)) {
      FirstSpacedIsFirst(existing, rnd, j + 1);
    }
  }

  /**
   * generateRandomPositionWithSpacing: draw candidates until one is spaced
   * from every existing position. `tries` is the number of candidates drawn.
   * The do-while loop there retries without bound; here the draws are
   * finite, and `None` means the supplied draws ran out before an acceptable
   * candidate came up.
   */
  method GeneratePosition(existing: seq<Placement>, rnd: seq<real>)
    returns (p: Option<Placement>, tries: nat)
    requires UnitDraws(rnd)
    ensures 2 * tries <= |rnd|
    ensures p.Some? ==> tries >= 1 && p.value == Candidate(rnd, tries - 1)
    ensures p.Some? ==> Spaced(existing, p.value) && InField(p.value)
    ensures p.Some? ==> forall j :: 0 <= j < tries - 1 ==> !Spaced(existing, Candidate(rnd, j))
    ensures p.None? ==> 2 * tries + 1 >= |rnd|
    ensures p.None? ==> forall j :: 0 <= j < tries ==> !Spaced(existing, Candidate(rnd, j))
    ensures p.Some? <==> FirstSpaced(existing, rnd, 0).Some?
    ensures p.Some? ==> tries == FirstSpaced(existing, rnd, 0).value + 1
  {
    tries := 0;
    while 2 * tries + 1 < |rnd|
      invariant 2 * tries <= |rnd|
      invariant forall j :: 0 <= j < tries ==> !Spaced(existing, Candidate(rnd, j))
      invariant FirstSpaced(existing, rnd, tries) == FirstSpaced(existing, rnd, 0)
    {
      var c := Candidate(rnd, tries);
      tries := tries + 1;
      if Spaced(existing, c) {
        return Some(c), tries;
      }
    }
    return None, tries;
  }

  /** The decimal digit for i < 10. */
  function Digit(i: nat): (c: char)
    requires i < 10
    ensures '0' <= c <= '9'
  {
    (('0' as int) + i) as char
  }

  /** The id of the i-th sprite: heart-i or sad-i. */
  function SpriteId(sprite: Sprite, i: nat): (r: string)
    requires i < SpriteCount
    ensures |r| >= 2 && r[|r| - 1] == Digit(i)
  {
    (if sprite == HeartSprite then "heart-" else "sad-") + [Digit(i)]
  }

  lemma SpriteIdsDistinct(sprite: Sprite, i: nat, j: nat)
    requires i < SpriteCount && j < SpriteCount && i != j
    ensures SpriteId(sprite, i) != SpriteId(sprite, j)
  {
  }

  /** A correctly placed prefix of a hover's sprite list. */
  predicate PlacedPrefix(gifs: seq<FloatingGif>, sprite: Sprite)
  {
    |gifs| <= SpriteCount &&
    (forall i :: 0 <= i < |gifs| ==>
      gifs[i].id == SpriteId(sprite, i) && gifs[i].sprite == sprite &&
      InField(gifs[i].pos) && 1.0 <= gifs[i].duration < 3.0) &&
    (forall i, j :: 0 <= i < j < |gifs| ==> SquaredDistance(gifs[i].pos, gifs[j].pos) >= MinDistanceSquared)
  }

  /** A complete hover result: ten sprites, ids sprite-0..sprite-9, pairwise spaced. */
  predicate SpriteSet(gifs: seq<FloatingGif>, sprite: Sprite)
  {
    |gifs| == SpriteCount && PlacedPrefix(gifs, sprite)
  }

  /** The positions of a sprite list, in order. */
  function Positions(gifs: seq<FloatingGif>): seq<Placement>
  {
    seq(|gifs|, i requires 0 <= i < |gifs| => gifs[i].pos)
  }

  lemma PositionsAppend(gifs: seq<FloatingGif>, g: FloatingGif)
    ensures Positions(gifs + [g]) == Positions(gifs) + [g.pos]
  {
    assert forall i :: 0 <= i < |gifs| ==> Positions(gifs + [g])[i] == Positions(gifs)[i];
  }

  /** The i-th sprite of a hover, at candidate k, with the duration drawn right after it. */
  function NextGif(sprite: Sprite, rnd: seq<real>, i: nat, k: nat): FloatingGif
    requires i < SpriteCount && 2 * k + 2 < |rnd|
  {
    FloatingGif(SpriteId(sprite, i), sprite, Candidate(rnd, k), rnd[2 * k + 2] * 2.0 + 1.0)
  }

  /**
   * The sprite list the hover loop builds from the draws once the sprites in
   * `placed` are down: per remaining sprite, the first candidate spaced from
   * the positions so far, then one draw for the duration. `None` when the
   * draws run out.
   */
  function Scatter(sprite: Sprite, rnd: seq<real>, placed: seq<FloatingGif>): Option<seq<FloatingGif>>
    requires |placed| <= SpriteCount
    decreases SpriteCount - |placed|
  {
    if |placed| == SpriteCount then Some(placed)
    else match FirstSpaced(Positions(placed), rnd, 0)
      case None => None
      case Some(k) =>
        if 2 * k + 2 >= |rnd| then None
        else Scatter(sprite, rnd[2 * k + 3..], placed + [NextGif(sprite, rnd, |placed|, k)])
  }

  /** One sprite of the hover loop: the candidate at k, then the duration draw after it. */
  lemma ScatterStep(sprite: Sprite, rnd: seq<real>, placed: seq<FloatingGif>, k: nat)
    requires |placed| < SpriteCount
    requires FirstSpaced(Positions(placed), rnd, 0) == Some(k) && 2 * k + 2 < |rnd|
    ensures Scatter(sprite, rnd, placed) ==
      Scatter(sprite, rnd[2 * k + 3..], placed + [NextGif(sprite, rnd, |placed|, k)])
  {
  }

  /** The hover loop stops when no candidate is spaced or no duration draw follows it. */
  lemma ScatterStops(sprite: Sprite, rnd: seq<real>, placed: seq<FloatingGif>)
    requires |placed| < SpriteCount
    requires FirstSpaced(Positions(placed), rnd, 0).None? ||
      2 * FirstSpaced(Positions(placed), rnd, 0).value + 2 >= |rnd|
    ensures Scatter(sprite, rnd, placed) == None
  {
  }

  /** A hover succeeds only if the draws hold at least three per sprite still to place. */
  lemma {:induction false} ScatterDraws(sprite: Sprite, rnd: seq<real>, placed: seq<FloatingGif>)
    requires |placed| <= SpriteCount
    ensures Scatter(sprite, rnd, placed).Some? ==> |rnd| >= 3 * (SpriteCount - |placed|)
    decreases SpriteCount - |placed|
  {
    if |placed| < SpriteCount {
      var k := FirstSpaced(Positions(placed), rnd, 0);
      if k.Some? && 2 * k.value + 2 < |rnd| {
        ScatterStep(sprite, rnd, placed, k.value);
        ScatterDraws(sprite, rnd[2 * k.value + 3..], placed + [NextGif(sprite, rnd, |placed|, k.value)]);
      } else {
        ScatterStops(sprite, rnd, placed);
      }
    }
  }

  /** A spaced, in-field sprite with the next id and a duration in [1,3) extends a placed prefix. */
  lemma PlacedExtend(sprite: Sprite, placed: seq<FloatingGif>, g: FloatingGif)
    requires PlacedPrefix(placed, sprite) && |placed| < SpriteCount
    requires g.id == SpriteId(sprite, |placed|) && g.sprite == sprite
    requires InField(g.pos) && 1.0 <= g.duration < 3.0 && Spaced(Positions(placed), g.pos)
    ensures PlacedPrefix(placed + [g], sprite)
  {
    assert forall i :: 0 <= i < |placed| ==> Positions(placed)[i] == placed[i].pos;
  }

  /** Whatever the draws, a complete hover result is ten well-placed sprites. */
  lemma {:induction false} ScatterPlaced(sprite: Sprite, rnd: seq<real>, placed: seq<FloatingGif>)
    requires UnitDraws(rnd) && PlacedPrefix(placed, sprite)
    ensures Scatter(sprite, rnd, placed).Some? ==> SpriteSet(Scatter(sprite, rnd, placed).value, sprite)
    decreases SpriteCount - |placed|
  {
    if |placed| < SpriteCount {
      var k := FirstSpaced(Positions(placed), rnd, 0);
      if k.Some? && 2 * k.value + 2 < |rnd| {
        var g := NextGif(sprite, rnd, |placed|, k.value);
        assert Spaced(Positions(placed), g.pos) by {
          FirstSpacedIsFirst(Positions(placed), rnd, 0);
        }
        ScatterStep(sprite, rnd, placed, k.value);
        PlacedExtend(sprite, placed, g);
        var rest := rnd[2 * k.value + 3..];
        UnitDrawsDrop(rnd, 2 * k.value + 3);
        ScatterPlaced(sprite, rest, placed + [g]);
      } else {
        ScatterStops(sprite, rnd, placed);
      }
    }
  }

  /**
   * One round of the hover loop: generate a position spaced from the ones
   * placed so far, then draw the animation duration. `None` when the draws
   * run out; otherwise `rest` is what remains of the draws.
   */
  method PlaceNext(sprite: Sprite, positions: seq<Placement>, out: seq<FloatingGif>, rnd: seq<real>)
    returns (g: Option<FloatingGif>, rest: seq<real>)
    requires |out| < SpriteCount && positions == Positions(out) && UnitDraws(rnd)
    ensures g.None? <==>
      FirstSpaced(positions, rnd, 0).None? || 2 * FirstSpaced(positions, rnd, 0).value + 2 >= |rnd|
    ensures g.Some? ==>
      var k := FirstSpaced(positions, rnd, 0).value;
      2 * k + 2 < |rnd| && g.value == NextGif(sprite, rnd, |out|, k) && rest == rnd[2 * k + 3..]
    ensures UnitDraws(rest)
  {
    var p, tries := GeneratePosition(positions, rnd);
    if p.None? || 2 * tries >= |rnd| {
      return None, rnd;
    }
    var duration := rnd[2 * tries] * 2.0 + 1.0;
    UnitDrawsDrop(rnd, 2 * tries + 1);
    rest := rnd[2 * tries + 1..];
    g := Some(FloatingGif(SpriteId(sprite, |out|), sprite, p.value, duration));
  }

  /**
   * The loop of handleMouseEnterYes / handleMouseEnterNo: ten rounds, each
   * placing one sprite. `None` when the draws run out.
   */
  method PlaceSprites(sprite: Sprite, rnd: seq<real>) returns (gifs: Option<seq<FloatingGif>>)
    requires UnitDraws(rnd)
    ensures gifs == Scatter(sprite, rnd, [])
    ensures gifs.Some? ==> SpriteSet(gifs.value, sprite)
  {
    var out: seq<FloatingGif> := [];
    var positions: seq<Placement> := [];
    var rest := rnd;
    for i := 0 to SpriteCount
      invariant |out| == i && positions == Positions(out)
      invariant UnitDraws(rest)
      invariant Scatter(sprite, rest, out) == Scatter(sprite, rnd, [])
    {
      var g;
      ghost var before := rest;
      g, rest := PlaceNext(sprite, positions, out, rest);
      if g.None? {
        ScatterStops(sprite, before, out);
        return None;
      }
      ScatterStep(sprite, before, out, FirstSpaced(positions, before, 0).value);
      PositionsAppend(out, g.value);
      positions := positions + [g.value.pos];
      out := out + [g.value];
    }
    ScatterPlaced(sprite, rnd, []);
    return Some(out);
  }

  // ---------------------------------------------------------------------
  // The component state machine
  // ---------------------------------------------------------------------

  datatype Dialog = SoftConfirm | Celebration | Milestone

  class Page {
    var noCount: nat
    var yesPressed: bool
    var popupShown: bool
    var yesPopupShown: bool
    var currentGifIndex: nat
    /** The NoGifs index last written to the gif element by a No click, if any. */
    var rejectionGif: Option<nat>
    var floatingGifs: seq<FloatingGif>
    /** Every dialog shown so far, in order. */
    var dialogs: seq<Dialog>

    /** The celebratory view is rendered (and the interval is registered). */
    predicate Celebrating()
      reads this
      ensures Valid() ==> (Celebrating() <==> yesPressed)
      ensures Valid() ==> (Celebrating() <==> yesPopupShown)
    {
      yesPressed && noCount > 3
    }

    /** The pointer-stealing component is mounted. */
    predicate MouseStealerActive()
      reads this
      ensures MouseStealerActive() ==> !Celebrating() && NoButtonText(noCount) == "Give me a chance!"
      ensures Valid() && MouseStealerActive() ==> multiset(dialogs)[Milestone] == 0
    {
      16 < noCount < MilestoneCount && !yesPressed
    }

    /** What holds between a handler's own updates and the effects after it. */
    ghost predicate Consistent()
      reads this
    {
      currentGifIndex < YesGifCount &&
      (!(yesPressed && noCount > 3) ==> currentGifIndex == 0) &&
      (yesPopupShown ==> yesPressed && noCount > 3) &&
      (yesPressed && noCount < Threshold ==> !popupShown) &&
      multiset(dialogs)[SoftConfirm] == (if popupShown then 1 else 0) &&
      multiset(dialogs)[Celebration] == (if yesPopupShown then 1 else 0) &&
      rejectionGif == (if noCount >= Threshold then Some(RejectionGifIndex(noCount)) else None) &&
      (floatingGifs == [] || SpriteSet(floatingGifs, HeartSprite) || SpriteSet(floatingGifs, SadSprite))
    }

    /** The dialog effects have nothing left to do. */
    ghost predicate Settled()
      reads this
    {
      yesPressed ==> noCount > 3 && yesPopupShown
    }

    /** The state after every event; the milestone dialog was shown iff the count reached 25. */
    ghost predicate Valid()
      reads this
    {
      Consistent() && Settled() &&
      multiset(dialogs)[Milestone] == (if noCount >= MilestoneCount then 1 else 0)
    }

    constructor ()
      ensures Valid()
      ensures noCount == 0 && !yesPressed && !popupShown && !yesPopupShown
      ensures currentGifIndex == 0 && rejectionGif == None
      ensures floatingGifs == [] && dialogs == []
    {
      noCount := 0;
      yesPressed := false;
      popupShown := false;
      yesPopupShown := false;
      currentGifIndex := 0;
      rejectionGif := None;
      floatingGifs := [];
      dialogs := [];
    }

    /**
     * The soft-confirm and celebration effects, in declaration order. Each
     * is guarded by its own shown-flag, so running them when their
     * dependencies did not change does nothing.
     */
    method RunDialogEffects()
      requires Consistent()
      modifies this
      ensures Consistent() && Settled()
      ensures noCount == old(noCount) && currentGifIndex == old(currentGifIndex)
      ensures rejectionGif == old(rejectionGif) && floatingGifs == old(floatingGifs)
      ensures old(yesPressed && noCount < Threshold && !popupShown) ==>
        popupShown && !yesPressed && yesPopupShown == old(yesPopupShown) &&
        dialogs == old(dialogs) + [SoftConfirm]
      ensures old(yesPressed && noCount >= Threshold && !yesPopupShown) ==>
        yesPressed && yesPopupShown && popupShown == old(popupShown) &&
        dialogs == old(dialogs) + [Celebration]
      ensures old(!yesPressed || (noCount < Threshold && popupShown) || (noCount >= Threshold && yesPopupShown)) ==>
        yesPressed == old(yesPressed) && popupShown == old(popupShown) &&
        yesPopupShown == old(yesPopupShown) && dialogs == old(dialogs)
    {
      if yesPressed && noCount < 4 && !popupShown {
        dialogs := dialogs + [SoftConfirm];
        popupShown := true;
        yesPressed := false;
      }
      if yesPressed && noCount > 3 && !yesPopupShown {
        dialogs := dialogs + [Celebration];
        yesPopupShown := true;
        yesPressed := true;
      }
    }

    /** handleNoClick, followed by the dialog effects and the milestone effect. */
    method HandleNoClick()
      requires Valid()
      modifies this
      ensures Valid()
      ensures noCount == old(noCount) + 1
      ensures old(Celebrating()) ==> Celebrating()
      ensures YesButtonSize(noCount) > YesButtonSize(old(noCount))
      ensures noCount >= Threshold ==> rejectionGif == Some(RejectionGifIndex(noCount))
      ensures noCount < Threshold ==> rejectionGif == old(rejectionGif) == None
      ensures dialogs == old(dialogs) + (if noCount == MilestoneCount then [Milestone] else [])
      ensures yesPressed == old(yesPressed) && popupShown == old(popupShown)
      ensures yesPopupShown == old(yesPopupShown) && currentGifIndex == old(currentGifIndex)
      ensures floatingGifs == old(floatingGifs)
    {
      ghost var before := dialogs;
      var nextCount := noCount + 1;
      noCount := nextCount;
      if nextCount >= 4 {
        rejectionGif := Some(RejectionGifIndex(nextCount));
      }
      RunDialogEffects();
      assert dialogs == before;
      if noCount == 25 {
        dialogs := dialogs + [Milestone];
        assert multiset(dialogs)[Milestone] == multiset(before)[Milestone] + 1;
      }
    }

    /** handleYesClick, followed by the dialog effects. */
    method HandleYesClick()
      requires Valid()
      modifies this
      ensures Valid()
      ensures noCount == old(noCount) && currentGifIndex == old(currentGifIndex)
      ensures rejectionGif == old(rejectionGif) && floatingGifs == old(floatingGifs)
      ensures old(Celebrating()) ==> Celebrating()
      ensures old(noCount < Threshold && !popupShown) ==>
        popupShown && !yesPressed && !yesPopupShown && dialogs == old(dialogs) + [SoftConfirm]
      ensures old(noCount < Threshold && popupShown) ==>
        !yesPressed && popupShown && !yesPopupShown && dialogs == old(dialogs)
      ensures old(noCount >= Threshold) ==>
        Celebrating() && yesPopupShown && popupShown == old(popupShown) &&
        dialogs == old(dialogs) + (if old(yesPopupShown) then [] else [Celebration])
    {
      if !popupShown {
        yesPressed := true;
      }
      if noCount > 3 {
        yesPressed := true;
      }
      RunDialogEffects();
    }

    /** One firing of the 5-second interval; nothing fires while none is registered. */
    method Tick()
      requires Valid()
      modifies this
      ensures Valid()
      ensures old(Celebrating()) ==> currentGifIndex == NextCelebrationIndex(old(currentGifIndex))
      ensures !old(Celebrating()) ==> currentGifIndex == old(currentGifIndex)
      ensures noCount == old(noCount) && yesPressed == old(yesPressed)
      ensures popupShown == old(popupShown) && yesPopupShown == old(yesPopupShown)
      ensures rejectionGif == old(rejectionGif) && floatingGifs == old(floatingGifs)
      ensures dialogs == old(dialogs)
    {
      if yesPressed && noCount > 3 {
        currentGifIndex := (currentGifIndex + 1) % YesGifCount;
      }
    }

    /** handleMouseEnterYes; `placed` is false when the draws ran out. */
    method HandleMouseEnterYes(rnd: seq<real>) returns (placed: bool)
      requires Valid() && UnitDraws(rnd)
      modifies this
      ensures Valid()
      ensures placed <==> Scatter(HeartSprite, rnd, []).Some?
      ensures placed ==> floatingGifs == Scatter(HeartSprite, rnd, []).value && SpriteSet(floatingGifs, HeartSprite)
      ensures !placed ==> floatingGifs == old(floatingGifs)
      ensures noCount == old(noCount) && yesPressed == old(yesPressed)
      ensures popupShown == old(popupShown) && yesPopupShown == old(yesPopupShown)
      ensures currentGifIndex == old(currentGifIndex) && rejectionGif == old(rejectionGif)
      ensures dialogs == old(dialogs)
    {
      var gifs := PlaceSprites(HeartSprite, rnd);
      placed := gifs.Some?;
      if placed {
        floatingGifs := gifs.value;
      }
    }

    /** handleMouseEnterNo; `placed` is false when the draws ran out. */
    method HandleMouseEnterNo(rnd: seq<real>) returns (placed: bool)
      requires Valid() && UnitDraws(rnd)
      modifies this
      ensures Valid()
      ensures placed <==> Scatter(SadSprite, rnd, []).Some?
      ensures placed ==> floatingGifs == Scatter(SadSprite, rnd, []).value && SpriteSet(floatingGifs, SadSprite)
      ensures !placed ==> floatingGifs == old(floatingGifs)
      ensures noCount == old(noCount) && yesPressed == old(yesPressed)
      ensures popupShown == old(popupShown) && yesPopupShown == old(yesPopupShown)
      ensures currentGifIndex == old(currentGifIndex) && rejectionGif == old(rejectionGif)
      ensures dialogs == old(dialogs)
    {
      var gifs := PlaceSprites(SadSprite, rnd);
      placed := gifs.Some?;
      if placed {
        floatingGifs := gifs.value;
      }
    }

    /** handleMouseLeave: the floating sprites disappear. */
    method HandleMouseLeave()
      requires Valid()
      modifies this
      ensures Valid()
      ensures floatingGifs == []
      ensures noCount == old(noCount) && yesPressed == old(yesPressed)
      ensures popupShown == old(popupShown) && yesPopupShown == old(yesPopupShown)
      ensures currentGifIndex == old(currentGifIndex) && rejectionGif == old(rejectionGif)
      ensures dialogs == old(dialogs)
    {
      floatingGifs := [];
    }
  }

  /** Four rejections: "Pretty please?" and the first rejection gif; a fifth shows the second. */
  method ScenarioFourRejections()
  {
    var page := new Page();
    page.HandleNoClick();
    page.HandleNoClick();
    page.HandleNoClick();
    page.HandleNoClick();
    assert NoButtonLabel(page.noCount) == "Pretty please?";
    assert page.rejectionGif == Some(0);
    page.HandleNoClick();
    assert page.rejectionGif == Some(1);
  }

  /** An early acceptance shows the soft dialog once and never celebrates. */
  method ScenarioEarlyYes()
  {
    var page := new Page();
    page.HandleYesClick();
    assert page.dialogs == [SoftConfirm] && !page.Celebrating();
    page.HandleYesClick();
    assert page.dialogs == [SoftConfirm] && !page.Celebrating();
  }
}
