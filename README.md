# Valentine's proposal page: greeting flow and heart-collecting game

A Dafny model of the two state machines behind a small "Will you be my
Valentine?" web page.

- **Greeting flow** (`greeting.dfy`, module `Greeting`, from `src/App.jsx`).
  Class `Page` holds the rejection counter `noCount`, the flags `yesPressed`,
  `popupShown` and `yesPopupShown`, the celebration carousel index, the
  rejection gif last written on a No click, the floating sprites and a log of
  the dialogs shown. Pure functions give the No-button label, the Yes-button
  size and the two gif indices. The sprite placement (the spacing-retry
  generator and the ten-sprite hover loop) is modelled as methods over a
  supplied stream of random draws. They are proved against two specification
  functions: `FirstSpaced` (the first acceptable candidate) and `Scatter`
  (the whole hover result).
- **Mini-game** (`heart_game.dfy`, module `HeartGame`, from `src/Game.jsx`).
  Class `Game` holds the character position, the remaining hearts, the score,
  the win and started flags, the touch anchor, a count of win dialogs and
  whether the host's `onClose` was called. Pure functions give the key and
  touch moves. The collision pass and the heart layout are methods with loops.
  They are proved against specification functions: the recursive filter
  `Survivors` for the collision pass, and the sequence `Layout` for the heart
  layout.
- `wrappers.dfy` holds the `Option` type both modules use.

How React is modelled. Each event handler is a method. The effects React
runs after a render run at the end of that method, in declaration order:
- The soft-confirm and celebration effects (`Page.RunDialogEffects`) run after
  the No and Yes clicks, the two handlers that change their dependencies.
  The tick and the mouse handlers change none of them, so those effects do
  not run after them.
- The milestone effect depends only on `noCount`. It runs only after a No
  click, the one handler that changes `noCount`.
- In the game, the collision pass and then the win check (`Game.RunEffects`)
  run after every handler that replaces the character position.
- The class invariants `Page.Valid` and `Game.Valid` describe the state after
  the effects have run.
- A `Swal.fire` call becomes an entry in `Page.dialogs`, or a step of
  `Game.winDialogs`.
- The handlers have no precondition about which view is rendered. A method
  may therefore be called in a view where its control is not on screen, for
  example `HandleNoClick` while celebrating. This allows more event
  sequences than the page does, and every proved fact holds for all of them.

Key facts proved:
- The celebratory view is the one the page renders when
  `yesPressed && noCount > 3`; `Page.Celebrating` is that condition. In every
  settled state it holds exactly when `yesPressed` holds, and exactly when the
  celebration dialog has been shown. Once it holds, no handler leaves it.
- The soft-confirm dialog is logged exactly once if `popupShown`, else never.
  The celebration dialog is logged exactly once if `yesPopupShown`. The
  milestone dialog is logged exactly once if `noCount >= 25`. All three are
  parts of `Page.Valid`.
- The pointer-stealing component is mounted when
  `16 < noCount < 25 && !yesPressed`; `Page.MouseStealerActive` is that
  condition. While it holds, the view is not celebratory, the No button reads
  "Give me a chance!", and the milestone dialog has not been shown.
- A hover result is fully determined by the draws (`Scatter`). When present,
  it is ten sprites, pairwise at least 15 apart.
- In the game, `score + |hearts| == 8` and `gameWon <==> score >= 5` hold in
  every reachable state. The win dialog is shown once (`winDialogs` is 1 once
  won, 0 before). No remaining heart is within reach of the character.

The model follows the code in these details:
- Collision compares the stored top-left coordinates of character and heart,
  not their centres.
- A sprite position is accepted when its distance to every earlier one is at
  least 15; distance exactly 15 is accepted.
- The `vh` and `vw` coordinates are compared as one unit, as the code does.
- Square roots are avoided by comparing squared distances: below 225 is too
  close for sprites, below 2500 is a collision in the game.

## Model

| member | source | states |
|---|---|---|
| Greeting.NoButtonText | src/App.jsx:170-184 | The label is the phrase at the count, clamped to the last phrase: every count of 7 or more gives "Give me a chance!"; the result is always one of the phrases |
| Greeting.NoButtonLabel | src/App.jsx:320 | The rendered label equals getNoButtonText at every count; at count 0 both branches give "No" |
| Greeting.YesButtonSize | src/App.jsx:50 | The Yes-button size is a positive multiple of 16, at least 16 |
| Greeting.YesButtonGrows | src/App.jsx:50 | The size grows by 16 per rejection and strictly increases with the count |
| Greeting.RejectionGifIndex | src/App.jsx:149-153 | After a No click reaching n >= 4, the rejection gif index lies in [0,10) and equals n-4 for the first ten |
| Greeting.RejectionGifCycles | src/App.jsx:145-156 | Each further No click advances the rejection gif by one modulo 10; ten clicks return to the same gif |
| Greeting.NextCelebrationIndex | src/App.jsx:128-132 | A carousel tick advances the index by one and wraps from 6 to 0, so it stays in [0,7) |
| Greeting.Candidate | src/App.jsx:59-62 | A candidate position built from two draws in [0,1) has both coordinates in [0,90) |
| Greeting.FirstSpacedIsFirst | src/App.jsx:58-69 | The candidate FirstSpaced names is at least 15 from every existing position and every earlier one is too close; when it names none, every candidate the draws allow is too close |
| Greeting.GeneratePosition | src/App.jsx:53-72 | The result is the first drawn candidate that is at least 15 from every existing position, and every earlier candidate was too close; without one, the draws ran out. It returns a position exactly when FirstSpaced names one, after that many tries plus one |
| Greeting.SpriteId | src/App.jsx:83 | The i-th sprite id ends in the digit of i |
| Greeting.SpriteIdsDistinct | src/App.jsx:78-83 | Different sprites of one hover get different ids |
| Greeting.ScatterDraws | src/App.jsx:78-90 | A hover succeeds only if the draws hold at least three per sprite still to place: top and left of the accepted candidate, then the duration |
| Greeting.ScatterPlaced | src/App.jsx:78-90 | A complete hover result has ids heart-0..heart-9 or sad-0..sad-9, positions in [0,90) pairwise at least 15 apart, and durations in [1,3) |
| Greeting.PlaceNext | src/App.jsx:79-88 | One round finds the first spaced candidate and draws the duration right after it, returning the sprite with the next id and the draws that remain. It fails exactly when no candidate is spaced or no draw is left for the duration |
| Greeting.PlaceSprites | src/App.jsx:74-90 | The loop returns exactly the Scatter result for the draws: None exactly when the draws run out, otherwise ten sprites with ids heart-0..heart-9 or sad-0..sad-9, positions in [0,90) pairwise at least 15 apart, and durations in [1,3) |
| Greeting.Page.Celebrating | src/App.jsx:129 | In a settled state the celebratory view holds exactly when Yes is pressed, and exactly when the celebration dialog was shown |
| Greeting.Page.MouseStealerActive | src/App.jsx:260 | While the pointer-stealing component is mounted, the view is not celebratory, the No button reads "Give me a chance!", and in a settled state the milestone dialog was not shown |
| Greeting.Page.constructor | src/App.jsx:42-52 | The initial state: count 0, all flags false, index 0, no sprites, no dialogs |
| Greeting.Page.RunDialogEffects | src/App.jsx:186-233 | The soft-confirm effect fires only when Yes is pressed below 4 rejections with the flag clear; it sets the flag and clears yesPressed. The celebration effect fires only from 4 rejections with its flag clear; it sets its flag and keeps yesPressed. Otherwise the effects change nothing |
| Greeting.Page.HandleNoClick | src/App.jsx:145-156 | The count goes up by one and the Yes button grows. From 4 on, the rejection gif becomes (n-4) mod 10; below 4 it is untouched. The milestone dialog is logged exactly when the new count is 25. Nothing else changes |
| Greeting.Page.HandleYesClick | src/App.jsx:159-166 | Below 4 rejections the soft dialog is shown once and the view stays non-celebratory; later Yes clicks there change nothing. From 4 rejections the view becomes celebratory and the celebration dialog is shown only the first time |
| Greeting.Page.Tick | src/App.jsx:128-137 | While celebrating, a tick sets the index to its successor modulo 7; otherwise no interval exists and nothing changes |
| Greeting.Page.HandleMouseEnterYes | src/App.jsx:74-93 | The hover succeeds exactly when Scatter yields a result for the draws, and the floating list becomes that result: ten well-spaced heart sprites. Otherwise the list is unchanged. Nothing else changes |
| Greeting.Page.HandleMouseEnterNo | src/App.jsx:95-114 | The hover succeeds exactly when Scatter yields a result for the draws, and the floating list becomes that result: ten well-spaced sad sprites. Otherwise the list is unchanged. Nothing else changes |
| Greeting.Page.HandleMouseLeave | src/App.jsx:116-118 | The floating list is emptied; nothing else changes |
| HeartGame.KeyDirection | src/Game.jsx:49-72 | Arrow keys and w/a/s/d in either case map to the four directions; every other key maps to none |
| HeartGame.KeyStep | src/Game.jsx:45-75 | A direction key changes exactly its coordinate by 15, clamped to 0 or to width/height minus 60; any other key leaves the position unchanged |
| HeartGame.KeyStepKeepsBounds | src/Game.jsx:53-68 | With a viewport of at least 60 by 60, a key press keeps an in-bounds character in bounds |
| HeartGame.Clamp | src/Game.jsx:112-113 | The clamp lies in [0, hi] and is the identity on that interval. Below 0 it gives 0, above hi it gives hi, and for a negative hi it gives 0 |
| HeartGame.TouchStep | src/Game.jsx:105-116 | A touch move adds half the drag delta to each coordinate. Each coordinate keeps that value when it lies in [0, size minus 60], becomes 0 below it or when the viewport is narrower than 60, and becomes size minus 60 above it. The result is in bounds for a viewport of at least 60 by 60 |
| HeartGame.Colliding | src/Game.jsx:130-134 | A heart within reach has both coordinate differences in (-50, 50), and a heart at the character's stored position is within reach |
| HeartGame.CollisionPass | src/Game.jsx:126-139 | The pass filters out the ids of the hearts within reach and counts them. With distinct ids, it removes exactly those hearts, and removed plus remaining equals the hearts before |
| HeartGame.FilterByIdIsSurvivors | src/Game.jsx:129-137 | With distinct ids, filtering by the colliding ids keeps exactly the hearts out of reach |
| HeartGame.SurvivorsCount | src/Game.jsx:129-137 | The remaining hearts plus the hearts collected equal the hearts before the pass |
| HeartGame.SurvivorsMembers | src/Game.jsx:129-135 | A heart remains iff it was present and is not within reach (squared distance at least 2500) |
| HeartGame.SurvivorsAppend | src/Game.jsx:135 | The pass keeps the remaining hearts in their relative order: it distributes over concatenation |
| HeartGame.SurvivorsIds | src/Game.jsx:135 | The pass keeps heart ids distinct and introduces no new id |
| HeartGame.SurvivorsSettled | src/Game.jsx:126-139 | After a pass no remaining heart is within reach, so running the pass again changes nothing |
| HeartGame.Layout | src/Game.jsx:21-30 | The layout has eight hearts |
| HeartGame.LayoutIds | src/Game.jsx:23-28 | The eight generated hearts have distinct ids, exactly 0..7 |
| HeartGame.LayoutInset | src/Game.jsx:26-27 | With draws in [0,1) and a viewport of at least 140 by 140, a heart lies from 50 to width/height minus 90 |
| HeartGame.GenerateHearts | src/Game.jsx:21-31 | The loop pushes exactly the layout: heart i uses draws 2i and 2i+1 |
| HeartGame.Game.constructor | src/Game.jsx:7-33 | The character starts at (50,50), not started, no touch point. The generated hearts then pass through one collision and win check, so score plus hearts is 8 |
| HeartGame.Game.RunEffects | src/Game.jsx:126-155 | If not won, the hearts within reach are removed and the score grows by their number. The game is won iff the score is at least 5, and the win dialog is shown once even if one pass passes 5. When already won, nothing changes |
| HeartGame.Game.HandleKeyPress | src/Game.jsx:37-75 | If won, nothing changes. Otherwise the game is started, the position is the key step, and the collision and win effects follow. score plus hearts stays 8 and the game is won iff the score is at least 5 |
| HeartGame.Game.HandleTouchStart | src/Game.jsx:83-95 | If won, nothing changes; otherwise the game is started and the touch point stored |
| HeartGame.Game.HandleTouchMove | src/Game.jsx:97-119 | Without a touch point, or once won, nothing changes. Otherwise the position is the touch step from the stored point, the new point is stored, and the effects follow |
| HeartGame.Game.HandleTouchEnd | src/Game.jsx:121-123 | The touch point is cleared; nothing else changes |
| HeartGame.Game.WinDialogDismissed | src/Game.jsx:151-153 | Dismissing the win dialog calls the host's close callback |

## Left out

- JSX rendering, CSS classes, the Footer and the commented-out 3D scene: presentation only.
- Dialog styling and the dialog library itself: each dialog is a log entry (`Page.dialogs`) or a count (`Game.winDialogs`). The `.then` callback of the win dialog is the method `Game.WinDialogDismissed`.
- `Math.random`: the draws are a parameter, consumed in the source's order. For sprites that is top, then left, retried, then the duration. For hearts it is x, then y, per heart.
- GeneratePosition: the source retries forever. The model stops with `None` when the supplied draws run out, and does not prove that the retry loop terminates.
- Page.HandleMouseEnterYes and Page.HandleMouseEnterNo: when the supplied draws run out, the model returns false and leaves the sprite list unchanged, where the page would keep drawing.
- Timer scheduling (`setInterval`/`clearInterval`) and React's effect scheduling: a tick is the method `Page.Tick`, and effects run at the end of each handler.
- The gif element's `src` writes (`gifRef`) and the gif-restart effects: DOM side effects. Only the NoGifs index chosen by a No click is kept, in `Page.rejectionGif`.
- The pointer-stealing component (`MouseStealer.jsx`) is not part of this model. Only its activation condition is, as `Page.MouseStealerActive`.
- The `showGame` flag, the "cute gift" button that sets it and the game's close button: these only mount and unmount the game. A `Game` object stands for one mounted game.
- `window.innerWidth`/`innerHeight` are parameters of each operation that reads them. Resizing between events is therefore allowed, but not modelled as its own event.
- Reals are exact, where the source uses floating point.
