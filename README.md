# Alien Invasion: the game-state controller

A Dafny model of the state machine that drives the arcade shooter "Alien
Invasion". The player's ship fires bullets up at a fleet of aliens. The
fleet is laid out in a grid. It drops a step and turns around when it
reaches a side of the screen. Clearing it starts the next level. An alien
that reaches the bottom of the screen costs the player a ship while one is
in reserve; a hit when none is left stops the game.

The model has five modules:

- `Fleet` (fleet.dfy): the fleet layout arithmetic of `_create_fleet` and
  `_create_alien`.
  - The row and column counts, with Python's floor division.
  - The grid placement formula.
  - The downward drop of `_change_fleet_direction`.
  - The bottom-edge test of `_check_aliens_bottom`.
- `Bullets` (bullets.dfy): the off-screen culling pass of `_update_bullets`,
  and the bookkeeping of the dictionary that pygame's `groupcollide` returns.
- `Stats` (game_stats.dfy): the class `GameStats` with `ships_left`,
  `game_active` and `reset_stats`.
- `GameRules` (game_rules.dfy): the whole controller state as one value,
  `State`, and one transition function per handler. Its lemmas state what
  the handlers promise: the firing cap, the scoring, the level-up, the
  single turn at an edge, and the ship-hit lifecycle. They also prove that
  every handler keeps the invariant `Invariant`:
  - `0 <= ships_left <= ship_limit`;
  - `fleet_direction` is 1 or -1;
  - at most `bullets_allowed` bullets are in flight;
  - `score >= 0` and `level >= 1`.
- `Game` (alien_invasion.dfy): the class `AlienInvasion`. Its fields are
  changed in place by methods that follow the source's loops and branches.
  Each handler ensures that `Snapshot()`, the object's fields as a
  `State`, equals its `GameRules` rule applied to `old(Snapshot())`, so
  every lemma there holds of the object.

Inputs the controller gets from code outside this model are parameters:

- `groupcollide` is the `collisions` argument, a sequence of `Hit(bullet,
  aliens)`. Each entry gives a bullet's position in the bullet group and the
  positions of the aliens it struck.
  - `Bullets.WellFormed` states what `groupcollide` with both kill flags
    guarantees: distinct bullets, each with at least one alien, and no alien
    listed twice.
  - The counting lemmas take `WellFormed` as a precondition. The handlers
    do not need it.
- `Rect.collidepoint` is the `buttonClicked` flag.
- `Alien.check_edges` is the predicate `atEdge`.
- The bullet created by `Bullet(self)` at the ship's top is the `spawn`
  argument.
- The calls to `settings.initialize_dynamic_settings` and
  `settings.increase_speed` are recorded, in order, in the log
  `settingsCalls`.
- `sys.exit` on the q key is the `quit` result of `CheckKeydownEvents`.

Three points worth knowing:

- game_stats.py never assigns `score` or `level`, yet
  `_check_bullet_alien_collisions` adds to `stats.score` and
  `stats.level`. The model keeps both on the controller and starts them at
  0 and 1. It does not reset them on a new game, because `reset_stats`
  resets only `ships_left`.
- A hit with `ships_left = 1` leaves 0 ships and the game running. Only the
  next hit stops it. `GameRules.HitsUntilGameOver` proves this.
- `alien_points` never changes here, because `increase_speed` is not
  modelled.

## Model

| member | source | states |
|---|---|---|
| Fleet.AliensPerRow | alien_invasion.py:185-187 | number_aliens_x is the floor of (screen_width - 2w) / 2w: the largest n with 2w*n <= screen_width - 2w |
| Fleet.NumberRows | alien_invasion.py:190-192 | number_rows is the largest n with 2h*n <= screen_height - 3h - ship_height |
| Fleet.Row | alien_invasion.py:196-197 | the first n aliens of a row are the aliens of columns 0..n-1, in order |
| Fleet.Grid | alien_invasion.py:195-197 | the nested loops build rows*cols aliens |
| Fleet.GridAt | alien_invasion.py:195-197 | the fleet is row-major: the alien of column c, row r is at index r*cols + c |
| Fleet.GridMember | alien_invasion.py:195-206 | every alien built is the alien of some cell of the grid |
| Fleet.LayoutSize | alien_invasion.py:186-197 | a fresh fleet has number_rows * number_aliens_x aliens, and none when either count is not positive |
| Fleet.LayoutAt | alien_invasion.py:195-206 | the alien of column c, row r sits at x = w + 2w*c, y = h + 2h*r |
| Fleet.LayoutSpacing | alien_invasion.py:203-205 | neighbours in a row are exactly one alien width apart and on the same line |
| Fleet.LayoutFits | alien_invasion.py:185-206 | every alien of a fresh fleet lies inside the free area: w from the left, 2w from the right, h from the top, 3h plus the ship's height from the bottom |
| Fleet.FreshFleetClearOfBottom | alien_invasion.py:243-250 | no alien of a freshly built fleet reaches the bottom of the screen |
| Bullets.OnScreen | alien_invasion.py:120-122 | the culled group holds only bullets of the old group with bottom > 0, and every such bullet is kept |
| Bullets.OnScreenAppend | alien_invasion.py:120-122 | culling works piece by piece, so the kept bullets stay in their original order |
| Bullets.OnScreenKeepsVisible | alien_invasion.py:120-122 | a group with every bullet on screen is left as it is |
| Bullets.OnScreenIdempotent | alien_invasion.py:120-122 | culling twice keeps what culling once keeps |
| Bullets.Cull | alien_invasion.py:120-122 | the loop over a snapshot of the group keeps exactly OnScreen of that snapshot |
| Bullets.TotalHitsCountsAliens | alien_invasion.py:133-134 | the sum of len(aliens) over the dictionary's values is the number of aliens listed |
| Bullets.DistinctElements | alien_invasion.py:130 | a list without repetitions has as many members as its set |
| Bullets.WithoutCount | alien_invasion.py:130 | removing a set of positions, all inside the group, shortens the group by the size of that set |
| Bullets.WithoutIgnoresBeyond | alien_invasion.py:130 | positions outside the group do not affect removal |
| Bullets.CollisionCounts | alien_invasion.py:130-134 | a collision pass removes one bullet per dictionary entry and exactly as many aliens as are paid for |
| Stats.GameStats.constructor | game_stats.py:4-9 | a new GameStats is active with ships_left == ship_limit |
| Stats.GameStats.ResetStats | game_stats.py:10-12 | ships_left becomes ship_limit whatever it was, so a second call changes nothing, and game_active is untouched |
| GameRules.InitialInvariant | alien_invasion.py:15-31 | the state after construction satisfies the invariant and its fleet is clear of the bottom |
| GameRules.StartedInvariant | alien_invasion.py:66-87 | the start transition keeps the invariant |
| GameRules.KeysInvariant | alien_invasion.py:89-112 | key presses, firing included, and key releases keep the invariant, so firing never exceeds bullets_allowed |
| GameRules.CulledInvariant | alien_invasion.py:114-122 | culling keeps the invariant |
| GameRules.CollidedInvariant | alien_invasion.py:126-147 | a collision pass keeps the invariant: the score stays non-negative and the level at least 1 |
| GameRules.ReversedInvariant | alien_invasion.py:208-219 | turning the fleet keeps the direction in {1, -1} and the rest of the invariant |
| GameRules.ShipHitInvariant | alien_invasion.py:221-250 | a ship hit and the bottom check keep ships_left within 0..ship_limit |
| GameRules.StartedFreshGame | alien_invasion.py:66-87 | nothing changes unless the button is clicked while no game runs; then initialize_dynamic_settings is logged once, the game is active with every ship, no bullets and a full fleet clear of the bottom, score and level are kept, and a second click changes nothing |
| GameRules.FiredCount | alien_invasion.py:108-112 | firing adds exactly one bullet, at the end, below the cap and none at the cap |
| GameRules.ArrowKeysIndependent | alien_invasion.py:89-106 | an arrow key press sets only its own flag, its release clears only that flag, and press-then-release changes nothing but that flag |
| GameRules.CollidedScore | alien_invasion.py:130-134 | the score grows by alien_points for every alien listed, never shrinks, and is unchanged without collisions |
| GameRules.CollidedLevel | alien_invasion.py:130-147 | the aliens paid for are exactly the aliens removed; when none is left the bullets go, a fresh fleet comes, increase_speed is logged exactly once and the level goes up by exactly one; otherwise the level and the log stay and each dictionary entry takes exactly one bullet |
| GameRules.CulledBullets | alien_invasion.py:114-122 | after culling no bullet has bottom <= 0, every bullet with bottom > 0 is kept, nothing else changes, and culling again changes nothing |
| GameRules.EdgesTurnOnce | alien_invasion.py:208-219 | with any alien at an edge the direction is negated once and every alien drops by fleet_drop_speed; with none nothing changes |
| GameRules.ShipHitLifecycle | alien_invasion.py:221-241 | with ships left, one fewer ship, no bullets and a fresh fleet, the game still active; with none, ships_left stays 0 and the game stops; the score and level are untouched |
| GameRules.BottomHitOnce | alien_invasion.py:243-250 | the bottom check takes at most one ship, and the fleet it brings does not trigger another |
| GameRules.HitsUntilGameOver | alien_invasion.py:221-241 | from a running game with k ships left, k hits leave 0 ships with the game running, and the next hit stops it |
| Game.AlienInvasion.constructor | alien_invasion.py:15-31 | the new controller holds the stats from GameStats (every ship, active), no bullets and a full fleet built by CreateFleet; the starting score, level, direction and movement flags are assumed values (see Left out) |
| Game.AlienInvasion.CheckPlayButton | alien_invasion.py:66-87 | follows GameRules.Started and keeps the invariant |
| Game.AlienInvasion.CheckKeydownEvents | alien_invasion.py:89-99 | follows GameRules.KeyPressed, quits exactly on q, and keeps the invariant |
| Game.AlienInvasion.CheckKeyupEvents | alien_invasion.py:101-106 | follows GameRules.KeyReleased and keeps the invariant |
| Game.AlienInvasion.FireBullet | alien_invasion.py:108-112 | follows GameRules.Fired and keeps the invariant |
| Game.AlienInvasion.UpdateBullets | alien_invasion.py:114-124 | culls, then resolves collisions: follows GameRules.Culled then GameRules.Collided |
| Game.AlienInvasion.CheckBulletAlienCollisions | alien_invasion.py:126-147 | follows GameRules.Collided and keeps the invariant |
| Game.AlienInvasion.RemoveStruck | alien_invasion.py:130-134 | the struck bullets and aliens leave their groups and the score is paid: GameRules.Struck |
| Game.AlienInvasion.StartNextLevel | alien_invasion.py:139-147 | bullets emptied, a fresh fleet, one speed-up and the next level: GameRules.NextLevel |
| Game.AlienInvasion.ScoreCollisions | alien_invasion.py:133-134 | the loop adds alien_points * TotalHits to the score |
| Game.AlienInvasion.CreateFleet | alien_invasion.py:180-197 | the nested loops append exactly the fleet Layout to the aliens already there |
| Game.AlienInvasion.CreateAlien | alien_invasion.py:199-206 | appends the alien of the given column and row |
| Game.AlienInvasion.CheckFleetEdges | alien_invasion.py:208-213 | follows GameRules.EdgesChecked: the loop stops at the first alien at an edge and turns the fleet once |
| Game.AlienInvasion.ChangeFleetDirection | alien_invasion.py:215-219 | follows GameRules.Reversed: every alien dropped, direction negated |
| Game.AlienInvasion.ShipHit | alien_invasion.py:221-241 | follows GameRules.ShipHitTaken and keeps the invariant |
| Game.AlienInvasion.CheckAliensBottom | alien_invasion.py:243-250 | follows GameRules.BottomChecked: the loop stops at the first alien at the bottom and takes one hit |

## Left out

- Rendering and windowing are not modelled: `_update_screen`, the drawing
  calls, the play button's drawing, and the Scoreboard's `prep_*`,
  `show_score` and `check_high_score`. They produce images only. The high
  score is therefore not modelled.
- Event polling, the mouse position and visibility, and the `run_game` loop
  are not modelled. They are I/O and an endless loop. The handlers they
  call are modelled one by one.
- `sys.exit` is not modelled as process exit. The q key yields `quit ==
  true` and changes nothing else.
- `sleep(0.5)` in `_ship_hit` is left out. It blocks for a time and changes
  no state.
- `_update_aliens`, `ship.update`, `ship.center_ship`, `bullets.update` and
  `aliens.update` are left out. The ship's and aliens' positions and the
  bullets' float motion belong to ship.py, alien.py and bullet.py, which are
  not part of this model. `spritecollideany` belongs to `_update_aliens`.
- A bullet is its integer bottom edge only. The float position in
  bullet.py is not modelled.
- settings.py is not part of this model. The effects of
  `initialize_dynamic_settings` and `increase_speed` are not modelled; they
  are only logged in `settingsCalls`. Because of that, `fleet_direction` is
  not reset on a new game and `alien_points` never grows.
- pygame's `groupcollide`, `Rect.collidepoint` and `Alien.check_edges` are
  inputs, not computed. Sprite groups are modelled as sequences in insertion
  order, not as pygame's set-like groups.
- The `score` and `level` resets that `reset_stats` would need are not
  modelled, because game_stats.py has none.
- settings.py, ship.py and alien.py are not part of this model, so the
  values they supply are assumed: the fleet starts moving right
  (`fleet_direction` 1), the ship starts with both movement flags false,
  `alien_points` is not negative, and the alien's width and height are
  positive (`Geometry.Valid`). No shown file sets the starting `score` and
  `level` either; the model takes 0 and 1. A zero alien size would make
  alien_invasion.py lines 187 and 192 raise ZeroDivisionError; that error
  path is not modelled.
