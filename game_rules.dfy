/** The rules of the game-state controller as functions on a value of its
    state: one function per handler of alien_invasion.py, and the lemmas
    that state what the handlers promise. The AlienInvasion class in module
    Game changes its fields in place and is proved to follow these. */
module GameRules {
  import opened Fleet
  import opened Bullets

  /** The keys the key handlers tell apart. */
  datatype Key = KeyRight | KeyLeft | KeyQ | KeySpace | OtherKey

  /** Calls into the settings object, whose arithmetic is not part of this model. */
  datatype SettingsCall = InitializeDynamicSettings | IncreaseSpeed

  /** The fixed values the controller reads from its settings, its aliens'
      and its ship's rectangles. */
  datatype Config = Config(
    geometry: Geometry,
    bulletsAllowed: nat,
    alienPoints: nat,
    fleetDropSpeed: nat,
    shipLimit: nat)

  /** Everything the handlers change: the stats, the fleet direction, the
      bullet and alien groups, the ship's movement flags, and the calls made
      to the settings object. */
  datatype State = State(
    score: int,
    level: int,
    shipsLeft: int,
    gameActive: bool,
    fleetDirection: int,
    bullets: seq<Bullet>,
    aliens: seq<Alien>,
    movingRight: bool,
    movingLeft: bool,
    settingsCalls: seq<SettingsCall>)

  /** What holds in every reachable state: ships_left stays within
      0..ship_limit, the direction is 1 or -1, no more than bullets_allowed
      bullets fly, the score is not negative and the level is at least 1. */
  predicate Invariant(c: Config, s: State) {
    && c.geometry.Valid()
    && 0 <= s.shipsLeft <= c.shipLimit
    && (s.fleetDirection == 1 || s.fleetDirection == -1)
    && |s.bullets| <= c.bulletsAllowed
    && s.score >= 0
    && s.level >= 1
  }

  /** The state right after construction: counters reset and active, the
      fleet moving right, no bullets, a full fleet, the ship at rest. */
  function Initial(c: Config): State
    requires c.geometry.Valid()
  {
    State(0, 1, c.shipLimit, true, 1, [], Layout(c.geometry), false, false, [])
  }

  /** _check_play_button: a click on the button while no game runs resets
      the dynamic settings and the ship count, activates the game, and
      replaces bullets and aliens by a fresh fleet. */
  function Started(c: Config, s: State, buttonClicked: bool): State
    requires c.geometry.Valid()
  {
    if buttonClicked && !s.gameActive then
      s.(settingsCalls := s.settingsCalls + [InitializeDynamicSettings],
         shipsLeft := c.shipLimit, gameActive := true,
         aliens := Layout(c.geometry), bullets := [])
    else s
  }

  /** _fire_bullet: the new bullet joins only while fewer than
      bullets_allowed are in flight. */
  function Fired(c: Config, s: State, spawn: Bullet): State {
    if |s.bullets| < c.bulletsAllowed then s.(bullets := s.bullets + [spawn]) else s
  }

  /** _check_keydown_events, apart from the process exit on q. */
  function KeyPressed(c: Config, s: State, key: Key, spawn: Bullet): State {
    match key
    case KeyRight => s.(movingRight := true)
    case KeyLeft => s.(movingLeft := true)
    case KeySpace => Fired(c, s, spawn)
    case _ => s
  }

  /** _check_keyup_events. */
  function KeyReleased(s: State, key: Key): State {
    match key
    case KeyRight => s.(movingRight := false)
    case KeyLeft => s.(movingLeft := false)
    case _ => s
  }

  /** The culling pass of _update_bullets. */
  function Culled(s: State): State {
    s.(bullets := OnScreen(s.bullets))
  }

  /** _check_bullet_alien_collisions: the struck bullets and aliens leave
      their groups and every struck alien is paid; when no alien is left,
      the next level starts. */
  function Collided(c: Config, s: State, hits: seq<Hit>): State
    requires c.geometry.Valid()
  {
    var t := Struck(c, s, hits);
    if t.aliens == [] then NextLevel(c, t) else t
  }

  /** The removal and scoring half of a collision pass. */
  function Struck(c: Config, s: State, hits: seq<Hit>): State {
    s.(bullets := Without(s.bullets, Elements(HitBullets(hits))),
       aliens := Without(s.aliens, Elements(StruckAliens(hits))),
       score := s.score + c.alienPoints * TotalHits(hits))
  }

  /** A cleared fleet: the bullets go, a fresh fleet comes, the speed goes
      up once and the level goes up by one. */
  function NextLevel(c: Config, s: State): State
    requires c.geometry.Valid()
  {
    s.(bullets := [], aliens := Layout(c.geometry),
       settingsCalls := s.settingsCalls + [IncreaseSpeed], level := s.level + 1)
  }

  /** _change_fleet_direction: the fleet drops and turns around. */
  function Reversed(c: Config, s: State): State {
    s.(aliens := Dropped(s.aliens, c.fleetDropSpeed), fleetDirection := s.fleetDirection * -1)
  }

  /** _check_fleet_edges: the fleet turns once if any alien is at an edge. */
  function EdgesChecked(c: Config, s: State, atEdge: Alien -> bool): State {
    if exists i :: 0 <= i < |s.aliens| && atEdge(s.aliens[i]) then Reversed(c, s) else s
  }

  /** _ship_hit: with a ship in reserve, one ship fewer, no bullets and a
      fresh fleet; with none, the game stops. */
  function ShipHitTaken(c: Config, s: State): State
    requires c.geometry.Valid()
  {
    if s.shipsLeft > 0 then
      s.(shipsLeft := s.shipsLeft - 1, aliens := Layout(c.geometry), bullets := [])
    else
      s.(gameActive := false)
  }

  /** _check_aliens_bottom: one ship hit if any alien reaches the bottom. */
  function BottomChecked(c: Config, s: State): State
    requires c.geometry.Valid()
  {
    if AnyAtBottom(c.geometry, s.aliens) then ShipHitTaken(c, s) else s
  }

  lemma MulAdd(k: int, a: int, b: int)
    ensures k * (a + b) == k * a + k * b
  {
  }

  // ---------------------------------------------------------------------
  // Every handler keeps the invariant.

  lemma InitialInvariant(c: Config)
    requires c.geometry.Valid()
    ensures Invariant(c, Initial(c))
    ensures !AnyAtBottom(c.geometry, Initial(c).aliens)
  {
    FreshFleetClearOfBottom(c.geometry);
  }

  lemma StartedInvariant(c: Config, s: State, buttonClicked: bool)
    requires Invariant(c, s)
    ensures Invariant(c, Started(c, s, buttonClicked))
  {
  }

  lemma KeysInvariant(c: Config, s: State, key: Key, spawn: Bullet)
    requires Invariant(c, s)
    ensures Invariant(c, KeyPressed(c, s, key, spawn))
    ensures Invariant(c, KeyReleased(s, key))
  {
  }

  lemma CulledInvariant(c: Config, s: State)
    requires Invariant(c, s)
    ensures Invariant(c, Culled(s))
  {
  }

  lemma CollidedInvariant(c: Config, s: State, hits: seq<Hit>)
    requires Invariant(c, s)
    ensures Invariant(c, Collided(c, s, hits))
  {
  }

  lemma ReversedInvariant(c: Config, s: State, atEdge: Alien -> bool)
    requires Invariant(c, s)
    ensures Invariant(c, Reversed(c, s))
    ensures Invariant(c, EdgesChecked(c, s, atEdge))
  {
  }

  lemma ShipHitInvariant(c: Config, s: State)
    requires Invariant(c, s)
    ensures Invariant(c, ShipHitTaken(c, s))
    ensures Invariant(c, BottomChecked(c, s))
  {
  }

  // ---------------------------------------------------------------------
  // What the handlers promise.

  /** Starting only acts on a click while no game runs; then the dynamic
      settings are reset once, the game is active with every ship, a full
      fleet and no bullets, the score and level are kept, and a second
      click changes nothing. */
  lemma StartedFreshGame(c: Config, s: State, buttonClicked: bool)
    requires Invariant(c, s)
    ensures var t := Started(c, s, buttonClicked);
      && (!buttonClicked || s.gameActive ==> t == s)
      && (buttonClicked && !s.gameActive ==>
            t.gameActive && t.shipsLeft == c.shipLimit && t.bullets == []
            && t.aliens == Layout(c.geometry) && !AnyAtBottom(c.geometry, t.aliens)
            && t.settingsCalls == s.settingsCalls + [InitializeDynamicSettings]
            && t.score == s.score && t.level == s.level)
      && Started(c, t, buttonClicked) == t
  {
    FreshFleetClearOfBottom(c.geometry);
  }

  /** Firing adds exactly one bullet below the cap and none at the cap, so
      the count never passes bullets_allowed. */
  lemma FiredCount(c: Config, s: State, spawn: Bullet)
    requires Invariant(c, s)
    ensures var t := Fired(c, s, spawn);
      && |t.bullets| == (if |s.bullets| < c.bulletsAllowed then |s.bullets| + 1 else c.bulletsAllowed)
      && t.bullets[..|s.bullets|] == s.bullets
  {
  }

  /** An arrow key touches only its own flag; releasing it clears that
      flag and leaves the other as the press found it. */
  lemma ArrowKeysIndependent(c: Config, s: State, key: Key, spawn: Bullet)
    requires key == KeyRight || key == KeyLeft
    ensures var pressed := KeyPressed(c, s, key, spawn);
      var released := KeyReleased(pressed, key);
      && (key == KeyRight ==>
            (pressed.movingRight && pressed.movingLeft == s.movingLeft
             && !released.movingRight && released.movingLeft == s.movingLeft))
      && (key == KeyLeft ==>
            (pressed.movingLeft && pressed.movingRight == s.movingRight
             && !released.movingLeft && released.movingRight == s.movingRight))
      && released.(movingRight := s.movingRight, movingLeft := s.movingLeft) == s
  {
  }

  /** The score grows by alien_points for every alien the collision
      dictionary lists, never shrinks, and stays the same without
      collisions. */
  lemma CollidedScore(c: Config, s: State, hits: seq<Hit>)
    requires c.geometry.Valid()
    ensures var t := Collided(c, s, hits);
      && t.score == s.score + c.alienPoints * TotalHits(hits)
      && t.score >= s.score
      && (hits == [] ==> t.score == s.score)
  {
  }

  /** The level goes up by exactly one and the speed-up is asked for
      exactly once when the fleet is gone, and neither happens otherwise;
      while aliens remain, each entry of the collision dictionary takes
      exactly one bullet and each alien listed leaves. */
  lemma CollidedLevel(c: Config, s: State, hits: seq<Hit>)
    requires c.geometry.Valid()
    requires WellFormed(hits, |s.bullets|, |s.aliens|)
    ensures var remaining := Without(s.aliens, Elements(StruckAliens(hits)));
      var t := Collided(c, s, hits);
      && TotalHits(hits) == |s.aliens| - |remaining|
      && t.level == (if remaining == [] then s.level + 1 else s.level)
      && (remaining == [] ==> t.bullets == [] && t.aliens == Layout(c.geometry))
      && t.settingsCalls == s.settingsCalls + (if remaining == [] then [IncreaseSpeed] else [])
      && (remaining != [] ==> |t.bullets| == |s.bullets| - |hits|)
      && (remaining != [] ==> t.aliens == remaining && |t.aliens| == |s.aliens| - TotalHits(hits))
  {
    CollisionCounts(hits, s.bullets, s.aliens);
  }

  /** Culling keeps exactly the bullets still on screen, in order, and
      changes nothing else. */
  lemma CulledBullets(s: State)
    ensures var t := Culled(s);
      && (forall b :: b in t.bullets ==> b.bottom > 0)
      && (forall i :: 0 <= i < |s.bullets| && s.bullets[i].bottom > 0 ==> s.bullets[i] in t.bullets)
      && t.(bullets := s.bullets) == s
      && Culled(t) == t
  {
    OnScreenIdempotent(s.bullets);
  }

  /** The fleet turns exactly once however many aliens are at the edge:
      the direction flips and every alien drops by fleet_drop_speed; with
      no alien at an edge nothing changes. */
  lemma EdgesTurnOnce(c: Config, s: State, atEdge: Alien -> bool)
    requires Invariant(c, s)
    ensures var t := EdgesChecked(c, s, atEdge);
      && ((exists i :: 0 <= i < |s.aliens| && atEdge(s.aliens[i])) ==>
            t.fleetDirection == -s.fleetDirection && |t.aliens| == |s.aliens|
            && forall i :: 0 <= i < |s.aliens| ==>
                 t.aliens[i].x == s.aliens[i].x && t.aliens[i].y == s.aliens[i].y + c.fleetDropSpeed)
      && ((forall i :: 0 <= i < |s.aliens| ==> !atEdge(s.aliens[i])) ==> t == s)
  {
  }

  /** A ship hit takes one ship while any is left and otherwise ends the
      game; the ship count never goes negative. */
  lemma ShipHitLifecycle(c: Config, s: State)
    requires Invariant(c, s)
    ensures var t := ShipHitTaken(c, s);
      && (s.shipsLeft > 0 ==>
            (t.shipsLeft == s.shipsLeft - 1 && t.gameActive == s.gameActive
             && t.bullets == [] && t.aliens == Layout(c.geometry)))
      && (s.shipsLeft == 0 ==> t.shipsLeft == 0 && !t.gameActive)
      && t.shipsLeft >= 0
      && t.score == s.score && t.level == s.level
  {
  }

  /** The fleet a ship hit brings never reaches the bottom, so the bottom
      check does not take a second ship in the same pass. */
  lemma BottomHitOnce(c: Config, s: State)
    requires Invariant(c, s)
    ensures var t := BottomChecked(c, s);
      && t.shipsLeft >= s.shipsLeft - 1
      && (s.shipsLeft > 0 && AnyAtBottom(c.geometry, s.aliens) ==>
            !AnyAtBottom(c.geometry, t.aliens) && BottomChecked(c, t) == t)
  {
    FreshFleetClearOfBottom(c.geometry);
  }

  /** n ship hits in a row. */
  function HitTimes(c: Config, s: State, n: nat): State
    requires c.geometry.Valid()
  {
    if n == 0 then s else ShipHitTaken(c, HitTimes(c, s, n - 1))
  }

  /** From a running game with k ships left, k hits use up every ship while
      the game keeps running, and the next hit ends it. */
  lemma {:induction false} HitsUntilGameOver(c: Config, s: State, n: nat)
    requires Invariant(c, s) && s.gameActive && n <= s.shipsLeft
    ensures HitTimes(c, s, n).shipsLeft == s.shipsLeft - n
    ensures HitTimes(c, s, n).gameActive
    ensures n == s.shipsLeft ==> !ShipHitTaken(c, HitTimes(c, s, n)).gameActive
  {
    if n > 0 {
      HitsUntilGameOver(c, s, n - 1);
    }
  }
}
