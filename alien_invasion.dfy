/** The game-state controller: one AlienInvasion object owns the stats,
    the bullet and alien groups and the ship's movement flags, and its
    handlers change them in place. Each handler is proved to follow the
    matching rule of module GameRules, so the lemmas proved there hold of
    the object. */
module Game {
  import opened Fleet
  import opened Bullets
  import opened Stats
  import opened GameRules

  class AlienInvasion {
    const geometry: Geometry
    /** settings.bullets_allowed */
    const bulletsAllowed: nat
    /** settings.alien_points */
    const alienPoints: nat
    /** settings.fleet_drop_speed */
    const fleetDropSpeed: nat
    const stats: GameStats

    /** stats.score and stats.level */
    var score: int
    var level: int
    /** settings.fleet_direction: 1 moves the fleet right, -1 left */
    var fleetDirection: int
    var bullets: seq<Bullet>
    var aliens: seq<Alien>
    /** the ship's movement flags */
    var movingRight: bool
    var movingLeft: bool
    /** the calls made so far to the settings object's dynamic part */
    var settingsCalls: seq<SettingsCall>

    /** The fixed values the handlers read. */
    function Configuration(): Config {
      Config(geometry, bulletsAllowed, alienPoints, fleetDropSpeed, stats.shipLimit)
    }

    /** The object's fields as one value of the rules' state. */
    ghost function Snapshot(): State
      reads this, stats
    {
      State(score, level, stats.shipsLeft, stats.gameActive, fleetDirection,
                      bullets, aliens, movingRight, movingLeft, settingsCalls)
    }

    ghost predicate Valid()
      reads this, stats
    {
      Invariant(Configuration(), Snapshot())
    }

    constructor (geometry: Geometry, bulletsAllowed: nat, alienPoints: nat,
                 fleetDropSpeed: nat, shipLimit: nat)
      requires geometry.Valid()
      ensures fresh(stats)
      ensures Configuration() == Config(geometry, bulletsAllowed, alienPoints, fleetDropSpeed, shipLimit)
      ensures Valid() && Snapshot() == Initial(Configuration())
    {
      this.geometry := geometry;
      this.bulletsAllowed := bulletsAllowed;
      this.alienPoints := alienPoints;
      this.fleetDropSpeed := fleetDropSpeed;
      stats := new GameStats(shipLimit);
      score, level, fleetDirection := 0, 1, 1;
      bullets, aliens := [], [];
      movingRight, movingLeft := false, false;
      settingsCalls := [];
      new;
      CreateFleet();
      InitialInvariant(Configuration());
    }

    /** Starts a new game when the play button is clicked while no game runs. */
    method CheckPlayButton(buttonClicked: bool)
      requires Valid()
      modifies this, stats
      ensures Valid()
      ensures Snapshot() == Started(Configuration(), old(Snapshot()), buttonClicked)
    {
      if buttonClicked && !stats.gameActive {
        settingsCalls := settingsCalls + [InitializeDynamicSettings];
        stats.ResetStats();
        stats.gameActive := true;
        aliens := [];
        bullets := [];
        CreateFleet();
      }
      StartedInvariant(Configuration(), old(Snapshot()), buttonClicked);
    }

    /** Key presses: the arrows set their own movement flag, q asks to quit,
        space fires. */
    method CheckKeydownEvents(key: Key, spawn: Bullet) returns (quit: bool)
      requires Valid()
      modifies this`movingRight, this`movingLeft, this`bullets
      ensures Valid()
      ensures quit <==> key == KeyQ
      ensures Snapshot() == KeyPressed(Configuration(), old(Snapshot()), key, spawn)
    {
      quit := false;
      if key == KeyRight {
        movingRight := true;
      } else if key == KeyLeft {
        movingLeft := true;
      } else if key == KeyQ {
        quit := true;
      } else if key == KeySpace {
        FireBullet(spawn);
      }
      KeysInvariant(Configuration(), old(Snapshot()), key, spawn);
    }

    /** Key releases: the arrows clear their own movement flag. */
    method CheckKeyupEvents(key: Key)
      requires Valid()
      modifies this`movingRight, this`movingLeft
      ensures Valid()
      ensures Snapshot() == KeyReleased(old(Snapshot()), key)
    {
      if key == KeyRight {
        movingRight := false;
      } else if key == KeyLeft {
        movingLeft := false;
      }
    }

    /** Adds the bullet created at the ship's top while fewer than
        bullets_allowed are in flight. */
    method FireBullet(spawn: Bullet)
      requires Valid()
      modifies this`bullets
      ensures Valid()
      ensures Snapshot() == Fired(Configuration(), old(Snapshot()), spawn)
    {
      if |bullets| < bulletsAllowed {
        bullets := bullets + [spawn];
      }
    }

    /** Drops the bullets that left the top of the screen, then resolves
        collisions against the bullets that remain. */
    method UpdateBullets(collisions: seq<Hit>)
      requires Valid()
      modifies this
      ensures Valid()
      ensures Snapshot() == Collided(Configuration(), Culled(old(Snapshot())), collisions)
    {
      var kept := Cull(bullets);
      bullets := kept;
      CheckBulletAlienCollisions(collisions);
    }

    /** Removes the bullets and aliens the collision dictionary names, pays
        alien_points for every alien removed, and starts the next level
        once the fleet is gone. */
    method CheckBulletAlienCollisions(collisions: seq<Hit>)
      requires Valid()
      modifies this
      ensures Valid()
      ensures Snapshot() == Collided(Configuration(), old(Snapshot()), collisions)
    {
      CollidedInvariant(Configuration(), Snapshot(), collisions);
      RemoveStruck(collisions);
      if aliens == [] {
        StartNextLevel();
      }
    }

    /** The first half of a collision pass: the struck bullets and aliens
        leave their groups, and the aliens are paid for. */
    method RemoveStruck(collisions: seq<Hit>)
      modifies this`bullets, this`aliens, this`score
      ensures Snapshot() == Struck(Configuration(), old(Snapshot()), collisions)
    {
      ghost var after := Struck(Configuration(), Snapshot(), collisions);
      bullets := Without(bullets, Elements(HitBullets(collisions)));
      aliens := Without(aliens, Elements(StruckAliens(collisions)));
      if |collisions| > 0 {
        ScoreCollisions(collisions);
      }
      assert score == after.score;
    }

    /** The second half of a collision pass, once no alien is left. */
    method StartNextLevel()
      requires geometry.Valid() && aliens == []
      modifies this`bullets, this`aliens, this`settingsCalls, this`level
      ensures Snapshot() == NextLevel(Configuration(), old(Snapshot()))
    {
      bullets := [];
      CreateFleet();
      settingsCalls := settingsCalls + [IncreaseSpeed];
      level := level + 1;
    }

    /** The scoring loop: alien_points for every alien of every entry. */
    method ScoreCollisions(collisions: seq<Hit>)
      modifies this`score
      ensures score == old(score) + alienPoints * TotalHits(collisions)
    {
      var i := 0;
      while i < |collisions|
        modifies this`score
        invariant 0 <= i <= |collisions|
        invariant score == old(score) + alienPoints * TotalHits(collisions[..i])
      {
        assert collisions[..i + 1][..i] == collisions[..i];
        MulAdd(alienPoints, TotalHits(collisions[..i]), |collisions[i].aliens|);
        score := score + alienPoints * |collisions[i].aliens|;
        i := i + 1;
      }
      assert collisions[..i] == collisions;
    }

    /** Appends a full fleet, row by row, to the aliens already there. */
    method CreateFleet()
      requires geometry.Valid()
      modifies this`aliens
      ensures aliens == old(aliens) + Layout(geometry)
    {
      var numberAliensX := AliensPerRow(geometry);
      var numberRows := NumberRows(geometry);
      var cols := RangeLen(numberAliensX);
      var rowNumber := 0;
      while rowNumber < numberRows
        invariant 0 <= rowNumber <= RangeLen(numberRows)
        invariant aliens == old(aliens) + Grid(geometry, rowNumber, cols)
      {
        var alienNumber := 0;
        while alienNumber < numberAliensX
          invariant 0 <= alienNumber <= cols
          invariant aliens == old(aliens) + Grid(geometry, rowNumber, cols) + Row(geometry, rowNumber, alienNumber)
        {
          CreateAlien(alienNumber, rowNumber);
          alienNumber := alienNumber + 1;
        }
        rowNumber := rowNumber + 1;
      }
    }

    /** Adds the alien of column alienNumber, row rowNumber. */
    method CreateAlien(alienNumber: int, rowNumber: int)
      modifies this`aliens
      ensures aliens == old(aliens) + [AlienAt(geometry, alienNumber, rowNumber)]
    {
      var x := geometry.alienWidth + 2 * geometry.alienWidth * alienNumber;
      var y := geometry.alienHeight + 2 * geometry.alienHeight * rowNumber;
      aliens := aliens + [Alien(x, y)];
    }

    /** Reverses and drops the fleet once if any alien is at an edge;
        `atEdge` is the aliens' own edge test. */
    method CheckFleetEdges(atEdge: Alien -> bool)
      requires Valid()
      modifies this`aliens, this`fleetDirection
      ensures Valid()
      ensures Snapshot() == EdgesChecked(Configuration(), old(Snapshot()), atEdge)
    {
      var i := 0;
      while i < |aliens|
        invariant 0 <= i <= |aliens|
        invariant aliens == old(aliens) && fleetDirection == old(fleetDirection)
        invariant forall j :: 0 <= j < i ==> !atEdge(aliens[j])
      {
        if atEdge(aliens[i]) {
          ChangeFleetDirection();
          break;
        }
        i := i + 1;
      }
    }

    /** Moves every alien down by fleet_drop_speed and flips the direction. */
    method ChangeFleetDirection()
      requires Valid()
      modifies this`aliens, this`fleetDirection
      ensures Valid()
      ensures Snapshot() == Reversed(Configuration(), old(Snapshot()))
    {
      var i := 0;
      while i < |aliens|
        modifies this`aliens
        invariant 0 <= i <= |aliens| == |old(aliens)|
        invariant forall j :: 0 <= j < i ==> aliens[j] == Alien(old(aliens)[j].x, old(aliens)[j].y + fleetDropSpeed)
        invariant forall j :: i <= j < |aliens| ==> aliens[j] == old(aliens)[j]
      {
        aliens := aliens[i := Alien(aliens[i].x, aliens[i].y + fleetDropSpeed)];
        i := i + 1;
      }
      fleetDirection := fleetDirection * -1;
    }

    /** Takes a ship while one is left, otherwise stops the game. */
    method ShipHit()
      requires Valid()
      modifies this, stats
      ensures Valid()
      ensures Snapshot() == ShipHitTaken(Configuration(), old(Snapshot()))
    {
      if stats.shipsLeft > 0 {
        stats.shipsLeft := stats.shipsLeft - 1;
        aliens := [];
        bullets := [];
        CreateFleet();
      } else {
        stats.gameActive := false;
      }
    }

    /** Treats an alien reaching the bottom of the screen as a ship hit,
        handled once however many aliens are there. */
    method CheckAliensBottom()
      requires Valid()
      modifies this, stats
      ensures Valid()
      ensures Snapshot() == BottomChecked(Configuration(), old(Snapshot()))
    {
      var i := 0;
      while i < |aliens|
        invariant 0 <= i <= |aliens|
        invariant unchanged(this, stats)
        invariant forall j :: 0 <= j < i ==> !AtBottom(geometry, aliens[j])
      {
        if AtBottom(geometry, aliens[i]) {
          ShipHit();
          break;
        }
        i := i + 1;
      }
    }
  }
}
