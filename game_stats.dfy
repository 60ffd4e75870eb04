/** The session counters of one game: the ships the player has left and
    whether the game is running. */
module Stats {

  class GameStats {
    /** settings.ship_limit, read by reset_stats. */
    const shipLimit: nat
    var shipsLeft: int
    var gameActive: bool

    /** A new game's counters: reset, then marked active. */
    constructor (shipLimit: nat)
      ensures this.shipLimit == shipLimit
      ensures shipsLeft == shipLimit && gameActive
    {
      this.shipLimit := shipLimit;
      new;
      ResetStats();
      gameActive := true;
    }

    /** Restores the full ship count, whatever it was, and leaves the
        active flag to the caller; a second call therefore changes nothing. */
    method ResetStats()
      modifies this`shipsLeft
      ensures shipsLeft == shipLimit
      ensures gameActive == old(gameActive)
    {
      shipsLeft := shipLimit;
    }
  }
}
