/** The random draws of the core. `Math.random` is not modelled: each draw
    is a nondeterministic choice within the range the source's arithmetic
    produces, so every property proved holds for every outcome. */
module Random {
  import opened Schema

  /** `rndInt(min, max)`: an integer in [min, max]. */
  method RndInt(min: int, max: int) returns (r: int)
    requires min <= max
    ensures min <= r <= max
  {
    r :| min <= r <= max;
  }

  /** `randomStats()`: five independent draws in [1, 10]. */
  method RandomStats() returns (s: Stats)
    ensures StatsInRange(s)
  {
    var diplomacy := RndInt(MinStat, MaxStat);
    var martial := RndInt(MinStat, MaxStat);
    var stewardship := RndInt(MinStat, MaxStat);
    var intrigue := RndInt(MinStat, MaxStat);
    var learning := RndInt(MinStat, MaxStat);
    s := Stats(diplomacy, martial, stewardship, intrigue, learning);
  }

  /** `Math.random() > 0.5 ? 'male' : 'female'`: never `other`. */
  method RandomGender() returns (g: Gender)
    ensures g == Male || g == Female
  {
    var coin :| coin in {true, false};
    g := if coin then Male else Female;
  }
}
