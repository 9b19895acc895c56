/** The static difficulty table: each of the three tiers fixes the enemies'
    pursuit speed, the spawn timer's period and the population cap. */
module Difficulty {

  datatype Tier = Easy | Medium | Hard

  /** One row of the table. The speed is in arena units per tick, the
      interval in milliseconds. */
  datatype Settings = Settings(enemySpeed: real, spawnInterval: nat, maxEnemies: nat)

  /** Every tier has moving enemies, a running timer and room for at least one enemy. */
  function SettingsOf(t: Tier): (r: Settings)
    ensures r.enemySpeed > 0.0 && r.spawnInterval > 0 && r.maxEnemies > 0
  {
    match t
    case Easy => Settings(0.02, 4000, 8)
    case Medium => Settings(0.04, 3000, 12)
    case Hard => Settings(0.06, 2000, 15)
  }

  /** Position of a tier in the order easy < medium < hard. */
  function Rank(t: Tier): nat
  {
    match t
    case Easy => 0
    case Medium => 1
    case Hard => 2
  }

  function MaxEnemies(t: Tier): nat
  {
    SettingsOf(t).maxEnemies
  }

  lemma DifficultyTable()
    ensures SettingsOf(Easy).enemySpeed == 0.02 && SettingsOf(Easy).spawnInterval == 4000
    ensures SettingsOf(Medium).enemySpeed == 0.04 && SettingsOf(Medium).spawnInterval == 3000
    ensures SettingsOf(Hard).enemySpeed == 0.06 && SettingsOf(Hard).spawnInterval == 2000
    ensures MaxEnemies(Easy) == 8 && MaxEnemies(Medium) == 12 && MaxEnemies(Hard) == 15
  {
  }

  /** A harder tier allows more enemies at once, spawns them more often and
      makes them faster. */
  lemma HarderTierIsStricter(a: Tier, b: Tier)
    requires Rank(a) < Rank(b)
    ensures MaxEnemies(a) < MaxEnemies(b)
    ensures SettingsOf(a).spawnInterval > SettingsOf(b).spawnInterval
    ensures SettingsOf(a).enemySpeed < SettingsOf(b).enemySpeed
  {
  }
}
