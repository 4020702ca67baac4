/** Minesweeper/Difficulty.cs: an immutable (width, height, mines, preset)
    record, and the three presets Game.cs builds from it. */
module Difficulties {

  /** Every property of Difficulty.cs is init-only, so a value type models it.
      Nothing checks the arguments: any four integers make a Difficulty. */
  datatype Difficulty = Difficulty(mapWidth: int, mapHeight: int, minesCount: int, preset: int)

  // Preset identifiers (GameInfo.EASY_PRESET, MEDIUM_PRESET, HARD_PRESET).
  const EASY_PRESET: int := 1
  const MEDIUM_PRESET: int := 2
  const HARD_PRESET: int := 3

  // Game.cs's EasyDifficulty, MediumDifficulty and HighDifficulty.
  const EasyDifficulty: Difficulty := Difficulty(9, 9, 10, EASY_PRESET)
  const MediumDifficulty: Difficulty := Difficulty(17, 17, 40, MEDIUM_PRESET)
  const HighDifficulty: Difficulty := Difficulty(31, 16, 99, HARD_PRESET)

  /** A board Game.Init can complete: a non-empty playing field with fewer
      mines than cells, so that a free cell is left after the last mine. */
  predicate Playable(d: Difficulty) {
    1 <= d.mapWidth && 1 <= d.mapHeight && 0 <= d.minesCount < d.mapWidth * d.mapHeight
  }

  /** The restart switch of Game.GameOver: the preset stored in GameInfo picks
      the difficulty again.  The switch has no default arm, so any other
      preset number is outside what the game can hold. */
  function DifficultyForPreset(preset: int): (d: Difficulty)
    requires preset == EASY_PRESET || preset == MEDIUM_PRESET || preset == HARD_PRESET
    ensures d.preset == preset && Playable(d)
  {
    if preset == EASY_PRESET then EasyDifficulty
    else if preset == MEDIUM_PRESET then MediumDifficulty
    else HighDifficulty
  }

  /** Each preset is playable and a restart with its own preset number
      rebuilds the same difficulty. */
  lemma PresetsRoundTrip(d: Difficulty)
    requires d == EasyDifficulty || d == MediumDifficulty || d == HighDifficulty
    ensures Playable(d)
    ensures DifficultyForPreset(d.preset) == d
  {
  }
}
