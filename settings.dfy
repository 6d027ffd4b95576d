/** The difficulty policy and the user settings of the snake game: three
    difficulty tiers, each with a score multiplier and a tick interval, and a
    small settings record whose setters each change one field. */
module Settings {

  datatype Difficulty = Easy | Medium | Hard
  datatype Theme = Classic | Dark | Neon

  datatype GameSettings = GameSettings(difficulty: Difficulty, soundEnabled: bool, theme: Theme)

  /** A score multiplier written exactly in tenths: 15 stands for 1.5. */
  type Multiplier = m: nat | 0 < m witness 10

  /** The position of a tier in the order easy < medium < hard. */
  function Rank(d: Difficulty): nat {
    match d
    case Easy => 0
    case Medium => 1
    case Hard => 2
  }

  /** The settings a fresh store starts with. */
  function DefaultSettings(): (s: GameSettings)
    ensures s.difficulty == Medium && s.soundEnabled && s.theme == Classic
  {
    GameSettings(Medium, true, Classic)
  }

  /** The multiplier table (1, 1.5 and 2, in tenths): the tiers are spaced half
      a point apart, starting at 1. */
  function DifficultyMultiplier(d: Difficulty): (m: Multiplier)
    ensures m == 10 + 5 * Rank(d)
  {
    match d
    case Easy => 10
    case Medium => 15
    case Hard => 20
  }

  /** The tick interval table in milliseconds (150, 120 and 90): each tier is
      30 ms faster than the one below it. */
  function TickInterval(d: Difficulty): (ms: nat)
    ensures ms == 150 - 30 * Rank(d)
  {
    match d
    case Easy => 150
    case Medium => 120
    case Hard => 90
  }

  /** A harder tier scores more per food and ticks strictly faster. */
  lemma HarderTierIsFasterAndRicher(a: Difficulty, b: Difficulty)
    requires Rank(a) < Rank(b)
    ensures DifficultyMultiplier(a) < DifficultyMultiplier(b)
    ensures TickInterval(a) > TickInterval(b)
  {
  }

  /** The settings store: one record that the setters update field by field. */
  class SettingsStore {
    var settings: GameSettings

    constructor ()
      ensures settings == DefaultSettings()
    {
      settings := DefaultSettings();
    }

    /** The multiplier of the stored difficulty. */
    function GetDifficultyMultiplier(): (m: Multiplier)
      reads this
      ensures m == DifficultyMultiplier(settings.difficulty)
      ensures m == 10 + 5 * Rank(settings.difficulty)
    {
      DifficultyMultiplier(settings.difficulty)
    }

    /** The tick interval of the stored difficulty. */
    function GetGameSpeed(): (ms: nat)
      reads this
      ensures ms == TickInterval(settings.difficulty)
      ensures ms == 150 - 30 * Rank(settings.difficulty)
    {
      TickInterval(settings.difficulty)
    }

    method SetDifficulty(difficulty: Difficulty)
      modifies this
      ensures settings.difficulty == difficulty
      ensures settings.soundEnabled == old(settings.soundEnabled)
      ensures settings.theme == old(settings.theme)
    {
      settings := settings.(difficulty := difficulty);
    }

    method SetSoundEnabled(enabled: bool)
      modifies this
      ensures settings.soundEnabled == enabled
      ensures settings.difficulty == old(settings.difficulty)
      ensures settings.theme == old(settings.theme)
    {
      settings := settings.(soundEnabled := enabled);
    }

    method SetTheme(theme: Theme)
      modifies this
      ensures settings.theme == theme
      ensures settings.difficulty == old(settings.difficulty)
      ensures settings.soundEnabled == old(settings.soundEnabled)
    {
      settings := settings.(theme := theme);
    }
  }
}
