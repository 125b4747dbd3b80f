/** The character the store levels up. The store works with five stats
    (`src/stores/useStore.ts`), not the three of `src/types/character.ts`. */
module Characters {
  import opened Optional
  import opened Dates

  datatype Stats = Stats(strength: int, intelligence: int, skill: int, wisdom: int, spirit: int)

  datatype Character = Character(
    level: int,
    xp: int,
    xpToNextLevel: int,
    stats: Stats,
    streak: int,
    lastQuestCompleted: Option<Instant>)

  /** A `Partial<Character>`: each field either supplied or left out. */
  datatype CharacterPatch = CharacterPatch(
    level: Option<int>,
    xp: Option<int>,
    xpToNextLevel: Option<int>,
    stats: Option<Stats>,
    streak: Option<int>,
    lastQuestCompleted: Option<Option<Instant>>)

  /** Level thresholds grow linearly: 100 XP per level. */
  const XpPerLevel := 100

  /** The store's bookkeeping invariant: the threshold shown is 100 per
      level, the level is at least 1, the streak is never negative and a
      recorded completion comes with a streak of at least one. */
  predicate WellFormed(c: Character) {
    && c.level >= 1
    && c.xpToNextLevel == XpPerLevel * c.level
    && c.streak >= 0
    && (c.lastQuestCompleted.Some? ==> c.streak >= 1)
  }
}
