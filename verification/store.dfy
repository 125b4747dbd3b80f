/** The progress store of `src/stores/useStore.ts`: a character and a list of
    quests, and the four transitions the store offers. Each transition is a
    pure function from one state to the next; the fresh quest id and the
    current instant, which the source draws from `Math.random` and the
    clock, are parameters. */
module Store {
  import opened Optional
  import opened Dates
  import opened Seqs
  import opened Quests
  import opened Characters
  import opened Streaks

  datatype State = State(character: Character, quests: seq<Quest>)

  /** The store's bookkeeping invariant. */
  predicate Invariant(s: State) {
    WellFormed(s.character)
  }

  /** The state the store starts in: a level-1 character with no XP, every
      stat at 10, no streak and no quests. */
  function InitialState(): (s: State)
    ensures Invariant(s)
    ensures s.quests == []
    ensures s.character.level == 1 && s.character.xp == 0 && s.character.xpToNextLevel == 100
    ensures s.character.stats == Stats(10, 10, 10, 10, 10)
    ensures s.character.streak == 0 && s.character.lastQuestCompleted == None
  {
    State(Character(1, 0, XpPerLevel, Stats(10, 10, 10, 10, 10), 0, None), [])
  }

  // ---------------------------------------------------------------- addQuest

  /** The quest `addQuest` builds from a draft: the draft's fields, the given
      id and creation time, status active and no completion time. */
  function Spawn(draft: QuestDraft, id: string, now: Instant): Quest {
    Quest(id, draft.title, draft.description, draft.kind, draft.xpReward, draft.statBoosts,
          Active, now, None, draft.failedAt, draft.dueDate, draft.isPersistent)
  }

  /** Appends the new quest; nothing else changes. */
  function AddQuest(s: State, draft: QuestDraft, id: string, now: Instant): (r: State)
    ensures r.character == s.character
    ensures |r.quests| == |s.quests| + 1
    ensures r.quests[..|s.quests|] == s.quests
    ensures var q := r.quests[|s.quests|];
      && q.id == id && q.status == Active && q.createdAt == now && q.completedAt == None
      && q.title == draft.title && q.description == draft.description && q.kind == draft.kind
      && q.xpReward == draft.xpReward && q.statBoosts == draft.statBoosts
      && q.failedAt == draft.failedAt && q.dueDate == draft.dueDate
      && q.isPersistent == draft.isPersistent
  {
    State(s.character, s.quests + [Spawn(draft, id, now)])
  }

  // ----------------------------------------------------------- completeQuest

  /** A stat boost, an absent one counting as zero (`boost || 0`). */
  function Boost(b: Option<int>): int {
    b.GetOr(0)
  }

  /** Each of the five stats raised by the quest's boost for it. */
  function ApplyBoosts(st: Stats, b: StatBoosts): Stats {
    Stats(st.strength + Boost(b.strength),
          st.intelligence + Boost(b.intelligence),
          st.skill + Boost(b.skill),
          st.wisdom + Boost(b.wisdom),
          st.spirit + Boost(b.spirit))
  }

  /** Every quest carrying `id` marked completed at `now`; the others as they were. */
  function MarkCompleted(quests: seq<Quest>, id: string, now: Instant): (r: seq<Quest>)
    ensures |r| == |quests|
    ensures forall i :: 0 <= i < |quests| && quests[i].id != id ==> r[i] == quests[i]
    ensures forall i :: 0 <= i < |quests| && quests[i].id == id ==>
      r[i] == quests[i].(status := Completed, completedAt := Some(now))
  {
    seq(|quests|, i requires 0 <= i < |quests| =>
      if quests[i].id == id then quests[i].(status := Completed, completedAt := Some(now))
      else quests[i])
  }

  /** `completeQuest` with the streak worked out by `rule`. The quest found
      first with the id supplies the reward; every quest with the id is
      marked completed. There is no check of the quest's status, so
      completing it again awards it again. */
  function CompleteQuestWith(s: State, id: string, now: Instant, rule: StreakRule): (r: State)
    ensures !HasId(s.quests, id) ==> r == s
    ensures HasId(s.quests, id) ==>
      var q := s.quests[FirstWithId(s.quests, id).value];
      var c, c' := s.character, r.character;
      && c'.xp == c.xp + q.xpReward
      && (c'.level == c.level + 1 <==> c'.xp >= c.xpToNextLevel)
      && (c'.level == c.level <==> c'.xp < c.xpToNextLevel)
      && c'.xpToNextLevel == XpPerLevel * c'.level
      && c'.stats.strength == c.stats.strength + Boost(q.statBoosts.strength)
      && c'.stats.intelligence == c.stats.intelligence + Boost(q.statBoosts.intelligence)
      && c'.stats.skill == c.stats.skill + Boost(q.statBoosts.skill)
      && c'.stats.wisdom == c.stats.wisdom + Boost(q.statBoosts.wisdom)
      && c'.stats.spirit == c.stats.spirit + Boost(q.statBoosts.spirit)
      && c'.streak == NextStreak(rule, c.lastQuestCompleted, c.streak, now)
      && c'.lastQuestCompleted == Some(now)
    ensures HasId(s.quests, id) ==> |r.quests| == |s.quests|
    ensures HasId(s.quests, id) ==> forall i :: 0 <= i < |s.quests| ==>
      r.quests[i] == if s.quests[i].id == id
                     then s.quests[i].(status := Completed, completedAt := Some(now))
                     else s.quests[i]
  {
    match FirstWithId(s.quests, id)
    case None => s
    case Some(i) =>
      var q := s.quests[i];
      var c := s.character;
      var newXp := c.xp + q.xpReward;
      var newLevel := if newXp >= c.xpToNextLevel then c.level + 1 else c.level;
      var character := Character(
        newLevel,
        newXp,
        newLevel * XpPerLevel,
        ApplyBoosts(c.stats, q.statBoosts),
        NextStreak(rule, c.lastQuestCompleted, c.streak, now),
        Some(now));
      State(character, MarkCompleted(s.quests, id, now))
  }

  /** `completeQuest` exactly as the source computes it, streak included. */
  function CompleteQuest(s: State, id: string, now: Instant): (r: State)
    ensures !HasId(s.quests, id) ==> r == s
    ensures HasId(s.quests, id) && s.character.streak >= 0 ==> r.character.streak >= 1
    ensures HasId(s.quests, id) ==>
      match s.character.lastQuestCompleted
      case None => r.character.streak == 1
      case Some(last) =>
        r.character.streak == if now.date.day - last.date.day == 1 then s.character.streak + 1 else 1
  {
    CompleteQuestWith(s, id, now, DayOfMonthDifference)
  }

  // ------------------------------------------------------------- deleteQuest

  /** The filter `deleteQuest` applies: keep the quests with another id. */
  function OtherThan(id: string): Quest -> bool {
    (q: Quest) => q.id != id
  }

  /** Drops every quest carrying `id`, keeping the rest in order. */
  function DeleteQuest(s: State, id: string): (r: State)
    ensures r.character == s.character
    ensures !HasId(r.quests, id)
    ensures Subsequence(r.quests, s.quests)
    ensures forall q | q in s.quests && q.id != id :: q in r.quests
    ensures forall q | q in s.quests && q.id != id :: multiset(r.quests)[q] == multiset(s.quests)[q]
  {
    var kept := Filter(s.quests, OtherThan(id));
    assert forall i :: 0 <= i < |kept| ==> kept[i].id != id by {
      forall i | 0 <= i < |kept| ensures kept[i].id != id {
        assert kept[i] in kept;
      }
    }
    State(s.character, kept)
  }

  // --------------------------------------------------------- updateCharacter

  /** The character with the supplied fields of `patch` written over it. */
  function Merge(c: Character, patch: CharacterPatch): Character {
    Character(
      patch.level.GetOr(c.level),
      patch.xp.GetOr(c.xp),
      patch.xpToNextLevel.GetOr(c.xpToNextLevel),
      patch.stats.GetOr(c.stats),
      patch.streak.GetOr(c.streak),
      patch.lastQuestCompleted.GetOr(c.lastQuestCompleted))
  }

  /** Shallow merge of the supplied fields into the character; the quests
      are untouched. */
  function UpdateCharacter(s: State, patch: CharacterPatch): (r: State)
    ensures r.quests == s.quests
    ensures r.character.level == (if patch.level.Some? then patch.level.value else s.character.level)
    ensures r.character.xp == (if patch.xp.Some? then patch.xp.value else s.character.xp)
    ensures r.character.xpToNextLevel ==
      (if patch.xpToNextLevel.Some? then patch.xpToNextLevel.value else s.character.xpToNextLevel)
    ensures r.character.stats == (if patch.stats.Some? then patch.stats.value else s.character.stats)
    ensures r.character.streak == (if patch.streak.Some? then patch.streak.value else s.character.streak)
    ensures r.character.lastQuestCompleted ==
      (if patch.lastQuestCompleted.Some? then patch.lastQuestCompleted.value else s.character.lastQuestCompleted)
  {
    State(Merge(s.character, patch), s.quests)
  }
}
