/** Properties that relate the store's transitions to each other and to its
    invariant. */
module StoreProperties {
  import opened Optional
  import opened Dates
  import opened Seqs
  import opened Quests
  import opened Characters
  import opened Streaks
  import opened Store

  // ---------------------------------------------------------------- invariant

  lemma AddQuestPreservesInvariant(s: State, draft: QuestDraft, id: string, now: Instant)
    requires Invariant(s)
    ensures Invariant(AddQuest(s, draft, id, now))
  {
  }

  /** Whatever the streak rule, completing a quest keeps the threshold at
      100 per level and the streak positive. */
  lemma CompleteQuestPreservesInvariant(s: State, id: string, now: Instant, rule: StreakRule)
    requires Invariant(s)
    ensures Invariant(CompleteQuestWith(s, id, now, rule))
  {
  }

  lemma DeleteQuestPreservesInvariant(s: State, id: string)
    requires Invariant(s)
    ensures Invariant(DeleteQuest(s, id))
  {
  }

  /** `updateCharacter` keeps the invariant when it leaves the level,
      threshold, streak and last completion alone... */
  lemma UpdateStatsPreservesInvariant(s: State, patch: CharacterPatch)
    requires Invariant(s)
    requires patch.level.None? && patch.xpToNextLevel.None?
    requires patch.streak.None? && patch.lastQuestCompleted.None?
    ensures Invariant(UpdateCharacter(s, patch))
  {
  }

  /** ...but nothing stops a caller from writing a level without the
      matching threshold. */
  lemma UpdateLevelCanBreakInvariant(s: State)
    requires Invariant(s)
    ensures !Invariant(UpdateCharacter(s, CharacterPatch(Some(s.character.level + 1), None, None, None, None, None)))
  {
  }

  // -------------------------------------------------------------- progression

  /** Levels never fall and rise by at most one per completion. */
  lemma CompleteQuestLevelStep(s: State, id: string, now: Instant, rule: StreakRule)
    ensures var l, l' := s.character.level, CompleteQuestWith(s, id, now, rule).character.level;
      l <= l' <= l + 1
  {
  }

  /** Which quest `Array.find` picks depends only on the ids in the list. */
  lemma {:induction false} FirstWithIdSeesOnlyIds(a: seq<Quest>, b: seq<Quest>, id: string)
    requires |a| == |b|
    requires forall i :: 0 <= i < |a| ==> a[i].id == b[i].id
    ensures FirstWithId(a, id) == FirstWithId(b, id)
    decreases |a|
  {
    if |a| > 0 {
      FirstWithIdSeesOnlyIds(a[1..], b[1..], id);
    }
  }

  /** There is no guard against completing a quest twice: the second call
      awards the reward and the boosts a second time. */
  lemma CompleteTwiceAwardsTwice(s: State, id: string, now: Instant, now': Instant, rule: StreakRule)
    requires HasId(s.quests, id)
    ensures var q := s.quests[FirstWithId(s.quests, id).value];
      var r := CompleteQuestWith(CompleteQuestWith(s, id, now, rule), id, now', rule);
      && r.character.xp == s.character.xp + 2 * q.xpReward
      && r.character.stats == ApplyBoosts(ApplyBoosts(s.character.stats, q.statBoosts), q.statBoosts)
  {
    var i := FirstWithId(s.quests, id).value;
    var s1 := CompleteQuestWith(s, id, now, rule);
    FirstWithIdSeesOnlyIds(s.quests, s1.quests, id);
    var q, q1 := s.quests[i], s1.quests[i];
    assert q1.xpReward == q.xpReward && q1.statBoosts == q.statBoosts;
    assert s1.character.xp == s.character.xp + q.xpReward;
  }

  /** The worked example: 90 of 100 XP plus a 50 XP quest gives level 2,
      140 XP and a threshold of 200 (the XP is not reduced), whatever the
      streak rule. */
  lemma LevelUpExample(q: Quest, now: Instant, rule: StreakRule)
    requires q.xpReward == 50
    ensures var c := Character(1, 90, 100, Stats(10, 10, 10, 10, 10), 0, None);
      var r := CompleteQuestWith(State(c, [q]), q.id, now, rule).character;
      r.level == 2 && r.xp == 140 && r.xpToNextLevel == 200
  {
    assert [q][0].id == q.id;
  }

  /** Completing a quest changes no quest's id, so the list keeps its shape. */
  lemma CompleteQuestKeepsIds(s: State, id: string, now: Instant, rule: StreakRule)
    ensures var r := CompleteQuestWith(s, id, now, rule);
      |r.quests| == |s.quests| && forall i :: 0 <= i < |s.quests| ==> r.quests[i].id == s.quests[i].id
  {
  }

  // ------------------------------------------------------------------- boosts

  /** A missing boost and an explicit zero boost are the same. */
  lemma MissingBoostIsZero(st: Stats, b: StatBoosts)
    ensures ApplyBoosts(st, b) == ApplyBoosts(st, StatBoosts(
      Some(Boost(b.strength)), Some(Boost(b.intelligence)), Some(Boost(b.skill)),
      Some(Boost(b.wisdom)), Some(Boost(b.spirit))))
  {
  }

  /** A quest without boosts leaves every stat as it was. */
  lemma NoBoostsKeepStats(st: Stats)
    ensures ApplyBoosts(st, StatBoosts(None, None, None, None, None)) == st
  {
  }

  // ----------------------------------------------------- add / complete / delete

  /** Marking the target quests completed and then filtering them out is the
      same as filtering them out directly. */
  lemma {:induction false} FilterMarkCompleted(qs: seq<Quest>, id: string, now: Instant)
    ensures Filter(MarkCompleted(qs, id, now), OtherThan(id)) == Filter(qs, OtherThan(id))
    decreases |qs|
  {
    if |qs| > 0 {
      var m := MarkCompleted(qs, id, now);
      assert m[1..] == MarkCompleted(qs[1..], id, now);
      assert m[0].id == qs[0].id;
      FilterMarkCompleted(qs[1..], id, now);
    }
  }

  /** Completing a quest touches only the quests with its id: once those are
      deleted, the list is the same as if it had never been completed. */
  lemma CompleteThenDelete(s: State, id: string, now: Instant, rule: StreakRule)
    ensures DeleteQuest(CompleteQuestWith(s, id, now, rule), id).quests == DeleteQuest(s, id).quests
  {
    if HasId(s.quests, id) {
      FilterMarkCompleted(s.quests, id, now);
    }
  }

  /** Adding a quest under an id no other quest has, and deleting that id
      again, gives back the state it started from. */
  lemma AddThenDeleteFresh(s: State, draft: QuestDraft, id: string, now: Instant)
    requires !HasId(s.quests, id)
    ensures DeleteQuest(AddQuest(s, draft, id, now), id) == s
  {
    FilterAppend(s.quests, Spawn(draft, id, now), OtherThan(id));
    FilterKeepsAll(s.quests, OtherThan(id));
  }

  /** Deleting an id that no quest carries changes nothing. */
  lemma DeleteUnknownIsNoop(s: State, id: string)
    requires !HasId(s.quests, id)
    ensures DeleteQuest(s, id) == s
  {
    FilterKeepsAll(s.quests, OtherThan(id));
  }

  /** Deleting the same id twice is the same as deleting it once. */
  lemma DeleteIdempotent(s: State, id: string)
    ensures DeleteQuest(DeleteQuest(s, id), id) == DeleteQuest(s, id)
  {
    FilterIdempotent(s.quests, OtherThan(id));
  }

  // ---------------------------------------------------------- updateCharacter

  /** An empty patch changes nothing. */
  lemma EmptyPatchIsNoop(s: State)
    ensures UpdateCharacter(s, CharacterPatch(None, None, None, None, None, None)) == s
  {
  }

  /** Applying the same patch twice is the same as applying it once. */
  lemma UpdateCharacterIdempotent(s: State, patch: CharacterPatch)
    ensures UpdateCharacter(UpdateCharacter(s, patch), patch) == UpdateCharacter(s, patch)
  {
  }
}
