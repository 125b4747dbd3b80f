/** The quest record the store keeps and the views read (`src/types/quest.ts`,
    together with the optional fields the two views consult). */
module Quests {
  import opened Optional
  import opened Dates

  datatype QuestType = Daily | Weekly | Custom

  /** `Failed` never comes out of the store; the calendar view reads it. */
  datatype QuestStatus = Active | Completed | Failed

  /** Per-stat XP boosts; an absent entry counts as no boost. */
  datatype StatBoosts = StatBoosts(
    strength: Option<int>,
    intelligence: Option<int>,
    skill: Option<int>,
    wisdom: Option<int>,
    spirit: Option<int>)

  datatype Quest = Quest(
    id: string,
    title: string,
    description: string,
    kind: QuestType,
    xpReward: int,
    statBoosts: StatBoosts,
    status: QuestStatus,
    createdAt: Instant,
    completedAt: Option<Instant>,
    failedAt: Option<Instant>,
    dueDate: Option<Instant>,
    isPersistent: bool)

  /** What a caller hands to `addQuest`: a quest without its id, status,
      creation time and completion time, which the store fills in. */
  datatype QuestDraft = QuestDraft(
    title: string,
    description: string,
    kind: QuestType,
    xpReward: int,
    statBoosts: StatBoosts,
    failedAt: Option<Instant>,
    dueDate: Option<Instant>,
    isPersistent: bool)

  /** Some quest in `quests` carries identifier `id`. */
  predicate HasId(quests: seq<Quest>, id: string) {
    exists i :: 0 <= i < |quests| && quests[i].id == id
  }

  /** The position of the first quest with identifier `id` (`Array.find`). */
  function FirstWithId(quests: seq<Quest>, id: string): (r: Option<nat>)
    ensures r.Some? <==> HasId(quests, id)
    ensures r.Some? ==> r.value < |quests| && quests[r.value].id == id
    ensures r.Some? ==> forall j :: 0 <= j < r.value ==> quests[j].id != id
    decreases |quests|
  {
    if |quests| == 0 then None
    else if quests[0].id == id then Some(0)
    else
      match FirstWithId(quests[1..], id)
      case None => None
      case Some(i) =>
        assert quests[i + 1] == quests[1..][i];
        Some(i + 1)
  }
}
