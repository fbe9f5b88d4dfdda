/**
 * The adaptive difficulty loop of trainer_agent_with_tools.py: the memory
 * that holds the learner's current level, its lookup, initialisation and
 * validated update, the choice of instructions, the turn counter of
 * `TrainerAgent` and the decision taken after a background review.
 *
 * The memory store is the set of memories of the single learner "kyrill",
 * keyed by memory id, which `add_user_memory` overwrites (an upsert).
 * Storage faults are parameters: `readFails` makes `get_user_memories`
 * raise, `writeFails` makes `add_user_memory` raise, `reviewFails` makes the
 * review analysis raise, `noEventLoop` makes `asyncio.create_task` raise.
 * The review agent's answer is an arbitrary `Option<string>`.
 */
module TrainerAgentModel {
  import opened Wrappers
  import opened Text
  import opened DifficultyTable

  const DifficultyMemoryId: string := "kyrill_difficulty_level"
  const DifficultyTopic: string := "schwierigkeitsstufe"
  const ReviewTriggerInterval: nat := 5
  const HistoryWindow: nat := 20
  const PlaceholderInstruction: string := "Placeholder - wird durch ensure_difficulty_memory() gesetzt"

  datatype UserMemory = UserMemory(memory: string, topics: seq<string>, memoryId: string)

  /** Every memory is filed under its own id. */
  predicate WellKeyed(store: map<string, UserMemory>) {
    forall id :: id in store ==> store[id].memoryId == id
  }

  /**
   * The learner's memories, filed by memory id: `add_user_memory` replaces a
   * memory with the same id, so no two memories share one.
   */
  type MemoryStore = store: map<string, UserMemory> | WellKeyed(store) witness map[]

  /** The learner's difficulty memory, whenever there is one, names one of the six levels. */
  predicate LevelInvariant(store: MemoryStore) {
    DifficultyMemoryId in store ==> IsLevel(store[DifficultyMemoryId].memory)
  }

  /** The memory record that `ensure_difficulty_memory` and `update_difficulty_memory` write. */
  function LevelMemory(text: string): (m: UserMemory)
    ensures m.memoryId == DifficultyMemoryId && m.memory == text && m.topics == [DifficultyTopic]
  {
    UserMemory(text, [DifficultyTopic], DifficultyMemoryId)
  }

  // ------------------------------------------------------------ the store

  /**
   * `get_memory_by_id`: the memory whose `memory_id` is `id`, or `None` when
   * there is none or when reading the memories raises.
   */
  function MemoryById(store: MemoryStore, id: string, readFails: bool): (m: Option<UserMemory>)
    ensures m.Some? ==> !readFails && m.value in store.Values && m.value.memoryId == id
    ensures m.None? <==> readFails || forall k :: k in store ==> store[k].memoryId != id
    ensures m.Some? ==> m.value == store[id]
  {
    if !readFails && id in store then Some(store[id]) else None
  }

  /** `add_user_memory` on a memory with an id: that id now holds `m`, nothing else changes. */
  function Upsert(store: MemoryStore, m: UserMemory): (r: MemoryStore)
    ensures r.Keys == store.Keys + {m.memoryId}
    ensures r[m.memoryId] == m
    ensures forall id :: id in store && id != m.memoryId ==> r[id] == store[id]
  {
    store[m.memoryId := m]
  }

  lemma UpsertWellKeyed(store: MemoryStore, m: UserMemory)
    requires WellKeyed(store)
    ensures WellKeyed(Upsert(store, m))
    ensures MemoryById(Upsert(store, m), m.memoryId, false) == Some(m)
  {
  }

  /** A second upsert under the same id replaces the first completely. */
  lemma UpsertLastWins(store: MemoryStore, m1: UserMemory, m2: UserMemory)
    requires m1.memoryId == m2.memoryId
    ensures Upsert(Upsert(store, m1), m2) == Upsert(store, m2)
  {
  }

  // ------------------------------------------------------ initialisation

  /** The stored difficulty memory exists, can be read and names a level. */
  predicate HasValidLevel(store: MemoryStore, readFails: bool) {
    var m := MemoryById(store, DifficultyMemoryId, readFails);
    m.Some? && IsLevel(m.value.memory)
  }

  datatype EnsureResult = EnsureResult(level: string, memories: MemoryStore)

  /**
   * `ensure_difficulty_memory`: a valid stored level is returned and nothing
   * is written; otherwise a level-1 memory is upserted and level 1 is
   * returned, also when the write raises.
   */
  function Ensured(store: MemoryStore, readFails: bool, writeFails: bool): (r: EnsureResult)
    ensures IsLevel(r.level)
    ensures HasValidLevel(store, readFails) ==>
              r.level == store[DifficultyMemoryId].memory && r.memories == store
    ensures !HasValidLevel(store, readFails) ==> r.level == Level1
    ensures !HasValidLevel(store, readFails) && writeFails ==> r.memories == store
    ensures !HasValidLevel(store, readFails) && !writeFails ==>
              r.memories == Upsert(store, LevelMemory(Level1))
  {
    if HasValidLevel(store, readFails) then
      EnsureResult(store[DifficultyMemoryId].memory, store)
    else if writeFails then
      EnsureResult(Level1, store)
    else
      EnsureResult(Level1, Upsert(store, LevelMemory(Level1)))
  }

  /** When the write goes through, the returned level is the one now stored. */
  lemma EnsuredStoresLevel(store: MemoryStore, readFails: bool)
    ensures var r := Ensured(store, readFails, false);
            DifficultyMemoryId in r.memories && r.memories[DifficultyMemoryId].memory == r.level
            && LevelInvariant(r.memories)
  {
  }

  /** Running the initialisation again after a fault-free run changes nothing and repeats the level. */
  lemma EnsureIdempotent(store: MemoryStore, readFails: bool)
    ensures var r := Ensured(store, readFails, false);
            Ensured(r.memories, false, false) == r
  {
    var r := Ensured(store, readFails, false);
    EnsuredStoresLevel(store, readFails);
    assert HasValidLevel(r.memories, false);
  }

  /**
   * A read fault makes the initialisation overwrite whatever level was
   * stored with level 1.
   */
  lemma ReadFaultResetsLevel(store: MemoryStore)
    requires DifficultyMemoryId in store && IsLevel(store[DifficultyMemoryId].memory)
    requires store[DifficultyMemoryId].memory != Level1
    ensures var r := Ensured(store, true, false);
            r.level == Level1 && r.memories[DifficultyMemoryId].memory == Level1
            && r.memories != store
  {
    var r := Ensured(store, true, false);
    assert r.memories[DifficultyMemoryId] != store[DifficultyMemoryId];
  }

  // ----------------------------------------------------- agent state

  datatype AgentState = AgentState(memories: MemoryStore, instructions: seq<string>)

  /** The instructions are the ones selected for the level stored in memory. */
  predicate Synced(s: AgentState) {
    DifficultyMemoryId in s.memories
    && s.instructions == InstructionsFor(s.memories[DifficultyMemoryId].memory)
  }

  /**
   * `update_difficulty_memory`: an unknown level text changes nothing; a
   * known one is upserted and, when the write succeeds, the instructions
   * are selected for it; a failing write leaves the whole state as it was.
   */
  function Updated(s: AgentState, text: string, writeFails: bool): (r: AgentState)
    ensures !IsLevel(text) || writeFails ==> r == s
    ensures IsLevel(text) && !writeFails ==>
              && r.memories == Upsert(s.memories, LevelMemory(text))
              && r.instructions == InstructionsFor(text)
              && Synced(r)
  {
    if !IsLevel(text) || writeFails then s
    else AgentState(Upsert(s.memories, LevelMemory(text)), InstructionsFor(text))
  }

  /** An update never stores an unknown level and never breaks the tie between memory and instructions. */
  lemma UpdatedKeepsInvariants(s: AgentState, text: string, writeFails: bool)
    requires LevelInvariant(s.memories) && WellKeyed(s.memories)
    ensures LevelInvariant(Updated(s, text, writeFails).memories)
    ensures WellKeyed(Updated(s, text, writeFails).memories)
    ensures Synced(s) ==> Synced(Updated(s, text, writeFails))
  {
  }

  /**
   * The startup sequence: initialise the memory, then select the
   * instructions for the level it returned. The instructions announce that
   * level (level 1 unless a valid one could be read), and once the write
   * goes through, memory and instructions agree on a valid stored level.
   */
  function Started(s: AgentState, readFails: bool, writeFails: bool): (r: AgentState)
    ensures var e := Ensured(s.memories, readFails, writeFails);
            r.memories == e.memories && AnnouncedLevel(r.instructions) == Some(e.level)
    ensures !HasValidLevel(s.memories, readFails) ==> AnnouncedLevel(r.instructions) == Some(Level1)
    ensures HasValidLevel(s.memories, readFails) ==> r.memories == s.memories && Synced(r)
    ensures !writeFails ==> Synced(r) && LevelInvariant(r.memories)
  {
    var e := Ensured(s.memories, readFails, writeFails);
    InstructionsAnnounceLevel(e.level);
    EnsuredStoresLevel(s.memories, readFails);
    AgentState(e.memories, InstructionsFor(e.level))
  }

  /**
   * An agent whose memory already holds a level keeps it across startups,
   * even when the write would fail.
   */
  lemma StartupKeepsStoredLevel(s: AgentState, writeFails: bool)
    requires DifficultyMemoryId in s.memories && IsLevel(s.memories[DifficultyMemoryId].memory)
    ensures Started(s, false, writeFails).memories == s.memories
    ensures Synced(Started(s, false, writeFails))
  {
  }

  // ------------------------------------------------------------- review

  /** One session message: one with a `content` attribute, possibly `None`, or any other object. */
  datatype Message = WithContent(content: Option<string>) | Other(text: string)

  /** A message as it appears in the review history. */
  function Render(m: Message): (r: string)
    ensures m.WithContent? ==> |r| >= 6 && r[..6] == "User: "
  {
    match m
    case WithContent(Some(c)) => "User: " + c
    case WithContent(None) => "User: None"
    case Other(t) => t
  }

  function RenderAll(ms: seq<Message>): (r: seq<string>)
    ensures |r| == |ms| && forall i :: 0 <= i < |ms| ==> r[i] == Render(ms[i])
  {
    if ms == [] then [] else [Render(ms[0])] + RenderAll(ms[1..])
  }

  /** `messages[-20:]`: the last twenty messages, or all of them when there are fewer. */
  function LastMessages(ms: seq<Message>): (r: seq<Message>)
    ensures |r| == if |ms| < HistoryWindow then |ms| else HistoryWindow
    ensures r == ms[|ms| - |r|..]
  {
    if |ms| <= HistoryWindow then ms else ms[|ms| - HistoryWindow..]
  }

  /**
   * The conversation history the review sees: empty for a session without
   * messages, and not blank once one of the last twenty messages has a
   * `content` attribute.
   */
  function History(ms: seq<Message>): (r: string)
    ensures ms == [] ==> r == []
    ensures (exists i :: 0 <= i < |LastMessages(ms)| && LastMessages(ms)[i].WithContent?) ==> !Blank(r)
  {
    var recent := LastMessages(ms);
    assert (exists i :: 0 <= i < |recent| && recent[i].WithContent?) ==>
           !Blank(Join(RenderAll(recent), "\n")) by {
      if exists i :: 0 <= i < |recent| && recent[i].WithContent? {
        var i :| 0 <= i < |recent| && recent[i].WithContent?;
        RenderedContentNotBlank(recent, i);
      }
    }
    Join(RenderAll(recent), "\n")
  }

  lemma RenderedContentNotBlank(ms: seq<Message>, i: nat)
    requires i < |ms| && ms[i].WithContent?
    ensures !Blank(Join(RenderAll(ms), "\n"))
  {
    var parts := RenderAll(ms);
    assert parts[i][0] == 'U';
    JoinNotAllSpace(parts, "\n", i);
  }

  /** Messages older than the last twenty have no influence on the history. */
  lemma HistoryIgnoresOlderMessages(older: seq<Message>, recent: seq<Message>)
    requires |recent| >= HistoryWindow
    ensures History(older + recent) == History(recent)
  {
    var all := older + recent;
    var w := HistoryWindow;
    assert all[|older|..] == recent;
    assert all[|all| - w..] == all[|older|..][|recent| - w..];
    assert LastMessages(all) == LastMessages(recent);
  }

  /** The level the review compares against: the stored text, unchecked, or level 1 when none can be read. */
  function ReviewCurrent(store: MemoryStore, readFails: bool): (r: string)
    ensures MemoryById(store, DifficultyMemoryId, readFails).None? ==> r == Level1
    ensures MemoryById(store, DifficultyMemoryId, readFails).Some? ==>
              r == store[DifficultyMemoryId].memory
  {
    match MemoryById(store, DifficultyMemoryId, readFails)
    case Some(m) => m.memory
    case None => Level1
  }

  /** `new_difficulty and new_difficulty != current`: a non-empty recommendation that differs. */
  predicate Recommends(current: string, recommendation: Option<string>) {
    recommendation.Some? && recommendation.value != "" && recommendation.value != current
  }

  /**
   * `_trigger_review`: with a blank history or a failing analysis nothing
   * changes; otherwise the update runs exactly when the recommendation is a
   * non-empty text other than the current level.
   */
  function Reviewed(s: AgentState, ms: seq<Message>, recommendation: Option<string>,
                    readFails: bool, reviewFails: bool, writeFails: bool): (r: AgentState)
    ensures Blank(History(ms)) || reviewFails ==> r == s
    ensures !Recommends(ReviewCurrent(s.memories, readFails), recommendation) ==> r == s
    ensures !Blank(History(ms)) && !reviewFails && Recommends(ReviewCurrent(s.memories, readFails), recommendation) ==>
              r == Updated(s, recommendation.value, writeFails)
  {
    var current := ReviewCurrent(s.memories, readFails);
    if Blank(History(ms)) || reviewFails then s
    else if Recommends(current, recommendation) then Updated(s, recommendation.value, writeFails)
    else s
  }

  /** Whatever the review recommends, the stored level stays one of the six and memory and instructions stay tied. */
  lemma ReviewedKeepsInvariants(s: AgentState, ms: seq<Message>, recommendation: Option<string>,
                                readFails: bool, reviewFails: bool, writeFails: bool)
    requires LevelInvariant(s.memories) && WellKeyed(s.memories)
    ensures var r := Reviewed(s, ms, recommendation, readFails, reviewFails, writeFails);
            LevelInvariant(r.memories) && WellKeyed(r.memories) && (Synced(s) ==> Synced(r))
  {
    if !Blank(History(ms)) && !reviewFails && Recommends(ReviewCurrent(s.memories, readFails), recommendation) {
      UpdatedKeepsInvariants(s, recommendation.value, writeFails);
    }
  }

  /** A recommendation equal to the stored level, or one that names no level, leaves the state alone. */
  lemma ReviewIgnoresSameOrUnknownLevel(s: AgentState, ms: seq<Message>, text: string, writeFails: bool)
    requires DifficultyMemoryId in s.memories
    requires text == s.memories[DifficultyMemoryId].memory || !IsLevel(text)
    ensures Reviewed(s, ms, Some(text), false, false, writeFails) == s
  {
  }

  /** A fault-free review that recommends a new level stores it and selects its instructions. */
  lemma ReviewAppliesNewLevel(s: AgentState, ms: seq<Message>, text: string)
    requires !Blank(History(ms)) && IsLevel(text)
    requires Recommends(ReviewCurrent(s.memories, false), Some(text))
    ensures Reviewed(s, ms, Some(text), false, false, false) == Updated(s, text, false)
    ensures Synced(Reviewed(s, ms, Some(text), false, false, false))
    ensures Reviewed(s, ms, Some(text), false, false, false).memories[DifficultyMemoryId] == LevelMemory(text)
    ensures AnnouncedLevel(Reviewed(s, ms, Some(text), false, false, false).instructions) == Some(text)
  {
    InstructionsAnnounceLevel(text);
  }

  lemma FreshStart()
    ensures Started(AgentState(map[], [PlaceholderInstruction]), false, false)
            == AgentState(map[DifficultyMemoryId := LevelMemory(Level1)], InstructionsFor(Level1))
  {
    assert !HasValidLevel(map[], false);
  }

  lemma ThirdLevel()
    ensures IsLevel(Level3) && Level3 != Level1
  {
    assert Level1[|LevelPrefix|] != Level3[|LevelPrefix|];
    assert LevelText(3) == Level3;
  }

  /**
   * A new learner: the first startup stores level 1, and a review after a
   * conversation that recommends level 3 moves both memory and
   * instructions to level 3.
   */
  lemma NewLearnerPromotion(ms: seq<Message>)
    requires |ms| > 0 && ms[|ms| - 1].WithContent?
    ensures var s0 := Started(AgentState(map[], [PlaceholderInstruction]), false, false);
            && MemoryById(s0.memories, DifficultyMemoryId, false) == Some(LevelMemory(Level1))
            && s0.instructions == InstructionsFor(Level1)
            && var s1 := Reviewed(s0, ms, Some(Level3), false, false, false);
               && MemoryById(s1.memories, DifficultyMemoryId, false) == Some(LevelMemory(Level3))
               && s1.instructions == InstructionsFor(Level3)
  {
    assert LastMessages(ms)[|LastMessages(ms)| - 1].WithContent?;
    FreshStart();
    var s0 := AgentState(map[DifficultyMemoryId := LevelMemory(Level1)], InstructionsFor(Level1));
    assert ReviewCurrent(s0.memories, false) == Level1;
    ThirdLevel();
    ReviewAppliesNewLevel(s0, ms, Level3);
  }

  // -------------------------------------------------------- turn counter

  /** The count after an interaction triggers a review. */
  predicate ReviewDue(count: nat) {
    count % ReviewTriggerInterval == 0
  }

  /** How many reviews the asynchronous path schedules over `turns` interactions after `count`. */
  function ReviewsScheduled(count: nat, turns: nat): nat {
    if turns == 0 then 0
    else ReviewsScheduled(count, turns - 1) + (if ReviewDue(count + turns) then 1 else 0)
  }

  /** From a fresh agent, every fifth interaction and only those trigger a review. */
  lemma {:induction false} ReviewEveryFifthTurn(turns: nat)
    ensures ReviewsScheduled(0, turns) == turns / ReviewTriggerInterval
  {
    if turns > 0 {
      ReviewEveryFifthTurn(turns - 1);
      var q, m := (turns - 1) / 5, (turns - 1) % 5;
      assert turns - 1 == 5 * q + m && 0 <= m < 5;
      if m == 4 {
        assert turns == 5 * (q + 1);
      } else {
        assert turns == 5 * q + (m + 1) && m + 1 < 5;
      }
    }
  }

  // ------------------------------------------------------------ the agent

  /** `TrainerAgent`: the memory, the instruction list and the interaction counter it updates. */
  class TrainerAgent {
    var memories: MemoryStore
    var instructions: seq<string>
    var interactionCount: nat

    function State(): AgentState
      reads this
    {
      AgentState(memories, instructions)
    }

    /** The agent as the module creates it: the placeholder instruction and a zero count. */
    constructor (memories: MemoryStore)
      ensures this.memories == memories
      ensures instructions == [PlaceholderInstruction] && interactionCount == 0
    {
      this.memories := memories;
      instructions := [PlaceholderInstruction];
      interactionCount := 0;
    }

    /** `_handle_interaction`: one more interaction; a review is scheduled on every fifth unless no event loop runs. */
    method HandleInteraction(noEventLoop: bool) returns (reviewScheduled: bool)
      modifies this
      ensures interactionCount == old(interactionCount) + 1
      ensures reviewScheduled <==> ReviewDue(interactionCount) && !noEventLoop
      ensures State() == old(State())
    {
      interactionCount := interactionCount + 1;
      reviewScheduled := ReviewDue(interactionCount) && !noEventLoop;
    }

    /** `_handle_interaction_async`: one more interaction; a review is scheduled on every fifth. */
    method HandleInteractionAsync() returns (reviewScheduled: bool)
      modifies this
      ensures interactionCount == old(interactionCount) + 1
      ensures reviewScheduled <==> ReviewDue(interactionCount)
      ensures State() == old(State())
    {
      interactionCount := interactionCount + 1;
      reviewScheduled := ReviewDue(interactionCount);
    }

    /** `run`: the model's `response` is passed through, then the interaction is counted. */
    method Run(response: string, noEventLoop: bool) returns (r: string, reviewScheduled: bool)
      modifies this
      ensures r == response
      ensures interactionCount == old(interactionCount) + 1
      ensures reviewScheduled <==> ReviewDue(interactionCount) && !noEventLoop
      ensures State() == old(State())
    {
      r := response;
      reviewScheduled := HandleInteraction(noEventLoop);
    }

    /** `arun`: as `run`, on the asynchronous path. */
    method ARun(response: string) returns (r: string, reviewScheduled: bool)
      modifies this
      ensures r == response
      ensures interactionCount == old(interactionCount) + 1
      ensures reviewScheduled <==> ReviewDue(interactionCount)
      ensures State() == old(State())
    {
      r := response;
      reviewScheduled := HandleInteractionAsync();
    }

    /** `_trigger_review`, with the session's messages and the analysis result given. */
    method TriggerReview(ms: seq<Message>, recommendation: Option<string>,
                         readFails: bool, reviewFails: bool, writeFails: bool)
      modifies this
      ensures State() == Reviewed(old(State()), ms, recommendation, readFails, reviewFails, writeFails)
      ensures interactionCount == old(interactionCount)
    {
      var current := ReviewCurrent(memories, readFails);
      var history := History(ms);
      if Blank(history) || reviewFails {
        return;
      }
      if Recommends(current, recommendation) {
        UpdateDifficultyMemory(this, recommendation.value, writeFails);
      }
    }
  }

  // ------------------------------------------ operations on an agent

  /** `ensure_difficulty_memory(agent)`. */
  method EnsureDifficultyMemory(agent: TrainerAgent, readFails: bool, writeFails: bool) returns (level: string)
    modifies agent
    ensures level == Ensured(old(agent.memories), readFails, writeFails).level
    ensures agent.memories == Ensured(old(agent.memories), readFails, writeFails).memories
    ensures agent.instructions == old(agent.instructions) && agent.interactionCount == old(agent.interactionCount)
  {
    var m := MemoryById(agent.memories, DifficultyMemoryId, readFails);
    if m.Some? && IsLevel(m.value.memory) {
      return m.value.memory;
    }
    if !writeFails {
      agent.memories := Upsert(agent.memories, LevelMemory(Level1));
    }
    level := Level1;
  }

  /** `set_agent_instructions_for_difficulty(agent, text)`. */
  method SetInstructionsForDifficulty(agent: TrainerAgent, text: string)
    modifies agent
    ensures agent.instructions == InstructionsFor(text)
    ensures agent.memories == old(agent.memories) && agent.interactionCount == old(agent.interactionCount)
  {
    agent.instructions := InstructionsFor(text);
  }

  /** `update_difficulty_memory(agent, text)`. */
  method UpdateDifficultyMemory(agent: TrainerAgent, text: string, writeFails: bool)
    modifies agent
    ensures agent.State() == Updated(old(agent.State()), text, writeFails)
    ensures agent.interactionCount == old(agent.interactionCount)
  {
    if !IsLevel(text) {
      return;
    }
    if writeFails {
      return;
    }
    agent.memories := Upsert(agent.memories, LevelMemory(text));
    SetInstructionsForDifficulty(agent, text);
  }

  /** The module's startup: create the agent, initialise its difficulty memory, select its instructions. */
  method Startup(memories: MemoryStore, readFails: bool, writeFails: bool) returns (agent: TrainerAgent)
    ensures fresh(agent)
    ensures agent.State() == Started(AgentState(memories, [PlaceholderInstruction]), readFails, writeFails)
    ensures agent.interactionCount == 0
  {
    agent := new TrainerAgent(memories);
    var level := EnsureDifficultyMemory(agent, readFails, writeFails);
    SetInstructionsForDifficulty(agent, level);
  }
}
