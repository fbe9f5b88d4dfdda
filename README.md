# Language trainer core, modelled in Dafny

The language trainer drills one learner, Kyrill, in German gap sentences
through an LLM agent. It reaches the learner through a web playground and a
Telegram bot. Around the LLM calls sit three pieces of deterministic logic,
and this project models and proves properties of each.

1. **The adaptive difficulty loop** (`trainer_agent_with_tools.py`).
   - A table maps six canonical level texts to their instructions.
   - A memory store keeps the learner's current level under the id
     `kyrill_difficulty_level`.
   - At startup the stored level is validated, or it defaults to level 1.
   - The agent's three instruction entries are selected for the current level.
   - `generate_task` formats one drill item in four argument shapes.
   - The agent counts its interactions and schedules a review on every
     fifth one.
   - The review applies a recommended level only when it differs from the
     current one.
2. **The password login of the Telegram bot** (`telegram_auth.py`).
   - An in-memory table counts failed attempts per user.
   - Five failures block the user for ten minutes. An expired block is
     deleted and counting starts again.
   - A login checks the block, compares the password, then records a
     failure or clears the entry and upserts the user's record.
3. **Reply formatting in the bot** (`telegram_bot.py`).
   - The trainer's `<br>`-separated reply becomes clean plain-text lines.
   - A blocked user is shown the remaining time as minutes:seconds.
   - Each chat gets a per-day session id.

The modules are:

- `Wrappers`: `Option`.
- `Text`: the Python `str` operations the code relies on, with their laws:
  - `isspace`/`strip`,
  - `split('\n')`/`join`,
  - `replace`,
  - the scan for the first occurrence of a character,
  - decimal rendering.
- `DifficultyTable`: the level texts, the exact instruction texts, and the
  instruction selection.
- `TaskFormatter`: `generate_task`.
  - The shuffle of `random.shuffle` is a `Shuffle3` parameter.
  - The coin of `random.choice([True, False])` is a `bool` parameter.
- `TrainerAgentModel`:
  - the memory store, a map from memory id to memory in which every
    memory is filed under its own id;
  - the pure transition functions;
  - the class `TrainerAgent`, whose fields are the memory, the instruction
    list and the interaction counter;
  - the module-level methods that update an agent.

  Storage faults are boolean parameters.
- `TelegramAuth`:
  - the pure transition functions on the attempt table and the user
    collection (maps keyed by Telegram id);
  - the class `AuthService`, which holds both and updates them in place.

  Time is integer seconds.
- `TelegramBot`: reply formatting, the block notice and the session id.

Points about the code the model makes explicit:

- A read fault in `get_memory_by_id` is indistinguishable from a missing
  memory. `ensure_difficulty_memory` then writes level 1 over a valid stored
  level (`ReadFaultResetsLevel`).
- `update_difficulty_memory` validates the level before writing.
  `_trigger_review` instead compares against the raw stored text, which it
  does not validate.
- Python truthiness decides the review. An empty recommendation counts as
  none.
- The tag pattern `<[^>]+>` needs a character other than `>` between the
  brackets. `[^>]` matches a newline, so a "tag" may span lines.

## Model

| member | source | states |
|---|---|---|
| `Text.Strip` | telegram_bot.py:169 | `strip()`: the result is no longer than the input, has no whitespace at either end, and is empty exactly when the input is all whitespace |
| `Text.StripSlice` | trainer_agent_with_tools.py:300 | the stripped text is a contiguous slice of the input with only whitespace cut off on both sides |
| `Text.StripIdempotent` | trainer_agent_with_tools.py:300 | stripping twice equals stripping once |
| `Text.StripFixedPoint` | telegram_bot.py:169 | stripping leaves a text unchanged exactly when neither end is whitespace |
| `Text.Split` | telegram_bot.py:169 | `split('\n')`: at least one piece, no piece holds the separator, and joining the pieces with it gives back the input |
| `Text.Join` | telegram_bot.py:169 | `sep.join(parts)` begins with the first piece |
| `Text.SplitJoin` | telegram_bot.py:169 | splitting a join of separator-free pieces gives back exactly those pieces |
| `Text.JoinNoDoubleSeparator` | telegram_bot.py:169 | joining non-empty, newline-free lines never puts two newlines in a row, and the result neither starts nor ends with one |
| `Text.JoinNotAllSpace` | trainer_agent_with_tools.py:399-401 | a joined text is not all whitespace when one of its parts is not |
| `Text.ReplaceLeavesNoOccurrence` | telegram_bot.py:162 | after replacing a pattern by a text that shares no character with it, neither that pattern nor any text absent before occurs |
| `Text.ReplaceAbsent` | telegram_bot.py:162 | replacing a pattern that does not occur changes nothing |
| `Text.Replace` | telegram_bot.py:162 | every character of the result comes from the input or from the replacement |
| `Text.IndexOf` | telegram_bot.py:166 | the first position of the character, every earlier position differs, and `|s|` exactly when the character is absent |
| `Text.NatToString` | telegram_bot.py:83 | `str(n)` for `n >= 0`: digits only, no leading zero, one digit below 10 and at most two below 100 |
| `Text.NatToStringValue` | telegram_bot.py:83 | the rendered digits read back as `n` |
| `Text.NatToStringInjective` | telegram_bot.py:107 | different numbers render differently |
| `Text.IntToString` | telegram_bot.py:108 | `str(i)`: never empty, no colon, digits for non-negative `i`, and a leading minus exactly for negative `i` |
| `Text.IntToStringInjective` | telegram_bot.py:108 | different integers render differently |
| `Text.PadTwo` | telegram_bot.py:83 | `f"{n:02d}"`: digits whose value is `n`, at least two, and exactly two below 100 |
| `DifficultyTable.LevelText` | trainer_agent_with_tools.py:29-89 | the text of level 1 to 6 is a key of the instruction table |
| `DifficultyTable.LevelsArePattern` | complexity_review_agent.py:16 | the table's keys are exactly the texts matching `^Kyrills aktuelle Schwierigkeitsstufe ist [1-6]$` |
| `DifficultyTable.SixLevels` | trainer_agent_with_tools.py:29-89 | the table has exactly the six level texts as keys, and different level numbers give different texts |
| `DifficultyTable.EffectiveLevel` | trainer_agent_with_tools.py:239-241 | the key used is always a table key; it is the given text exactly when that text is a key, and level 1 otherwise |
| `DifficultyTable.InstructionsFor` | trainer_agent_with_tools.py:243-263 | exactly three entries: the preamble naming the effective level, that level's table entry, and the fixed dialogue rules |
| `DifficultyTable.InstructionsAnnounceLevel` | trainer_agent_with_tools.py:247-248 | the first instruction entry announces the effective level, and it can be read back from it |
| `DifficultyTable.InstructionsDistinguishLevels` | trainer_agent_with_tools.py:239-263 | two different valid levels never get the same instructions |
| `TaskFormatter.Arrange` | trainer_agent_with_tools.py:312-313 | a shuffled option list is a permutation of the three options |
| `TaskFormatter.EveryOrderReachable` | trainer_agent_with_tools.py:312-313 | every permutation of the three options is produced by some shuffle |
| `TaskFormatter.GenerateTask` | trainer_agent_with_tools.py:286-331 | the result always starts with the sentence and `<br>`; all options blank gives the answer prompt; `wrong_option2` given with another option blank gives the incomplete-options error; three options give `Optionen: ` and the shuffled options joined by ` / `; two give one of the two orders; every other shape gives the incomplete-parameters error |
| `TaskFormatter.TwoOptionOrders` | trainer_agent_with_tools.py:317-326 | each coin outcome gives one of the two orders, so both occur |
| `TaskFormatter.ThreeOptionOrders` | trainer_agent_with_tools.py:305-315 | every order of the three options occurs for some shuffle, whatever the coin |
| `TaskFormatter.FreeInputRecognisable` | trainer_agent_with_tools.py:300-303 | the result is the free-input prompt exactly when all three options are blank |
| `TrainerAgentModel.MemoryById` | trainer_agent_with_tools.py:150-168 | a memory that is found has the requested `memory_id` and is in the store; `None` exactly when reading raises or no stored memory has that id |
| `TrainerAgentModel.Upsert` | trainer_agent_with_tools.py:221-222 | `add_user_memory` as upsert: the id now holds the memory and every other memory is unchanged |
| `TrainerAgentModel.UpsertWellKeyed` | trainer_agent_with_tools.py:221-222 | an upsert keeps every memory under its own id, and the memory can be read back |
| `TrainerAgentModel.UpsertLastWins` | trainer_agent_with_tools.py:221-222 | of two upserts under the same id, only the last one remains |
| `TrainerAgentModel.Ensured` | trainer_agent_with_tools.py:170-200 | `ensure_difficulty_memory` always returns a table key; a readable valid stored level is returned with no write; otherwise level 1 is upserted and returned, also when the write raises |
| `TrainerAgentModel.EnsuredStoresLevel` | trainer_agent_with_tools.py:186-200 | when the write goes through, the returned level is stored and the stored level is valid |
| `TrainerAgentModel.EnsureIdempotent` | trainer_agent_with_tools.py:179-182 | running the initialisation again after a fault-free run writes nothing and returns the same level |
| `TrainerAgentModel.ReadFaultResetsLevel` | trainer_agent_with_tools.py:163-168 | a read fault makes the initialisation replace a stored level other than 1 with level 1 |
| `TrainerAgentModel.Updated` | trainer_agent_with_tools.py:202-229 | an unknown level text or a failing write changes nothing; otherwise the text is stored under the id and the instructions are selected for it |
| `TrainerAgentModel.UpdatedKeepsInvariants` | trainer_agent_with_tools.py:210-226 | an update never stores an unknown level and never breaks the agreement between stored level and instructions |
| `TrainerAgentModel.Started` | trainer_agent_with_tools.py:437-438 | startup stores what the initialisation stores and installs instructions announcing the level it returns; with no valid readable level they announce level 1; a valid stored level is kept and matched by the instructions; when the write goes through, memory holds a valid level and the instructions are the ones for it |
| `TrainerAgentModel.StartupKeepsStoredLevel` | trainer_agent_with_tools.py:179-182 | a valid stored level survives startup unchanged, even when writes fail |
| `TrainerAgentModel.Render` | trainer_agent_with_tools.py:399 | a message with a `content` attribute is rendered with the prefix `User: ` |
| `TrainerAgentModel.RenderAll` | trainer_agent_with_tools.py:399 | each message is rendered in turn, in order |
| `TrainerAgentModel.LastMessages` | trainer_agent_with_tools.py:399 | `messages[-20:]`: the last twenty messages, or all of them when there are fewer |
| `TrainerAgentModel.History` | trainer_agent_with_tools.py:398-401 | the review history is empty for a session without messages, and not blank when one of the last twenty messages has content |
| `TrainerAgentModel.HistoryIgnoresOlderMessages` | trainer_agent_with_tools.py:399 | messages before the last twenty do not affect the review history |
| `TrainerAgentModel.ReviewCurrent` | trainer_agent_with_tools.py:393-394 | the review compares against the stored text, or level 1 when there is no readable memory |
| `TrainerAgentModel.Reviewed` | trainer_agent_with_tools.py:387-416 | a blank history or a failing analysis changes nothing; otherwise the update runs exactly when the recommendation is non-empty and differs from the current level |
| `TrainerAgentModel.ReviewedKeepsInvariants` | trainer_agent_with_tools.py:409-411 | whatever is recommended, the stored level stays valid and memory and instructions stay in agreement |
| `TrainerAgentModel.ReviewIgnoresSameOrUnknownLevel` | trainer_agent_with_tools.py:409-413 | a recommendation equal to the stored level, or naming no level, leaves the state unchanged |
| `TrainerAgentModel.ReviewAppliesNewLevel` | trainer_agent_with_tools.py:409-411 | a fault-free review recommending a new valid level stores it and installs instructions announcing it |
| `TrainerAgentModel.NewLearnerPromotion` | trainer_agent_with_tools.py:437-438 | a new learner starts at level 1, and a review recommending level 3 moves memory and instructions to level 3 |
| `TrainerAgentModel.ReviewEveryFifthTurn` | trainer_agent_with_tools.py:378-385 | from a fresh agent, `n` interactions schedule exactly `n / 5` reviews |
| `TrainerAgentModel.TrainerAgent.constructor` | trainer_agent_with_tools.py:420-429 | a new agent has the placeholder instruction that the module passes at construction and an interaction count of 0 (`__init__`, lines 342-344) |
| `TrainerAgentModel.TrainerAgent.HandleInteraction` | trainer_agent_with_tools.py:366-376 | the count rises by exactly one; a review is scheduled exactly when the new count is a multiple of 5 and an event loop runs; nothing else changes |
| `TrainerAgentModel.TrainerAgent.HandleInteractionAsync` | trainer_agent_with_tools.py:378-385 | the count rises by exactly one; a review is scheduled exactly when the new count is a multiple of 5 |
| `TrainerAgentModel.TrainerAgent.Run` | trainer_agent_with_tools.py:346-354 | the response is passed through and the interaction is counted once after it |
| `TrainerAgentModel.TrainerAgent.ARun` | trainer_agent_with_tools.py:356-364 | as `run`, on the asynchronous path |
| `TrainerAgentModel.TrainerAgent.TriggerReview` | trainer_agent_with_tools.py:387-416 | the new memory and instructions are those of `Reviewed`; the count is unchanged |
| `TrainerAgentModel.EnsureDifficultyMemory` | trainer_agent_with_tools.py:170-200 | returns the level and leaves the memory that `Ensured` describes; instructions and count are untouched |
| `TrainerAgentModel.SetInstructionsForDifficulty` | trainer_agent_with_tools.py:231-265 | the instructions become those selected for the text; memory and count are untouched |
| `TrainerAgentModel.UpdateDifficultyMemory` | trainer_agent_with_tools.py:202-229 | the new memory and instructions are those of `Updated` |
| `TrainerAgentModel.Startup` | trainer_agent_with_tools.py:418-438 | the new agent's memory and instructions are those of `Started`, with no interaction counted |
| `TelegramAuth.AfterCheck` | telegram_auth.py:43-58 | `check_rate_limit` deletes the user's entry exactly when the count is at least 5 and the block has run out; every other entry is untouched; an unblocked user is left under the limit |
| `TelegramAuth.AfterFailure` | telegram_auth.py:60-72 | a missing entry starts at 0, the count rises by exactly one, and from 5 on the block runs to `now + 600`; other users are untouched |
| `TelegramAuth.Cleared` | telegram_auth.py:74-77 | only the user's entry is removed |
| `TelegramAuth.ClearIdempotent` | telegram_auth.py:74-77 | clearing twice equals clearing once, and clearing an absent entry is a no-op |
| `TelegramAuth.RemainingBlockTime` | telegram_auth.py:157-164 | `None` exactly when there is no entry with count at least 5; otherwise `max(0, blocked_until - now)`, never negative |
| `TelegramAuth.RemainingTimeAgreesWithBlock` | telegram_auth.py:157-164 | a positive remaining time is reported exactly when the user is blocked |
| `TelegramAuth.FifthFailureBlocks` | telegram_auth.py:69-71 | the fifth failure blocks the user for the next 600 seconds and not after |
| `TelegramAuth.SetField` | telegram_auth.py:137-141 | the result is the given or the stored value; a given name replaces the stored one; a missing or empty name keeps it, so a stored name is never erased |
| `TelegramAuth.UpsertUser` | telegram_auth.py:127-148 | one record keyed by the Telegram id exists afterwards, with `$set` semantics for the names; other records are untouched |
| `TelegramAuth.UpsertUserKeyedById` | telegram_auth.py:144-148 | the collection keeps at most one record per Telegram id |
| `TelegramAuth.UpsertUserKeepsNames` | telegram_auth.py:137-148 | a later login without names keeps the names stored by an earlier one |
| `TelegramAuth.IsUserAuthenticated` | telegram_auth.py:88-104 | true exactly when a record for the user exists and the collection can be read |
| `TelegramAuth.Authenticate` | telegram_auth.py:106-155 | a blocked user is refused with nothing recorded; an unset or wrong password records exactly one failure; the right one clears the entry and upserts the record; success happens exactly when unblocked, the password is right and the collection works |
| `TelegramAuth.AuthenticateKeepsCountsBounded` | telegram_auth.py:110-118 | driven only by logins, every count stays between 1 and 5 |
| `TelegramAuth.SuccessfulLoginAuthenticates` | telegram_auth.py:120-151 | after a successful login the user is authenticated, not blocked, and has no remaining block time |
| `TelegramAuth.ExpiredBlockRestartsCount` | telegram_auth.py:54-56 | a wrong password after a block has run out leaves a count of 1 |
| `TelegramAuth.RepeatedWrongLogins` | telegram_auth.py:106-118 | from no entry, `k` wrong passwords count `min(k, 5)` failures, the user is blocked exactly from the fifth on, and no record is written |
| `TelegramAuth.AuthService.constructor` | telegram_auth.py:41 | the attempt table starts empty |
| `TelegramAuth.AuthService.CheckRateLimit` | telegram_auth.py:43-58 | allows exactly the unblocked user and leaves the table that `AfterCheck` describes |
| `TelegramAuth.AuthService.RecordFailedAttempt` | telegram_auth.py:60-72 | leaves the table that `AfterFailure` describes |
| `TelegramAuth.AuthService.ClearFailedAttempts` | telegram_auth.py:74-77 | leaves the table that `Cleared` describes |
| `TelegramAuth.AuthService.AuthenticateTelegramUser` | telegram_auth.py:106-155 | the result and new state are those of `Authenticate` |
| `TelegramBot.BreaksToNewlines` | telegram_bot.py:162 | none of `<br>`, `<br/>`, `<br />` is left after the conversion, and text without `<` is not changed |
| `TelegramBot.TagAt` | telegram_bot.py:166 | a match of `<[^>]+>` at the start is a `<`, then at least one character other than `>`, then the first `>`; there is no match when no `>` follows or the next character is `>` |
| `TelegramBot.RemoveTags` | telegram_bot.py:166 | the result is no longer than the input and uses only its characters |
| `TelegramBot.RemoveTagsLeavesNoTag` | telegram_bot.py:166 | no match of the pattern is left after the substitution |
| `TelegramBot.RemoveTagsKeepsTagFree` | telegram_bot.py:166 | text without a match is unchanged |
| `TelegramBot.RemoveTagsIdempotent` | telegram_bot.py:166 | substituting twice equals substituting once |
| `TelegramBot.PlainTextTagFree` | telegram_bot.py:166 | text without `<` has no match |
| `TelegramBot.CleanedLines` | telegram_bot.py:169 | the kept lines are non-empty and stripped, no more than the input lines, and newline-free when the input lines are |
| `TelegramBot.CleanedLinesKeepsCleanLines` | telegram_bot.py:169 | lines that are already non-empty and stripped are all kept unchanged |
| `TelegramBot.FormatResponse` | telegram_bot.py:156-171 | never empty; the fallback for an empty reply or one that cleans up to nothing; otherwise its lines are exactly the stripped non-blank lines of the de-tagged text, none empty or padded, no two newlines in a row, and no newline at either end |
| `TelegramBot.PlainReplyUnchanged` | telegram_bot.py:156-171 | a one-line reply without `<` and without surrounding whitespace is sent as it is |
| `TelegramBot.ClockDisplay` | telegram_bot.py:79-83 | the display is digits for minutes, a colon and exactly two digits for seconds below 60, and minutes times 60 plus seconds is the remaining time |
| `TelegramBot.ClockDisplayOfBlock` | telegram_bot.py:78-83 | a block of at most ten minutes displays in at most five characters |
| `TelegramBot.BlockNotice` | telegram_bot.py:77-85 | a notice is shown exactly for a remaining time that is present and positive; it is the fixed German head, a minutes:seconds display that reads back as the remaining time, and the fixed tail |
| `TelegramBot.NoticeExactlyWhenBlocked` | telegram_bot.py:77-85 | the notice appears exactly when the login would be refused as rate-limited |
| `TelegramBot.DateStamp` | telegram_bot.py:107 | `strftime('%Y%m%d')` is all digits, at least five of them |
| `TelegramBot.DateStampInjective` | telegram_bot.py:107 | different days give different stamps |
| `TelegramBot.SessionId` | telegram_bot.py:107-108 | the id starts with `telegram:` |
| `TelegramBot.SessionIdInjective` | telegram_bot.py:107-108 | different users, or one user on different days, never share a session id |

## Left out

- LLM calls. The responses of `super().run`/`super().arun` are passed in
  as values. The review result is an arbitrary `Option<string>`.
  `complexity_review_agent.py`, with its prompt and score bands, is not
  part of this model. Neither is `trainer_agent.py`.
- Storage backends. MongoDB/SQLite selection and the client singletons are
  not modelled (`trainer_agent_with_tools.py:97-147`,
  `telegram_auth.py:17-38`). The memory and the `telegram_auth` collection
  are maps. Their exceptions are the flags `readFails`, `writeFails` and
  `storeFails`.
- The memories of users other than `kyrill`. The `user_id` argument of
  `get_memory_by_id` is fixed to that user, and the store holds that
  user's memories only.
- `UserMemory` fields other than text, topics and id (timestamps, input).
  The uuid that `add_user_memory` assigns when the id is missing is also
  left out, because this code always gives an id.
- Concurrency. `asyncio.create_task` is reduced to the "review scheduled"
  result. A scheduled review is run by a separate call to `TriggerReview`,
  so interleavings with other turns are not modelled. The flag
  `noEventLoop` stands for the `RuntimeError` of the synchronous path.
- Hashing and timestamps. The SHA-256 `password_hash`, the cookie secret,
  and the `authenticated_at`/`created_at`/`updated_at`/`last_activity`
  fields are foreign calls or clock readings. This includes the
  `last_activity` refresh done by `is_telegram_user_authenticated`.
- Floating-point time. `time.time()` is integer seconds. One login reads
  the clock once as `now`; the source reads it separately in
  `check_rate_limit` and in `record_failed_attempt`.
- RemainingBlockTime: with integer times `int(blocked_until - time.time())`
  needs no truncation. Truncation toward zero of a float difference is
  therefore not modelled.
- DateStamp: renders the year with no padding, as glibc's `%Y` does.
  Platforms that zero-pad years before 1000 are not modelled.
- Per-level option counts (two options, three options, free input). They
  exist only as prose in the instruction texts and in the tool
  description, which the code never checks.
- Telegram transport. Message handlers, `reply_text`, the greeting and
  error replies, `_call_agent_api`, `setup_bot_commands`,
  `create_telegram_application` and `app.py` are I/O or wiring.
- FormatResponse: tag-freeness is proved for the tag-removal step
  (`RemoveTagsLeavesNoTag`), not restated for the final text after
  stripping and joining.
- TrainerAgent.Run, TrainerAgent.ARun: the agent is built with
  `enable_agentic_memory=True` (`trainer_agent_with_tools.py:429`), so the
  framework run may itself write user memories. Those writes belong to the
  LLM framework and are not modelled; the contracts say the memory is left
  as it was.
- RemainingTimeAgreesWithBlock: with integer seconds a positive remaining
  time and a block coincide. With the float clock, `int()` gives 0 in the
  last sub-second of a block, while `check_rate_limit` still refuses the
  login. That window is not modelled.
- NoticeExactlyWhenBlocked: in the same last sub-second of a block the bot
  shows no notice and replies "Falsches Passwort", and no failure is
  recorded. The integer clock leaves this window out.
- Logging.
