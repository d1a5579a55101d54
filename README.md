# rulegame core, modelled in Dafny

rulegame is a browser interactive-fiction game set in a dormitory. The player
moves from passage to passage of a story. Each choice changes the time of
day and the stats (hunger, energy, sanity and four more). Rule papers are
discovered along the way, and their rules can be marked true, false or
unknown. Reaching a death passage, or letting sanity, energy or hunger fall
to 0, kills the player. This project models the logic behind that screen
and the pieces the game is built from:

- **The condition evaluator** (`ConditionEvaluator`). It keeps win and
  death conditions sorted by priority. It rewrites each condition's text
  against a game state and runs the result through a character allowlist
  and the JavaScript engine. It reduces what fires to one outcome, and it
  memoises results for 1000 ms. Modules: `Conditions`, `ConditionEngine`,
  `ExpressionRewriting`, `JsExpression`, `StandardConditions`. Each of the
  seven rewrites is an instance of the left-to-right global replace in
  `Scanning`, whose facts are proved once for any pattern.
- **The game screen** (`App.tsx`). It covers following a choice, the death
  check and its latch, restarting, rule marks, paper discovery, paper
  paging and changing profession (module `GameApp`). The fixed starting
  data shared with the game provider is in `GameData`.
- **The story loader.** The brace-matching scanners (`StoryScan`) cut the
  main block and named sections out of a story file. The node and
  connection lists become the passage map in `StoryGraph`.
- **The storage manager** (`StorageManager`). It validates, recovers,
  saves, loads, lists and clears save records in `localStorage`, keeps an
  index of them, and estimates usage. Modules: `SaveData`, `Storage`. The
  browser store itself is modelled in `BrowserStorage`, and the JSON values
  in `JsonValue`.
- **The day progress indicator** (`Progress`). It gives day statuses, the
  click guard, the calendar cells and the texts of the linear view.

How the code is shaped:

- State that the source changes in place is a class with `modifies`
  clauses: the evaluator's condition list and cache, the browser store and
  the storage manager.
- The loops of the source are methods with loop invariants, each proved
  against a function that states its result. These are `performEvaluation`,
  the checks, the parenthesis count, the brace scans, `getSaveKeys`,
  `getAllSaves`, `clearAll` and `getStorageUsage`.
- The React state updates are pure functions from one screen state to the
  next.

## Model

| member | source | states |
|---|---|---|
| Conditions.ParseDeathReason | src/utils/conditionEvaluator.ts:223-229 | each reason holds exactly when its word is the first of `health`, `sanity`, `hunger`, `rule` the text contains; `special_event` exactly when none occurs |
| Conditions.SortByPriority | src/utils/conditionEvaluator.ts:14 | the sorted list is a permutation of the input |
| Conditions.SortIsSorted | src/utils/conditionEvaluator.ts:14 | the sorted list is in descending priority |
| Conditions.SortIsStable | src/utils/conditionEvaluator.ts:14 | for every priority, the conditions having it keep their input order (a stable sort) |
| Conditions.SortLength | src/utils/conditionEvaluator.ts:14 | sorting keeps the number of conditions |
| Conditions.SortOfSorted | src/utils/conditionEvaluator.ts:14 | a list already in descending priority is left as it is |
| Conditions.SortIdempotent | src/utils/conditionEvaluator.ts:14 | sorting twice is sorting once |
| Conditions.SortHigherSuffix | src/utils/conditionEvaluator.ts:14 | appending a sorted run that outranks a sorted list moves that run, in order, to the front |
| Conditions.MaxPriority | src/utils/conditionEvaluator.ts:91-98 | the running maximum is at least -1, bounds every triggered priority and is attained unless it is -1 |
| Conditions.OutcomesExclusive | src/utils/conditionEvaluator.ts:97-107 | an evaluation never has both a win level and a death reason |
| Conditions.OutcomeIffPositivePeak | src/utils/conditionEvaluator.ts:97-107 | an evaluation has an outcome exactly when its priority is above -1 |
| Conditions.EmptyEvaluation | src/utils/conditionEvaluator.ts:88-117 | with no conditions nothing triggers, the priority is -1 and neither outcome is set |
| Conditions.FirstAtPeakUnique | src/utils/conditionEvaluator.ts:97-98 | only one triggered condition is the first to reach the peak priority, so a later equal priority never decides |
| Conditions.EvaluationSkip | src/utils/conditionEvaluator.ts:93-94 | a condition that does not fire leaves the evaluation of the prefix an evaluation of the longer prefix |
| Conditions.EvaluationKeep | src/utils/conditionEvaluator.ts:94-97 | a firing condition at or below the current peak is only appended to the triggered list |
| Conditions.EvaluationRaise | src/utils/conditionEvaluator.ts:97-107 | a firing condition above the peak raises it and sets its own outcome, clearing the other |
| ConditionEngine.ConditionEvaluator.constructor | src/utils/conditionEvaluator.ts:12-15 | the caller's array is sorted in place by the stable priority sort, the evaluator holds a copy of it and the cache is empty |
| ConditionEngine.ConditionEvaluator.EvaluateConditions | src/utils/conditionEvaluator.ts:20-31 | a cached result younger than 1000 ms is returned unchanged with the cache untouched; otherwise a fresh evaluation stamped `now` replaces the entry; either way the result evaluates the given state |
| ConditionEngine.ConditionEvaluator.PerformEvaluation | src/utils/conditionEvaluator.ts:87-118 | the result is an evaluation of the stored conditions: exactly the firing ones in stored order, the maximum of -1 and their priorities, the outcome of the first one reaching it; stamped `now` |
| ConditionEngine.ConditionEvaluator.Absorb | src/utils/conditionEvaluator.ts:94-107 | one loop iteration turns an evaluation of a prefix into an evaluation of the prefix one longer |
| ConditionEngine.ConditionEvaluator.CheckWinConditions | src/utils/conditionEvaluator.ts:36-43 | the level of the first firing win condition in sorted order; null exactly when no win condition fires |
| ConditionEngine.ConditionEvaluator.CheckDeathConditions | src/utils/conditionEvaluator.ts:48-55 | the parsed reason of the first firing death condition in sorted order; null exactly when no death condition fires |
| ConditionEngine.ConditionEvaluator.CountParentheses | src/utils/conditionEvaluator.ts:63-69 | the counts are the numbers of `(` and `)` in the text |
| ConditionEngine.ConditionEvaluator.ParseExpression | src/utils/conditionEvaluator.ts:191-218 | no error exactly when parentheses balance and no unsafe pattern occurs; an imbalance is reported first, as "Unbalanced parentheses" |
| ConditionEngine.ConditionEvaluator.ValidateConditionExpression | src/utils/conditionEvaluator.ts:60-82 | valid exactly when the counts of `(` and `)` agree and none of the keyword, `{};` or `$` patterns occurs; otherwise the error message of the first failing check |
| ConditionEngine.ConditionEvaluator.ClearCache | src/utils/conditionEvaluator.ts:248-260 | afterwards the stats report cache size 0 and the same condition count |
| ConditionEngine.ConditionEvaluator.GetStats | src/utils/conditionEvaluator.ts:255-260 | the cache size is the number of cached states and the condition count the number of stored conditions |
| ConditionEngine.CreateConditionEvaluator | src/utils/conditionEvaluator.ts:266-268 | a new evaluator over the priority-sorted conditions, with an empty cache |
| ConditionEngine.CountsOnly | src/utils/conditionEvaluator.ts:63-73 | the validator only counts parentheses: `)(` passes |
| StandardConditions.CreateStandardConditionEvaluator | src/utils/conditionEvaluator.ts:273-338 | a new evaluator over the seven standard conditions sorted by priority, with an empty cache |
| StandardConditions.StandardOrder | src/utils/conditionEvaluator.ts:273-337 | sorting puts the three deaths (priority 1000) first in source order, then S, A, B and C |
| StandardConditions.SortedPriorities | src/utils/conditionEvaluator.ts:273-337 | every standard priority is at most 1000, and exactly the death conditions have 1000 |
| StandardConditions.DeathOutranksWins | src/utils/conditionEvaluator.ts:273-337 | when any standard death condition fires, the evaluation is a death at priority 1000 whatever the win conditions do |
| StandardConditions.DeathsOnTop | src/utils/conditionEvaluator.ts:97-107 | when the top priority belongs to exactly the death conditions and one fires, the outcome is a death at that priority |
| StandardConditions.FirstDeathDecides | src/utils/conditionEvaluator.ts:97-107 | a firing death condition at the head of the list with the highest priority decides the outcome |
| StandardConditions.HealthFires | src/utils/conditionEvaluator.ts:311-318 | when the health attribute is a number, `attributes.health <= 0` fires exactly when it is at most 0 |
| StandardConditions.WinBFires | src/utils/conditionEvaluator.ts:293-301 | `day >= 7` fires exactly when the day is at least 7 |
| StandardConditions.WinCFires | src/utils/conditionEvaluator.ts:302-310 | `day >= 5 && attributes.health > 0` fires exactly when the day is at least 5 and health (absent counts as 0) is above 0 |
| StandardConditions.WinSNeverFires | src/utils/conditionEvaluator.ts:275-283 | the perfect ending fires in no state: its `inventory.includes("golden_key")` leaves letters the allowlist refuses |
| StandardConditions.HealthDeath | src/utils/conditionEvaluator.ts:311-318 | with health at most 0 the standard evaluator reports `health_zero` at priority 1000 and no win |
| ExpressionRewriting.SafeEvaluate | src/utils/conditionEvaluator.ts:172-186 | throws "Unsafe expression" exactly when the text is empty or has a character outside the allowlist; otherwise true exactly when the engine yields true |
| ExpressionRewriting.EvaluateExpression | src/utils/conditionEvaluator.ts:123-134 | a condition holds exactly when its rewritten text passes the allowlist and runs to true; every failure is false |
| ExpressionRewriting.ProcessExpression | src/utils/conditionEvaluator.ts:139-167 | the seven rewrites leave text without ASCII letters unchanged, and keep a first character none of the patterns starts with |
| ExpressionRewriting.LeadingLetterNeverTriggers | src/utils/conditionEvaluator.ts:123-186 | a condition starting with a letter none of the patterns starts with (a bare name such as `sanity > 80`, or `eval(…)`) never fires |
| ExpressionRewriting.BareNameNeverTriggers | src/utils/conditionEvaluator.ts:123-186 | a bare name standing on its own after letter-free text (`1 > 0 && sanity > 5`), other than `day`, `time` and `location`, comes through every rewrite, so the condition never fires whatever follows |
| ExpressionRewriting.LetterAnywhereUnsafe | src/utils/conditionEvaluator.ts:174-176 | a letter at any position fails the allowlist |
| ExpressionRewriting.StrayNeverTriggers | src/utils/conditionEvaluator.ts:123-186 | a letter other than those of `inventory.length`, `day`, `time`, `location` left after the attribute rewrite survives every later rewrite, so the condition never fires |
| ExpressionRewriting.StrayWordNeverTriggers | src/utils/conditionEvaluator.ts:123-186 | a condition holding anywhere a word of its own with a letter outside those of `inventory.length`, `day`, `time`, `location` (`day >= 7 && sanity > 5`) never fires |
| ExpressionRewriting.IncludesNeverTriggers | src/utils/conditionEvaluator.ts:123-186 | a condition containing `inventory.includes` anywhere never fires, whatever the item and the inventory: the rewrite leaves `true`/`false` |
| ExpressionRewriting.FlagNeverTriggers | src/utils/conditionEvaluator.ts:123-186 | a condition containing `flags.<name>` at a word start never fires: the flag rewrite leaves `true`, `false` or an inherited member's text |
| ExpressionRewriting.InventoryLengthReplaced | src/utils/conditionEvaluator.ts:149 | `inventory.length` between letter-free text becomes the number of items |
| ExpressionRewriting.InventoryIncludesReplaced | src/utils/conditionEvaluator.ts:152-154 | `inventory.includes('item')`, with either quote at either end, between letter-free text becomes `true` or `false` by whether the inventory holds the item |
| ExpressionRewriting.FlagRefReplaced | src/utils/conditionEvaluator.ts:157-159 | `flags.<name>` between letter-free text becomes the flag's value, and `false` for a flag the state lacks and `Object.prototype` does not have |
| ExpressionRewriting.NumberWordReplaced | src/utils/conditionEvaluator.ts:162-163 | `day` or `time` standing as a word of its own between letter-free text becomes the day or the time |
| ExpressionRewriting.ProcessNumberWord | src/utils/conditionEvaluator.ts:139-167 | all seven rewrites turn `day` or `time` followed by letter-free text into the number followed by that text |
| ExpressionRewriting.NumberWordComparison | src/utils/conditionEvaluator.ts:123-186 | `day <op> k` (`time <op> k`) holds exactly when the comparison holds for the day (time) |
| ExpressionRewriting.NumberWordAndAttribute | src/utils/conditionEvaluator.ts:123-186 | `day <op> k && attributes.<name> <op> m` holds exactly when both comparisons hold, for a numeric or absent attribute |
| ExpressionRewriting.ConjunctionSafe | src/utils/conditionEvaluator.ts:174-176 | a conjunction of comparisons of numbers passes the allowlist |
| ExpressionRewriting.EvaluatesToConjunction | src/utils/conditionEvaluator.ts:123-186 | a condition rewritten to a conjunction of comparisons holds exactly when all of them hold |
| JsExpression.ExecuteConjunction | src/utils/conditionEvaluator.ts:180-182 | running `c1 && c2 && …` for comparisons of integers gives true exactly when every comparison holds |
| ExpressionRewriting.LetterUnsafe | src/utils/conditionEvaluator.ts:174 | text starting with a letter fails the allowlist |
| ExpressionRewriting.AttributeRefReplaced | src/utils/conditionEvaluator.ts:143-146 | `attributes.<name>` followed by letter-free text becomes the attribute's number: its own value, or 0 for a name neither the state nor `Object.prototype` has |
| ExpressionRewriting.PlainComparison | src/utils/conditionEvaluator.ts:174 | a number compared with a number passes the allowlist |
| ExpressionRewriting.ProcessAttributeComparison | src/utils/conditionEvaluator.ts:139-167 | `attributes.<name> <op> k` is rewritten to `<value> <op> k`, for a numeric own attribute or a name that is not inherited |
| ExpressionRewriting.AttributeComparison | src/utils/conditionEvaluator.ts:123-186 | `attributes.<name> <op> k` holds exactly when the comparison holds for the attribute's value (0 for a name that is neither own nor inherited) |
| ExpressionRewriting.InheritedText | src/utils/conditionEvaluator.ts:143-146 | `String` of a member inherited from `Object.prototype` starts `function` or `[object`, text the allowlist refuses |
| ExpressionRewriting.InheritedAttributeNeverTriggers | src/utils/conditionEvaluator.ts:123-186 | a condition starting with `attributes.<name>`, for a name the state lacks but `Object.prototype` has, is false whatever follows |
| ExpressionRewriting.Substitution | src/utils/conditionEvaluator.ts:164 | a replacement string without `$` is inserted as it is |
| ExpressionRewriting.LocationQuoted | src/utils/conditionEvaluator.ts:164 | a location without `$` replaces `location` as a single-quoted literal |
| ExpressionRewriting.LocationAfterPrefix | src/utils/conditionEvaluator.ts:164 | after letter-free text, `location` becomes the quoted location with its `$` patterns expanded against the text around the match |
| ExpressionRewriting.LocationBacktick | src/utils/conditionEvaluator.ts:164 | the location `` $` `` repeats the text before the match: `1==1&&location` becomes `1==1&&'1==1&&'` |
| JsExpression.ExecuteComparison | src/utils/conditionEvaluator.ts:180-182 | running `a <op> b` for integers and a relational or equality operator gives the comparison's truth |
| JsExpression.ParseComparison | src/utils/conditionEvaluator.ts:180-182 | the tokens of a number, a relational or equality operator and a number parse as the comparison's truth value, leaving the tokens after them |
| JsText.NatTextRoundTrip | src/utils/conditionEvaluator.ts:145 | the digits `String(n)` writes read back as `n` |
| JsText.NumTextInjective | src/utils/storageManager.ts:48 | different integers are written as different texts, so the day in a key is determined by it |
| JsText.NumTextSign | src/utils/conditionEvaluator.ts:145 | `String(n)` starts with `-` exactly for negative `n` |
| JsText.TrimEmptyIffBlank | src/utils/storageManager.ts:191 | `trim()` gives the empty string exactly for text made only of white space |
| JsonValue.Or | src/utils/storageManager.ts:254-265 | `v \|\| d` is `v` when `v` is present and truthy, and `d` otherwise |
| JsonValue.PutField | src/utils/storageManager.ts:38-42 | the spread with one member replaced sets that member and leaves every other member |
| JsonValue.PlusOne | src/utils/storageManager.ts:41 | adding 1 to a number increments it and appends `1` to a string |
| BrowserStorage.Written | src/utils/storageManager.ts:45-49 | what is stored for a value is non-empty text that parses back to the value |
| BrowserStorage.PutLookup | src/utils/storageManager.ts:49 | after `setItem(k, v)`, `getItem(k)` is `v` and every other key reads as before |
| BrowserStorage.RemoveLookup | src/utils/storageManager.ts:135 | after `removeItem(k)`, `getItem(k)` is null and every other key reads as before |
| BrowserStorage.PutDistinct | src/utils/storageManager.ts:49 | `setItem` keeps keys distinct and appends a new key at the end of the key order |
| BrowserStorage.Put | src/utils/storageManager.ts:49 | a present key keeps its place and the length, a new key is appended; the new entry is there and every entry of another key stays |
| BrowserStorage.LocalStorage.GetItem | src/utils/storageManager.ts:78 | the stored entry of the key, or null exactly when no entry has that key |
| BrowserStorage.LocalStorage.SetItem | src/utils/storageManager.ts:49 | keys stay distinct; afterwards the key reads the new value and every other key reads as before |
| BrowserStorage.LocalStorage.RemoveItem | src/utils/storageManager.ts:135 | keys stay distinct; afterwards the key reads null and every other key reads as before |
| SaveData.CheckFields | src/utils/storageManager.ts:180-182 | true exactly when every listed member is present |
| SaveData.ValidateGameState | src/utils/storageManager.ts:215-245 | true exactly for an object with the five required members, numbers where numeric members occur, a truthy profession, and hunger, energy and sanity in [0, 100] |
| SaveData.Validate | src/utils/storageManager.ts:172-210 | true exactly for an object with the eight required members, version 1.0.0, a non-blank name, a listed profession, a numeric day of at least 1 and a valid game state |
| SaveData.HasRequiredFields | src/utils/storageManager.ts:175-182 | a record with the eight members passes the presence check |
| SaveData.HasGameStateFields | src/utils/storageManager.ts:219-232 | a game state with the five members, and numbers in the numeric ones, passes the presence and type checks |
| SaveData.Recovered | src/utils/storageManager.ts:253-266 | the patched record has exactly the twelve record members, in the source's order |
| SaveData.Recover | src/utils/storageManager.ts:250-273 | a recovered record always validates; `null` recovers to nothing |
| SaveData.DefaultGameStateValid | src/utils/storageManager.ts:278-290 | the default game state passes `validateGameState` |
| SaveData.DefaultRecordValid | src/utils/storageManager.ts:253-266 | the all-defaults record passes `validate` |
| SaveData.RecoverEmpty | src/utils/storageManager.ts:250-273 | a non-null value with none of the members recovers to the all-defaults record |
| SaveData.RecoverValid | src/utils/storageManager.ts:250-273 | recovering a valid record succeeds and keeps its version, name, profession, game state and day |
| SaveData.RecoverBlankName | src/utils/storageManager.ts:255 | a name of one space is truthy, so it is kept, and the record cannot be recovered |
| SaveData.SparseRecordValid | __tests__/storageManager.test.ts:127-150 | a record without the optional members validates |
| Storage.ValidRecordKey | src/utils/storageManager.ts:48 | a valid record is written under the key `load` reads for its name and day |
| Storage.SaveKeyNotIndex | src/utils/storageManager.ts:159 | no save key of a player and day is the index key |
| Storage.RecordKeyNotIndex | src/utils/storageManager.ts:317 | writing the index never overwrites a valid record |
| Storage.SortPermutes | src/utils/storageManager.ts:122 | sorting by `lastSaveTime` is a permutation |
| Storage.SortSorted | src/utils/storageManager.ts:122 | sorting by `lastSaveTime` orders the records, newest or oldest first |
| Storage.AllSavesNewestFirst | src/utils/storageManager.ts:103-127 | the listed saves are the valid records under save keys, newest first |
| Storage.OldestFirst | src/utils/storageManager.ts:33 | the oldest-first sort puts a record with the smallest `lastSaveTime` at the front |
| Storage.TextTimeSorts | src/utils/storageManager.ts:33 | a `lastSaveTime` stored as numeric text sorts as that number, as JavaScript's `-` converts it |
| JsonValue.ToNumber | src/utils/storageManager.ts:33 | the conversion of `-`: a number is itself and a boolean is 1 or 0 |
| JsonValue.NumberOfNumText | src/utils/storageManager.ts:122 | the text `String(n)` converts back to `n` |
| JsText.NumTextNumber | src/utils/storageManager.ts:122 | `Number` reads what `String(n)` writes back as `n` |
| Storage.StampKeepsValid | src/utils/storageManager.ts:38-42 | the stamped record still validates, keeps its player and day, carries `now` and counts a first save as 1 |
| Storage.Stamp | src/utils/storageManager.ts:38-42 | `lastSaveTime` becomes `now`; a missing or zero `saveCount` becomes 1 and any other count goes up by 1; every other member is kept |
| Storage.FindSave | src/utils/storageManager.ts:52-54 | the index of the first save of the same player and day, or -1 exactly when there is none |
| Storage.Listed | src/utils/storageManager.ts:31-60 | the index list holds the new record and, from a list within the slots, never has more entries than the slots |
| Storage.IndexEntry | src/utils/storageManager.ts:310-315 | an index entry carries the four index members of its record and no other member |
| Storage.IndexValue | src/utils/storageManager.ts:309-318 | the index is an array with one entry per save |
| Storage.Loaded | src/utils/storageManager.ts:75-98 | what `load` returns always validates |
| Storage.Unlisted | src/utils/storageManager.ts:139-141 | the filtered list keeps exactly the saves of other players or days |
| Storage.SaveKeysSound | src/utils/storageManager.ts:295-304 | every listed key starts with `<storageKey>_` and is stored |
| Storage.SaveKeysComplete | src/utils/storageManager.ts:295-304 | every stored key starting with `<storageKey>_` is listed |
| Storage.RecordsAtSaveKeys | src/utils/storageManager.ts:106-120 | reading the listed keys one by one collects exactly the valid records in storage order |
| Storage.CommitLookup | src/utils/storageManager.ts:45-62 | writing the stamped record and then the index changes what loads only under the record's own key, which now holds the stamped record |
| Storage.LoadAfterSave | src/utils/storageManager.ts:20-98 | a saved record loads back, stamped, at any later time |
| Storage.SaveKeepsOtherSaves | src/utils/storageManager.ts:20-70 | below the slot limit a save leaves every other player's and day's record as it was |
| Storage.SaveOverflows | src/utils/storageManager.ts:31-35 | as written, a save to a new slot adds a record even when the slots are full, so storage then holds more records than the slots |
| Storage.Saved | src/utils/storageManager.ts:20-70 | as written: storage then holds the stamped record under its key, and every other entry was there before or is the index |
| Storage.SavedEvicting | src/utils/storageManager.ts:20-70 | with the oldest record evicted: storage holds the stamped record under its key, and every other entry was there before or is the index |
| Storage.SaveEvictingKeepsBound | src/utils/storageManager.ts:31-35 | with the oldest record evicted from storage, a save keeps keys distinct, records under their own keys, and their number within the slots |
| Storage.EvictCount | src/utils/storageManager.ts:31-35 | eviction leaves fewer records than the slots |
| Storage.OldestStored | src/utils/storageManager.ts:33-34 | the oldest listed save is stored, as a record, under its own key |
| Storage.LoadAfterClear | src/utils/storageManager.ts:132-150 | after `clear(name, day)` that record no longer loads |
| Storage.ClearKeepsOtherSaves | src/utils/storageManager.ts:132-150 | `clear` leaves every other player's and day's record as it was |
| Storage.Cleared | src/utils/storageManager.ts:132-150 | `clear` only removes entries, apart from rewriting the index |
| Storage.ClearAllLeavesNoSaves | src/utils/storageManager.ts:155-167 | after `clearAll` no save key and no record remain, every other entry is kept and usage has not grown |
| Storage.NonSavesUsage | src/utils/storageManager.ts:323-334 | removing entries never makes the usage count grow |
| Storage.Usage | src/utils/storageManager.ts:323-334 | the count is 0 exactly when no entry has both a non-empty key and a non-empty text |
| Storage.NonSavesMembers | src/utils/storageManager.ts:155-167 | the entries `clearAll` leaves are exactly those not under a save key |
| Storage.StorageManager.constructor | src/utils/storageManager.ts:7-15 | the manager keeps the configuration and the browser storage it is given (`Storage.DefaultConfig` holds the default one) |
| Storage.StorageManager.GetSaveKeys | src/utils/storageManager.ts:295-304 | the keys starting with `<storageKey>_`, in storage order |
| Storage.StorageManager.GetAllSaves | src/utils/storageManager.ts:103-127 | the valid records under the save keys, newest first |
| Storage.StorageManager.UpdateSaveIndex | src/utils/storageManager.ts:309-318 | the index key now holds one entry per save and nothing else changes |
| Storage.StorageManager.EvictOldest | src/utils/storageManager.ts:31-35 | with the slots full, the oldest save leaves both the list and storage |
| Storage.StorageManager.Save | src/utils/storageManager.ts:20-70 | succeeds exactly for valid data, then stores the stamped record, evicts the oldest when full and rewrites the index; invalid data changes nothing |
| Storage.StorageManager.Load | src/utils/storageManager.ts:75-98 | nothing for a missing, empty or unparsable item; the record when it validates; otherwise what recovery makes of it |
| Storage.StorageManager.Clear | src/utils/storageManager.ts:132-150 | removes the record and rewrites the index without that player and day |
| Storage.StorageManager.RemoveKeys | src/utils/storageManager.ts:158 | removes exactly the listed keys and keeps the order of the rest |
| Storage.StorageManager.ClearAll | src/utils/storageManager.ts:155-167 | leaves exactly the entries that are not under a save key |
| Storage.StorageManager.GetStorageUsage | src/utils/storageManager.ts:323-345 | used is the total key and text length of the non-empty entries, total is 5 MiB, remaining is `max(0, total - used)` |
| GameData.FindRulePaper | src/App.tsx:421-430 | the papers with the id become found, and every other paper, the length and the order stay |
| GameData.FindRulePaperIdempotent | src/components/game/GameProvider.tsx:239-248 | finding a paper twice is finding it once |
| GameData.FindRulePaperNoOp | src/components/game/GameProvider.tsx:242-245 | an absent id, or a paper already found, changes nothing |
| GameData.InitialData | src/components/game/GameProvider.tsx:5-71 | the initial stats are in range with time in [0, 24), the profession is listed, only paper 1 is found and every rule is unknown |
| GameApp.Clamp | src/App.tsx:469-475 | the result lies in [0, 100] and equals the input when the input does |
| GameApp.WrapTime | src/App.tsx:458-464 | 24 is taken off once at 24 or more and added once below 0, so times in [-24, 48) wrap into [0, 24) |
| GameApp.ApplyChoice | src/App.tsx:457-477 | each stat is the old one plus its change clamped to [0, 100], the time wraps, and the profession is kept |
| GameApp.ApplyChoiceInRange | src/App.tsx:458-477 | from a valid time and a change under a day, every stat and the time of day stay in range |
| GameApp.ShouldDie | src/App.tsx:274-295 | for stats in range, the check holds exactly when sanity, energy or hunger is 0 |
| GameApp.ShouldDieAfterChoice | src/App.tsx:274-295 | after a choice the death check holds exactly when sanity, energy or hunger is 0 |
| GameApp.DeathEffect | src/App.tsx:268-304 | `isDead` becomes set exactly when it was or the check holds; nothing else changes |
| GameApp.GoToPassage | src/App.tsx:443-488 | the new passage is the choice's action; the stats are updated; death is set when the target passage holds the death marker; the three special actions discover papers 2 to 4 |
| GameApp.Choose | src/App.tsx:268-304 | after a choice and the death effect, the passage is the choice's action and the stats are updated; the player is dead exactly when already dead, the target is a death passage, or sanity, energy or hunger is 0 |
| GameApp.NextMark | src/App.tsx:400-408 | a toggle always changes the mark |
| GameApp.NextMarkCycle | src/App.tsx:400-408 | three toggles give the mark back |
| GameApp.ToggleRules | src/App.tsx:398-412 | the rules with the id advance their mark; every other rule, and every id and text, stays |
| GameApp.TogglePapers | src/App.tsx:394-416 | only papers with the given id have their rules toggled |
| GameApp.ToggleRuleMark | src/App.tsx:392-418 | the papers are toggled on the shown paper's id and nothing else changes |
| GameApp.ToggleRulesThrice | src/App.tsx:398-412 | toggling a rule three times gives the rules back |
| GameApp.TogglePapersThrice | src/App.tsx:394-416 | toggling a rule of a paper three times gives the papers back |
| GameApp.ToggleRuleMarkThrice | src/App.tsx:392-418 | toggling the same rule three times leaves the screen as it was |
| GameApp.TruncRem | src/App.tsx:434 | JavaScript's `%` for a positive divisor: the remainder has the sign of the dividend |
| GameApp.PrevRule | src/App.tsx:433-435 | only the shown paper changes: one back, the first wrapping to the last |
| GameApp.NextRule | src/App.tsx:438-440 | only the shown paper changes: one on, the last wrapping to the first; from a valid index `prevRule` undoes it |
| GameApp.PrevNextInverse | src/App.tsx:433-440 | for n > 0 paging either way keeps the index in [0, n), and the two directions undo each other |
| GameApp.SeqIndexOf | src/App.tsx:308 | the first position of the value, or -1 exactly when it is absent |
| GameApp.NextInCycle | src/App.tsx:308-309 | the successor is in the list, and an absent value goes to the first element |
| GameApp.NextInCycleAt | src/App.tsx:308-309 | in a list without repeats, the successor of an entry is the next entry, the last one wrapping to the first |
| GameApp.ChangeProfession | src/App.tsx:307-314 | the new profession is listed, an unlisted one becomes the first, and nothing else changes |
| GameApp.ChangeProfessionCycle | src/App.tsx:307-314 | a listed profession becomes its successor, the last one the first |
| GameApp.RestartGame | src/App.tsx:347-382 | the initial stats, papers and index are back, death and text completion are cleared, and the story is the default, the reloaded one or left as it was |
| GameApp.InitialWellformed | src/App.tsx:15-121 | the initial screen satisfies the screen invariant and starts alive on an existing passage |
| GameApp.Apply | src/App.tsx:268-440 | every action (a choice, the death effect, a rule mark, a paper found, paging, restart, a profession change) keeps the screen invariant |
| GameApp.DeathLatch | src/App.tsx:300-303 | only a restart clears `isDead`, and only a choice or the death effect sets it |
| StoryScan.CloseFrom | src/App.tsx:693-724 | a position where the scan stops holds a `}` |
| StoryScan.FindClose | src/App.tsx:693-724 | the loop stops at the position the scan function gives, or returns -1 exactly when it gives none |
| StoryScan.ExtractSection | src/App.tsx:683-732 | returns the section text the scan function defines: null without the header or a matching `}`; by `SectionOfBody` that is exactly the body of any well-nested section |
| StoryScan.MainDataBlock | src/App.tsx:567-616 | returns the main block the scan function defines, or nothing; `MainBlockEndsAtFirstNested` says where that block ends for any well-nested text |
| StoryScan.QuotedString | src/App.tsx:706-710 | braces inside a double-quoted string do not count |
| StoryScan.HeaderScan | src/App.tsx:684-715 | scanning over the section header counts exactly its `{` |
| StoryScan.InsideString | src/App.tsx:697-710 | inside a string, plain characters and backslash escapes (an escaped quote included) leave the scanner as it was |
| StoryScan.PassOverPiece | src/App.tsx:693-724 | one character, escape, string or nested brace pair leaves the count and flags as they were, without stopping the scan |
| StoryScan.PassOver | src/App.tsx:693-724 | a well-nested run of text (characters, escapes, strings with escapes, nested brace pairs) leaves the count and flags as they were, without stopping the scan |
| StoryScan.SectionOfBody | src/App.tsx:683-732 | for any well-nested body after the first `"name": {` header, the section is exactly that body: braces in strings or after a backslash and nested objects do not end it early |
| StoryScan.MainBlockEndsAtFirstNested | src/App.tsx:574-616 | since the scan starts at count 0 after the opening brace, the main block ends at the `}` that closes its first nested object, for any strings and escapes before it and any well-nested body inside it |
| StoryGraph.Lookup | src/App.tsx:772 | a node's label is found exactly when a node has that key |
| StoryGraph.NodeNameOfNumbered | src/App.tsx:748-757 | a `节点N：` prefix is stripped and the rest of the label, when not quoted, is trimmed |
| StoryGraph.UpdatePassagesFromMapping | src/App.tsx:735-821 | one passage per node key, each the node's passage; the first node key becomes current unless it is empty |
| StoryGraph.NodeChoices | src/App.tsx:768-786 | the choices of a node are its outgoing connections to labelled nodes, in connection order |
| StoryGraph.DeathNodeKills | src/App.tsx:789-793 | a node whose label says `死亡` becomes a death passage without choices |
| StoryGraph.ChoicesLeadToNodes | src/App.tsx:768-786 | every choice leads to a node of the story and comes from a connection out of that node |
| StoryGraph.OfferedConnection | src/App.tsx:771-785 | every connection out of a node to a labelled node gives a choice |
| StoryGraph.ChoicesStayInStory | src/App.tsx:741-810 | every choice of a built passage leads to a passage, or is the fixed way back to `N1` |
| Progress.GetDayStatus | src/components/ui/ProgressIndicator.tsx:23-28 | completed exactly for listed days, even future ones; otherwise current, available or locked as the day equals, precedes or follows today |
| Progress.StatusTextKnown | src/components/ui/ProgressIndicator.tsx:113-121 | each status has its own text and none reads unknown |
| Progress.GetStatusText | src/components/ui/ProgressIndicator.tsx:113-121 | `未知` exactly for a name that is none of the four statuses' names |
| Progress.DayLabelNumbered | src/components/ui/ProgressIndicator.tsx:123-127 | days neither completed nor current are labelled by number, and the labels tell days apart |
| Progress.GetDayLabel | src/components/ui/ProgressIndicator.tsx:123-127 | `完成` when completed, `当前` when current, otherwise `第`, digits reading as the day plus 1, and `天` |
| Progress.HandleDayClick | src/components/ui/ProgressIndicator.tsx:34-38 | the callback gets the clicked day exactly when there is one and the button is enabled |
| Progress.LockedIffDisabled | src/components/ui/ProgressIndicator.tsx:62-71 | for a day not completed, locked and disabled coincide |
| Progress.CompletedFutureDayInert | src/components/ui/ProgressIndicator.tsx:23-38 | a future day in the completed list shows completed, yet stays disabled and inert |
| Progress.MakeCell | src/components/ui/ProgressIndicator.tsx:63-73 | a cell has its day, the day's status, is disabled exactly after today, shows the day plus 1 and carries a screen-reader label naming the day and status |
| Progress.Calendar | src/components/ui/ProgressIndicator.tsx:62-74 | one cell per day in order, numbered from 1, with its status, disabled exactly after today, and a screen-reader label |
| Progress.CalendarNumbersDistinct | src/components/ui/ProgressIndicator.tsx:74 | no two cells show the same number |
| Progress.CalendarClicks | src/components/ui/ProgressIndicator.tsx:70-71 | clicking a cell reports its own day when enabled with a callback, and nothing otherwise |
| Progress.CalendarExample | __tests__/ui/ProgressIndicator.test.tsx:47-72 | day 4 of 8 with three completed: eight cells, three completed, one current, four locked and disabled |
| Progress.CurrentDayTextInjective | src/components/ui/ProgressIndicator.tsx:53 | the current-day line names a different day for every current day |
| Progress.CurrentDayText | src/components/ui/ProgressIndicator.tsx:53 | `当前: 第`, then digits reading as the current day plus 1, then `天` |
| Progress.ProgressTextInjective | src/components/ui/ProgressIndicator.tsx:50 | the progress line determines the number of completed days and the total |
| Progress.LinearTextsExample | __tests__/ui/ProgressIndicator.test.tsx:13-25 | the progress and current-day lines for three of eight days completed, and for none |

## Left out

- Numbers are integers throughout. Fractional stats and priorities, `NaN`, `Infinity` and floating-point comparison are not modelled.
- `getProgressPercentage` (src/components/ui/ProgressIndicator.tsx:30-32) is floating-point division for a style width, so it is not modelled.
- React rendering, hooks, effects and `async`/`await` are not modelled. Each handler is a function from one screen state to the next, with its state setters applied in order.
- `console` output is not modelled.
- `Date.now()` is the parameter `now`.
- The executor behind `new Function` is not modelled in full. The model covers integers, parentheses, unary `! - +`, `* + -`, the relational and equality operators, and `&& ||`.
- ExpressionRewriting.SafeEvaluate: text using allowed constructs outside that fragment (division, decimals, string literals, comments) counts as an execution error, hence `false`. The engine could instead give `true` for such text.
- ExpressionRewriting.EvaluateExpression: weaker in the same way, for the same reason.
- ExpressionRewriting.ProcessExpression: each rewrite is stated by a lemma for one match between letter-free text, and the whole pipeline for `day`/`time` comparisons, attribute comparisons and `day`/`time` followed by one attribute comparison. Texts mixing more patterns are covered by the definition only.
- ExpressionRewriting.BareNameNeverTriggers: a bare name made only of letters of `inventory.length`, `day`, `time` and `location` (`eval`, say) is shown never to fire only after letter-free text. After other letters it is covered by the definition only. Names with any other letter are covered anywhere by `StrayWordNeverTriggers`.
- StandardConditions: the truth value of `win_a` (three comparisons, two of them attributes) is not stated as a lemma.
- `generateCacheKey` (src/utils/conditionEvaluator.ts:234-243) is replaced by the game state itself as the cache key. The JSON text also depends on the insertion order of attributes and flags. Two states differing only in that order are one key here and two keys in the source; the evaluation is the same either way.
- A win condition without a level has no counterpart: a condition is a win with a level or a death.
- The debug flag that tests pass to the evaluator's constructor is ignored by the source and absent here.
- `JSON.parse` and `JSON.stringify` are not modelled as text functions. A stored entry carries its text together with the value it parses to, and nothing when it does not parse. Only the record the manager writes is known to parse back to itself.
- `localStorage` is an ordered list of entries with distinct keys. Enumeration follows insertion order.
- Quota errors and other exceptions thrown by `localStorage` are not modelled, so `save`, `clear` and `clearAll` fail only where the code itself fails.
- Storage.StorageManager.Save: models the eviction the code's comment announces: the oldest record is removed from storage as well as from the index list (see Findings). `Storage.Saved` keeps the as-written behaviour.
- Key and text lengths count characters, not UTF-16 code units, so text outside the Basic Multilingual Plane is counted once rather than twice.
- Storage.SaveTime: the sort key converts `lastSaveTime` as JavaScript's `-` does for numbers, `null`, booleans, and text (or a value whose text is) made of an optional sign and decimal digits.
- Storage.SaveTime: other text that JavaScript does read as a number reads 0 here, while the source sorts it by its value. This covers decimals (`1.5`, `1.0`, `5.`), exponents (`1e3`), hex, binary and octal literals (`0x10`) and `Infinity`.
- Storage.SaveTime: a missing member, and text that is not a number at all (including a plain object's `[object Object]`), also read 0. In the source these give `NaN`, the comparator then gives `NaN`, which the sort treats as equal, so their order depends on the engine.
- `Array.from({ length })` is modelled for integer lengths only.
- `getStatusText` (src/components/ui/ProgressIndicator.tsx:113-121) is modelled for plain status names. Names such as `toString`, which JavaScript finds on the object's prototype, are not modelled.
- `passages[choice.action]` (src/App.tsx:480) and `mapping.nodes[conn.to]` (src/App.tsx:772) read plain objects. A target id named like an `Object.prototype` member (`toString`) finds that member there: `.text.includes` then throws, and the inherited function counts as a label. `GameApp` and `StoryGraph` look up own keys only. The attribute and flag rewrites of the condition evaluator do model inherited members.
- ConditionEngine.ConditionEvaluator.constructor: the evaluator holds a copy of the sorted list. In the source the caller's array and the evaluator's are the same array, so a later change by the caller would also change the evaluator's conditions. That sharing is not modelled.
- GameApp.PrevRule: requires at least one paper. With none, the source's `% papers.length` makes the index `NaN`; the game always has four papers.
- GameApp.NextRule: requires at least one paper, for the same reason.
- The scanner lemmas describe well-nested text: characters, backslash escapes, double-quoted strings and nested brace pairs. For other text (an unterminated string, a stray `}`) `Section` and `MainBlock` still define the result, but no lemma states where the scan stops.
- The regex-driven parsers are not modelled: `parseMermaidToScene` and the node, edge, title and start-node extraction of `parsePythonStory`. `StoryGraph` starts from the node and connection lists they produce, in key order.
- Fetching the story file, `alert`, the typewriter text and the settings panel are not modelled.
- Object key order for integer-like node keys, which JavaScript lists first, is not modelled.

## Findings

| source | as written | input that shows it | evidently intended | confidence | as-written member | corrected member |
|---|---|---|---|---|---|---|
| src/utils/storageManager.ts:31-35 | with the slots full, `saves.shift()` drops the oldest save only from the in-memory list used for the index; its record stays in `localStorage` | `maxSaveSlots` 5, five stored records, then a save for a new player and day: six records are stored and `getAllSaves` lists six | the oldest record is deleted from storage, so at most `maxSaveSlots` records remain | not executed | Storage.SaveOverflows | Storage.SaveEvictingKeepsBound |
