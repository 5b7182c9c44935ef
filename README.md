# Role-play chat front end: roster, history and visible-list configuration

This project models, in Dafny, the core logic of the role-play chat front end.

On the chat page (`src/main.js`) the model covers:

- the roster of characters;
- the per-character conversations and the current character;
- the character form (add and edit);
- deletion;
- the activity bump after each message;
- the statistics panel;
- the two relative-time heuristics (`formatRelativeTime` producing labels such as `5分钟前`, and `estimateTimestampFromLastActive` reading them back);
- the sidebar history list, which is sorted by recency and filtered by a search keyword.

On the admin page (`src/admin.js`) it covers:

- the default model and voice lists read from build-time environment values;
- the lists kept in `localStorage`;
- the checkbox list built from both;
- the save and reset handlers;
- the per-service credentials;
- the "fetch models" handler that turns a provider's JSON answer into a list.

Modules, one file each:

| module | file | models |
|---|---|---|
| `Optional` | `optional.dfy` | an `Option` type |
| `Strings` | `strings.dfy` | `trim`, `includes`, ASCII `toLowerCase`, `split`, `join`, decimal printing and `parseInt` |
| `TimeLabels` | `time_labels.dfy` | `formatRelativeTime`, `estimateTimestampFromLastActive` |
| `Roster` | `roster.dfy` | the character and message data, and the class `Store` holding `characters`, `conversations`, `currentCharacter` and `editingCharacterId`, with one method per handler |
| `History` | `history.dfy` | `renderHistoryList` as a pure function from the store to rows |
| `AdminConfig` | `admin_config.dfy` | `readEnvList`, `getDefaults`, `getVisible`, `renderList`, and the grouping of checked boxes on save |
| `ModelFetch` | `model_fetch.dfy` | `fetchList`, and the URL of each service's list |
| `AdminStorage` | `admin_storage.dfy` | the class `LocalStore` (the page's `localStorage`), with one method per admin handler |

How the source's environment enters the model:

- The clock `Date.now()` is the parameter `now`.
- `Math.random()` in the reply choice is the index `choice`.
- The `setTimeout` reply is a separate method, `Roster.Store.DeliverReply`, run against whatever state holds when it fires.
- The locale date of old timestamps is the function parameter `dateLabel`.
- `JSON.parse` is a function parameter `decode` that answers `None` where it would throw.
- The outcome of `fetch` and `r.json()` is the parameter `response`.
- The global `appConfig` is an `Option<DevConfig>`, where `None` means no such global exists.

JavaScript object identity matters in one place. `currentCharacter` is the same object as its roster entry, so editing or bumping that entry changes the current character too. The store models this with the invariant `CurrentAliased` (part of `Store.Valid`) and with ensures clauses that update both.

The code is followed where it differs from what a reader might expect:

- **Ties for the most active character.** `reduce` keeps the later character on a tie.
- **Whitespace-only env value.** A `readEnvList` value made only of whitespace yields no tokens, not the fallback.
- **Saving an empty selection.** It stores `[]`, which then overrides the defaults.
- **Null in `data`.** A `null` element makes `fetchList` return nothing at all.
- **Sorting.** It is stable, so characters with equal timestamps keep roster order.

## Model

| member | source | states |
|---|---|---|
| Strings.Trim | src/main.js:348 | the trimmed text is no longer than the input and neither starts nor ends with whitespace |
| Strings.TrimEmptyIff | src/main.js:348-349 | a message is blank after `trim` exactly when it is all whitespace |
| Strings.TrimIdempotent | src/admin.js:16 | trimming an already trimmed token changes nothing |
| Strings.ContainsIff | src/main.js:156 | `includes` holds exactly when the keyword occurs at some offset |
| Strings.JoinSplit | src/admin.js:16 | the pieces of `split(',')` join back into the original value |
| Strings.DecimalRoundTrip | src/main.js:120-129 | a count printed in decimal in a label is read back by `parseInt` as the same number |
| Strings.NatToDecimal | src/main.js:120-121 | the printed count is a non-empty run of digits without a leading zero |
| Strings.Contains | src/main.js:156 | a text only contains a fragment no longer than itself (the offsets are in `ContainsIff`) |
| Strings.LowerChar | src/main.js:140 | each upper-case ASCII letter becomes the same letter in lower case; every other character is kept |
| Strings.ToLower | src/main.js:140 | the lowered text has the same length and is lowered character by character |
| Strings.ToLowerIgnoresCase | src/main.js:140-156 | texts that differ only in the case of ASCII letters lower to the same text, so neither the search keyword's case nor the name's case matters |
| Strings.Split | src/admin.js:16 | `split` gives at least one piece and no piece contains the separator |
| TimeLabels.Classify | src/main.js:114-123 | the bucket is just-now, minutes, hours or date exactly on the thresholds 1 minute, 1 hour and 1 day; minutes lie in 1..59 and hours in 1..23 and are the floor of the difference |
| TimeLabels.EstimateAfterFormat | src/main.js:114-133 | reading back a label made at the same clock value gives `now` for `刚刚`, a time within one minute (one hour) at or after the true one for minute (hour) labels, and nothing for date labels |
| TimeLabels.FormatRelativeTime | src/main.js:114-123 | under a minute gives `刚刚`, under a day a label ending in `前`, and a day or more the date label of the timestamp |
| TimeLabels.EstimateTimestamp | src/main.js:125-133 | an empty label gives nothing, and an estimate never lies after `now` |
| TimeLabels.MatchCount | src/main.js:128-131 | `label.match(/(\d+)unit/)` read by `parseInt`; its meaning is stated by `MatchCountNone`, `MatchCountFound` and `MatchCountFirst` |
| TimeLabels.MatchEndsRun | src/main.js:128-131 | since the unit does not start with a digit, the digits of a match are a whole run: the match ends where the run ends |
| TimeLabels.MatchFromSpec | src/main.js:128-131 | the scan from any offset finds nothing exactly when no digits at or after it are followed by the unit, and otherwise the value of the leftmost such digits |
| TimeLabels.MatchCountNone | src/main.js:128-131 | the regular expression fails exactly when no digits anywhere in the label are followed by the unit |
| TimeLabels.MatchCountFound | src/main.js:128-131 | a number found is the value of digits followed by the unit, with no match starting earlier |
| TimeLabels.MatchCountFirst | src/main.js:128-131 | the leftmost digits followed by the unit are the number found |
| TimeLabels.EstimateCases | src/main.js:125-133 | an empty label gives nothing, a label containing `刚刚` gives `now`, a label with neither unit gives nothing |
| TimeLabels.EstimateMinutes | src/main.js:125-129 | without `刚刚`, the leftmost digits before `分钟`, worth N, give `now - N * 60000` |
| TimeLabels.EstimateHours | src/main.js:125-131 | without `刚刚` and without digits before `分钟`, the leftmost digits before `小时`, worth N, give `now - N * 3600000` |
| TimeLabels.EstimateNothing | src/main.js:125-132 | without `刚刚` and without digits before either unit, the estimate is nothing |
| TimeLabels.MinutesBeforeHours | src/main.js:128-131 | a label with both a minute and an hour count is read by its minutes |
| TimeLabels.MatchFromNeedsUnit | src/main.js:128-131 | the pattern `(\d+)unit` never matches a label lacking the unit |
| TimeLabels.MatchCountLeading | src/main.js:128-129 | a label that starts with a number and the unit yields that number |
| TimeLabels.RenderedMarkers | src/main.js:119-121 | minute and hour labels contain no `刚刚`, and hour labels no `分钟` |
| Roster.CannedReplies | src/main.js:387-407 | at least one reply; the generic single reply exactly for names other than the three built-in characters |
| Roster.Find | src/main.js:282 | `find` by id: the first index carrying the id, or none when no character has it |
| Roster.RemoveId | src/main.js:468 | `filter` never lengthens the roster and leaves no character with the id |
| Roster.RemoveIdMembers | src/main.js:468 | after `filter` a character remains exactly when it was there and has another id |
| Roster.RemoveIdDistinct | src/main.js:468 | removing a character keeps ids distinct |
| Roster.Edited | src/main.js:613-624 | `Object.assign` replaces the four form fields and keeps id, dates and count |
| Roster.BumpRoster | src/main.js:511-516 | a bump keeps the roster's length, order, ids and names |
| Roster.BumpRosterEffect | src/main.js:511-516 | a bump changes only the current character's entry: `刚刚` and one more conversation; an unknown id changes nothing |
| Roster.UserCountAppend | src/main.js:492-495 | appending a message adds one to the user-message count exactly for a user message |
| Roster.UserTotalUpdate | src/main.js:492-495 | replacing one conversation changes the total by the difference of its user-message counts |
| Roster.UserTotalDelete | src/main.js:469 | deleting a conversation removes exactly its user messages from the total |
| Roster.SendCountsOnce | src/main.js:359-375 | sending adds exactly one to the statistics' conversation total and the reply adds none |
| Roster.MostActiveIndex | src/main.js:497-500 | the picked character has a maximal count and no later character reaches it (ties go to the later one) |
| Roster.Greeting | src/main.js:45-59 | each greeting is an AI message by the character whose text is `你好！我是` + the name + `，很高兴与你交流。`, timed from `lastActive` when estimable and otherwise five minutes earlier per roster position |
| Roster.Store.constructor | src/main.js:4-39 | the initial roster, the first character current, no conversations, not editing |
| Roster.Store.InitializeConversations | src/main.js:45-60 | every character's conversation is exactly its greeting; other conversations stay |
| Roster.Store.Select | src/main.js:281-284 | an unknown id changes nothing; otherwise the character with the id becomes current |
| Roster.Store.BeginAdd | src/main.js:443-444 | the form is in add mode |
| Roster.Store.BeginEdit | src/main.js:452-456 | a known id is being edited; an unknown id changes nothing |
| Roster.Store.Submit | src/main.js:610-634 | edit mode changes only the edited character's form fields (and the current character when it is that one); add mode appends one fresh character with an empty conversation |
| Roster.Store.Delete | src/main.js:465-473 | the characters with the id and their conversation go, order kept; the current character moves to the first one only when it was deleted and one remains |
| Roster.Store.Bump | src/main.js:511-516 | only the current character's entry is bumped, and the current character with it |
| Roster.Store.SendMessage | src/main.js:345-363 | blank input or a missing conversation changes nothing; otherwise one user message with the trimmed text is appended and the character bumped |
| Roster.Store.DeliverReply | src/main.js:365-384 | the reply of the character current when the timer fires, from its canned replies, is appended and the character bumped; a missing conversation changes nothing |
| Roster.Store.NewConversation | src/main.js:663-668 | the current character's conversation, and only it, becomes empty |
| Roster.Store.ComputeStats | src/main.js:490-500 | the roster size, the user-message total over all conversations, and the most active character (none for an empty roster) |
| History.EntryOf | src/main.js:143-148 | the last message and its time, else the time estimated from `lastActive`, else 0 |
| History.Entries | src/main.js:142-148 | one entry per character, in roster order |
| History.SortByRecency | src/main.js:149 | the sorted list is ordered by decreasing timestamp and is a permutation of the entries |
| History.SortStable | src/main.js:149 | entries with the same timestamp keep their roster order |
| History.KeepMatchingOnlyMatches | src/main.js:155-158 | only entries whose lower-cased name or preview contains the keyword survive |
| History.KeepMatchingCounts | src/main.js:155-158 | every matching entry survives, as often as it occurs |
| History.KeepMatchingSorted | src/main.js:151-158 | filtering keeps the recency order |
| History.KeepMatchingEmpty | src/main.js:156 | an empty keyword keeps every entry |
| History.Shown | src/main.js:140-158 | the visible entries: sorted by recency, then filtered by the lowered, trimmed keyword; its meaning is stated by `ShownSpec` |
| History.ShownSpec | src/main.js:140-158 | the list is ordered by recency, shows exactly the matching entries with their multiplicity, and shows every character for a blank search; restricted to one timestamp, it keeps the roster order of that timestamp's matching entries |
| History.FiltersCommute | src/main.js:149-157 | keeping one timestamp and keeping the keyword's matches give the same list in either order |
| History.PreviewOfEntry | src/main.js:153 | an empty conversation previews as `暂无对话`, otherwise as the last message's text |
| History.HistoryList | src/main.js:135-176 | one row per shown entry, in order, with its preview and its relative time (none for a zero time) |
| AdminConfig.TrimmedPieces | src/admin.js:16 | the tokens are non-empty and already trimmed, and there are no more of them than pieces |
| AdminConfig.TrimmedPiecesMembers | src/admin.js:16 | a token comes out exactly when it is non-empty and some piece trims to it |
| AdminConfig.TrimmedPiecesConcat | src/admin.js:16 | pieces are trimmed and filtered one by one: two runs of pieces give their tokens one after the other |
| AdminConfig.ReadEnvList | src/admin.js:11-20 | `readEnvList(name, fallback)`; its meaning is stated by `ReadEnvListCases` and `ReadEnvListRoundTrip` |
| AdminConfig.ReadEnvListCases | src/admin.js:11-20 | missing or empty gives the fallback; a value starting with `[` is decoded (the fallback when rejected); otherwise the non-empty trims of the value's comma pieces, in order, and exactly those; whitespace only gives no tokens |
| AdminConfig.ReadEnvListRoundTrip | src/admin.js:11-20 | a value written as comma-joined tokens reads back as exactly those tokens |
| AdminConfig.Defaults | src/admin.js:22-29 | the four default lists, each read from its own variable with `[]` as fallback; stated by `DefaultsUnset` and `ReadEnvListCases` |
| AdminConfig.DefaultsUnset | src/admin.js:22-29 | with none of the four variables set, every default list is empty |
| AdminConfig.StoredList | src/admin.js:33-40 | one list of `getVisible`; its meaning is stated by `StoredListCases` |
| AdminConfig.GetVisible | src/admin.js:31-46 | each of the four lists is read from its own key with its own default |
| AdminConfig.StoredListCases | src/admin.js:31-46 | a missing key gives the default, a saved list gives that list (even empty), a decodable text gives its decoding, and an empty or undecodable text gives the default |
| AdminConfig.Merged | src/admin.js:50 | `[...new Set([...defaults, ...selected])]`; its meaning is stated by `MergedSpec` |
| AdminConfig.MergedSpec | src/admin.js:50 | the checkbox values are the defaults and the selections, each exactly once, in first-occurrence order |
| AdminConfig.MergedDefaultsFirst | src/admin.js:50 | every default precedes every selection that is not a default |
| AdminConfig.Rows | src/admin.js:49-60 | one checkbox per merged value, carrying the key, checked exactly when the value is selected |
| AdminConfig.RenderPage | src/admin.js:49-60 | `render()` as written: `None` when `btoa` throws on a listed value |
| AdminConfig.RenderPageFails | src/admin.js:54 | the page renders exactly when every default and stored value of every service is Latin-1, and then shows all four services' checkboxes |
| AdminConfig.NonLatin1VoiceBreaksRender | src/admin.js:54 | a default voice named `晓晓` leaves the admin page unrendered |
| AdminConfig.EmptyPage | src/admin.js:89-94 | with no defaults and nothing stored the page lists no checkbox |
| AdminConfig.CheckedValuesMembers | src/admin.js:104-106 | a value is grouped under a key exactly when some checked box carries both |
| AdminConfig.GroupChecked | src/admin.js:103-106 | the grouping succeeds exactly when every checked box has one of the four keys, and then holds each key's checked values in order |
| AdminConfig.WriteGroupsAt | src/admin.js:107 | after the writes each list key holds its group; other keys are untouched |
| AdminConfig.SaveReadsBack | src/admin.js:31-46 | after a save every list reads back as exactly the checked values of its key, an empty group as the empty list |
| AdminConfig.CheckedValuesConcat | src/admin.js:104-106 | the checked values of two runs of boxes are those of each, in order |
| AdminConfig.PageCheckedValues | src/admin.js:89-106 | on the whole page a key's group holds only its own service's checked values |
| AdminConfig.ResaveRenderedPage | src/admin.js:89-107 | saving a page that rendered, untouched, keeps every service's selection as a set |
| AdminConfig.ResaveKeepsSelection | src/admin.js:49-60 | saving the rendered page untouched keeps a value selected exactly when it was |
| AdminConfig.Cleared | src/admin.js:111-113 | reset removes exactly the four list keys and keeps every other entry |
| AdminConfig.ResetShowsDefaults | src/admin.js:111-113 | after a reset the page shows the defaults |
| ModelFetch.IdsOf | src/admin.js:166 | the names taken from `data` are non-empty and at most one per element |
| ModelFetch.IdOfSpec | src/admin.js:166 | an element yields `s` exactly when its `id` is the non-empty string `s`, or its `id` is falsy and its `name` is the non-empty string `s` |
| ModelFetch.IdsOfConcat | src/admin.js:166 | `map` and `filter` work element by element: two runs of elements give their names one after the other |
| ModelFetch.IdsOfMembers | src/admin.js:166 | a name is listed exactly when some element yields it |
| ModelFetch.FetchList | src/admin.js:161-169 | `fetchList(url)` once the request has produced `response`; stated for every answer by `FetchListCases`, `FetchDataArray` and `FetchItemsOrModels` |
| ModelFetch.FetchDataArray | src/admin.js:166 | any answer whose `data` is an array without `null` yields exactly the names of its elements, whatever else it holds |
| ModelFetch.FetchItemsOrModels | src/admin.js:167 | any answer without a `data` array yields the strings of a truthy `items`, else of a truthy `models`, else nothing |
| ModelFetch.EmptyItemsHideModels | src/admin.js:167 | an empty `items` array is truthy, so it hides a non-empty `models` list |
| ModelFetch.FetchListCases | src/admin.js:161-169 | no URL, a failed request and a `null` element in `data` give the empty list; names from `data` are non-empty |
| ModelFetch.FetchOpenAiShape | src/admin.js:166 | an answer `{ data: [{ id }, ...] }` yields exactly its ids, in order |
| ModelFetch.FetchItemsShape | src/admin.js:167 | an answer `{ items: [...] }` or `{ models: [...] }` of strings yields exactly those strings |
| ModelFetch.ListUrlCases | src/admin.js:137-150 | the LLM list is always asked for, at `/models` by default; other services only when their endpoint is configured |
| ModelFetch.UnconfiguredFetchesNothing | src/admin.js:172-174 | a service without a configured endpoint never gets a list |
| AdminStorage.CredentialIds | src/admin.js:137-150 | each service's credential keys are two different keys, neither a list key |
| AdminStorage.Fetched | src/admin.js:152-178 | a list is stored only when `appConfig` exists, the service is known and the list is not empty; `FetchedStores` states which list |
| AdminStorage.FetchedStores | src/admin.js:152-179 | with `appConfig`, a known service and non-blank credentials, the fetch stores exactly the non-empty list `fetchList` returns for the service's URL, at the service's key, and otherwise nothing |
| AdminStorage.AfterFetch | src/admin.js:174-178 | a fetch adds at most the service's own key and leaves every other entry as it was |
| AdminStorage.AfterFetchSpec | src/admin.js:152-179 | a fetch stores only a non-empty list at the service's own key, and nothing when base or key is blank after trimming; with `FetchedStores` this fixes the new storage for every input |
| AdminStorage.FetchedListIsShown | src/admin.js:176-179 | a stored fetched list is what that service shows afterwards; the others are unchanged |
| AdminStorage.SavedCredentialIsUsed | src/admin.js:154-155 | credentials saved earlier are what a fetch with blank fields uses |
| AdminStorage.LocalStore.constructor | src/admin.js:31-40 | the `localStorage` the page finds, holding text only, which `getVisible` then reads |
| AdminStorage.LocalStore.SaveVisible | src/admin.js:101-107 | the save succeeds exactly when every checked box has a known key, and then writes the four groups; otherwise nothing changes |
| AdminStorage.LocalStore.Reset | src/admin.js:111-113 | the storage becomes the old one without the four list keys |
| AdminStorage.LocalStore.SaveCredentials | src/admin.js:191-206 | the service's trimmed base and key are stored; an unknown service changes nothing |
| AdminStorage.LocalStore.SaveDevEnabled | src/admin.js:129-132 | the switch is stored as `true` or `false` |
| AdminStorage.LocalStore.FetchFor | src/admin.js:135-184 | the storage becomes `AfterFetch` of the old one, which `FetchedStores` fixes to the fetched list when it is non-empty, and the handler reports an update exactly when a list was stored |

## Left out

- The DOM: rendering, the SVG avatars, the dropdowns, the theme, the modal and the scroll position. Each handler is modelled by its effect on the data.
- `formatClock` and the `time` field of messages: it is a locale rendering used only for display.
- `toLocaleDateString`: the date of old labels is the parameter `dateLabel`. `EstimateAfterFormat` requires that this date text carries none of the three markers, because a locale rendering is outside the model.
- `Date.now()`, `Math.random()` and the one-second `setTimeout`: they are parameters and separate method calls. Nothing models the interleaving of other handlers before the reply fires, beyond `DeliverReply` reading the state it finds.
- `confirm` in `deleteCharacter`: `Roster.Store.Delete` is the confirmed branch. A declined dialog changes nothing.
- `alert`, and the `render()` calls after reset and fetch.
- The request of `fetchList`: its authorization header and scheme do not affect the stored lists.
- The checkbox ids: `btoa` is modelled only as the check whether it throws (`AdminConfig.RenderPage`). The id text itself, and two values whose ids collide, are not modelled.
- `AdminConfig.Rows`: assumes each value reaches `data-value` intact. The source writes it into the attribute unescaped, so a value containing `"`, or an `&` that starts a character reference, can be read back changed; an `&` that starts no reference, as in `a&b`, is read back unchanged.
- `AdminConfig.ResaveKeepsSelection`: holds for the page as `Rows` builds it, with every value written intact into `data-value`. A page that throws in `btoa` never attaches its handlers (`AdminConfig.ResaveRenderedPage` covers the page that renders), and an unescaped `"` in a value is not modelled.
- `AdminConfig.StoredList`: a stored text that parses to JSON other than a list of strings counts as undecodable and gives the default. The source returns the parsed value, and `renderList` then spreads it: a string into its characters, while an object throws.
- `AdminConfig.StoredListCases`: states the cases for a `decode` that answers lists of strings only. A stored text parsing to a number, a string, an object or a mixed list is outside the model, as for `AdminConfig.StoredList`.
- `JSON.parse` and `JSON.stringify` internals: `decode` is abstract, and a stored `Saved(items)` stands for `JSON.stringify(items)`.
- `Strings.ToLower`: lower-cases ASCII letters only, because Unicode case mapping is not modelled.
- `Strings.LowerChar`: maps only `A`-`Z` to lower case, while `toLowerCase` also lowers other letters such as `É` to `é`; Unicode case mapping is not modelled.
- `Roster.CannedReplies`: names such as `toString` or `constructor` would reach `Object.prototype` members in the source's lookup. This is not modelled.
- `Roster.Character`: `conversationCount` is a natural number, so the `|| 0` of a missing count cannot arise.
- `Roster.Store.Submit`: requires that the clock value used as a new id is not already an id on the roster, and not the id of the current character. The current character can be stale: after the last character is deleted it stays current although it is no longer on the roster. Two characters created in the same millisecond are outside the model.
- `AdminConfig.ReadEnvList`: a JSON value that is not a list of strings counts as a decode failure.
- `ModelFetch.FetchList`: keeps only string names. A numeric `id`, or non-string elements of `items` and `models`, are dropped, although the source would store them.
- `ModelFetch.FetchList`: JSON numbers are integers here.
- Number precision: JavaScript numbers are doubles, while the model's `int` is unbounded. `parseInt` of a very long digit run (`src/main.js:128-131`) and arithmetic on `Date.now()` values would lose precision in the source but not in the model.
- The `await`s of `doFetchFor` (`src/admin.js:164-174`): other handlers may run between reading the credentials and writing the storage. `AdminStorage.LocalStore.FetchFor` runs as one step.
- `ModelFetch.FetchList`: a non-empty string as `items` or `models` gives no names. The source returns the string, whose `length` is truthy, so it stores it. So is an object with a truthy `length` member, such as `{"length": 2}`: the source stores it, and the spread in `renderList` then fails on it, while the model gives no names. A number, `true` or an object without a truthy `length` member gives nothing to store, in the source and in the model.
- The `devEnabled` checkbox state and the credential inputs: they are parameters, not DOM reads. The inputs' prefilled values (`src/admin.js:70-76`) are not modelled.
- The streaming voice pipeline and the back-end services the product describes: no code for them exists in `src/main.js` or `src/admin.js`, so they are not part of this model.
- `src/shared/defaultCharacters.js` is not part of this model. The roster the store starts from is a parameter of `Roster.Store.constructor`.

## Findings

| source | as written | input that shows it | evidently intended | confidence | as-written member | corrected member |
|---|---|---|---|---|---|---|
| src/admin.js:54 | every listed value goes through `btoa` to build its checkbox id; `btoa` throws on a character beyond U+00FF, so `render()` stops before `innerHTML` is assigned and before the save and reset handlers are attached | `VITE_TTS_VOICES=晓晓`, or a fetched model list holding a Chinese name | every default and stored value gets its checkbox, whatever its characters | medium, not executed | AdminConfig.NonLatin1VoiceBreaksRender | AdminConfig.Rows |

`AdminConfig.RenderPage` models the render as written, and `AdminConfig.RenderPageFails` states exactly when it fails. The rest of the model builds the page with `AdminConfig.PageRows` from `AdminConfig.Rows`, where every value gets its checkbox. About that page, `AdminConfig.ResaveKeepsSelection` and `AdminConfig.ResaveRenderedPage` prove that saving it untouched keeps each selection.
