# Smart shopping list: a Dafny model

A Hebrew shopping-list web app. The user pastes or dictates a raw list, and a language model sorts it into supermarket departments. After that, typed or spoken commands go to a second model call, which answers with a structured intent: items found, items returned to the list, items added, renamed or deleted, and a spoken reply. The page merges that answer into its list.

This project models the logic around the model calls and proves properties about it.

- **List passes** (`ListOps`, app/page.tsx). The loose name match, toggling, the check and uncheck passes, renaming by first matching edit, and deleting (which drops emptied categories). Also the specification of `addNewItems`, with its module-wide id counter and `CATEGORY_META`, and the counter recovered from a saved list.
- **Page state** (`Page`, app/page.tsx). Class `ShoppingPage` holds the screen, the list, the assistant toast, the reset dialog and `globalIdCounter`, with one method per handler. `AddNewItems` is the copy-then-push loop, proved against `ListOps.AddAll`. `HandleAssistantCommand` applies the reply's passes in the source's order: check, uncheck, edit, remove, add.
  - The class invariant `Valid` says the counter is above every number issued into the list. So every id the counter hands out is unused.
  - Every handler keeps `Valid`. `FinishCategorize` keeps it for any list the categorisation endpoint can produce (`CategorizeRoute.AssignIdsIssued`).
- **List screen** (`ShoppingList`, components/ShoppingList.tsx). The pending/completed partition, the pending-only categories, the collapsed-section set and the completion banner.
- **Voice button** (`VoiceFab`, components/VoiceFAB.tsx). Class `VoiceCapture` holds the component's refs and state flags, with one method per event: button press, recogniser callbacks, timers and the mute prop. Also the `onresult` loop that splits results into final and interim text.
- **Endpoints** (`CategorizeRoute` and `AssistantRoute`, app/api/*/route.ts).
  - Request validation and the HTTP status of each outcome.
  - The categoriser's numbering `item-0, item-1, …` across categories.
  - The assistant's pending/completed context string, and filling each missing answer key with its default.

The language model is a function parameter of each route, from the prompt to the parsed answer, with `None` for a failed call or parse. Browser facts are parameters of the methods they affect: a saved list, whether the speech API exists, whether `start()` throws.

Support modules:
- `Wrappers`: `Option`.
- `Seqs`: order-preserving `Filter`.
- `Strings`: substring, decimal rendering and parsing, digit stripping, trim, line join and split.
- `Types`: lib/types.ts and list flattening.
- `Http`: request fields and responses.

## Model

| member | source | states |
|---|---|---|
| ListOps.LooseMatchSpec | app/page.tsx:287-291 | The match is symmetric and holds exactly when one name contains the other; the empty name matches every item |
| ListOps.ToggleItemSpec | app/page.tsx:180-189 | Toggling flips `checked` exactly on items with the given id, changes no other field, category or count, and toggling twice restores the list |
| ListOps.CheckPassSpec | app/page.tsx:282-296 | After the check pass an item is checked iff it was checked or matches a name; unmatched items are unchanged; the pass is idempotent |
| ListOps.UncheckPassSpec | app/page.tsx:298-314 | After the uncheck pass an item is checked iff it was checked and matches no name; unmatched items are unchanged; the pass is idempotent |
| ListOps.CheckThenUncheck | app/page.tsx:282-314 | Check then uncheck: an item matched by the uncheck list ends unchecked, otherwise checked iff it was checked or matched the check list |
| ListOps.FirstEdit | app/page.tsx:231-236 | `find` over the edits yields nothing iff no old name matches, otherwise the new name of the first matching edit in list order |
| ListOps.EditItemsSpec | app/page.tsx:226-244 | Renaming keeps the category headers, item counts, ids, item categories and flags; a matched item takes the first matching edit's new name, an unmatched one keeps its name |
| ListOps.RemoveItemsSpec | app/page.tsx:246-265 | No result category is empty; the surviving items are, in order, exactly the items matching no removed name |
| ListOps.RemoveEmptyNameClearsList | app/page.tsx:251-263 | Deleting the empty name removes every item and every category |
| ListOps.CategoryName | app/page.tsx:201 | A new item's category name is never empty |
| ListOps.AddAllOther | app/page.tsx:201-218 | A request without a category lands in the first "אחר" category of the result, which exists afterwards |
| ListOps.NewIdSpec | app/page.tsx:203 | Distinct counter values give distinct `item-new-N` ids, and the digits of the id read back as N |
| ListOps.FindCategory | app/page.tsx:202 | `updated.find` by name: the index of the first category with the name, or none when no category has it |
| ListOps.AddAllItems | app/page.tsx:195-224 | Adding keeps every existing item and adds exactly the new items (as multisets); the item count grows by the number of requests |
| ListOps.FreshIdsDistinct | app/page.tsx:203 | The items added in one call carry pairwise distinct ids |
| ListOps.AddAllSpec | app/page.tsx:198-219 | Existing categories keep position and header; each new category is appended with CATEGORY_META's icon and colour (fallback "אחר"), is the first of its name and holds at least one new item, and the new categories come in the order their names are first requested; every category holds its old items followed by the new items of its name, in request order, when it is the first of that name; so a later request joins a category an earlier one created |
| ListOps.AddAllPlacement | app/page.tsx:200-218 | Each new item, unchecked with its defaulted category, lands in the first category of that name |
| ListOps.MaxIdNumberSpec | app/page.tsx:137-142 | The reduce returns an upper bound of the start value and of every id number, attained by the start value or by some item; ids without digits are skipped |
| ListOps.RecoveredCounterSpec | app/page.tsx:137-143 | The recovered counter is 100 above the largest id number (or 100 when none has digits), and no id it or a later value produces is already in the saved list |
| ListOps.PassesKeepIds | app/page.tsx:180-189 | Toggle, check, uncheck and rename passes keep the set of ids |
| ListOps.RemoveItemsIds | app/page.tsx:246-265 | Deleting only drops ids |
| ListOps.AddAllIssued | app/page.tsx:203 | With the counter above every issued number, the ids handed out are not in the list and the counter stays above every issued number |
| ListOps.RecoveredIssued | app/page.tsx:143 | The counter recovered on load is above every number issued in the saved list |
| Page.ApplyReplyIssued | app/page.tsx:282-318 | The assistant's passes, the counter advancing by the added items, keep the counter above every issued number |
| Page.ShoppingPage.constructor | app/page.tsx:52-57 | Starts on the input screen with an empty list, no toast, no dialog and the counter at 1000 |
| Page.ShoppingPage.LoadSaved | app/page.tsx:131-145 | A non-empty saved list becomes the list, opens the shopping screen and sets the counter to the recovered value; otherwise nothing changes |
| Page.ShoppingPage.BeginCategorize | app/page.tsx:161-162 | Categorising shows the loading screen |
| Page.ShoppingPage.FinishCategorize | app/page.tsx:163-178 | A categorised list replaces the list and opens the shopping screen; a failure returns to the input screen keeping the list |
| Page.ShoppingPage.ToggleItem | app/page.tsx:180-189 | The list becomes its toggle by id; the invariant is kept |
| Page.ShoppingPage.AddNewItems | app/page.tsx:195-224 | The loop leaves the list equal to AddAll from the old list and counter, and advances the counter by the number of requests |
| Page.ShoppingPage.EditItems | app/page.tsx:226-244 | The list becomes its renaming; the invariant is kept |
| Page.ShoppingPage.RemoveItems | app/page.tsx:246-265 | The list becomes its deletion; the invariant is kept |
| Page.ShoppingPage.HandleAssistantCommand | app/page.tsx:267-337 | Commands under two characters change nothing; a failed request shows the error toast and keeps the list; a reply applies check, uncheck, edit, remove and add in that order, each only for a non-empty list, and a non-empty voice response becomes the toast |
| Page.ShoppingPage.ApplyPasses | app/page.tsx:280-318 | A reply's check, uncheck, rename, delete and add passes, each run only for a non-empty list, leave the list equal to ApplyReply from the old list and counter, advance the counter by the added items and keep the invariant |
| Page.ShoppingPage.MessageTimeout | app/page.tsx:154-159 | The toast clears when its timer fires |
| Page.ShoppingPage.ResetRequest | app/page.tsx:339 | Opens the reset dialog |
| Page.ShoppingPage.ResetConfirm | app/page.tsx:340-346 | Empties the list, returns to the input screen, clears the toast and closes the dialog; the counter keeps its value |
| Page.ShoppingPage.ResetCancel | app/page.tsx:347 | Closes the reset dialog |
| Types.AllItemsMembership | app/page.tsx:191-193 | The flattened list holds exactly the items of the categories |
| Types.FilterCategoriesFlatten | components/ShoppingList.tsx:29-34 | Flattening the per-category filter gives the filter of the flattened list |
| Types.FilterCategoriesMembers | components/ShoppingList.tsx:29-34 | A category appears in the filtered list iff it keeps an item, and then with its header and exactly its kept items in order |
| ShoppingList.PartitionSpec | components/ShoppingList.tsx:15-17 | Pending and completed hold exactly the unchecked and the checked items, and their lengths add up to the total |
| ShoppingList.PendingCategoriesSpec | components/ShoppingList.tsx:29-34 | The rendered categories flatten to the pending items in order, none is empty, and each is a list category with exactly its unchecked items |
| ShoppingList.ToggleCollapsed | components/ShoppingList.tsx:20-27 | The given name's membership flips, every other name's membership is unchanged |
| ShoppingList.ToggleCollapsedSpec | components/ShoppingList.tsx:20-27 | Toggling a section twice restores the set; toggles of two sections commute |
| ShoppingList.CompletionSpec | components/ShoppingList.tsx:18-61 | The completion banner shows iff the list has an item and every item is checked |
| VoiceFab.SplitResults | components/VoiceFAB.tsx:101-111 | The loop's final and interim texts are the concatenations FinalText and InterimText from resultIndex on |
| VoiceFab.SplitSpec | components/VoiceFAB.tsx:104-111 | The final text concatenates exactly the final results and the interim text exactly the others, in order, together all the characters |
| VoiceFab.VoiceCapture.constructor | components/VoiceFAB.tsx:50-57 | Not listening, supported, no recogniser, every ref flag false, no timer |
| VoiceFab.VoiceCapture.Mount | components/VoiceFAB.tsx:209-213 | Without the speech API the button hides |
| VoiceFab.VoiceCapture.Start | components/VoiceFAB.tsx:83-155 | Without the API the button hides and nothing else changes; otherwise a recogniser is held and restart is enabled when start() returns, while a throwing start() ends listening and leaves restart as it was |
| VoiceFab.VoiceCapture.OnStart | components/VoiceFAB.tsx:95-98 | Listening, with the inactivity timer armed |
| VoiceFab.VoiceCapture.OnResult | components/VoiceFAB.tsx:100-121 | A final text that is not blank after trim is handed on trimmed, re-arms the timer and clears the interim text; otherwise nothing is handed on and the interim text shows the non-final results |
| VoiceFab.VoiceCapture.OnError | components/VoiceFAB.tsx:123-130 | "not-allowed" and "service-not-allowed" hide the button, disable restart and clear the timer; any other error changes nothing |
| VoiceFab.VoiceCapture.OnEnd | components/VoiceFAB.tsx:132-145 | With restart enabled a successful restart of the held recogniser changes nothing and a failed one ends listening, disables restart and clears the timer; without restart listening ends and the timer clears |
| VoiceFab.VoiceCapture.Stop | components/VoiceFAB.tsx:157-166 | Leaves restart disabled, timer cleared, no recogniser, not listening and no interim text |
| VoiceFab.VoiceCapture.InactivityTimeout | components/VoiceFAB.tsx:63-73 | The fired timer acts only with restart enabled: it then stops listening, drops the recogniser and interim text and forgets the user's switch-on |
| VoiceFab.VoiceCapture.Pause | components/VoiceFAB.tsx:170-175 | When listening, records the pause and stops; otherwise changes nothing |
| VoiceFab.VoiceCapture.Resume | components/VoiceFAB.tsx:176-184 | After a pause of a user-activated microphone it leaves exactly the state starting recognition leaves; otherwise only the pause flag changes; the pause flag is false afterwards in every case |
| VoiceFab.VoiceCapture.MuteEffect | components/VoiceFAB.tsx:188-197 | Cancels the pending resume; muting while listening pauses and stops; unmuting after a pause of a user-activated microphone schedules the resume and clears the pause flag; every other field is kept |
| VoiceFab.VoiceCapture.ResumeDelayElapsed | components/VoiceFAB.tsx:194 | The scheduled resume clears itself and leaves exactly the state starting recognition leaves |
| VoiceFab.VoiceCapture.ToggleListening | components/VoiceFAB.tsx:199-207 | Stopping clears the user's switch-on and leaves the stopped state; starting sets it and leaves exactly the state starting recognition leaves, timer and interim text kept |
| CategorizeRoute.Categorize | app/api/categorize/route.ts:4-84 | A body that is not JSON or is `null`, and a failed model answer, give 500; a missing, non-string or empty text gives 400; otherwise the answer's categories come back numbered from 0 |
| CategorizeRoute.AssignIdsShape | app/api/categorize/route.ts:63-72 | Category order, count, names, icons, colours and item counts are kept; each item keeps its name, takes its category's name and is unchecked |
| CategorizeRoute.AssignIdsConsecutive | app/api/categorize/route.ts:62-67 | The flattened items carry item-0, item-1, … consecutively across categories |
| CategorizeRoute.ItemIdInjective | app/api/categorize/route.ts:67 | Distinct numbers give distinct ids |
| CategorizeRoute.AssignIdsDistinct | app/api/categorize/route.ts:62-67 | All ids of a categorised list are distinct |
| CategorizeRoute.ItemIdNotNew | app/api/categorize/route.ts:67 | An `item-N` id is never an `item-new-M` id |
| CategorizeRoute.AssignIdsIssued | app/api/categorize/route.ts:62-73 | A categorised list holds no `item-new-` id, so the page's counter is above every issued number whatever its value |
| AssistantRoute.Assistant | app/api/assistant/route.ts:5-78 | A body that is not JSON or is `null`, missing items or a failed answer give 500; a missing, non-string or empty message gives 400; otherwise the answer to the list context comes back with defaults filled in |
| AssistantRoute.FillDefaultsSpec | app/api/assistant/route.ts:62-69 | Key by key, in any partly filled answer: a present key passes its value through, a missing list becomes `[]` and a missing voice response `""`; so a complete answer is unchanged and an empty one becomes the empty reply |
| Types.PendingCompletedSplit | app/api/assistant/route.ts:37-38 | Pending and completed hold exactly the unchecked and the checked items and their lengths add up to the total |
| AssistantRoute.SectionSpec | app/api/assistant/route.ts:42-45 | A section is "(none)" iff the list is empty; a non-empty section of one-line items splits back into its item lines |
| AssistantRoute.ListContextSpec | app/api/assistant/route.ts:40-47 | The context starts with the pending header and ends with "User message: " and the message |
| Strings.IdNumberOfRendered | app/page.tsx:140 | Stripping non-digits from a digit-free prefix and a rendered number and parsing gives the number back |
| Strings.DecimalInjective | app/page.tsx:203 | Distinct numbers render to distinct decimal strings |
| Strings.TrimSpec | components/VoiceFAB.tsx:115-118 | The trimmed text is a slice of the input with only whitespace cut at either end, and neither end is whitespace |
| Strings.TrimBlank | components/VoiceFAB.tsx:115 | The trimmed text is empty iff the input is all whitespace |
| Strings.TrimIdempotent | components/VoiceFAB.tsx:118 | Trimming twice is trimming once |
| Strings.SplitJoin | app/api/assistant/route.ts:42 | Splitting newline-free lines joined with newlines gives the lines back |

## Left out

- I/O. The app's localStorage save and load, JSON serialisation, `fetch`, alerts, the service worker, cache busting, and the offline and update banners are not modelled. A saved list enters `LoadSaved` as a value. The effect that saves the list on every change is not modelled.
- Language-model calls and the Groq client are a function parameter, from the prompt to the parsed answer. The system prompts are constants sent to the model and are not modelled.
- Text-to-speech (lib/tts.ts) and the `isSpeaking` and `isProcessing` flags are not modelled. The speaking flag is the voice button's mute prop, so mute changes enter `VoiceCapture.MuteEffect` as its argument.
- Page.ShoppingPage.HandleAssistantCommand: does not call the voice button's pause and its resume 800 ms later. Those are `VoiceCapture.Pause` and `VoiceCapture.Resume`, modelled on their own.
- Page.ShoppingPage.HandleAssistantCommand: the two-character guard counts code points. JavaScript counts UTF-16 units, which differ only for a one-character command outside the Basic Multilingual Plane.
- Real timers are left out. The 60-second inactivity timer, the 800 ms resume delay and the 6-second toast timer are state plus an event method (`InactivityTimeout`, `ResumeDelayElapsed`, `MessageTimeout`).
- VoiceFab.VoiceCapture: models one recogniser. A new one started while another is held replaces it without stopping it, and the old one's callbacks are not modelled. React's stale `isListening` in callbacks and batched state updates are not modelled either: each method sees the current state.
- VoiceFab.VoiceCapture.MuteEffect: models one run of the effect. React also re-runs it when `startRecognition` or `stopRecognition` change identity, and each re-run cancels a pending resume. Those identity changes are not modelled.
- Strings.IsSpace: only the ASCII whitespace characters. JavaScript's `trim` also removes the Unicode space separators and line terminators.
- ListOps.RecoveredCounter: naturals are unbounded. `parseInt` loses precision above 2^53, which is not modelled.
- ListOps.MetaFor: only the nine department names count as keys. A name such as "constructor" would find an inherited property in the JavaScript object literal.
- ShoppingList.ShowsCompletion: the banner's `progress === 100` is modelled on the integer counts rather than the floating-point percentage. The percentage itself (the bar's width) is not modelled.
- The answer payloads are modelled as well-typed values. Non-array truthy values in the assistant's answer, extra fields copied by the `...cat` spread, and item names that are not strings are not modelled.
- React StrictMode's double invocation of state updaters is not modelled. It could advance `globalIdCounter` twice.
- components/InitialInput.tsx and components/CommandInput.tsx (forms with a trim-and-non-empty guard), JSX and CSS, app/layout.tsx and next.config.ts are not part of this model.
