# Conversation assistant: transcript engine, suggestion backend, history

The modelled system is an augmentative-communication assistant. A browser
page listens to a conversation through the platform's speech recogniser. It
shows a live transcript and offers tappable reply phrases, which it speaks
aloud. A small backend ranks the reply phrases. This project models three
parts of the system and proves properties about them.

- **The page** (`frontend/app.js`):
  - the home screen's context choice and its display label (`Contexts`);
  - the transcript engine: the one live (interim) line, promotion of final
    results in place, sentence lines that expire after 5000 ms, the
    `transcript` accumulator, the recording toggle and the recogniser's
    restart, and `speakPhrase` (`LiveSession`);
  - the `/suggest` and `/log_choice` payloads and the refresh button
    (`SuggestionClient`);
  - the page as one state machine over all of these events (`FrontendApp`).
- **The backend:**
  - the first-match keyword intent classifier (`Intents`);
  - the phrase packs (`PhrasePacks`);
  - the additive weight store (`WeightStore`);
  - the cleaning of the language model's reply text (`ReplyCleaning`);
  - the ranking order of `/suggest` (`Ranking`);
  - the two endpoints (`Routes`).
- **The per-session conversation history** (`History`, `CommonReplies`):
  - the log of exchanges, capped at 20 per session;
  - the prompt built from the latest exchanges;
  - the reply-frequency ranking for a context.

`Results`, `Text` and `PySlice` give the languages' own semantics:
- `Option` and `Result`;
- Python's `str.strip`, `split` and `join`, and JavaScript's `trim`;
- ASCII case folding;
- Python string order;
- `f"{n}"`;
- Python slice bounds, including negative and out-of-range ones.

Every operation is a pure function over immutable datatypes. Time is a
logical clock in milliseconds. Two things the page cannot control are
inputs to the events that need them: whether the recogniser's `start()`
throws, and what the network answers. The language model call is a function
parameter, `Routes.Generator`.

One assumption comes from the page's markup, which is not part of this
model: the start button is disabled when the page loads (`Contexts.Initial`).
The invariant that start is enabled only with a context selected rests on it.

## Model

| member | source | states |
|---|---|---|
| Text.PyStrip | backend/app/claude.py:30 | `str.strip()` leaves no Python whitespace at either end and never lengthens the text |
| Text.JsTrim | frontend/app.js:158 | `trim()` leaves no JavaScript whitespace or line terminator at either end |
| Text.TrimIsSlice | backend/app/claude.py:30 | a stripped string is a contiguous slice of the input, and everything removed around it is whitespace |
| Text.TrimEmptyIff | frontend/app.js:199-200 | a text trims to empty exactly when every character is whitespace |
| Text.TrimIdempotent | frontend/app.js:158 | stripping twice is stripping once |
| Text.Lower | backend/app/intents.py:4-7 | case folding maps each character on its own and keeps the length |
| Text.LowerIdempotent | backend/app/intents.py:4-7 | folding case twice is folding once |
| Text.ContainsAt | backend/app/intents.py:12 | an occurrence at any position is found by the search |
| Text.ContainsWitness | backend/app/intents.py:12 | whatever the search finds is an occurrence at some position |
| Text.Split | backend/app/claude.py:29 | `split("\n")` yields at least one piece, and no piece holds the separator |
| Text.JoinSplit | backend/app/claude.py:29 | joining the pieces of a split with the separator gives back the text |
| Text.SplitJoin | backend/app/history.py:93 | splitting a join of separator-free lines gives back the lines |
| Text.StrLessTotal | backend/app/routes.py:27 | two different reply texts are always ordered one way or the other |
| Text.StrLessTransitive | backend/app/routes.py:27 | the order of texts is transitive |
| Text.StrLessAsymmetric | backend/app/routes.py:27 | the order of texts is asymmetric |
| Text.StrLessIrreflexive | backend/app/routes.py:27 | no text precedes itself |
| Text.DecimalString | backend/app/routes.py:31 | `f"{i}"` is a non-empty string of decimal digits |
| Text.ParseDecimalString | backend/app/routes.py:31 | reading an id back as a number gives the position it was made from |
| Text.DecimalStringInjective | backend/app/routes.py:31 | different positions get different ids |
| PySlice.Bound | backend/app/history.py:81 | a slice bound counts from the end when negative and is clamped to the sequence |
| PySlice.Prefix | backend/app/routes.py:12 | `xs[:k]` is a prefix with `min(k, len)` elements for non-negative `k` |
| PySlice.Suffix | backend/app/history.py:81 | `xs[k:]` is a suffix with `len - k` elements for `0 <= k <= len`, and none beyond |
| PySlice.LastN | backend/app/history.py:58 | `xs[-n:]` keeps `min(n, len)` elements |
| PySlice.LastNIsSuffix | backend/app/history.py:58 | `xs[-n:]` is the end of `xs` |
| PySlice.LastNEndsWith | backend/app/history.py:52-58 | the last of `(xs + [x])[-n:]` is `x` |
| Intents.FirstMatch | backend/app/intents.py:11-14 | the label of the first rule that matches, `generic` when none does, and always a rule name or `generic` |
| Intents.ClassifyIntent | backend/app/intents.py:10-14 | one of the five labels; `generic` exactly when no rule matches; otherwise the first matching rule's label |
| Intents.RuleNamesAreLabels | backend/app/intents.py:3-8 | every rule is named by a label other than `generic` |
| Intents.EmptyTextIsGeneric | backend/app/intents.py:14 | the empty text is `generic` |
| Intents.EmergencyWins | backend/app/intents.py:11-13 | text containing "help" is an emergency whatever else it mentions, because that rule is tried first |
| Intents.HelpfulIsEmergency | backend/app/intents.py:4 | keywords match inside longer words: "helpful" is an emergency |
| Intents.UpperCaseDirections | backend/app/intents.py:5 | matching ignores case: "BUS" asks for directions |
| Intents.FirstMatchDependsOnMatches | backend/app/intents.py:11-13 | two texts that match the same rules are classified alike |
| Intents.ClassifyIgnoresCase | backend/app/intents.py:4-7 | lower-casing the text never changes its class |
| PhrasePacks.PackKeysAreLabels | backend/app/phrasepacks.py:1-39 | the packs are keyed by exactly the five labels, so every label the classifier returns has a pack |
| PhrasePacks.PacksAreLargeEnough | backend/app/phrasepacks.py:2-38 | every pack holds at least six phrases |
| PhrasePacks.Fallback | backend/app/routes.py:19 | `PHRASEPACKS[intent][:6]` is exactly six phrases, the pack's first six in order |
| PhrasePacks.GenericFallbackDropsTwo | backend/app/phrasepacks.py:2-6 | the generic pack has eight phrases, and the fallback keeps the first six and loses "Thank you." |
| WeightStore.Bump | backend/app/store.py:23-25 | a bump raises the triple's weight by `delta` and leaves every other key's entry and weight as they were |
| WeightStore.DefaultDeltaIsOne | backend/app/store.py:23 | a bump without `delta` adds one |
| WeightStore.DistinctTriplesCanShareAWeight | backend/app/store.py:17-18 | two different triples whose joined keys coincide share one weight |
| WeightStore.WeightIsSumOfBumps | backend/app/store.py:17-25 | after any sequence of bumps from an empty store, a triple weighs the sum of the deltas of the bumps whose key equals its key |
| WeightStore.NeverBumpedWeighsZero | backend/app/store.py:20-21 | a triple that no bump addressed weighs 0 |
| ReplyCleaning.CleanLineWith | backend/app/claude.py:30 | a cleaned line has no whitespace at either end |
| ReplyCleaning.CleanLineIsSlice | backend/app/claude.py:30 | a cleaned line is a slice of the line; only whitespace and markers precede it, and only whitespace follows it |
| ReplyCleaning.CleanLineDropsMarkers | backend/app/claude.py:30 | when the only whitespace in a line is plain spaces, no cleaned line starts with a listed marker |
| ReplyCleaning.BulletSurvivesAsWritten | backend/app/claude.py:30 | as written, "• Yes" is kept with its bullet |
| ReplyCleaning.TabbedMarkerSurvivesAsWritten | backend/app/claude.py:30 | as written, "1.\t2. Yes" cleans to "2. Yes" |
| ReplyCleaning.CleanLineIntendedDropsMarkers | backend/app/claude.py:30 | with the corrected marker class, no cleaned line starts with a marker, a bullet or whitespace |
| ReplyCleaning.BulletRemovedIntended | backend/app/claude.py:30 | the corrected cleaning turns "• Yes" into "Yes" |
| ReplyCleaning.KeepCleaned | backend/app/claude.py:28-33 | the kept lines are non-empty and stripped, and there are no more of them than input lines |
| ReplyCleaning.KeepCleanedOne | backend/app/claude.py:31-32 | a line is kept exactly when it cleans to something, and it is kept cleaned |
| ReplyCleaning.KeepCleanedAppend | backend/app/claude.py:29-33 | cleaning respects concatenation, so the kept lines keep their relative order |
| ReplyCleaning.GenerateRepliesWith | backend/app/claude.py:28-37 | fails with "Claude output invalid" exactly when fewer than six lines survive; otherwise returns exactly the first six cleaned lines |
| ReplyCleaning.RepliesAreCleanLines | backend/app/claude.py:28-37 | every generated reply is non-empty and stripped |
| Ranking.GeqTotal | backend/app/routes.py:27 | any two (weight, text) pairs are comparable |
| Ranking.GeqTransitive | backend/app/routes.py:27 | the pair order is transitive |
| Ranking.GeqAntisymmetric | backend/app/routes.py:27 | two pairs that may each precede the other are equal |
| Ranking.Insert | backend/app/routes.py:27 | one insertion step adds exactly the new pair |
| Ranking.InsertSorted | backend/app/routes.py:27 | inserting into a descending sequence keeps it descending |
| Ranking.SortDesc | backend/app/routes.py:27 | `sort(reverse=True)` is a permutation of its input |
| Ranking.SortDescSorted | backend/app/routes.py:27 | the sorted pairs are in descending order |
| Ranking.SortedPairwise | backend/app/routes.py:27 | in a descending sequence every pair may precede every later pair |
| Ranking.HeadIsGreatest | backend/app/routes.py:27 | the first sorted pair may precede every pair |
| Ranking.SortedUnique | backend/app/routes.py:27 | there is only one descending arrangement of a multiset of pairs |
| Ranking.SortIgnoresArrivalOrder | backend/app/routes.py:27 | the ranking does not depend on the order the replies came in |
| Ranking.SortTexts | backend/app/routes.py:27 | sorting rearranges the reply texts without changing any |
| Ranking.ScoreTenths | backend/app/routes.py:24 | the score `1.0 + 0.3 * w`, in tenths, exceeds the base exactly when the weight is positive, and gives the weight back |
| Ranking.ScoreOrderIsWeightOrder | backend/app/routes.py:24 | scores compare exactly as weights do |
| Routes.EffectiveContext | backend/app/routes.py:13 | a missing or empty context becomes `generic`, and any other context is kept |
| Routes.CandidateReplies | backend/app/routes.py:16-19 | six replies: the first six lines of the generator's text cleaned with the marker set as written (so "• A" stays "• A"), or the intent's fallback when the call raises or fewer than six lines survive |
| Routes.RequestReplies | backend/app/routes.py:12-19 | the replies ranked for a request are six |
| Routes.Weigh | backend/app/routes.py:21-25 | each reply is paired with its own stored weight, in reply order |
| Routes.WeighedPairsCarryTheirWeight | backend/app/routes.py:21-25 | every weighed pair carries the weight of its own text |
| Routes.Number | backend/app/routes.py:29-36 | at most six items, with ids "0", "1", … in order, all with the request's intent |
| Routes.NumberKeepsOrder | backend/app/routes.py:27-36 | numbered items keep the descending order, read off their scores and then their texts |
| Routes.NumberKeepsTexts | backend/app/routes.py:29-36 | numbering six pairs or fewer keeps every text |
| Routes.Rank | backend/app/routes.py:21-36 | ranked items come by non-increasing score with ties by descending text, carry their own weight's score, and are the replies rearranged |
| Routes.RankKeepsTexts | backend/app/routes.py:21-36 | ranking six replies or fewer returns the same replies |
| Routes.RankedScores | backend/app/routes.py:21-36 | after sorting and numbering, every item's score is the score of its own text's weight: sorting moves whole pairs |
| Routes.Suggest | backend/app/routes.py:10-37 | six suggestions: numbered ids, the intent of the truncated text, scores ordered by weight and then text, and a rearrangement of the candidate replies |
| Routes.SuggestSeesOnlyTruncatedText | backend/app/routes.py:12-17 | two requests whose texts agree on the first 300 characters get the same suggestions |
| Routes.MissingContextIsGeneric | backend/app/routes.py:13 | a missing context, an empty one and `generic` give the same suggestions |
| Routes.FailingGeneratorFallsBack | backend/app/routes.py:16-19 | when the generator raises, the suggestions are the intent's first six phrases, rearranged |
| Routes.LogChoice | backend/app/routes.py:39-43 | the chosen reply's weight rises by exactly one, and no other triple's weight changes |
| Routes.ChoiceRaisesScore | backend/app/routes.py:39-43 | a logged choice raises that reply's next score by 0.3 |
| History.AddExchange | backend/app/history.py:38-54 | the session exists with the new context; other sessions are untouched; a new session is appended to the key order |
| History.AddExchangeKeepsLatest | backend/app/history.py:52-58 | the session keeps the last `min(n, 20)` of its exchanges plus the new one |
| History.AddExchangeEndsWithNew | backend/app/history.py:52-58 | the new exchange is the session's latest |
| History.AddExchangeKeepsValid | backend/app/history.py:38-44 | every session appears exactly once in the key order |
| History.UpdateLastExchangeWithChoice | backend/app/history.py:62-67 | only the last exchange's reply changes; an unknown or empty session is left as it was |
| History.Window | backend/app/history.py:81 | `exchanges[-m:]` is the last `m` exchanges; `m = 0` keeps all of them |
| History.GetHistoryForLlm | backend/app/history.py:69-93 | empty for an unknown session; otherwise the prompt lines of the window, joined by newlines |
| History.PromptLinesAppend | backend/app/history.py:87-91 | the prompt lines of consecutive exchanges are the lines of each, in order |
| History.PromptLinesAreTagged | backend/app/history.py:86-91 | every prompt line carries a `[Heard]` or `[User replied]` tag and, when no field holds a newline, no newline |
| History.PromptLineCount | backend/app/history.py:86-91 | there is one line per exchange with a transcript plus one per exchange with a chosen reply |
| History.PromptSplitsIntoLines | backend/app/history.py:86-93 | splitting the prompt on newlines gives back its lines |
| History.ClearSession | backend/app/history.py:114-118 | exactly that session is removed, from the entries and from the key order |
| History.ClearSessionKeepsValid | backend/app/history.py:114-118 | clearing a session keeps every session exactly once in the key order |
| History.ClearAll | backend/app/history.py:120-124 | the history is empty |
| History.ClearedHistoryIsSilent | backend/app/history.py:78-79 | a cleared session's prompt is empty |
| History.AddExchangeKeepsOtherPrompts | backend/app/history.py:38-58 | adding an exchange never changes another session's prompt |
| History.NewExchangeEndsThePrompt | backend/app/history.py:46-58 | a new exchange with a transcript gives the prompt's last line |
| CommonReplies.ChosenIn | backend/app/history.py:105-108 | only non-empty chosen replies are counted |
| CommonReplies.ChosenInWitness | backend/app/history.py:105-108 | a counted reply was chosen in some exchange |
| CommonReplies.ChosenRepliesAreChosen | backend/app/history.py:102-108 | a counted reply is non-empty and comes from a session of the requested context |
| CommonReplies.OtherContextIsIgnored | backend/app/history.py:103-104 | opening a session of another context changes nothing that is counted |
| CommonReplies.ChosenAlongSameSessions | backend/app/history.py:102-104 | the count depends only on what the sessions of the key order contribute |
| CommonReplies.IndexOf | backend/app/history.py:108 | finds the reply's entry, or reports that there is none |
| CommonReplies.AddOneSpec | backend/app/history.py:108 | `get(reply, 0) + 1` bumps an existing entry in place, or adds a new entry with count one at the end |
| CommonReplies.TallySpec | backend/app/history.py:100-108 | one entry per distinct counted reply, holding its number of occurrences |
| CommonReplies.TallyKeyOrder | backend/app/history.py:108 | the dict keeps first-insertion order |
| CommonReplies.InsertByCount | backend/app/history.py:111 | one insertion step adds exactly the new entry |
| CommonReplies.SortByCount | backend/app/history.py:111 | the sort is a permutation of the tally |
| CommonReplies.SortByCountSorted | backend/app/history.py:111 | counts never increase along the sorted tally |
| CommonReplies.SortByCountStable | backend/app/history.py:111 | entries with equal counts keep their order, as Python's stable sort does |
| CommonReplies.SortByCountDistinct | backend/app/history.py:111 | sorting keeps the replies distinct |
| CommonReplies.TallySize | backend/app/history.py:100-108 | the tally has one entry per distinct counted reply |
| CommonReplies.GetCommonReplies | backend/app/history.py:95-112 | replies counted for the context, no two alike; for a non-negative `limit`, exactly `min(limit, number of distinct counted replies)` of them |
| CommonReplies.TopEntries | backend/app/history.py:111-112 | the kept entries are counted replies with their numbers of occurrences |
| CommonReplies.CommonRepliesByCount | backend/app/history.py:111-112 | the replies come in order of how often they were chosen |
| CommonReplies.CommonRepliesAreTop | backend/app/history.py:111-112 | a counted reply that was left out was chosen no more often than any reply returned |
| CommonReplies.CommonRepliesTiesKeepFirstSeen | backend/app/history.py:102-111 | replies chosen equally often come in the order they were first counted |
| Contexts.InitialIsValid | frontend/app.js:5-23 | the page starts with the presets as listed and nothing selected |
| Contexts.Selected | frontend/app.js:65-81 | in a valid choice, a context is resolved exactly when one is selected |
| Contexts.SelectCard | frontend/app.js:65-71 | picking a card marks it, selects its preset, empties the field and enables start |
| Contexts.SetAdditional | frontend/app.js:74-76 | typed text never changes whether a context is selected, nor the card, field or start button |
| Contexts.CustomInput | frontend/app.js:72-85 | non-empty text selects something and enables start; empty text changes no context, and disables start unless a card is marked |
| Contexts.CustomInputIntended | frontend/app.js:72-85 | with nothing picked, typed text is the free-text context's label |
| Contexts.CustomInputKeepsValid | frontend/app.js:72-85 | typing keeps the choice valid, both as written and corrected |
| Contexts.SelectCardKeepsValid | frontend/app.js:65-71 | picking a card keeps the choice valid |
| Contexts.SelectedValueIsKnown | frontend/app.js:5-12 | the value sent for a selected context is a preset's value or "custom", never empty |
| Contexts.DisplayLabel | frontend/app.js:90-92 | the label alone, or `label - additional` when there is additional text |
| Contexts.DisplayLabelStartsWithLabel | frontend/app.js:90-92 | the display label starts with the context's label |
| Contexts.FrozenCustomLabelAsWritten | frontend/app.js:74-81 | as written, typing "c" and then "ca" displays "c - ca" |
| Contexts.CustomLabelFollowsInputIntended | frontend/app.js:74-81 | with the corrected handler, the same keystrokes display "ca" |
| Contexts.AdditionalTextSticksToPreset | frontend/app.js:65-76 | text typed for a card stays on the shared preset, through an emptied field and a re-pick |
| Contexts.PresetValueIgnoresTyping | frontend/app.js:65-76 | typing after picking a card never changes the value sent |
| Contexts.CustomValueIsFixed | frontend/app.js:78-81 | a free-text context is sent as "custom", with the trimmed text as its label |
| LiveSession.Initial | frontend/app.js:22-25 | the engine starts in its invariant |
| LiveSession.AtMostOneInterim | frontend/app.js:144-154 | two interim lines are the same line |
| LiveSession.EnsureLiveLine | frontend/app.js:146-154 | the existing live line, or a new empty interim line at the bottom |
| LiveSession.SetLiveTranscript | frontend/app.js:146-161 | afterwards there is a live line, the same one if there was one, else a new first line (the bottom of the reversed display); it shows the trimmed text, visible exactly when that is non-empty; every other line and the transcript are untouched |
| LiveSession.ClearLiveTranscript | frontend/app.js:163-168 | the live line is removed, and nothing else |
| LiveSession.WithoutKeeps | frontend/app.js:165 | removal keeps exactly the other lines |
| LiveSession.AddTranscriptSentence | frontend/app.js:112-132 | one finished, shown line with a timer 5000 ms ahead goes in at the bottom, and `text + ' '` is appended to the transcript |
| LiveSession.Unexpired | frontend/app.js:124-126 | no line whose timer has fired survives |
| LiveSession.UnexpiredKeeps | frontend/app.js:124-126 | a line survives a tick exactly when it was there and its timer has not fired |
| LiveSession.SplitFragment | frontend/app.js:190-194 | a fragment's text goes to the final text when it is final and to the interim text otherwise, and not to the other |
| LiveSession.SplitBatchAppend | frontend/app.js:190-194 | both texts are built in batch order: the texts of a concatenated batch are the concatenations of its parts' texts |
| LiveSession.SplitBatchLength | frontend/app.js:190-194 | the two texts together are exactly as long as all the batch's texts |
| LiveSession.OnResultWith | frontend/app.js:186-218 | a result batch never changes recording, the recogniser or the status bar |
| LiveSession.LiveSlotFilledBeforeFinal | frontend/app.js:197-214 | the live slot is filled before the final text is examined, so the `addTranscriptSentence` fallback is never taken |
| LiveSession.FinalIsPromoted | frontend/app.js:199-217 | a non-empty final promotes the live line in place, empties the slot, appends the final to the transcript once, and touches no other line |
| LiveSession.PromotionKeepsOtherLines | frontend/app.js:186-210 | measured against the session before the batch, promoting an existing live line leaves every other line as it was |
| LiveSession.LiveLineHasNoTimer | frontend/app.js:146-161 | the live line never carries a timer |
| LiveSession.InterimOnlyBatch | frontend/app.js:156-161 | without a final, only the live line changes: it shows the trimmed interim text, visible exactly when that is non-empty; every other line and the transcript are unchanged |
| LiveSession.PromotedLineHiddenAsWritten | frontend/app.js:197-210 | as written, a final with no interim text is promoted into a hidden line |
| LiveSession.PromotedLineShownIntended | frontend/app.js:197-210 | with the corrected handler, a promoted line is shown |
| LiveSession.Tick | frontend/app.js:124-126 | the clock advances, and the live slot, transcript and recording state are untouched |
| LiveSession.SentenceLivesFiveSeconds | frontend/app.js:112-132 | a sentence is shown for less than 5000 ms and gone at 5000 ms, and its timer removes no other line |
| LiveSession.PromotedLineNeverExpires | frontend/app.js:203-210 | a promoted line survives every tick |
| LiveSession.TimerlessLineStays | frontend/app.js:124-126 | a line without a timer survives every tick |
| LiveSession.PromotedHasNoTimer | frontend/app.js:203-210 | a promoted line has no timer |
| LiveSession.SpeakPhrase | frontend/app.js:388-395 | with speech synthesis, cancel and speak, then add an assistant sentence and append it to the transcript; otherwise nothing |
| LiveSession.OnError | frontend/app.js:222-229 | "no-speech" changes nothing; any other code shows "Recognition error: code" |
| LiveSession.OnEnd | frontend/app.js:231-240 | the recogniser is restarted exactly while recording, and recording never changes, even when the restart throws |
| LiveSession.Toggle | frontend/app.js:243-272 | starting needs a recogniser whose `start()` does not throw; stopping stops it, removes the live line and always ends recording |
| LiveSession.PauseThenEndStaysStopped | frontend/app.js:231-240 | after a pause, `onend` does not restart the recogniser |
| LiveSession.OnlyToggleSwitchesRecording | frontend/app.js:222-240 | no event but the toggle changes whether recording is on |
| LiveSession.StepKeepsValid | frontend/app.js:144-168 | every event, with `onresult` as written, keeps the invariant: distinct line ids, one live line that is the only interim line, and no timer on it or overdue |
| LiveSession.EnsureLiveLineKeepsValid | frontend/app.js:146-154 | creating the live line keeps the invariant |
| LiveSession.SetLiveKeepsValid | frontend/app.js:156-161 | setting the live text keeps the invariant |
| LiveSession.OnResultKeepsValid | frontend/app.js:186-218 | a result batch keeps the invariant |
| LiveSession.PromoteKeepsValid | frontend/app.js:203-210 | promoting the live line keeps the invariant |
| LiveSession.AddSentenceKeepsValid | frontend/app.js:112-132 | adding a sentence keeps the invariant |
| LiveSession.TickKeepsValid | frontend/app.js:124-126 | a tick keeps the invariant |
| LiveSession.ToggleKeepsValid | frontend/app.js:243-272 | the toggle keeps the invariant |
| SuggestionClient.SuggestPayload | frontend/app.js:337-343 | the request carries the session id, the whole transcript, the selected context's value and mode "contextual", and no request is built without a context |
| SuggestionClient.ReadSuggestions | frontend/app.js:345-353 | a failed fetch, a non-ok response or a body that is not JSON fails; a missing field reads as no suggestions |
| SuggestionClient.Refresh | frontend/app.js:321-335 | success replaces the buttons and reports "Suggestions refreshed"; any failure keeps them and reports "Failed to fetch suggestions" |
| SuggestionClient.LogPayload | frontend/app.js:370-386 | the log carries the tapped suggestion's id, intent and text and the selected context's value |
| SuggestionClient.PayloadsSeeOnlyTheValue | frontend/app.js:337-343 | neither payload depends on a context's label or additional text |
| SuggestionClient.RefreshShowsBackendAnswer | frontend/app.js:321-354 | when the backend answers, the buttons are exactly its suggestions, in its order |
| SuggestionClient.FailedRefreshKeepsButtons | frontend/app.js:325-330 | a refresh that fails for any reason leaves the buttons as they were |
| SuggestionClient.TapCountsWhereSuggestLooks | frontend/app.js:370-386 | a logged tap raises by one exactly the weight the next ranking for that context reads |
| FrontendApp.Initial | frontend/app.js:22-25 | the page starts on the home screen in its invariant |
| FrontendApp.Start | frontend/app.js:87-95 | an enabled start button opens the record screen with the selected context's display label |
| FrontendApp.OpenSpeech | frontend/app.js:99-110 | the record button opens the speech screen with the generic buttons and starts recording unless it is already on |
| FrontendApp.LeaveSpeech | frontend/app.js:402-407 | leaving the speech screen pauses recording |
| FrontendApp.RefreshButtons | frontend/app.js:321-343 | a refresh sends one request for the current transcript and context, or none without a context, and the buttons and status become `SuggestionClient.Refresh`'s: the answer with "Suggestions refreshed", or the old buttons with "Failed to fetch suggestions" |
| FrontendApp.Tap | frontend/app.js:356-368 | a tapped suggestion is spoken and logged |
| FrontendApp.Step | frontend/app.js:321-386 | every event sends at most one request: a suggest request only from refresh, a log only from a tap |
| FrontendApp.StepKeepsValid | frontend/app.js:65-407 | every event of the page as written keeps the choice's and the engine's invariants |
| FrontendApp.TranscriptOnlyGrows | frontend/app.js:131 | nothing on the page ever shortens the transcript sent to the backend |
| FrontendApp.SessionTranscriptGrows | frontend/app.js:186-218 | no engine event shortens the transcript |
| FrontendApp.TapLogsUnderRefreshContext | frontend/app.js:362-380 | after an answered refresh, a tap is logged under the very context that refresh was ranked in, with the tapped text and intent |
| FrontendApp.TappedPhraseReachesNextRefresh | frontend/app.js:388-395 | a spoken suggestion ends the transcript the next refresh sends |
| FrontendApp.LeavingSpeechPauses | frontend/app.js:402-407 | after leaving the speech screen recording is off and the transcript is kept |
| FrontendApp.StartNeedsAContext | frontend/app.js:72-95 | start opens the record screen exactly when it is enabled, and then a context is selected |

## Left out

- File persistence (`load` and `save` in `store.py` and `history.py`), `datetime.now()` timestamps, and the JSON encoding: these are I/O and the wall clock.
- The Anthropic client call and its prompt (backend/app/claude.py:1-26). The model's reply text is an input (`Routes.Generator`).
- `backend/app/main.py` and `backend/app/models.py`: application wiring and request schemas. The schemas appear as datatypes; the pydantic defaults for a missing `context` or `mode` are not modelled, because the page always sends both.
- Routes.Suggest: the score is kept as an integer number of tenths, `10 + 3w`, instead of the float `1.0 + 0.3 * w`. Float rounding is not modelled: the tenths order as the real-valued score does, while IEEE doubles can tie two scores once weights reach about 2^53.
- Intents.ClassifyIntent: `re.I` is modelled as ASCII case folding. The non-ASCII case pairs Python's regex engine also folds are not modelled.
- The DOM: CSS classes other than the interim flag and `display`, the tab switching, the emoji, the loading spinner, the disabled refresh button, and the status bar hiding itself after 3 s. These are presentation only.
- The startup health check (frontend/app.js:424-434). It only reports connectivity.
- The 100 ms delay before the record button's automatic toggle (frontend/app.js:99-110). The toggle is taken at once.
- Concurrent refreshes. Each refresh's reply is an input to the same step, so responses resolving out of order are not modelled.
- Speech synthesis playback and the recogniser itself. Only their calls are recorded: cancel, speak, start and stop.
- Dead code: `mediaRecorder`, `audioChunks`, `lastTranscriptTime`, `currentSpeaker`, `pauseThreshold`, `fadeOutPreviousSentences` and `autoRefreshSuggestions`. Nothing calls them.
- The `sessionId`: it is a parameter, because `crypto.randomUUID()` and `Date.now()` are outside the model.
- Contexts.DisplayLabel: states which of the two forms is shown, the length of the combined form, and (through `Contexts.DisplayLabelStartsWithLabel`) that it starts with the label. It does not state the combined form character by character.

## Findings

| source | as written | input that shows it | evidently intended | confidence | as-written member | corrected member |
|---|---|---|---|---|---|---|
| backend/app/claude.py:30 | the `lstrip` set holds "â€¢", the UTF-8 bytes of the bullet read as Windows-1252; the real bullet is not in it, and a marker after a tab is kept | "• Yes" stays "• Yes"; "1.\t2. Yes" becomes "2. Yes" | bullets and markers separated by any whitespace are removed | high (not executed) | ReplyCleaning.BulletSurvivesAsWritten | ReplyCleaning.BulletRemovedIntended |
| frontend/app.js:197-210 | the live line's `display` is set from the interim text only; a batch with a final and no interim promotes a line hidden by `display: none`, and it never expires | a batch holding only the final "hello", with no live line | a promoted line is shown | high (not executed) | LiveSession.PromotedLineHiddenAsWritten | LiveSession.PromotedLineShownIntended |
| frontend/app.js:74-81 | once the free text has made a context, later keystrokes are stored as that context's additional text | typing "c" then "ca" with no card picked shows "c - ca" | the free-text context's label follows the field | medium (not executed) | Contexts.FrozenCustomLabelAsWritten | Contexts.CustomLabelFollowsInputIntended |

The rest of the model follows the code as written:
- the page (`FrontendApp.Step`, and `LiveSession.Step` within it) runs `onresult` as written (`LiveSession.OnResult`) and the free-text handler as written (`Contexts.CustomInput`);
- `Routes.CandidateReplies` cleans the reply with the marker set as written (`ReplyCleaning.GenerateReplies`).

The corrected definitions (`LiveSession.OnResultIntended`, `Contexts.CustomInputIntended`, `ReplyCleaning.GenerateRepliesIntended`) stand beside them. The corrected members above prove the intended property of each. `LiveSession.OnResultKeepsValid` and `Contexts.CustomInputKeepsValid` show that both versions keep the invariants.
