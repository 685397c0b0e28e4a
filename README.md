# MiniLingo in Dafny

MiniLingo is a vocabulary app for pre-school English learners. A teacher types
a list of words. The app turns each word into a flashcard record (word,
definition, emoji, plural flag, sample sentence). The records come from a
remote model when one is reachable and from a built-in offline dictionary
otherwise. Children then play seven games on the lesson.

This project models the app's logic and proves what it promises:

- the tokenizer, the offline dictionary resolver, the online/offline routing
  and the native-voice preference of the lesson service;
- the state machines of the memory, quiz, shadow, feed-the-monster, sticker
  and flashcard games;
- the word renderer's choice of drawing;
- the app shell's screens and its download password.

Modules follow the source files:

| module | models |
|---|---|
| `Types` | the shared records and enumerations (`types.ts`), and the sentinel "unknown" emoji shared by the resolver and the renderer |
| `Strings` | the JavaScript string built-ins used: `trim`, `split(/[, \n]+/)`, `includes`, `endsWith`, case mapping and `${n}` |
| `Permutations` | `sort(() => Math.random() - 0.5)`; every shuffle is an index permutation given as a parameter |
| `LessonResolver` | `services/geminiService.ts` |
| `Rounds` | the option chain shared by the quiz, the shadow game and the monster game: filter, shuffle, take two, add the target, shuffle |
| `Memory`, `Quiz`, `ShadowMatch`, `FeedMonster`, `StickerWorld`, `Flashcards` | the game components, one class each, with the component's state as fields |
| `WordVisual` | `components/WordVisual.tsx` |
| `AppShell` | `App.tsx` |

Outside inputs become parameters of the operations:

- `Date.now()` is a clock reading, or one reading per record.
- `Math.random()` picks are an index or a permutation.
- `navigator.onLine` and the API key are parameters.
- What the remote model would return is a `Success(records) | Failure` outcome.
- Pointer positions already converted to percentages are reals.

Each `setTimeout` callback is modelled as a separate step, such as `Memory.MemoryGame.Resolve` or `Quiz.QuizGame.Advance`.

Some things the proofs bring out about the program as written:

- No token ever contains a space. The dictionary's two-word entries "ice cream"
  (`services/geminiService.ts:29`) and "orange color" (`:141`) can therefore never
  be found.
- The curriculum preset "Ice Cream" is two tokens, "Ice" and "Cream".
- A remote batch gets ids `word-{i}-{now}` and keeps whatever number of records came back. Nothing ties that to the number of tokens.
- The quiz shows a plural option's emoji twice, while the word renderer draws a plural item three times.
- JavaScript treats 0 as false. So `!draggingId` in the monster game and `if (selectedId)` in the sticker world both treat the id 0 as "none". The model keeps this: `FeedMonster.Dragging`, `StickerWorld.Selected`.

## Model

| member | source | states |
|---|---|---|
| `Strings.Trim` | services/geminiService.ts:225 | the trimmed string has no leading or trailing whitespace, is no longer than the input, and an already trimmed string is left as it is |
| `Strings.TrimIsSlice` | services/geminiService.ts:225 | `trim` keeps one contiguous piece of the input |
| `Strings.TrimDropsWhitespace` | services/geminiService.ts:225 | every character `trim` drops is whitespace |
| `Strings.TrimNoSeparator` | services/geminiService.ts:225 | trimming a field free of separators leaves it free of separators |
| `Strings.Split` | services/geminiService.ts:225 | splitting on runs of `,`, space and newline gives at least one field, and no field contains a separator |
| `LessonResolver.SplitCons` | services/geminiService.ts:225 | a separator-free first field, a run of separators and a rest that starts with no separator split as that field followed by the fields of the rest; an empty first field (a leading run) gives an empty field |
| `Strings.Contains` | services/geminiService.ts:408-416 | `includes` is true exactly when the substring occurs at some position |
| `Strings.Lower` | services/geminiService.ts:293 | lower-casing keeps the length |
| `Strings.LowerAt` | services/geminiService.ts:293 | lower-casing works character by character |
| `Strings.Capitalize` | services/geminiService.ts:320 | only the first character is upper-cased and the rest of the word is unchanged |
| `Strings.UpperChar` | components/WordVisual.tsx:37 | a character is kept, or a lower-case ASCII letter becomes an upper-case one |
| `Strings.Dec` | services/geminiService.ts:319 | the decimal rendering of a number is non-empty and all digits |
| `Strings.ParseDecOfDec` | services/geminiService.ts:319 | reading a rendered number back gives the number |
| `Strings.DecInjective` | services/geminiService.ts:319 | different numbers render differently |
| `Strings.TaggedInjective` | services/geminiService.ts:319-330 | an id `${prefix}${i}-${t}` determines both `i` and `t` |
| `LessonResolver.NonEmpty` | services/geminiService.ts:225 | every kept field is non-empty and comes from the input, every non-empty field is kept, and nothing is dropped when no field is empty |
| `LessonResolver.NonEmptyConcat` | services/geminiService.ts:225 | the filter distributes over concatenation and keeps a single field exactly when it is non-empty, so it keeps the order and every repetition of the non-empty fields |
| `LessonResolver.TrimAllCons` | services/geminiService.ts:225 | trimming every field works field by field, from the first field on |
| `LessonResolver.Tokenize` | services/geminiService.ts:225 | every token is non-empty, holds no comma, space or newline, and has no surrounding whitespace |
| `LessonResolver.SplitJoin` | services/geminiService.ts:225 | splitting well-formed words joined by separator runs gives back exactly those words |
| `LessonResolver.TokenizeWord` | services/geminiService.ts:225 | a text without separators gives its trimmed self as the one token, or no token when only whitespace is left |
| `LessonResolver.TokenizeCons` | services/geminiService.ts:225 | for any input, the first field contributes its trimmed self (nothing when empty or blank, as for a leading separator or a trailing newline) and is followed, in order, by the tokens of the rest |
| `LessonResolver.FirstField` | services/geminiService.ts:225 | every input with a separator is a first field, a maximal separator run and a rest starting with no separator, so `TokenizeWord` and `TokenizeCons` determine the tokens of every input |
| `LessonResolver.TokenizeJoin` | services/geminiService.ts:225 | well-formed words joined by any separator runs come back exactly, in order and with every repetition |
| `LessonResolver.IceCreamTokens` | services/curriculumData.ts:26 | the preset "Ice Cream" is the two tokens "Ice" and "Cream" |
| `LessonResolver.RepeatedTokens` | services/geminiService.ts:225 | "cat, cat" gives "cat" twice, with no deduplication |
| `LessonResolver.Candidates` | services/geminiService.ts:296-315 | the exact word is tried first and is not plural; the suffix-stripped candidates are plural |
| `LessonResolver.FirstHit` | services/geminiService.ts:296-315 | no hit exactly when no candidate is in the dictionary; a hit is the first candidate present, with that candidate's plural flag and that key's entry |
| `LessonResolver.LookupIsFirstHit` | services/geminiService.ts:296-315 | the nested lookups are exactly the first present candidate among the word, the word minus "s", and the word minus "es" |
| `LessonResolver.LookupPlural` | services/geminiService.ts:296-325 | a hit is flagged plural exactly when the exact word missed; it returns that key's entry; a miss means every candidate is absent |
| `LessonResolver.LookupKeyIsPrefix` | services/geminiService.ts:300-315 | the key a lookup answers with is a prefix of the word |
| `LessonResolver.OrDefault` | services/geminiService.ts:321-323 | a non-empty field wins and an empty one is replaced by the default |
| `LessonResolver.OfflineContent` | services/geminiService.ts:291-292 | one record per token, in token order, each resolved from its own token, index and clock reading |
| `LessonResolver.OfflineHit` | services/geminiService.ts:317-326 | a hit has id `offline-{i}-{now}` and the capitalised token; the entry's non-empty fields are copied; it is plural iff the entry is or a suffix was stripped; it has no audio |
| `LessonResolver.OfflineMiss` | services/geminiService.ts:327-336 | a miss has id `unknown-{i}-{now}`, the raw token, "Let's learn this word.", the sentinel emoji, not plural, and "Can you say {token}?" |
| `LessonResolver.OfflineIdShape` | services/geminiService.ts:319-330 | every offline id is `offline-{i}-{now}` or `unknown-{i}-{now}` for its own index |
| `LessonResolver.TaggedPrefixesDiffer` | services/geminiService.ts:319-330 | an `offline-` id never equals an `unknown-` id |
| `LessonResolver.OfflineIdsDistinct` | services/geminiService.ts:319-330 | the ids of one offline batch are pairwise distinct, whatever the clock reads |
| `LessonResolver.OfflineClockIndependent` | services/geminiService.ts:292-336 | only the ids depend on the clock |
| `LessonResolver.KeyOfToken` | services/geminiService.ts:293 | the dictionary key of a token holds no separator |
| `LessonResolver.LookupKeyNoSeparator` | services/geminiService.ts:296-315 | a lookup of a separator-free word answers with a separator-free key |
| `LessonResolver.SpacedKeyUnreachable` | services/geminiService.ts:296-315 | a key containing a space never answers a separator-free word |
| `LessonResolver.TokenMissesSpacedKey` | services/geminiService.ts:293-315 | no token resolves to a key containing a space |
| `LessonResolver.MultiWordKeysUnreachable` | services/geminiService.ts:225-315 | for any input, no token resolves to a dictionary key containing a space |
| `LessonResolver.TwoWordEntriesUnreachable` | services/geminiService.ts:29 | no token ever resolves to "ice cream" or to "orange color" (line 141) |
| `LessonResolver.RemoteItems` | services/geminiService.ts:277-280 | one item per returned record |
| `LessonResolver.RoutingOffline` | services/geminiService.ts:228-285 | offline, without a key, or when the remote call throws, the batch is the offline resolution of the tokens, one record per token |
| `LessonResolver.RoutingRemote` | services/geminiService.ts:277-280 | a successful remote call keeps the returned records in order with all their fields and adds the id `word-{i}-{now}`; the count is the number of records returned |
| `LessonResolver.RemoteIdsDistinct` | services/geminiService.ts:278 | remote ids within one batch are pairwise distinct |
| `LessonResolver.LookupStrippedExamples` | services/geminiService.ts:296-315 | "dogs" finds "dog", "potatoes" finds "potato", and "buses" finds "bus" after "buse" misses; all are plural hits |
| `LessonResolver.LookupExactExamples` | services/geminiService.ts:296-315 | the exact keys "eyes", "dress" and "glasses" win over stripping; unknown words and the halves of "ice cream" miss |
| `LessonResolver.ExampleKeys` | services/geminiService.ts:293 | the key of "Dogs" is "dogs" |
| `LessonResolver.DogsRecord` | services/geminiService.ts:317-326 | "Dogs" keeps its spelling, takes the dog entry's fields and is plural |
| `LessonResolver.UnknownRecord` | services/geminiService.ts:327-336 | an unknown word keeps its spelling and gets the placeholder emoji, definition and singular flag |
| `LessonResolver.FindPreferred` | services/geminiService.ts:408-412 | the first preferred voice, if any: Samantha, a Female en-US voice, or Google US English |
| `LessonResolver.FindEnglish` | services/geminiService.ts:415-417 | the first voice whose language contains en-US or en-GB, if any |
| `LessonResolver.SelectVoice` | services/geminiService.ts:405-419 | the first preferred voice in the list is chosen; with no preferred voice the first English voice is chosen; no voice exactly when none is preferred or English |
| `LessonResolver.PreferredBeatsEarlierEnglish` | services/geminiService.ts:408-417 | a preferred voice wins over an English voice listed before it |
| `Permutations.Permute` | components/games/Memory.tsx:47 | a rearrangement has as many elements as the permutation |
| `Permutations.PermutePreservesMultiset` | components/games/Memory.tsx:47 | a shuffle keeps every element with its multiplicity |
| `Permutations.PermutationDistinct` | components/games/Memory.tsx:47 | a shuffle never takes the same position twice |
| `Permutations.PermutationCovers` | components/games/Memory.tsx:47 | a shuffle takes every position |
| `Permutations.PermutationInjective` | components/games/Memory.tsx:47 | two places of a shuffle that take the same position are the same place |
| `Rounds.Others` | components/games/Quiz.tsx:35-36 | the filter keeps exactly the lesson items whose id differs from the target's |
| `Rounds.DistractorsAreOthers` | components/games/Quiz.tsx:35-38 | there are min(2, #others) distractors, each a lesson item with an id different from the target's |
| `Rounds.OptionsShape` | components/games/Quiz.tsx:35-41 | the options are the distractors plus the target, rearranged; there are min(3, 1 + #others); the target appears exactly once; every other option is a lesson item with a different id |
| `Rounds.TargetOffered` | components/games/ShadowMatch.tsx:31-37 | the target is always among the options |
| `Rounds.OthersOfDistinct` | components/games/FeedMonster.tsx:41 | with distinct ids every item leaves |items| - 1 others, so from three items on every round offers three options |
| `Memory.GameItems` | components/games/Memory.tsx:29 | the first min(n, 6) items |
| `Memory.Pair` | components/games/Memory.tsx:31-45 | one face-down, unmatched card per item, with id `{tag}{i}` |
| `Memory.DeckShape` | components/games/Memory.tsx:27-47 | the deck has 2·min(n, 6) cards; cards i and m + i belong to item i; all are face down and unmatched; all card ids are distinct |
| `Memory.DeckPairs` | components/games/Memory.tsx:31-45 | with distinct item ids, item i's id is on exactly two cards, i and m + i |
| `Memory.ShuffledDeckDealt` | components/games/Memory.tsx:47-48 | the shuffled deck keeps the count, the unique ids and a card for every dealt item |
| `Memory.ShuffledPairs` | components/games/Memory.tsx:27-48 | with distinct item ids, each dealt item lies on exactly two cards of the shuffled deck |
| `Memory.InitialInv` | components/games/Memory.tsx:27-51 | a fresh deal satisfies the game invariant with nothing pending and nothing matched |
| `Memory.NoneMatched` | components/games/Memory.tsx:27-48 | every card of a fresh deal is face down and unmatched |
| `Memory.FlipUpOnly` | components/games/Memory.tsx:61 | flipping by id turns the clicked card face up and changes no other position |
| `Memory.ClickInv` | components/games/Memory.tsx:59-65 | an accepted click keeps the invariant, including at most two pending cards |
| `Memory.MatchInv` | components/games/Memory.tsx:69-76 | a match keeps the invariant, retires the item and counts one more pair |
| `Memory.MismatchInv` | components/games/Memory.tsx:88-95 | turning a mismatch back over keeps the invariant |
| `Memory.IdSetSize` | components/games/Memory.tsx:100 | a lesson has at most as many distinct ids as items, and exactly as many when its ids are distinct |
| `Memory.MatchedBound` | components/games/Memory.tsx:59-100 | the matched count never exceeds min(n, 6) |
| `Memory.WonIffAllMatched` | components/games/Memory.tsx:100 | with distinct ids, the win screen shows exactly when a pair was dealt and every card is matched |
| `Memory.MemoryGame.constructor` | components/games/Memory.tsx:53-56 | mounting deals a shuffled deck with nothing pending and a matched count of 0 |
| `Memory.MemoryGame.Restart` | components/games/Memory.tsx:27-51 | the deck is the shuffled pairs, nothing is pending and the count is 0 |
| `Memory.MemoryGame.Click` | components/games/Memory.tsx:58-65 | a refused click changes nothing; an accepted one turns only that card face up and queues it |
| `Memory.MemoryGame.Resolve` | components/games/Memory.tsx:67-96 | a match retires every card of the item and adds 1; a mismatch turns exactly the two cards back; the queue empties |
| `Quiz.EndScore` | components/games/Quiz.tsx:90-97 | the end screen always reports a full score |
| `Quiz.ScoreBounds` | components/games/Quiz.tsx:52-66 | the score is the round, plus one exactly while a round's "correct" banner shows |
| `Quiz.QuizGlyphs` | components/games/Quiz.tsx:77-87 | a plural option shows its emoji twice and a singular one shows it once |
| `Quiz.QuizGame.constructor` | components/games/Quiz.tsx:20-23 | round 0 starts with idle feedback and item 0 as the target, or no target for an empty lesson |
| `Quiz.QuizGame.StartRound` | components/games/Quiz.tsx:25-41 | nothing once every round is done; otherwise the feedback is idle, the target is item r and the options are dealt |
| `Quiz.QuizGame.Click` | components/games/Quiz.tsx:49-70 | ignored unless the feedback is idle and there is a target; the right item is "correct" and +1; any other is "wrong" and the score is kept |
| `Quiz.QuizGame.ClearWrong` | components/games/Quiz.tsx:69 | the wrong banner clears and nothing else changes |
| `Quiz.QuizGame.Advance` | components/games/Quiz.tsx:64-66 | the round advances by exactly one with the score kept, and the next round starts |
| `ShadowMatch.ShadowGame.constructor` | components/games/ShadowMatch.tsx:20-23 | mounting runs the first round with a score of 0 |
| `ShadowMatch.ShadowGame.NextRound` | components/games/ShadowMatch.tsx:25-37 | the round is unsolved, the target is the chosen item and the options are dealt |
| `ShadowMatch.ShadowGame.Choice` | components/games/ShadowMatch.tsx:44-62 | ignored once solved; the right item solves the round and adds exactly 1; a wrong one changes nothing; at most one point per round |
| `FeedMonster.Layout` | components/games/FeedMonster.tsx:45-50 | food i sits at (20 + 30i, 70) with id now + i |
| `FeedMonster.LayoutShape` | components/games/FeedMonster.tsx:45-50 | the foods of a round have distinct ids and sit 30 points apart on one shelf |
| `FeedMonster.Find` | components/games/FeedMonster.tsx:94 | the first food with the id, or none when no food has it |
| `FeedMonster.UpdatesTouchOne` | components/games/FeedMonster.tsx:84-114 | moving or putting back changes only the food with that id, and only its position |
| `FeedMonster.MonsterGame.constructor` | components/games/FeedMonster.tsx:59-62 | mounting runs the first round with a score of 0 and no drag |
| `FeedMonster.MonsterGame.StartRound` | components/games/FeedMonster.tsx:33-51 | not eating; the target is set; the foods are the laid-out options |
| `FeedMonster.MonsterGame.DragStart` | components/games/FeedMonster.tsx:65 | the food becomes the dragged one |
| `FeedMonster.MonsterGame.DragMove` | components/games/FeedMonster.tsx:67-85 | without a (truthy) drag nothing moves; otherwise only the dragged food takes the new position |
| `FeedMonster.MonsterGame.Eat` | components/games/FeedMonster.tsx:119-124 | eating, +1, and the shelf is cleared |
| `FeedMonster.MonsterGame.DragEnd` | components/games/FeedMonster.tsx:87-117 | the target food dropped in the mouth (x > 50, y < 50) is eaten; any other drop resets only that food's y to 70; the drag always ends |
| `StickerWorld.Clamp` | components/games/StickerWorld.tsx:65 | the scale is clamped into [0.5, 3] and is unchanged inside it |
| `StickerWorld.ClampMonotone` | components/games/StickerWorld.tsx:65 | clamping keeps the order of scales |
| `StickerWorld.ScaleStepsUndo` | components/games/StickerWorld.tsx:230-236 | one plus press and one minus press restore a scale that stays in bounds |
| `StickerWorld.FindSticker` | components/games/StickerWorld.tsx:101 | the first sticker with the id, or none when no sticker has it |
| `StickerWorld.Remove` | components/games/StickerWorld.tsx:55 | the filter drops every sticker with the id and keeps every other one |
| `StickerWorld.RemoveAbsent` | components/games/StickerWorld.tsx:55 | removing an unused id changes nothing |
| `StickerWorld.RemoveConcat` | components/games/StickerWorld.tsx:55 | the filter works piecewise and keeps the order |
| `StickerWorld.AddThenDelete` | components/games/StickerWorld.tsx:40-59 | adding a sticker with a fresh id and deleting it at once restores the canvas |
| `StickerWorld.OperationsKeepScales` | components/games/StickerWorld.tsx:53-140 | deleting, rescaling and moving keep every scale in [0.5, 3] |
| `StickerWorld.Canvas.constructor` | components/games/StickerWorld.tsx:30-36 | an empty canvas on the first background, with no selection and no drag |
| `StickerWorld.Canvas.AddSticker` | components/games/StickerWorld.tsx:40-49 | appends exactly one sticker at (50, 50) with scale 1 and selects it |
| `StickerWorld.Canvas.DeleteSelected` | components/games/StickerWorld.tsx:53-59 | with a truthy selection, removes it and clears the selection; otherwise nothing changes |
| `StickerWorld.Canvas.ScaleSelected` | components/games/StickerWorld.tsx:61-71 | the selected sticker's scale becomes clamp(scale + delta) and the others stay |
| `StickerWorld.Canvas.ChangeBackground` | components/games/StickerWorld.tsx:92-94 | the background index cycles modulo 4 |
| `StickerWorld.Canvas.PointerDown` | components/games/StickerWorld.tsx:98-117 | an unknown id changes nothing; otherwise it selects the sticker and starts a drag from its position |
| `StickerWorld.Canvas.PointerMove` | components/games/StickerWorld.tsx:119-140 | only the dragged sticker moves, to its grab position plus the travel |
| `StickerWorld.Canvas.PointerUp` | components/games/StickerWorld.tsx:142-144 | the drag ends and nothing else changes |
| `StickerWorld.Canvas.CanvasClick` | components/games/StickerWorld.tsx:146-151 | the selection clears only when no drag is active |
| `Flashcards.FinishIffCounterFull` | components/games/Flashcards.tsx:58-119 | Finish shows exactly when the counter reads "n / n" |
| `Flashcards.Deck.Current` | components/games/Flashcards.tsx:18 | the card shown is a lesson item |
| `Flashcards.Deck.constructor` | components/games/Flashcards.tsx:15-16 | a non-empty lesson starts on card 0, face up |
| `Flashcards.Deck.NextCard` | components/games/Flashcards.tsx:33-43 | before the last card, the next card face up; on the last card nothing changes; the index stays in range |
| `Flashcards.Deck.PrevCard` | components/games/Flashcards.tsx:45-49 | after the first card, the previous card face up; on the first card nothing changes |
| `Flashcards.Deck.Tap` | components/games/Flashcards.tsx:66 | a tap turns the card over |
| `WordVisual.SizeClass` | components/WordVisual.tsx:18-27 | the size classes of sm, lg, xl and huge; md and any other size give 'text-4xl' |
| `WordVisual.BubbleClass` | components/WordVisual.tsx:39-42 | the avatar bubble's classes for huge, lg and sm, and the default for any other size |
| `WordVisual.Initial` | components/WordVisual.tsx:37 | the first letter upper-cased, or empty for an empty word |
| `WordVisual.Render` | components/WordVisual.tsx:29-79 | a letter avatar exactly for the sentinel emoji; otherwise three copies of the emoji for a plural item at every size and one for a singular item; the shadow flag is carried as given |
| `WordVisual.SentinelIgnoresPlural` | components/WordVisual.tsx:36-51 | for the sentinel the plural flag makes no difference |
| `WordVisual.ShadowOnlyStyles` | components/WordVisual.tsx:32 | shadow mode never changes what is drawn |
| `WordVisual.UnknownWordAvatar` | services/geminiService.ts:327-336 | a word the dictionary misses is drawn as its own first letter, upper-cased |
| `AppShell.HubOffersTheGames` | App.tsx:175 | the hub offers seven distinct modes, exactly the game modes |
| `AppShell.Shell.constructor` | App.tsx:19-27 | the dashboard with no lesson and a closed, empty dialog |
| `AppShell.Shell.LessonCreated` | App.tsx:56-59 | the given items are stored and the hub opens |
| `AppShell.Shell.SelectGame` | App.tsx:175 | the chosen game mode starts on the same lesson |
| `AppShell.Shell.ExitGame` | App.tsx:61-63 | back to the hub, with the lesson kept |
| `AppShell.Shell.BackToTeacher` | App.tsx:65-68 | the dashboard, with the lesson emptied |
| `AppShell.Shell.DownloadClick` | App.tsx:71-75 | the dialog opens with an empty field and no error |
| `AppShell.Shell.TypePassword` | App.tsx:241 | the field holds what was typed |
| `AppShell.Shell.SubmitPassword` | App.tsx:77-87 | "9090" closes the dialog and downloads; anything else keeps the dialog, sets the error and empties the field |
| `AppShell.Shell.CloseModal` | App.tsx:221 | the dialog closes |

## Left out

- The remote model call, its prompt and JSON parsing are left out. Only their outcome is a parameter, because it is a foreign service.
- All audio is left out: synthesis requests, base64 and PCM decoding, the audio context, playback and `speechSynthesis.speak`. These are browser and network effects. Only the choice of voice is modelled.
- Timers are left out. Each delayed callback is one atomic step, and interleavings are not modelled, such as a restart while a mismatch timeout is pending.
- Confetti, fullscreen, the snapshot flash and the Blob download are left out. `SubmitPassword` only reports that the download starts.
- DOM geometry is left out: bounding rectangles and the pointer-to-percent conversion. Positions and travel arrive as percentages.
- The monster game's `!monsterRef.current` guard assumes the monster is mounted.
- Random picks and shuffles are parameters. Nothing is proved about their distribution, since comparator shuffles are not uniform.
- BubblePop, TeacherPanel, StudentHub and Button are left out. The first is an animation loop, the others are presentation and async orchestration. The hub appears only as the seven modes it passes to `setMode`.
- `Strings.Lower`, `Strings.UpperChar`: only ASCII letters change case. The Unicode case mapping of `toLowerCase`/`toUpperCase` is not modelled.
- `LessonResolver.OrDefault`: the dictionary is a plain finite map. Prototype keys such as "constructor" are not modelled, and neither are absent entry fields: only an empty field takes its default.
- `LessonResolver.UnknownRecord`: the sample sentence "Can you say zzyxw?" is not spelled out as a literal in this example. `LessonResolver.OfflineMiss` states it for every word.
- `StickerWorld.Clamp`: scales and the 0.2 steps are exact reals. IEEE rounding is not modelled.
- `StickerWorld.Canvas.AddSticker`: two stickers added within one millisecond get the same id, as in the source. The model allows this. `DeleteSelected` then removes both, and `PointerDown` picks the first.
- `ShadowMatch.ShadowGame.Choice`: the `!currentItem` guard cannot be reached once the component has mounted, because the first round sets the item and no step clears it. The model's invariant includes that the item is present.
- `Flashcards.Deck.constructor`: the deck needs a non-empty lesson, because the source reads `items[currentIndex]` on its first render.
- `ShadowMatch.ShadowGame.constructor`, `ShadowMatch.ShadowGame.NextRound`: these require at least one lesson item. An empty lesson can reach the game (an input such as "," passes the teacher panel's blank check and has no tokens), and then the source picks `items[0]`, which is undefined, and fails reading `target.english` in the delayed prompt (components/games/ShadowMatch.tsx:27, 39-41). The model does not describe that failure.
- `FeedMonster.MonsterGame.constructor`, `FeedMonster.MonsterGame.StartRound`: these require at least one lesson item for the same reason. The source fails reading `newTarget.audioBase64` in the delayed prompt (components/games/FeedMonster.tsx:37, 54-56). The model does not describe that failure.
- `WordVisual.Initial`: strings are sequences of whole code points, not of UTF-16 code units. For a word starting with a character outside the Basic Multilingual Plane, such as an emoji, `charAt(0)` gives half a surrogate pair in the source, while the model gives the whole character. `Strings.Capitalize` is not affected, since there the two halves are joined again.
- `AppShell.Shell.SelectGame` takes the seven hub modes only from the menu, as the hub offers them.
- The dictionary's full content and the curriculum presets are left out. A few entries and one preset serve as examples.
- `vite.config.ts` is not part of this model.
