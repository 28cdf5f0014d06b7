# cr-skip player logic in Dafny

cr-skip is a browser extension that reads viewer comments announcing skip times ("recap ends at
1:30", "TC 5:00") and shows skip buttons in the video player. This project models the decision
logic of its player script, `src/player.js`:

- `calculateTime`: the leftmost `m:ss` / `mm:ss` token of a string as seconds plus a normalised
  label (`TimeParse.CalculateTime`).
- The four fixed regular expressions `TIME_RE`, `RECAP_RE`, `TITLECARD_RE` and `COMMENT_SPLIT_RE`.
  Each is a dedicated scanner (module `Patterns`) that follows JavaScript's backtracking order:
  - the leftmost start position wins;
  - alternatives are tried in order;
  - `{1,2}` tries two digits first;
  - the lazy `.*?` takes the shortest gap and never crosses a line terminator;
  - the global flag resumes scanning after each match.
- `CommentAttributes`:
  - the constructor and `#getSkipText` (`Attributes.NewCandidate`, `Attributes.SkipText`);
  - the static `create`, as the method `Attributes.Create`. Its loop over the split segments is
    proved equal to the declarative `Attributes.Classify`.
- The message handler's reconcile chain (module `Reconcile`):
  - the origin/type/payload gate;
  - `flatMap(create)`;
  - the visibility filter driven by `TRY_SKIP_GENERIC`;
  - the stable sort by time;
  - the `findIndex` proximity filter with `TIME_DELTA = 5`;
  - the surrounding `catch`, which swallows a throwing `create` and shows no button at all.

A `create` that would throw in JavaScript becomes `Err`:

- `NoSplitMatch`: `comment.match(COMMENT_SPLIT_RE)` is `null` and `.forEach` fails.
- `NoTimeInSegment`: the `[0]` of a segment without a time would fail. `Attributes.SegmentsAreTimed`
  proves this error cannot occur.

Two consequences of the code are worth stating:

- **Filter order.** The proximity filter runs after the visibility filter and the sort
  (`src/player.js:166-179`). So `findIndex` sees the sorted list, and a chain such as 0, 4, 8
  collapses to 0 alone (`ReconcileExamples.ChainCollapses`).
- **Missing split match.** A comment with both keywords and no keyword-then-time match throws at
  `src/player.js:99`, and the handler's `catch` drops every button of the message
  (`Examples.TokenBeforeKeywordsThrows`, `ReconcileExamples.OneThrowHidesAll`).

Case-insensitive matching uses ASCII case folding. This is exact here: the expressions are not in
Unicode mode, and in that mode a non-ASCII character never folds onto an ASCII letter.

## Model

| member | source | states |
|---|---|---|
| Patterns.HasKeywordMeaning | src/player.js:8-9 | the unanchored case-insensitive keyword search succeeds exactly when the keyword occurs, case-folded, at some position |
| Patterns.HasKeyword | src/player.js:8-9 | the unanchored `/i` search for one keyword (a definition; `HasKeywordMeaning` states it) |
| Patterns.KeywordAtMeaning | src/player.js:8-9 | a keyword matches at `i` exactly when every following character folds to the keyword's letter |
| Patterns.MatchesRecap | src/player.js:8 | the `RECAP_RE` test: "recap" or "episode" occurs somewhere, ignoring ASCII case (a definition; `HasKeywordMeaning` characterises the search) |
| Patterns.MatchesTitle | src/player.js:9 | the `TITLECARD_RE` test: "tc" or "title" occurs somewhere, ignoring ASCII case, so "watch" is a hit (a definition) |
| Patterns.TimeAt | src/player.js:7 | a `TIME_RE` match at `i` is one or two digits, a colon and two digits, ending 4 or 5 characters on |
| Patterns.TimeAtMeaning | src/player.js:7 | `TIME_RE` fails at `i` exactly when neither the one- nor the two-digit-minute shape starts there, and the two-digit shape wins when both do |
| Patterns.FindTimeFrom | src/player.js:7 | `match(TIME_RE)` returns the leftmost token: none starts earlier, and no token at all gives `None` (the `null` match) |
| Patterns.FindTime | src/player.js:50 | `s.match(TIME_RE)` over the whole string, also used at `src/player.js:100` (a definition; `FindTimeFrom` states it from position 0) |
| Patterns.FindTimeFromIs | src/player.js:7 | the leftmost-token characterisation determines the search result |
| Patterns.GapTimeFrom | src/player.js:13-14 | the lazy `.*?` followed by `TIME_RE`: the token it finds is the first one at or after `i`, with no line terminator before it, and it finds nothing when no token follows |
| Patterns.GapTimeFromFinds | src/player.js:13-14 | the lazy gap finds a token whenever one can be reached from `i` without crossing a line terminator |
| Patterns.RecapKeywordEnd | src/player.js:13 | the `(recap\|episode)` group at `i`: the matched text satisfies `RECAP_RE` and holds no digit |
| Patterns.RecapKeywordEndMeaning | src/player.js:13 | the `(recap\|episode)` group matches at `i` exactly when "recap" or "episode" starts there, case-folded, and then ends 5 or 7 characters on |
| Patterns.TitleKeywordEnd | src/player.js:14 | the `(TC\|title)` group at `i`: the matched text satisfies `TITLECARD_RE` and holds no digit |
| Patterns.TitleKeywordEndMeaning | src/player.js:14 | the `(TC\|title)` group matches at `i` exactly when "tc" or "title" starts there, case-folded, and then ends 2 or 5 characters on |
| Patterns.KeywordThenTime | src/player.js:13-14 | one alternative of `COMMENT_SPLIT_RE` matches only when its keyword is present and the lazy gap reaches a token, and then ends where that token ends |
| Patterns.SegmentAt | src/player.js:11-17 | a match at `i` ends after `i` and within the comment |
| Patterns.SegmentAtMeaning | src/player.js:11-17 | the alternatives are tried in order: when the recap alternative matches, its match is taken; a title-card match is found when that one fails; every match is one of the two |
| Patterns.SegmentAtFinds | src/player.js:11-17 | a keyword of either alternative at `i`, followed by a time token reachable without a line terminator, makes `COMMENT_SPLIT_RE` match at `i` |
| Patterns.SplitFrom | src/player.js:11-17 | every span of the global scan from `i` starts at or after `i`, is non-empty and lies within the comment |
| Patterns.SplitFromSegments | src/player.js:11-17 | every span of the global scan is a match of `COMMENT_SPLIT_RE` at its start |
| Patterns.SplitFromLeftmost | src/player.js:11-17 | the global scan from `i` is empty exactly when no match starts at or after `i`, and otherwise its first match is the leftmost one |
| Patterns.SplitFromRestarts | src/player.js:11-17 | after each match the global scan resumes at that match's end, so the rest of the list is the scan from there |
| Patterns.Split | src/player.js:99 | `comment.match(COMMENT_SPLIT_RE)` as the list of matched texts (a definition; `SplitIsNull` and `SplitSegmentsEndWithToken` state it) |
| Patterns.SplitIsNull | src/player.js:99 | `comment.match(COMMENT_SPLIT_RE)` is `null` (the empty list) exactly when no match starts anywhere in the comment |
| Patterns.SegmentEndsWithToken | src/player.js:11-17 | every split segment contains a recap or title keyword, and its first time token ends the segment |
| Patterns.SplitSegmentsEndWithToken | src/player.js:99-100 | the same for every segment of the list `forEach` walks |
| Patterns.KeywordInLonger | src/player.js:8-9 | a keyword found in a prefix is found in the whole string |
| Patterns.NoSegmentsWhenTokensPrecedeKeywords | src/player.js:11-17 | when every time token comes before every keyword, `COMMENT_SPLIT_RE` finds nothing (`match` is `null`) |
| TimeParse.ParseDecimal | src/player.js:50 | `parseInt(t, 10)` of a digit string: its decimal value (a definition; `ParseDecimalLeadingZero` and `Decimal` state its properties) |
| TimeParse.ParseDecimalLeadingZero | src/player.js:50 | `parseInt` ignores a leading zero, so "05" reads as 5 |
| TimeParse.PadStart2 | src/player.js:53 | `padStart(2, '0')` (a definition; `PadStart2Meaning` states it) |
| TimeParse.PadStart2Meaning | src/player.js:53 | `padStart(2, '0')` prefixes zeros until the string is two characters long and leaves longer strings unchanged |
| TimeParse.Decimal | src/player.js:53 | `${minutes}` prints a number without a leading zero, reparses to it, and has one digit exactly below 10 |
| TimeParse.TwoDigitsAtMost99 | src/player.js:50 | `parseInt` of one or two digits is at most 99 |
| TimeParse.PaddedSecondsUnchanged | src/player.js:53 | `padStart(2, '0')` of the printed seconds gives back the two seconds digits of the token |
| TimeParse.TokenStamp | src/player.js:50-53 | the body of `calculateTime` after the match (a definition; `TokenStampMeaning` states it) |
| TimeParse.TokenStampMeaning | src/player.js:50-53 | a token `m:ss` becomes `60*m + s` seconds and the label `${m}:` plus the two seconds digits |
| TimeParse.CalculateTime | src/player.js:49-55 | `calculateTime`, with `None` for the throw (a definition; `CalculateTimeMeaning` states it) |
| TimeParse.CalculateTimeMeaning | src/player.js:49-55 | `calculateTime` throws exactly when no token occurs; otherwise the time is 60 times the minutes plus the seconds of the leftmost token, in 0..6039, with the normalised label |
| TimeParse.LabelIsToken | src/player.js:53 | the label is itself a `TIME_RE` token covering the whole string |
| TimeParse.LabelStamp | src/player.js:49-55 | a label built from at most 99 minutes and two second digits reads as 60 times the minutes plus the seconds, with itself as label |
| TimeParse.LabelRoundTrip | src/player.js:49-55 | `calculateTime` of its own label gives back the same time and label |
| TimeParse.TokenReparses | src/player.js:100-102 | `calculateTime` of the matched token `ts` equals `calculateTime` of the whole segment |
| TimeParse.LeadingZeroMinutesDropped | src/player.js:50-53 | "05:07" becomes 307 seconds with label "5:07" |
| TimeParse.OneDigitMinutes | src/player.js:7 | "9:05 clip" becomes 545 seconds |
| TimeParse.ThreeDigitMinutes | src/player.js:7 | in "123:45" no token starts at the first digit, so the match is "23:45", giving 1425 seconds |
| TimeParse.NoTokenThrows | src/player.js:50 | "12:3" has no token, so `calculateTime` throws |
| Attributes.NewCandidate | src/player.js:66-79 | the constructor keeps time, label and type; `skipOthers` and `showMe` are both "type is not generic" |
| Attributes.SkipText | src/player.js:125-134 | `#getSkipText`: the button text ends with the label, directly followed by a final ")" for a recap or title card |
| Attributes.SkipTextRoundTrip | src/player.js:125-134 | for a label containing no '(', the button text decodes back to its type and label |
| Attributes.SkipTextInjective | src/player.js:125-134 | for labels containing no '(', different types or labels give different button texts |
| Attributes.SkipTextCollision | src/player.js:125-134 | the '(' condition is needed: a generic record labelled "title (x)" and a title-card record labelled "x" show the same text |
| Attributes.ComputedLabelHasNoParen | src/player.js:53 | a label computed by `calculateTime` contains no '(', so the round trip applies to it |
| Attributes.LastMention | src/player.js:99-111 | the index of the last segment mentioning a kind, and no later segment mentions it |
| Attributes.FinalStampStep | src/player.js:101-110 | one loop step overwrites the stamp of each kind its segment mentions and leaves the others |
| Attributes.Classify | src/player.js:87-123 | `create` stated declaratively (a definition; `ClassifyFails`, `ClassifyOneKind`, `ClassifyBothKinds` and `ClassifyWellFormed` state its cases) |
| Attributes.ApplySegments | src/player.js:99-111 | the `forEach` loop: it fails exactly when some segment has no time token, and otherwise leaves each kind with the stamp of the last segment mentioning it, or the seed |
| Attributes.Create | src/player.js:87-123 | `create`, running `ApplySegments` over the split segments, computes exactly `Classify`, including both throws |
| Attributes.SegmentsAreTimed | src/player.js:100 | every split segment contains a time, so `partial.match(TIME_RE)[0]` never throws |
| Attributes.ClassifyFails | src/player.js:91-99 | `create` throws exactly when both keyword kinds occur and `COMMENT_SPLIT_RE` finds nothing |
| Attributes.ClassifyOneKind | src/player.js:117-121 | with at most one keyword kind, one record with the caller's time, of kind recap, title card or generic as the keywords say |
| Attributes.FinalStampMeaning | src/player.js:99-111 | a kind's final stamp is the time of the last segment mentioning it, or the caller's when none does |
| Attributes.ClassifyBothKinds | src/player.js:91-116 | with both kinds, a recap record then a title-card record, each timed by the last segment mentioning its kind |
| Attributes.SharedSegmentSetsBoth | src/player.js:101-110 | a last segment mentioning both kinds sets both records to its own time |
| Attributes.ClassifyWellFormed | src/player.js:113-121 | `create` returns one or two records, all built by the constructor |
| Examples.DualSplit | src/player.js:11-17 | "recap 1:00 then TC 5:00" splits into "recap 1:00" and "TC 5:00" |
| Examples.DualTimestampComment | src/player.js:87-116 | that comment gives a recap record at 60 s "1:00" and a title-card record at 300 s "5:00" |
| Examples.SingleKeywordKeepsCallerTime | src/player.js:117-121 | "recap at 1:30" keeps the caller's time and label and ignores its own token |
| Examples.WatchIsTitleCard | src/player.js:9 | "watch this" counts as a title card, because "tc" occurs inside "watch" |
| Examples.TokenBeforeKeywordsThrows | src/player.js:99 | "1:00 recap title" names both kinds but has no keyword-then-time match, so `create` throws |
| Reconcile.ShownOnly | src/player.js:168-170 | the filter keeps exactly the shown records, in order |
| Reconcile.ShownOnlyCounts | src/player.js:168-170 | the filter keeps every copy of a shown record and no copy of a hidden one |
| Reconcile.Visible | src/player.js:166-172 | the first `.filter` with `TRY_SKIP_GENERIC` fixed to true (a definition; `VisibleMeaning` states it) |
| Reconcile.VisibleMeaning | src/player.js:166-172 | visibility keeps order; with a record that skips others exactly the shown records stay, with their multiplicities, otherwise all stay |
| Reconcile.VisibleHidesGeneric | src/player.js:166-172 | among constructor-built records, one specific record hides every generic one and keeps every specific one |
| Reconcile.SortByTime | src/player.js:173 | the sort returns an ascending permutation of its input |
| Reconcile.SortKeepsTies | src/player.js:173 | records with equal times keep their input order (stability) |
| Reconcile.SortByTimeIsTheStableSort | src/player.js:173 | any ascending result that keeps ties in input order equals `SortByTime`, so the model is the stable sort |
| Reconcile.SortMembers | src/player.js:173 | the sort keeps the same records, and its first record has the smallest time |
| Reconcile.SortOfSorted | src/player.js:173 | sorting an ascending list changes nothing |
| Reconcile.FindIndexNear | src/player.js:175-178 | `findIndex` returns the first index within `TIME_DELTA` of the time, or -1 when none is |
| Reconcile.KeptAt | src/player.js:174-178 | the `findIndex(...) === index` test for one entry (a definition; `KeptAtMeaning` states it) |
| Reconcile.KeepFrom | src/player.js:174-178 | the proximity filter from one index on (a definition; `KeptAtMeaning` and `DedupMeaning` state it) |
| Reconcile.KeptAtMeaning | src/player.js:174-179 | an entry survives exactly when no earlier entry, surviving or not, lies within `TIME_DELTA` |
| Reconcile.Dedup | src/player.js:174-179 | the proximity filter never grows the list and always keeps the first entry |
| Reconcile.DedupMeaning | src/player.js:174-179 | the proximity filter keeps order, keeps sortedness, leaves survivors more than 5 s apart and always keeps the first entry |
| Reconcile.DedupOfSpread | src/player.js:174-179 | on a list already more than 5 s apart it keeps everything |
| Reconcile.ReconcileAll | src/player.js:166-179 | visibility filter, then stable sort, then proximity filter, in the handler's order (a definition; `ReconcileMeaning` states it) |
| Reconcile.ReconcileMeaning | src/player.js:166-179 | the chain yields an ascending list, more than 5 s apart, that is an in-order selection of the sorted visible records and starts with the earliest of them |
| Reconcile.ReconcileHidesGeneric | src/player.js:166-179 | once a specific record exists, no generic record remains |
| Reconcile.ReconcileIdempotent | src/player.js:166-179 | running the chain on its own output changes nothing |
| Reconcile.Created | src/player.js:165 | `create` applied to one payload entry (a definition; `CreateAllMeaning` states how the flat map uses it) |
| Reconcile.CreateAll | src/player.js:165 | `flatMap(create)` yields at least one record per entry when no `create` throws |
| Reconcile.CreateAllMeaning | src/player.js:165 | `flatMap(create)` fails exactly when some entry's `create` throws, and otherwise holds every record of every entry and nothing else |
| Reconcile.CreateAllSnoc | src/player.js:165 | each entry's records are appended after those of the entries before it; a throw in an earlier or in the new entry makes the whole map throw |
| Reconcile.VisibleNonEmpty | src/player.js:166-172 | visibility never empties a non-empty list of constructor-built records |
| Reconcile.Accepted | src/player.js:155-159 | the origin, type and payload gate (a definition; `HandleShowsButtons` states its effect) |
| Reconcile.Handle | src/player.js:150-199 | the message handler from the gate to the ordered records that become buttons, with a throwing `create` caught (a definition; the `Handle…` lemmas below state it) |
| Reconcile.HandleOneEntry | src/player.js:150-199 | an accepted message with one entry shows that entry's records, reconciled |
| Reconcile.HandleOrdered | src/player.js:150-199 | the buttons shown are ascending, more than 5 s apart, and each comes from some entry's `create` |
| Reconcile.HandleShowsButtons | src/player.js:150-199 | some button is shown exactly when origin, type and a non-empty payload pass the gate and no `create` throws |
| Reconcile.HandleHidesGeneric | src/player.js:150-199 | once one comment mentions a recap or title keyword, no generic button is shown |
| ReconcileExamples.CloseTimesMerge | src/player.js:174-179 | any shown records at 10, 12 and 50 s, the first skipping others, reconcile to those at 10 and 50 s |
| ReconcileExamples.ChainCollapses | src/player.js:174-179 | any records at 0, 4 and 8 s that do not skip others reconcile to the one at 0 s |
| ReconcileExamples.SpecificHidesGeneric | src/player.js:166-172 | a generic record at 5 s and a recap at 40 s reconcile to the recap alone |
| ReconcileExamples.OutOfOrderSorted | src/player.js:173 | shown records at 50 and then 10 s come out as 10 then 50 |
| ReconcileExamples.EmptyPayloadShowsNothing | src/player.js:155-159 | an empty payload or a foreign origin shows no button |
| ReconcileExamples.DualCommentButtons | src/player.js:150-199 | a message with the dual-timestamp comment shows a recap button at 60 s and a title-card button at 300 s |
| ReconcileExamples.OneThrowHidesAll | src/player.js:198-199 | one throwing comment suppresses the buttons of every other comment of the message |

## Left out

- DOM work is not modelled: creating the container and buttons, their styles, `innerHTML`, the
  click handler that seeks the video, and the removal of the container. The model stops at the
  ordered list of records whose `skipText` and `time` become buttons.
- An empty container stays in the page when `create` throws, because it was appended before the
  throw and the hide timer is never set. This is DOM state and is not modelled.
- Time and concurrency are not modelled: the `MAIN_WAIT_TIMEOUT` wait, the `HIDE_BUTTON_TIMEOUT`
  timer, the `loadeddata` listener and its `video-loaded` message, and `document.domain`.
- The extension's other scripts are not part of this model, including the page script that
  collects comments and posts `announce-skip-times`.
- The model does not contain a general regular-expression engine. Only the four fixed expressions
  are modelled, as dedicated scanners.
- A message whose `event.data` is `null` or `undefined` makes the destructuring throw before the
  gate; a string or number `event.data` destructures to `undefined` fields and the gate returns.
  The model takes `type` and `data` as already extracted, so these cases are not modelled; their
  outcome is the same, no button.
- Dafny strings are sequences of Unicode scalar values, JavaScript strings of UTF-16 code units.
  Positions differ for characters outside the Basic Multilingual Plane and lone surrogates cannot
  occur, but no matched text changes, since every pattern character is ASCII.
- Payload fields are assumed well-typed. A `time` is an integer and a `comment` a string; JavaScript
  values of other types (floats, `undefined` fields) are not modelled.
- Attributes.SkipTextRoundTrip and Attributes.SkipTextInjective hold only for labels without '('.
  A caller's label kept by the one-kind branch of `create` may contain one, and then two records
  can show the same text (`Attributes.SkipTextCollision`).
- Reconcile.SortByTime: the JavaScript comparator `a.time - b.time` is modelled as an integer
  comparison of times. `NaN` times are not modelled.
