# Learning-progress core of finalYearProject-2, in Dafny

finalYearProject-2 is a small educational web front end about children's
rights. Learners open topics from a fixed catalogue, answer a quiz, mark the
topic as completed and may upload a drawing. Several components turn the
learner's rows in the hosted `progress` table into progress figures. This
project models the parts of the front end that are sequential logic:

- **`Catalogue`** (`catalogue.dfy`): the constant tables of categories and
  topics, `getCategories`, `getTopics` and `getTopic`. Facts about the tables
  are proved: topic ids are 1..15 in order; the categories list those ids once
  each; every quiz's answer is one of its options; every drag-and-drop
  exercise pairs its items one to one onto its zones.
- **`Metrics`** (`metrics.dfy`): the arithmetic that four components repeat.
  It covers the rounded completion percentage, the engagement tier, the
  "active time" text and the statistics card values.
- **`ProgressBar`** (`progress_bar.dfy`): the merge of progress rows into one
  status per topic. The last row wins and a missing status reads as
  `not_started`. The bar's state and the percentage it reports are modelled
  as a class.
- **`StatsCard`** and **`Analytics`** (`stats_card.dfy`, `analytics.dfy`):
  the statistics record, its initial value and its update after a fetch. The
  analytics page also models its session check and auth listener.
- **`LearningModule`** (`learning_module.dfy`): the module list.
  - It maps the fetched rows and answers `isModuleCompleted`.
  - It labels each module `Review` or `Start` and navigates to a topic.
  - It also shows that, when a module has two rows, the list and the progress
    bar can disagree.
- **`LearningPage`** (`learning_page.dfy`): the topic page as a state
  machine.
  - It covers loading a topic, the quiz click and its feedback and colours,
    and the completed flag.
  - It covers image selection, upload and deletion, the storage path, and the
    Previous/Next/Go Back navigation.
  - The page is not remounted when its `topic` parameter changes
    (`src/app/learning/page.tsx` renders it without a key), so the id is a
    field that changes, and state the reload does not reset carries over.
- **`SessionCookies`** (`session_cookies.dfy`): the browser client.
  - It extracts a cookie value with the `(?:^|; )name=([^;]*)` pattern and
    restores the session when both tokens are present.
  - It models the cookie lines the auth listener writes on sign-in, token
    refresh and sign-out.
- **`Text`** (`text.dfy`) states the JavaScript built-ins these rely on over
  Dafny strings: `toString`, `parseInt`, `startsWith` and `split(sep).pop()`.
  **`Remote`** (`remote.dfy`) holds the shapes of the database answers.

Every remote answer enters the model as a parameter. This covers the rows a
query returns, whether it failed, whether an upsert, upload or insert
succeeded, and the auth events. The time stamp, the public URL and the
creation time are parameters too. Each component's state is a class: its
fields are the React state, and its methods are the handlers. Calls made to
the outside world (`onProgressUpdate`, `router.push`/`replace`,
`setSession`, `alert`, `document.cookie` assignments, upserts, uploads and
inserts) are recorded in sequence fields, oldest first.

`Math.round((c / t) * 100)` is modelled as half-up rounding of the exact
rational `100·c/t`. The thresholds `c >= t * 0.5` and `c >= t * 0.8` are
modelled as `2c >= t` and `5c >= 4t`. With the catalogue's fifteen topics,
`100·c/15` is never within rounding error of a half, so this agrees with the
floating-point computation.

## Model

| member | source | states |
|---|---|---|
| Catalogue.TypeTag | src/api/modules.ts:14-33 | the `type` tag is `quiz` exactly for quizzes and `activity` exactly for activities |
| Catalogue.PairingMap | src/api/modules.ts:29 | the pairing object's keys are exactly the items written as keys |
| Catalogue.GetCategories | src/api/modules.ts:830-834 | returns the category table unchanged |
| Catalogue.GetTopics | src/api/modules.ts:836-840 | returns the topic table unchanged |
| Catalogue.GetTopic | src/api/modules.ts:842-846 | the `find` over the topic table; what it returns for each id is stated by `Catalogue.GetTopicById` |
| Catalogue.FindTopic | src/api/modules.ts:845 | `find` gives nothing exactly when no topic has the id, otherwise the first topic in table order with that id |
| Catalogue.TopicCount | src/api/modules.ts:106-827 | the table holds fifteen topics |
| Catalogue.TopicIdsConsecutive | src/api/modules.ts:106-827 | the topic at position i has id i+1 |
| Catalogue.GetTopicById | src/api/modules.ts:842-846 | `getTopic(k)` is the k-th topic for 1 <= k <= 15 and nothing otherwise |
| Catalogue.CategoriesShape | src/api/modules.ts:52-103 | five categories of three modules, numbered 1..15 in order |
| Catalogue.CategoryModulesDistinct | src/api/modules.ts:52-103 | no module id is listed twice across the categories |
| Catalogue.CategoryModulesResolvable | src/api/modules.ts:52-103 | every module a category lists is found by `getTopic` |
| Catalogue.PairingsWellFormedBijective | src/api/modules.ts:26-30 | pairings keyed by the items, with distinct zones as targets, map the items one to one onto the zones |
| Catalogue.Topic1WellFormed | src/api/modules.ts:107-148 | topic 1 opens with a quiz whose answer is an option; its exercise pairs items to zones one to one |
| Catalogue.Topic2WellFormed | src/api/modules.ts:149-175 | topic 2 opens with a quiz whose answer is an option |
| Catalogue.Topic3WellFormed | src/api/modules.ts:176-202 | topic 3 opens with a quiz whose answer is an option |
| Catalogue.Topic4WellFormed | src/api/modules.ts:203-254 | topic 4: quiz answer among the options, pairings one to one |
| Catalogue.Topic5WellFormed | src/api/modules.ts:255-306 | topic 5: quiz answer among the options, pairings one to one |
| Catalogue.Topic6WellFormed | src/api/modules.ts:307-358 | topic 6: quiz answer among the options, pairings one to one |
| Catalogue.Topic7WellFormed | src/api/modules.ts:359-410 | topic 7: quiz answer among the options, pairings one to one |
| Catalogue.Topic8WellFormed | src/api/modules.ts:411-462 | topic 8: quiz answer among the options, pairings one to one |
| Catalogue.Topic9WellFormed | src/api/modules.ts:463-514 | topic 9: quiz answer among the options, pairings one to one |
| Catalogue.Topic10WellFormed | src/api/modules.ts:515-566 | topic 10: quiz answer among the options, pairings one to one |
| Catalogue.Topic11WellFormed | src/api/modules.ts:567-618 | topic 11: quiz answer among the options, pairings one to one |
| Catalogue.Topic12WellFormed | src/api/modules.ts:619-670 | topic 12: quiz answer among the options, pairings one to one |
| Catalogue.Topic13WellFormed | src/api/modules.ts:671-722 | topic 13: quiz answer among the options, pairings one to one |
| Catalogue.Topic14WellFormed | src/api/modules.ts:723-774 | topic 14: quiz answer among the options, pairings one to one |
| Catalogue.Topic15WellFormed | src/api/modules.ts:775-826 | topic 15: quiz answer among the options, pairings one to one |
| Catalogue.AllTopicsWellFormed | src/api/modules.ts:106-827 | every topic of the table is well formed |
| Catalogue.TopicPairingsBijective | src/api/modules.ts:21-31 | in a well-formed topic every drag-and-drop exercise is a bijection from items to zones |
| Catalogue.AllPairingsBijective | src/api/modules.ts:136-145 | every drag-and-drop exercise of the catalogue has the items as keys and maps them one to one onto the zones |
| Catalogue.AllQuizAnswersAmongOptions | src/api/modules.ts:127-130 | every quiz of the catalogue names a correct answer that is one of its options |
| Catalogue.Categories | src/api/modules.ts:52-103 | the category table (ids, names, module ids and titles); its shape is stated by `Catalogue.CategoriesShape` and the lemmas after it |
| Catalogue.Topics | src/api/modules.ts:106-827 | the topic table without its display-only prose; its facts are stated by `Catalogue.TopicCount`, `Catalogue.TopicIdsConsecutive` and `Catalogue.AllTopicsWellFormed` |
| Metrics.RoundedPercent | src/components/StatsCard.tsx:53 | the result r is the integer nearest to 100·c/t with halves rounded up (t(2r-1) <= 200c < t(2r+1)); it is at most 100 when c <= t |
| Metrics.PercentEnds | src/components/ProgressBar.tsx:47 | nothing completed gives 0% and everything completed gives 100% |
| Metrics.PercentExtremes | src/components/ProgressBar.tsx:99-100 | with fewer than 200 topics, 0% exactly when none and 100% exactly when all are completed |
| Metrics.PercentMonotone | src/components/StatsCard.tsx:53 | more completed modules never give a smaller percentage |
| Metrics.EngagementLabelInjective | src/components/StatsCard.tsx:59-65 | different tiers have different labels |
| Metrics.Tier | src/components/StatsCard.tsx:59-65 | the closed-form tier: Advanced from 80%, Intermediate from 50%, Beginner below; `Metrics.EngagementLevel` proves the source's if-chain equal to it |
| Metrics.EngagementLevel | src/components/StatsCard.tsx:59-65 | the sequential ifs give Advanced exactly from 80%, Intermediate exactly from 50% below 80%, Beginner below 50%, never `Low` |
| Metrics.TierMonotone | src/components/StatsCard.tsx:59-65 | completing more modules never lowers the tier |
| Metrics.ActiveTime | src/components/StatsCard.tsx:56 | the text is decimal digits without a leading zero, then `m`, and its number is 30 times the completed count |
| Metrics.CompletedText | src/app/analytics/page.tsx:148 | `c/t` is non-empty digits, a `/`, then the decimal text of t; it reads back as c before the slash and as t after it |
| Metrics.PercentText | src/app/analytics/page.tsx:162 | `r%` is digits without a leading zero, then `%`, and reads back as r |
| Metrics.InitialStats | src/components/StatsCard.tsx:31-37 | the initial record counts out of the given total and has tier `Low` |
| Metrics.ComputedStats | src/components/StatsCard.tsx:67-73 | a fetched record keeps the count and total, has the computed tier (never `Low`), a rate of at most 100 when c <= t, and an active time of digits then `m` reading 30·c |
| Metrics.ComputedIsNotInitial | src/components/StatsCard.tsx:31-37 | no fetched record equals the initial one |
| Metrics.CountOrZero | src/components/StatsCard.tsx:51 | the number of rows returned, and 0 for null data |
| Metrics.DisplayValues | src/app/analytics/page.tsx:144-173 | the four card values: digits, `/` and the total's text, reading back as the count; the active time; the rate as digits then `%`; the tier's label |
| Metrics.CompletedChange | src/components/StatsCard.tsx:116 | the Completed Modules card's secondary text is digits then `%`, and reads back as the rate |
| ProgressBar.RowsOf | src/components/ProgressBar.tsx:33 | null data contributes no rows |
| ProgressBar.StatusMap | src/components/ProgressBar.tsx:32-35 | the map the `forEach` builds, one `set` per row in order; `ProgressBar.LastRowWins` states its meaning |
| ProgressBar.LastRowWins | src/components/ProgressBar.tsx:32-35 | the map holds exactly the module ids that occur, each with the status of its last row |
| ProgressBar.StatusOr | src/components/ProgressBar.tsx:40 | the mapped status, or `not_started` when the key is missing or its status is empty; stated through `ProgressBar.ProgressVectorEntry` |
| ProgressBar.PerTopic | src/components/ProgressBar.tsx:38-41 | one entry per topic in table order; stated through `ProgressBar.ProgressVectorEntry` |
| ProgressBar.ProgressVector | src/components/ProgressBar.tsx:32-41 | the merge of the rows into the per-topic list; stated by `ProgressBar.ProgressVectorEntry` and `ProgressBar.UnmatchedRowsIgnored` |
| ProgressBar.ProgressVectorEntry | src/components/ProgressBar.tsx:38-41 | one entry per topic in topic order, keyed by the id's decimal text, with the last row's status; `not_started` when no row or an empty status |
| ProgressBar.KeepMatching | src/components/ProgressBar.tsx:38-41 | keeps only rows that name a topic, all drawn from the input |
| ProgressBar.UnmatchedRowsIgnored | src/components/ProgressBar.tsx:38-41 | rows whose module id names no topic do not change the per-topic list |
| ProgressBar.CompletedCount | src/components/ProgressBar.tsx:46 | the count is at most the length, 0 exactly when none and the length exactly when all are completed |
| ProgressBar.Percentage | src/components/ProgressBar.tsx:46-47 | 0 with nothing completed, at most 100, and with fewer than 200 topics 0 and 100 exactly at none and all |
| ProgressBar.ProgressBar.constructor | src/components/ProgressBar.tsx:19-20 | an empty list, loading, nothing reported |
| ProgressBar.ProgressBar.Rendered | src/components/ProgressBar.tsx:99-100 | the rendered percentage is at most 100 |
| ProgressBar.ProgressBar.FetchProgress | src/components/ProgressBar.tsx:22-57 | a failed fetch changes nothing but the loading flag; otherwise the loop's map gives the per-topic list, and the reported percentage equals the rendered one; loading ends false |
| ProgressBar.FetchedPercentageEnds | src/components/ProgressBar.tsx:46-47 | after a fetch over fifteen topics the bar shows 0% exactly when no topic and 100% exactly when every topic is completed |
| StatsCard.StatsCard.constructor | src/components/StatsCard.tsx:31-37 | the initial record: 0 of all topics, `0h`, 0%, `Low` |
| StatsCard.StatsCard.FetchLearningStats | src/components/StatsCard.tsx:39-77 | a failed fetch leaves the record; otherwise it becomes the statistics of the completed-row count over the topic count |
| Analytics.AnalyticsPage.constructor | src/app/analytics/page.tsx:29-37 | loading, no user, the initial record over all topics |
| Analytics.AnalyticsPage.FetchLearningStats | src/app/analytics/page.tsx:40-72 | divides by the total already in the state and carries it over; a failed fetch leaves the record |
| Analytics.AnalyticsPage.InitializeAuth | src/app/analytics/page.tsx:75-108 | an error or no session redirects to `/auth`; a session sets the user, fetches and starts listening; loading ends false |
| Analytics.AnalyticsPage.OnAuthStateChange | src/app/analytics/page.tsx:88-97 | sign-out redirects; an event with a session sets the user and fetches; without a session nothing changes |
| Analytics.SameAnswerSameStats | src/app/analytics/page.tsx:50-60 | the page and the card end with equal records for the same answer |
| LearningModule.ToProgress | src/components/LearningModule.tsx:35-38 | the rows map one to one and in order, and null data gives an empty list |
| LearningModule.AnyCompleted | src/components/LearningModule.tsx:112 | true exactly when some entry has the key and status `completed` |
| LearningModule.NonCompletedEntriesIrrelevant | src/components/LearningModule.tsx:112 | inserting entries that are not `completed` anywhere changes no answer |
| LearningModule.LearningModule.constructor | src/components/LearningModule.tsx:22-24 | an empty list, loading, no navigation |
| LearningModule.LearningModule.FetchModuleProgress | src/components/LearningModule.tsx:26-46 | a failed fetch leaves the list; otherwise it becomes the mapped rows |
| LearningModule.LearningModule.Mount | src/components/LearningModule.tsx:48-73 | no user id only clears loading; no signed-in user redirects to `/auth`; a user fetches; loading ends false |
| LearningModule.LearningModule.IsModuleCompleted | src/components/LearningModule.tsx:111-113 | true exactly when some entry has the id's decimal text and status `completed` |
| LearningModule.LearningModule.ButtonLabel | src/components/LearningModule.tsx:199 | `Review` exactly for a completed module, `Start` otherwise |
| LearningModule.LearningModule.ContinueModule | src/components/LearningModule.tsx:107-109 | pushes the topic page address, whose parameter reads back as the module id |
| LearningModule.CompletionViewsAgree | src/components/LearningModule.tsx:111-113 | when no module has two rows, the module list and the progress bar agree on every topic's completion |
| LearningModule.CompletionViewsDisagreeOnDuplicates | src/components/LearningModule.tsx:112 | with rows `completed` then `in_progress` for one module, the list says completed and the bar says in progress |
| LearningPage.TopicIdFromQuery | src/components/LearningPage.tsx:23 | a missing or empty `topic` parameter means topic 1 |
| LearningPage.PageUrl | src/components/LearningPage.tsx:564 | the address starts with `/learning?topic=` and its parameter reads back as the id |
| LearningPage.StoragePath | src/components/LearningPage.tsx:147-149 | `drawings/<user>/<now>.<extension>`; stated by `LearningPage.StoragePathParts` and `LearningPage.StoragePathExtension` |
| LearningPage.StoragePathParts | src/components/LearningPage.tsx:147-149 | the path lies in `drawings/<user>/`, the text after the folder reads back as the time stamp, and the path keeps the file's extension |
| LearningPage.StoragePathExtension | src/components/LearningPage.tsx:147 | the extension is the text after the last `.`, or the whole name without a `.` |
| LearningPage.QuizFeedback | src/components/LearningPage.tsx:320-325 | no feedback before the reveal; `Correct` exactly when the selected answer is the correct one |
| LearningPage.OptionFilled | src/components/LearningPage.tsx:301 | an option is filled exactly when it is the selected one |
| LearningPage.OptionColour | src/components/LearningPage.tsx:306-314 | the button colour; stated by `LearningPage.ClickedColourMatchesFeedback` |
| LearningPage.ClickedColourMatchesFeedback | src/components/LearningPage.tsx:306-314 | nothing is coloured before the reveal; after it the correct option is green, the clicked option is green exactly with `Correct` and red exactly otherwise, and every other option stays plain |
| LearningPage.LearningPage.constructor | src/components/LearningPage.tsx:22-32 | no topic, loading, not completed, no answer or image, nothing recorded |
| LearningPage.LearningPage.LoadTopic | src/components/LearningPage.tsx:36-84 | resets the quiz, shows the topic `getTopic` finds; any error other than `PGRST116` stops; otherwise the flag records whether a completed row exists, and a successful count reports its percentage over all topics |
| LearningPage.LearningPage.ChangeTopic | src/components/LearningPage.tsx:23-87 | a new `topic` parameter changes the id and reruns `loadTopic` on the same page: the quiz resets, the topic and flag follow the new id, and on a failed completion query the old flag and any pending drawing carry over |
| LearningPage.LearningPage.MarkAsCompleted | src/components/LearningPage.tsx:89-127 | sends the upsert; only a successful one sets the flag, and then the percentage is reported unless the count fails |
| LearningPage.LearningPage.PressMark | src/components/LearningPage.tsx:549-551 | a press while completed does nothing; otherwise it sends the upsert, sets the flag exactly on success, and then reports the percentage unless the count fails |
| LearningPage.LearningPage.ClickOption | src/components/LearningPage.tsx:302-305 | selects the option and reveals the answer |
| LearningPage.LearningPage.SelectImage | src/components/LearningPage.tsx:129-141 | only a file whose type starts with `image/` becomes the selection; anything else raises the alert and keeps the state |
| LearningPage.LearningPage.PreviewLoaded | src/components/LearningPage.tsx:134-136 | the reader's data URL becomes the preview |
| LearningPage.LearningPage.UploadedRow | src/components/LearningPage.tsx:164-170 | the drawings row names the user, the topic id's text, the storage path and the public URL |
| LearningPage.LearningPage.UploadImage | src/components/LearningPage.tsx:143-182 | does nothing without a selection; otherwise uploads to the storage path, inserts the row after a successful upload, and clears the selection only after both succeed |
| LearningPage.LearningPage.DeleteImage | src/components/LearningPage.tsx:184-187 | clears the selection and the preview |
| LearningPage.LearningPage.PressGoBack | src/components/LearningPage.tsx:201-227 | goes to `/learning` when the topic was not found, to `/dashboard` from a shown topic |
| LearningPage.LearningPage.ShownTopicInRange | src/components/LearningPage.tsx:563-572 | a shown topic's id is in 1..15, so enabled Previous and Next targets stay in 1..15 |
| LearningPage.LearningPage.PressPrevious | src/components/LearningPage.tsx:561-568 | disabled on topic 1; otherwise pushes the page of topic id-1 |
| LearningPage.LearningPage.PressNext | src/components/LearningPage.tsx:569-576 | disabled on the last topic; otherwise pushes the page of topic id+1 |
| SessionCookies.ValueRun | src/lib/supabaseClient.ts:11 | the capture is the longest prefix without `;`: it holds no `;` and ends at the end or before a `;` |
| SessionCookies.ValueRunOf | src/lib/supabaseClient.ts:11 | a value without `;` followed by the end or a `;` is captured whole |
| SessionCookies.MatchIndex | src/lib/supabaseClient.ts:11 | the first position where `name=` starts the string or follows `; `, or none |
| SessionCookies.CookieValue | src/lib/supabaseClient.ts:11-12 | the extracted value never contains `;` |
| SessionCookies.FirstMatchDecides | src/lib/supabaseClient.ts:11-12 | the leftmost possible match decides the value |
| SessionCookies.FrontRoundTrip | src/lib/supabaseClient.ts:11 | `name=v` at the front of the string, v without `;`, reads back as v |
| SessionCookies.SecondRoundTrip | src/lib/supabaseClient.ts:12 | a cookie after `; ` reads back whole when nothing before it can match |
| SessionCookies.LongerNameNotMatched | src/lib/supabaseClient.ts:11 | `xmy-access-token=abc` yields no access token |
| SessionCookies.RestoredTokens | src/lib/supabaseClient.ts:14-19 | the session is restored exactly when both cookies hold a non-empty value, and with those values |
| SessionCookies.MaxAge | src/lib/supabaseClient.ts:30 | a hundred years of seconds is 3153600000 |
| SessionCookies.ExpiredCookie | src/lib/supabaseClient.ts:25-27 | the sign-out line with an empty value and the epoch as expiry; `SessionCookies.ExpiredPair` states its pair |
| SessionCookies.LastingCookie | src/lib/supabaseClient.ts:30-32 | the sign-in line with the token and a hundred-year max-age; `SessionCookies.LastingPair` states its pair |
| SessionCookies.PairOf | src/lib/supabaseClient.ts:26-32 | a cookie line's name-value pair holds no `;` |
| SessionCookies.LastingPair | src/lib/supabaseClient.ts:31-32 | a sign-in line's pair is `name=token` |
| SessionCookies.ExpiredPair | src/lib/supabaseClient.ts:26-27 | a sign-out line's pair is `name=` with an empty value |
| SessionCookies.AccessTokenRead | src/lib/supabaseClient.ts:11 | the access token reads back from the two-cookie string |
| SessionCookies.RefreshTokenRead | src/lib/supabaseClient.ts:12 | the refresh token reads back from the two-cookie string |
| SessionCookies.TokenPairsRestored | src/lib/supabaseClient.ts:11-19 | the two-cookie string restores exactly the tokens it holds |
| SessionCookies.WrittenTokensRestored | src/lib/supabaseClient.ts:28-32 | the pairs written on sign-in restore the signed-in tokens |
| SessionCookies.ExpiredTokensNotRestored | src/lib/supabaseClient.ts:23-27 | the pairs written on sign-out restore nothing |
| SessionCookies.NoCookiesNotRestored | src/lib/supabaseClient.ts:14 | an empty cookie string restores nothing |
| SessionCookies.BrowserSession.constructor | src/lib/supabaseClient.ts:9-19 | on load, `setSession` is called once with the restored tokens, or not at all |
| SessionCookies.BrowserSession.OnAuthStateChange | src/lib/supabaseClient.ts:22-34 | sign-out writes both expired lines; sign-in and refresh write both lasting lines; other events write nothing |
| Text.Decimal | src/components/StatsCard.tsx:56 | the decimal text is non-empty digits without a leading zero |
| Text.DecimalRoundTrip | src/components/StatsCard.tsx:56 | the digits read back as the number |
| Text.DecimalInjective | src/components/ProgressBar.tsx:39 | different ids have different decimal texts |
| Text.IntToString | src/components/ProgressBar.tsx:39 | `toString` is the decimal text, with a minus sign exactly for negatives |
| Text.ParseInt | src/components/LearningPage.tsx:23 | a number exactly when the text starts with a digit or with a sign and a digit |
| Text.ParseIntRoundTrip | src/components/LearningPage.tsx:23 | `parseInt` reads back what `toString` wrote, even when non-digits follow |
| Text.AfterLast | src/components/LearningPage.tsx:147 | the last segment holds no separator and is no longer than the text |
| Text.AfterLastSuffix | src/components/LearningPage.tsx:147 | the last segment is a suffix, preceded by the separator unless it is the whole text |
| Text.AfterLastOfJoin | src/components/LearningPage.tsx:147 | the segment after the last separator is recovered from `base + sep + last` |
| Text.AfterLastWithoutSeparator | src/components/LearningPage.tsx:147 | a name without the separator is its own last segment |

## Left out

- The prose fields of the catalogue are not part of this model: descriptions, video and Spline URLs, theory sections, quiz questions and activity descriptions. They are only displayed. Categories keep their ids, names and module ids and titles.
- Remote calls (auth, table select/upsert/insert, storage upload, `getPublicUrl`) are parameters of the methods. The database is not modelled.
- Asynchrony is not modelled. This covers the simulated API delay, `await` ordering, the realtime subscriptions that re-run the fetches, and the `moduleProgressUpdate` window events that the learning page dispatches and the other components listen to.
- Metrics.RoundedPercent: exact half-up rounding of 100·c/t instead of IEEE-754 `Math.round`. For t = 15 no value lies within rounding error of a half, so the results coincide.
- Metrics.EngagementLevel: the thresholds `t * 0.5` and `t * 0.8` are compared exactly (`2c >= t`, `5c >= 4t`) rather than in floating point.
- The `status` column of a progress row (`ProgressRow` in `remote.dfy`) is a non-null string. A null status would fall back to `not_started` like an empty one, but the row type cannot represent it.
- Text.ParseInt: leading white space and radix prefixes are not modelled (`parseInt("0x1A")` is 26 in JavaScript, `Some(0)` here). `None` stands for NaN.
- LearningPage.LearningPage.constructor: the topic id is an integer. A NaN id from a non-numeric `topic` parameter is not modelled; with one, `getTopic` finds nothing and the page shows "Topic not found".
- LearningPage.LearningPage.ChangeTopic: the render between the new `topic` parameter and the effect's reload, in which the previous topic is still shown under the new id, is not modelled; the change and the reload form one step.
- LearningPage.LearningPage.PreviewLoaded: `FileReader` is not modelled. Its result arrives as a parameter, and a selection followed by a delete before the reader finishes is not excluded.
- LearningPage.LearningPage.LoadTopic: when `.single()` finds several completed rows it errors, and that error's code is a parameter like any other. The `activeTab` state is only presentation and is left out.
- `alert` texts, button captions other than Review/Start, Tailwind classes, animations and the StatsCard and analytics cards' constant secondary texts, such as `+0.5h per module`, `Overall completion`, `Based on progress`, `+5%` and `↑`, are display-only and left out.
- `Date.now()` and `new Date().toISOString()` are parameters (`now`, `createdAt`). The upsert's `completed_at` field is not recorded.
- `onProgressUpdate` is optional in the source. The model records every value it would receive.
- SessionCookies.BrowserSession.OnAuthStateChange: a session whose token fields are missing is not modelled. Only a missing session, which the template renders as `undefined`, is.
- How the browser stores, replaces and expires cookies assigned to `document.cookie` (section 5.3 of RFC 6265) is not modelled. The model reads each written line as its name-value pair (section 5.2 of RFC 6265) and states the round trip over the resulting cookie string.
- The analytics page's second effect, which subscribes to progress changes once a user is known, only re-runs the fetch. It is left out with the other subscriptions.
