# PageOne core, modelled in Dafny

PageOne is a journaling web application. A user writes short notes during
the day and answers interview questions. A server route then asks a language
model to merge the day's material into one diary page. Another route extracts
people, places, goals and values from recent notes into a "Shell" of identity
items, which a page lists by category. A middleware guards every page behind
sign-in.

This project models five pieces of that application and proves what they
promise:

- **Interview wizard** (`Interview`): the class `InterviewPage` holds the
  page's React state. Its methods are the base and AI blocks, the
  answer-by-answer walk through a block, the per-block clear buttons, and the
  final sync into `interview_responses` rows, each labelled 'base' or 'ai'.
- **Diary page route** (`GenerateDiaryPage`): its `POST` runs the guard, the
  context text sent to the model, the checks on the reply, and the upsert
  keyed on (user, date). It then deletes the rows that match the same
  filter at the time the delete runs.
- **Middleware** (`Middleware`): the redirect decision between `/login` and
  the rest, the `config.matcher` path pattern, and the cookie adapter the auth
  client writes through.
- **Extraction route** (`Extract`): its `POST` runs the profile opt-out gate
  and the fifteen-entry window, newest first. It joins the entries into the
  prompt text and maps the extracted items to `shell_items` rows.
- **Shell page** (`Shell`): the class `ShellPage` holds the category list
  (four defaults, then the user's own) and the count with its legacy "Values"
  alias. It also covers creating a category.

Shared modules:

- `Store`: the hosted database, as in-memory tables in one class `Database`.
- `JsString`: the JavaScript string builtins the code relies on: the `\s`
  class, `trim`, `startsWith`, `endsWith`, `split(/\s+/)` and `join`.
- `IsoDate`: the ECMAScript date arithmetic behind `toISOString()`, and the
  reading of a `YYYY-MM-DD` literal back into a date.
- `Wrappers`: `Option`.

External services have no model. The language model's parsed reply, the
outcome of each database write, the signed-in user and the clock are all
parameters of the methods that use them.

## Model

| member | source | states |
|---|---|---|
| Interview.Blank | app/interview/page.tsx:34 | `new Array(n).fill("")` has length n and every slot is the empty text |
| Interview.Pairs | app/interview/page.tsx:70 | the pairing has one (question i, answer i) pair per question, in order |
| Interview.PairsSplitBack | app/interview/page.tsx:70 | pairing loses nothing: the questions come back unchanged, and so do the answers given to them |
| Interview.KindFor | app/interview/page.tsx:87 | a row is 'base' exactly when its question is asked in the base block |
| Interview.RowsFor | app/interview/page.tsx:83-88 | one row per pair, with the user, the question, the answer and the kind of that pair |
| Interview.ResponseRows | app/interview/page.tsx:83-88 | base rows come first and are all 'base'; an AI row is 'base' exactly when a base question has the same text |
| Interview.InterviewPage.constructor | app/interview/page.tsx:17-25 | the wizard starts on the menu with no active block, empty blocks and no questions |
| Interview.InterviewPage.StartBase | app/interview/page.tsx:30-36 | the three fixed questions, as many empty answers, index 0 and the asking step; collected blocks kept |
| Interview.InterviewPage.RequestAi | app/interview/page.tsx:30-38 | the AI block becomes active and the request is pending; nothing else changes |
| Interview.InterviewPage.ReceiveAi | app/interview/page.tsx:40-58 | the pending flag clears; a non-empty question list starts the wizard on those questions with blank answers, whichever block is active by then; otherwise step, index, questions and answers are unchanged |
| Interview.InterviewPage.StartAi | app/interview/page.tsx:30-59 | the request followed by its reply with nothing in between: the AI block is active and no request is pending; the wizard starts only on a non-empty question list, otherwise step, index, questions and answers are unchanged |
| Interview.InterviewPage.ReceiveAiChecked | app/interview/page.tsx:40-50 | corrected reply step: the questions are installed only while the AI block is still the active one |
| Interview.InterviewPage.ShowSync | app/interview/page.tsx:210 | the sync button is hidden only when both blocks are empty |
| Interview.InterviewPage.EditAnswer | app/interview/page.tsx:120-124 | typing replaces the current slot of the answers and nothing else |
| Interview.InterviewPage.HandleNext | app/interview/page.tsx:62-75 | the answer goes into the current slot only; before the last question the index advances by one and stays in range; on the last one the pairs go into the active block's slot alone and the menu returns |
| Interview.InterviewPage.ClearBase | app/interview/page.tsx:155 | empties the base block only; the sync button then shows exactly when the AI block holds answers |
| Interview.InterviewPage.ClearAi | app/interview/page.tsx:179 | empties the AI block only; the sync button then shows exactly when the base block holds answers |
| Interview.InterviewPage.Finalize | app/interview/page.tsx:77-99 | with no user nothing is written; otherwise the rows of both blocks are appended when the insert succeeds, and the page leaves exactly then |
| Interview.LateAiReplyFillsBase | app/interview/page.tsx:40-72 | the base block started while AI questions load is given the AI's questions; its answers are stored as the base block and synced as 'base' |
| Interview.LateAiReplyIgnoredWhenChecked | app/interview/page.tsx:40-72 | with the corrected reply step the base block keeps its three fixed questions |
| GenerateDiaryPage.Status | app/api/generate-diary-page/route.ts:15-93 | 200 for a saved page, 401 unauthorized, 400 for no data, 500 for every thrown error |
| GenerateDiaryPage.QaLine | app/api/generate-diary-page/route.ts:38 | the line is as long as the question, the answer and the seven characters of `Q: ` and ` A: ` |
| GenerateDiaryPage.QaLineParts | app/api/generate-diary-page/route.ts:38 | the question stands after `Q: ` and the answer after ` A: `, which ends the line |
| GenerateDiaryPage.QaLines | app/api/generate-diary-page/route.ts:38 | one `Q: … A: …` line per interview response, in order |
| GenerateDiaryPage.SectionsStartWithFirstLabel | app/api/generate-diary-page/route.ts:36-37 | the context text begins with its first label |
| GenerateDiaryPage.SectionsPlaceFirst | app/api/generate-diary-page/route.ts:37 | each line of the first section stands after the first label at its offset in the joined lines |
| GenerateDiaryPage.SectionsSecondLabel | app/api/generate-diary-page/route.ts:38 | the second label ends where the second section's lines begin |
| GenerateDiaryPage.SectionsPlaceSecond | app/api/generate-diary-page/route.ts:38 | each line of the second section stands at its offset after the second label |
| GenerateDiaryPage.Context | app/api/generate-diary-page/route.ts:36-39 | the context template; its layout is stated by `ContextPlacesNote` and `ContextPlacesAnswer` below |
| GenerateDiaryPage.ContextPlacesNote | app/api/generate-diary-page/route.ts:37 | the context starts with the notes label and every note's content stands under it, one line break apart |
| GenerateDiaryPage.ContextPlacesAnswer | app/api/generate-diary-page/route.ts:38 | the answers label follows the notes and every response's `Q: … A: …` line stands under it |
| GenerateDiaryPage.PageFor | app/api/generate-diary-page/route.ts:62-68 | the upserted object is keyed on (user, date), carries the title field (sent or left out) and the content as given, and its word count is one more than the whitespace runs of the content |
| GenerateDiaryPage.Post | app/api/generate-diary-page/route.ts:14-93 | one clock reading: the page's date is the `YYYY-MM-DD` text of its UTC day and the filter bound that day's UTC midnight; 401 without a user; 400 for a year without four digits or without rows since the bound; otherwise the prompt is the context of the rows read; a missing reply, missing content or failed save answers 500 and leaves the pages unchanged and the tables as the late writers left them; a save upserts the page, returns the stored row under that date, and deletes every row matching the filter when the delete runs, those written after the select included |
| Store.Upsert | app/api/generate-diary-page/route.ts:60-68 | the stored row under the key has the written content and word count; a sent title (null included) replaces the stored one, a left-out title keeps it, or is null for a new key; every other key and page is kept, and at most one page per (user, date) remains |
| Store.UpsertSameKeyReplaces | app/api/generate-diary-page/route.ts:60-68 | a second run for the same user and date whose reply has a `title` key replaces the first page entirely |
| Store.UpsertOmittedTitleKeepsFirst | app/api/generate-diary-page/route.ts:60-68 | a second run whose reply lacks `title` replaces the content and keeps the first run's title |
| Store.Since | app/api/generate-diary-page/route.ts:27-28 | every row the select returns is the user's with `created_at` at or after the bound |
| Store.SinceKeepsMatching | app/api/generate-diary-page/route.ts:27-28 | the select returns every matching row |
| Store.Except | app/api/generate-diary-page/route.ts:76-87 | no row left after the delete matches its filter |
| Store.ExceptKeepsOthers | app/api/generate-diary-page/route.ts:76-87 | the delete keeps every other row |
| Store.SinceAndExceptPartition | app/api/generate-diary-page/route.ts:76-87 | on one and the same table, what the delete removes is exactly what the select returns: together they give back the table |
| Store.LateRowIsLost | app/api/generate-diary-page/route.ts:27-87 | a matching row written after the select was not read, and the delete removes it all the same |
| Store.Consume | app/api/generate-diary-page/route.ts:76-87 | corrected delete: the rows left are the table minus exactly the rows that were read, each as often as read |
| Store.ConsumeKeepsLateRows | app/api/generate-diary-page/route.ts:76-87 | deleting what was read keeps every row written between the select and the delete |
| Store.OwnedBy | app/api/extract/route.ts:47 | every row returned belongs to the user |
| Store.OwnedByKeepsOwned | app/api/extract/route.ts:47 | the filter drops none of the user's rows |
| Store.Contents | app/api/extract/route.ts:55 | one content per entry, in order |
| Store.DatePrefix | app/api/generate-diary-page/route.ts:23 | the date is the part of the ISO text before its first 'T', or all of it when there is none |
| Store.TodayIsUtcDate | app/api/generate-diary-page/route.ts:23 | `toISOString().split('T')[0]` is the `YYYY-MM-DD` text of the UTC date of the time value |
| IsoDate.FromDayNumber | app/api/generate-diary-page/route.ts:23 | the date of a day number is a valid date with that day number |
| IsoDate.FromDayNumberOfDate | app/api/generate-diary-page/route.ts:23 | every valid date is the date of its own day number: day numbers and dates correspond one to one |
| IsoDate.NewYear2025 | app/api/generate-diary-page/route.ts:23 | 1 January 2025 is day 20089 since the epoch, both ways |
| IsoDate.NextYear | app/api/generate-diary-page/route.ts:23 | the days before year y+1 are those before y plus the length of y |
| IsoDate.UtcDate | app/api/generate-diary-page/route.ts:23 | the UTC date of a time value is valid, and the time lies within that date's day |
| IsoDate.Pad | app/api/generate-diary-page/route.ts:23 | exactly w digits, whose value is the number whenever it fits |
| IsoDate.YearText | app/api/generate-diary-page/route.ts:23 | four digits holding the year for years 0 to 9999, otherwise a sign and six digits |
| IsoDate.DateText | app/api/generate-diary-page/route.ts:23 | the date text has no 'T' and is ten characters long for a four-digit year |
| IsoDate.TimeText | app/api/generate-diary-page/route.ts:23 | `HH:mm:ss.sss`: twelve characters with its separators in place |
| IsoDate.ParseDate | app/api/generate-diary-page/route.ts:27-28 | a date read from a literal is a valid date |
| IsoDate.ParseDateText | app/api/generate-diary-page/route.ts:23-28 | the date text of a date with a four-digit year reads back as that date |
| Store.Database.UpsertPage | app/api/generate-diary-page/route.ts:60-70 | `daily_pages` becomes the upsert of the page; other tables unchanged; one page per key kept |
| Store.Database.DeleteEntriesSince | app/api/generate-diary-page/route.ts:82-86 | `entries` loses exactly the rows matching the filter; other tables unchanged |
| Store.Database.DeleteResponsesSince | app/api/generate-diary-page/route.ts:77-81 | `interview_responses` loses exactly the rows matching the filter; other tables unchanged |
| Store.Database.InsertEntries | app/page.tsx:98-99 | the rows are appended to `entries`; other tables unchanged |
| Store.Database.InsertResponses | app/interview/page.tsx:90 | the rows are appended to `interview_responses`; other tables unchanged |
| Store.Database.InsertShellItems | app/api/extract/route.ts:81 | the rows are appended to `shell_items`; other tables unchanged |
| Store.Database.InsertCategory | app/shell/page.tsx:59-66 | the row is appended to `shell_categories`; other tables unchanged |
| Extract.Status | app/api/extract/route.ts:28-86 | 200 for no entries and for a count, 401, 403 and 500 each for its own case |
| Extract.InsertByTime | app/api/extract/route.ts:48 | inserting into a newest-first sequence keeps it newest first and adds exactly that row |
| Extract.ByNewest | app/api/extract/route.ts:48 | the ordered rows are the same rows, newest first |
| Extract.NewestFirstPairwise | app/api/extract/route.ts:48 | in a newest-first sequence no row is newer than any row before it |
| Extract.Window | app/api/extract/route.ts:44-49 | the window holds min(15, the user's entry count) of the user's entries, newest first |
| Extract.WindowHoldsTheNewest | app/api/extract/route.ts:44-49 | no entry of the user left out of the window is newer than any entry in it |
| Extract.ExtractionDisabled | app/api/extract/route.ts:37 | extraction is off only for a stored profile whose flag is false; a missing profile or any other flag leaves it on |
| Extract.EntriesText | app/api/extract/route.ts:55 | no entries give the empty text, and a single entry gives its content |
| Extract.EntriesTextPlacesEntry | app/api/extract/route.ts:55 | each entry's content stands in the joined text at its offset |
| Extract.EntriesTextSeparates | app/api/extract/route.ts:55 | the separator `\n---\n` follows every entry's content but the last |
| Extract.RowsFor | app/api/extract/route.ts:74-79 | one row per extracted item, carrying its category, title and description and the user's id |
| Extract.Post | app/api/extract/route.ts:27-87 | 401 without a user; 403 exactly when the profile flag is stored false; no entries gives the no-entries message with no call; a missing reply or `items` answers 500; otherwise the count is the number of items, and rows are inserted only for a non-empty list |
| Middleware.Decide | src/middleware.ts:48-61 | signed out off the login page goes to `/login`; signed in on the login page goes to `/`; every other request passes |
| Middleware.IsAuthPage | src/middleware.ts:48 | a login page's path starts with `/login` |
| Middleware.LoginPrefixIsAuthPage | src/middleware.ts:48 | every path that extends `/login` counts as the login page |
| Middleware.RedirectTargetPassesThrough | src/middleware.ts:51-59 | the target of a redirect lets the same user through, so redirects never chain |
| Middleware.MatcherRuns | src/middleware.ts:64-68 | the middleware runs only on a path that starts with '/' and carries no line terminator |
| Middleware.Route | src/middleware.ts:4-68 | a request the matcher skips passes; otherwise the redirect decision applies |
| Middleware.RunsOnPages | src/middleware.ts:67 | it runs on every page path without a dot that does not start with `_next/` or `favicon` |
| Middleware.SkipsBuildAssets | src/middleware.ts:67 | it never runs under `/_next/static` or `/_next/image` |
| Middleware.SkipsFaviconLike | src/middleware.ts:67 | it skips `/favicon.ico` and every path that differs from it only in the unescaped dot |
| Middleware.SkipsImages | src/middleware.ts:67 | it skips every file name ending in `.svg`, `.png`, `.jpg`, `.jpeg`, `.gif` or `.webp`, wherever it is |
| Middleware.SignedOutVisitor | src/middleware.ts:51-67 | a signed-out visitor still receives images and is sent to the login page from a page |
| Middleware.CookieAdapter.constructor | src/middleware.ts:6-10 | the response starts with no cookies of its own, the request with the incoming ones |
| Middleware.CookieAdapter.Get | src/middleware.ts:18-20 | the request's cookie value, or none when the request has no such cookie |
| Middleware.CookieAdapter.Set | src/middleware.ts:21-30 | the request gets the cookie; the response is replaced by one that sets only this cookie |
| Middleware.CookieAdapter.Remove | src/middleware.ts:31-39 | as `set` with the empty value |
| Middleware.CookieAdapter.SetKeeping | src/middleware.ts:21-30 | corrected `set`: request and response both get the cookie, and earlier response cookies are kept |
| Middleware.CookieAdapter.RemoveKeeping | src/middleware.ts:31-39 | corrected `remove` |
| Middleware.AsWrittenDropsEarlierCookie | src/middleware.ts:21-30 | after two writes the response no longer sets the first cookie, while the request still has it |
| Middleware.KeepingKeepsEveryCookie | src/middleware.ts:21-30 | with the corrected adapter both cookies reach the response with their values |
| Shell.IconFor | app/shell/page.tsx:139 | each default name draws its own icon; every other name, "Box" included, draws Box |
| Shell.CategoriesOf | app/shell/page.tsx:39 | every category returned belongs to the user |
| Shell.CategoriesOfIsSubMultiset | app/shell/page.tsx:39 | the filter only drops rows |
| Shell.CategoriesOfKeepsOwned | app/shell/page.tsx:39 | the filter drops none of the user's categories |
| Shell.Cards | app/shell/page.tsx:51 | one card per row, with that row's name, icon and description |
| Shell.CategoryList | app/shell/page.tsx:42-51 | the four defaults in their fixed order, then the custom categories |
| Shell.ItemsOf | app/shell/page.tsx:38 | every item returned belongs to the user |
| Shell.ItemsOfIsSubMultiset | app/shell/page.tsx:38 | the filter only drops rows |
| Shell.ItemsOfKeepsOwned | app/shell/page.tsx:38 | the filter drops none of the user's items |
| Shell.InCategory | app/shell/page.tsx:77 | an item belongs to a name exactly when it carries it, and to "Core Values" also when it carries "Values" |
| Shell.Listed | app/shell/page.tsx:100 | the detail list holds only items of the category (legacy alias included), and each of them exactly as often as in the items; the others not at all |
| Shell.GetCount | app/shell/page.tsx:76-78 | the count is the length of the detail list and never exceeds the number of items |
| Shell.CoreValuesCountsLegacy | app/shell/page.tsx:77 | "Core Values" counts its own items plus those still named "Values" |
| Shell.OtherNamesCountExactly | app/shell/page.tsx:76-78 | every other name counts exactly the items that carry it |
| Shell.ShellPage.constructor | app/shell/page.tsx:19-27 | no items and no categories, loading, the modal closed and the form empty |
| Shell.ShellPage.DetailCount | app/shell/page.tsx:95-100 | the detail header's count equals the length of the list below it |
| Shell.ShellPage.FetchData | app/shell/page.tsx:33-53 | with a user: the user's items (kept when that read failed) and the defaults followed by the user's categories (none when that read failed), loading ends; without a user nothing changes |
| Shell.ShellPage.CreateCategory | app/shell/page.tsx:55-74 | a name whose `trim()` is empty, or a failed insert, changes nothing; otherwise one row with the Box icon is appended, the form clears, the modal closes and the data is fetched again |
| Shell.CreatedCategoryIsListed | app/shell/page.tsx:61-66 | a category created by a signed-in user is listed after the defaults, and it draws Box |
| JsString.Trim | app/shell/page.tsx:56 | `trim()` yields the empty text exactly when every character is whitespace; otherwise it starts and ends with a non-space |
| JsString.TrimKeepsCore | app/shell/page.tsx:56 | `trim()` removes a leading and a trailing whitespace run and keeps what lies between |
| JsString.SplitOnWhitespace | app/api/generate-diary-page/route.ts:67 | `split(/\s+/)` always yields at least one piece |
| JsString.WordCount | app/api/generate-diary-page/route.ts:67 | every text counts at least one word |
| JsString.WordCountIsRunsPlusOne | app/api/generate-diary-page/route.ts:67 | the word count is one more than the number of maximal whitespace runs |
| JsString.PiecesHaveNoSpace | app/api/generate-diary-page/route.ts:67 | no piece of the split contains whitespace |
| JsString.PiecesKeepEveryOtherChar | app/api/generate-diary-page/route.ts:67 | the pieces put back together are exactly the non-whitespace characters |
| JsString.WordCountOfSample | app/api/generate-diary-page/route.ts:67 | "Hello world.\nA new line." counts 5 |
| JsString.WordCountOfBlank | app/api/generate-diary-page/route.ts:67 | the empty text counts 1 and a lone space 2 |
| JsString.Join | app/api/generate-diary-page/route.ts:37 | joining no parts gives the empty text; otherwise the text starts with the first part |
| JsString.JoinHoldsPart | app/api/generate-diary-page/route.ts:37 | every part stands at its offset in the joined text, and the last part ends it |
| JsString.JoinSeparatorFollows | app/api/extract/route.ts:55 | a separator follows every part but the last |
| JsString.PartOffsetNext | app/api/generate-diary-page/route.ts:37 | consecutive parts are one part and one separator apart |

## Left out

- Rendering, styling, animations and navigation are not modelled. `window.location.href`, `alert` and the `isSyncing` and loading-spinner flags are out too; `loadingAi` is kept, since it disables the AI button. `Finalize` returns whether the page would navigate home.
- The auth client, the language model and the clock are foreign calls. The signed-in user, the parsed model reply, each write's success and the current time are parameters.
- The prompt wording, the model names and `JSON.parse` are out. A reply that fails to parse is `None`. In the diary route a reply whose `content` is null parses `'{}'`, the empty object: `Some` with the title left out and no content. In the extract route a null `content` parses `'{"items": []}'`: `Some` with an empty item list, which answers a count of 0 and inserts nothing.
- `Promise.all` is modelled as its reads, or its deletes, one after the other. They touch separate tables.
- Store.Since: keeps the rows in table order. The diary route's two selects (route.ts:27-28) carry no `order`, so the database may return notes and answers, and so place them in the context, in any order; that order is not modelled.
- Failed database reads are not modelled: every select returns its rows. In the diary route a failed read would put the text "undefined" into the context. The errors of the two deletes, which the code ignores, are not modelled either.
- Cookie options are kept as given. The code spreads `options` after `name` and `value`, so options carrying those keys would override them; that is not modelled.
- Middleware.MatcherRuns: states only what every matched path has. The exact pattern is its body; the lemmas beside it prove the cases: page paths without a dot run it, and `_next/static`, `_next/image`, the favicon pattern and the six image extensions (svg, png, jpg, jpeg, gif, webp) skip it. How Next.js compiles the matcher with path-to-regexp, and its handling of locales and base paths, are not modelled. The pattern is read as a JavaScript regular expression over the whole pathname.
- Redirect responses carry none of the cookies refreshed on `response`. The model does not treat this as a separate finding.
- Extract.Window: does not fix the order among entries with the same `created_at`. The database's tie order is not specified, so the model states "newest first" and who is in the window, not which of two equal rows comes first.
- Characters are Unicode scalar values. JavaScript strings are UTF-16, so the two can differ on surrogate pairs in `trim`, `split` and `startsWith`. Every character involved here lies in the Basic Multilingual Plane.
- `iconMap` is a plain object. Names such as "constructor" would pick up prototype members; `Shell.IconFor` treats every name outside the five keys as Box.
- `app/api/interview-questions/route.ts`, `app/page.tsx` (beyond its insert into `entries`), `app/diary/page.tsx`, the settings and login pages and the components are not part of this model. The question service's answer is an input to `ReceiveAi`.
- Interview.InterviewPage.ReceiveAi: models the reply's `questions` as a list or absent. A truthy non-array value, such as a string, is not modelled.
- The diary route reads and then deletes both `entries` and `interview_responses` with the same `created_at >= today` filter, a lower bound only. The comment at route.ts:74 agrees that questions, answers and notes are all removed.
- The database compares `created_at` with the `YYYY-MM-DD` literal as the UTC midnight that starts the date, as a session in the UTC time zone does. Other session time zones are not modelled.
- A year outside 0 to 9999 gives a date text the database would refuse. The model answers it as "no data" with nothing read; how the hosted database reports the error is not modelled.
- Time values beyond the ECMAScript range of 8.64e15 ms, where `toISOString` throws, are not modelled: `Post` takes any integer.
- GenerateDiaryPage.Post: a `title` that is neither a string nor null, such as a number, is not modelled; the title is sent, null, or left out.
- Late writers are modelled only while the generation call is awaited, as `lateNotes` and `lateAnswers`; writes racing the select itself or between the upsert and the deletes are not modelled.
- Interview.InterviewPage.StartAi: states the request and reply with nothing in between; the interleavings are covered by `RequestAi` and `ReceiveAi` and by the finding below.

## Findings

| source | as written | input that shows it | evidently intended | confidence | as-written member | corrected member |
|---|---|---|---|---|---|---|
| src/middleware.ts:21-39 | `set` and `remove` replace `response` with a fresh `NextResponse.next(...)` before setting their cookie, so each write discards the cookies set on the response by the writes before it | a session refresh that writes an access-token cookie and then a refresh-token cookie: the response passed on sets only the refresh token, while the request carries both | every cookie the auth client writes reaches the response, as the comment on line 22 and the request side describe | not executed | Middleware.AsWrittenDropsEarlierCookie | Middleware.KeepingKeepsEveryCookie |
| app/api/generate-diary-page/route.ts:76-87 | the deletes filter on `user_id` and `created_at >= today` again instead of on the rows read at lines 27-28, so any matching row inserted while the generation call is awaited (a note saved from the home page, app/page.tsx:98-99, or answers synced from the interview page, app/interview/page.tsx:90) is deleted without ever reaching a diary page | a note inserted for the same user today after the select and before the delete | remove exactly the notes and answers that were read and went into the page | not executed | Store.LateRowIsLost | Store.ConsumeKeepsLateRows |
| app/interview/page.tsx:40-50 | after the awaited fetch the reply installs its questions whatever block is active by then; the base button (line 167) stays clickable while the AI one is disabled (line 193), so the base block's answers can be given to the AI's questions and stored as the base block (line 71) | press AI Insights, then Base Reflection before the question service answers with one question, then answer it | ignore the reply once another block is active | not executed | Interview.LateAiReplyFillsBase | Interview.LateAiReplyIgnoredWhenChecked |
