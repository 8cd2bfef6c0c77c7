# ResX-AI resume analyser: a Dafny model of its core

ResX-AI scores an uploaded PDF resume against a job description. Three parts are modelled here.

- **Express backend.** The upload handler stores one analysis record per resume. The dashboard and analytics handlers reduce a user's records to averages, skill counts, a score distribution and a per-day volume. The settings handlers read, overwrite, reset, export and delete an account's data. The upload middleware accepts PDF files only.
- **Python AI service.** `analyze_resume` cleans both texts and extracts the catalogue skills that occur in each as whole words. It then reports the job skills missing from the resume and a match percentage.
- **Settings page.** `formatLabel` turns the camelCase notification keys into labels.

## Modules

| file | module | what it holds |
|---|---|---|
| `wrappers.dfy` | `Wrappers` | `Option`, with `GetOr` for JavaScript's `x \|\| default` |
| `ascii.dfy` | `Ascii` | ASCII case mapping (`lower()`, `toLowerCase()`, `toUpperCase()`) |
| `arith.dfy` | `Arith` | three facts about division and multiplication used by the rounding proofs |
| `models.dfy` | `Models` | accounts, analysis records and the store (`class Database`); `Filter`, the order-keeping query |
| `py_text.dfy` | `PyText` | Python's `\s`, `re.sub(r"\s+", " ", …)` and `str.strip()` |
| `string_order.dfy` | `StringOrder` | code-point order on strings and `sorted()` of a set |
| `skills.dfy` | `Skills` | the 38-entry skill catalogue |
| `utils.dfy` | `Utils` | `clean_text` |
| `nlp.dfy` | `Nlp` | `normalize_text`, `extract_skills`, `calculate_match` |
| `ai_service.dfy` | `AiService` | `analyze_resume` |
| `resume_controller.dfy` | `ResumeController` | `uploadResume`, `getDashboardData`, `getAnalyticsData` |
| `settings_controller.dfy` | `SettingsController` | the five settings handlers |
| `upload_middleware.dfy` | `UploadMiddleware` | `fileFilter`, the size limit, the stored file name |
| `settings_page.dfy` | `SettingsPage` | `formatLabel` |

The two stored entities are datatypes. `Models.User` is the account document of the `User` schema (`backend/src/models/User.js:5-57`): name, email, hashed password, role, the four notification switches and the theme. `Models.Resume` is the analysis record of the `Resume` schema (`backend/src/models/Resume.js:3-38`): owner, file name, extracted and missing skills, score, processing time and creation time. The schema's required `user` and `filename` fields and the unique `email` index are the constraints the model keeps.

The store is a `Database` object with a map of accounts and a sequence of records in insertion order. The handlers that write to it are methods with `modifies db`. The socket server is a `Notifier` object whose `Emit` appends to the list of broadcast events.

Some collaborators are inputs to the upload handler:
- the PDF text extractor;
- the HTTP call to the AI service;
- the clock;
- whether the database accepts the write.

The handler returns the sequence of calls it made, so its contract can say which collaborators were reached.

The dashboard and analytics figures are computed by methods with the source's loops:
- `CountSkills`: the nested `forEach` that fills `skillMap`;
- `ScoreDistribution` and `CountBuckets`: the in-place bucket array, counted and then turned into percentages;
- `ApplicationVolume`: the `reduce` into a per-day map.

Each of these methods is proved against a specification function (`Occurrences`, `BucketCount`, `DayCount`). The lemmas about those functions carry the properties: partition, order independence, bounds.

## Model

| member | source | states |
|---|---|---|
| Models.Database.constructor | backend/src/models/Resume.js:40 | a new store, before any handler runs, holds no accounts and no records |
| Models.Filter | backend/src/controllers/resumeController.js:179-182 | the result holds exactly the elements satisfying the condition, each as often as in the input, and is no longer than the input |
| Models.FilterAppend | backend/src/controllers/resumeController.js:179-182 | filtering a concatenation is the concatenation of the filtered parts, so a query keeps insertion order |
| Models.OwnedBy | backend/src/controllers/resumeController.js:90-92 | `Resume.find({ user })` returns exactly the records of that user |
| Ascii.LowerFixesLowercase | ai-service/app/nlp.py:30 | lower-casing text without capitals changes nothing |
| PyText.ReplaceNewlinesAndTabs | ai-service/app/utils.py:15 | each newline and tab becomes a space and every other character stays where it was; the length and the whitespace positions are unchanged |
| PyText.BlankDisallowed | ai-service/app/utils.py:18 | every character outside `[a-z0-9+]` and whitespace becomes a space; whitespace and the allowed characters stay in place |
| PyText.RewritesKeepTokens | ai-service/app/utils.py:15-18 | neither rewrite changes the sequence of letters, digits and '+' of the text |
| PyText.Collapse | ai-service/app/utils.py:21 | the result is empty iff the input is; its whitespace is single plain spaces; token-or-whitespace input gives tokens and spaces |
| PyText.Strip | ai-service/app/utils.py:23 | the result is a slice of the input from which only whitespace was cut at either end, and has no whitespace at either end; it keeps the single-spacing and the character class of its input |
| PyText.StrippedIsSlice | ai-service/app/utils.py:23 | `lstrip` then `rstrip` leave exactly the slice between the leading and the trailing whitespace |
| PyText.StripKeepsTokens | ai-service/app/utils.py:23 | stripping keeps every letter, digit and '+' in order |
| PyText.CollapseKeepsTokens | ai-service/app/utils.py:21 | collapsing whitespace keeps every letter, digit and '+' in order |
| PyText.CollapseSamePattern | ai-service/app/utils.py:21 | the collapse depends only on where the whitespace is and on the other characters, not on which whitespace characters they are |
| PyText.CollapseFixesSingleSpaces | ai-service/app/utils.py:21 | text whose whitespace is already single plain spaces is left unchanged |
| PyText.CollapseJoin | ai-service/app/utils.py:15-21 | two single-spaced texts joined by any whitespace character collapse to the two texts joined by one space |
| PyText.StripFixesTrimmed | ai-service/app/utils.py:23 | text with no whitespace at either end is unchanged by strip |
| Utils.CleanText | ai-service/app/utils.py:3-23 | `None` and `""` give `""`; every result is clean: only `[a-z0-9+]` and single inner spaces, no space at either end; its letters, digits and '+' are exactly those of the lower-cased input, in order |
| Utils.CleanTextFixesClean | ai-service/app/utils.py:3-23 | a clean text is its own cleaning |
| Utils.CleanTextIdempotent | ai-service/app/utils.py:3-23 | `clean_text(clean_text(x)) == clean_text(x)` for every input |
| Utils.CleanTextSeparatesLines | ai-service/app/utils.py:15-21 | two clean texts on either side of a newline, tab or other whitespace come out separated by exactly one space |
| StringOrder.LessTotal | ai-service/app/nlp.py:38 | the order used by `sorted()` relates any two different strings |
| StringOrder.Sorted | ai-service/app/nlp.py:38 | `sorted(set)` is strictly ascending and holds exactly the set's elements |
| Skills.CatalogueIsLowercase | ai-service/app/skills.py:4-58 | the catalogue has 38 entries, each non-empty and without capitals |
| Nlp.NormalizeText | ai-service/app/nlp.py:9-16 | the result is no longer than the input, holds only `[a-z0-9+]` and spaces, never two spaces in a row, and its letters, digits and '+' are exactly those of the lower-cased input, in order |
| Nlp.ExtractedSkills | ai-service/app/nlp.py:19-38 | empty text gives `[]`; otherwise a skill is returned iff it is in the catalogue and occurs as a whole word in the normalised text; strictly ascending, no repeats |
| Nlp.ExtractSkills | ai-service/app/nlp.py:19-38 | the catalogue loop with its set accumulator returns exactly `ExtractedSkills(text)` |
| Nlp.ScikitLearnNeverReported | ai-service/app/nlp.py:9-38 | "scikit-learn" is never extracted, because normalisation blanks its '-' |
| Nlp.PlusPlusNeedsWordCharAfter | ai-service/app/nlp.py:33-35 | `OccursAsWord`, the `\b…\b` search: "c++" is not found in "c++" or "c++ dev", because no word boundary follows a '+' there, but is found in "c++17"; "c" is found in "c++" |
| Nlp.OccursInTrimmed | ai-service/app/nlp.py:33-35 | a word that neither starts nor ends with a space occurs in a text iff it occurs in the text with spaces cut from both ends |
| Nlp.DetectedInTrimmed | ai-service/app/nlp.py:30-36 | the catalogue skills found in a normalised text are those found in it with spaces cut from both ends |
| Nlp.NothingDetectedInEmpty | ai-service/app/nlp.py:30-36 | no catalogue skill is found in the empty text |
| Nlp.LowerSetIgnoresCase | ai-service/app/nlp.py:45-46 | `LowerSet`, `set(map(str.lower, xs))`, holds no capitals, and lists that differ only in letter case give the same set |
| Nlp.CalculateMatch | ai-service/app/nlp.py:41-64 | matched and missing partition the job set (case-insensitively); the percentage is 0 for an empty job set, otherwise `⌊100·matched/job⌋`, within 0..100 and 100 iff nothing is missing |
| Nlp.PercentageBounds | ai-service/app/nlp.py:58 | a subset's whole-percent share lies in 0..100 and is 100 only for the whole set |
| AiService.AnalyzeResume | ai-service/app/main.py:16-39 | extracted skills are ascending and are exactly the catalogue skills occurring as words in the cleaned resume, and the same as extracting from the raw resume text; missing skills are those of the cleaned job text not extracted; the percentage lies in 0..100 and is 0, with nothing missing, when the job text names no skill; otherwise it is `⌊100·|job ∩ extracted| / |job|⌋`, where `job` is the set of catalogue skills occurring as words in the cleaned job text |
| AiService.NoJobDescriptionScoresZero | ai-service/app/schemas.py:4-6 | a request without a job description scores 0 and misses nothing |
| AiService.SkillsOfCleanText | ai-service/app/main.py:19-22 | on a cleaned text, a skill is extracted iff it occurs there as a word |
| AiService.PercentageOfCleanTexts | ai-service/app/main.py:22-25 | for two cleaned texts, the match percentage is the whole-percent share of the job text's skills that the resume's extracted skills also hold |
| AiService.MatchOfSets | ai-service/app/nlp.py:45-58 | `calculate_match` scores `⌊100·|job ∩ resume| / |job|⌋` of the two lower-cased skill sets |
| AiService.CleaningKeepsSkills | ai-service/app/main.py:19-22 | extracting skills from the cleaned text gives the same list as extracting them from the raw text |
| AiService.CleanIsStrippedNormal | ai-service/app/main.py:19-22 | for non-empty text, `clean_text` is `normalize_text` followed by `strip` |
| ResumeController.RoundDiv | backend/src/controllers/resumeController.js:99-102 | `Math.round(n / d)`: the nearest integer to `n / d`, halves rounded up |
| ResumeController.RoundDivBetween | backend/src/controllers/resumeController.js:99-102 | rounding keeps any integer bounds the exact quotient respects |
| ResumeController.ProcessingTime | backend/src/controllers/resumeController.js:28-52 | the seconds from the clock read before text extraction to the one after the AI call, rounded to the nearest whole second; never negative when the clock does not go back |
| ResumeController.SumPermutation | backend/src/controllers/resumeController.js:100 | a `reduce` sum does not depend on the order of the records |
| ResumeController.Average | backend/src/controllers/resumeController.js:96-112 | 0 for no records; otherwise the nearest integer to the mean |
| ResumeController.AverageBounds | backend/src/controllers/resumeController.js:96-112 | the average of values within `lo..hi` lies within `lo..hi` |
| ResumeController.AverageOfConstant | backend/src/controllers/resumeController.js:96-112 | the average of equal values is that value |
| ResumeController.CountSkills | backend/src/controllers/resumeController.js:115-124 | `skillMap` has a key iff the skill is listed somewhere, and its value counts every listing |
| ResumeController.CountInPositive | backend/src/controllers/resumeController.js:117-118 | a skill is counted in a list iff the list holds it |
| ResumeController.OccurrencesPositive | backend/src/controllers/resumeController.js:115-124 | a skill has a positive count iff some record lists it |
| ResumeController.OccurrencesCountRecords | backend/src/controllers/resumeController.js:115-124 | when no record lists a skill twice, its count is the number of records listing it |
| ResumeController.OccurrencesIgnoreOrder | backend/src/controllers/resumeController.js:115-124 | skill counts do not depend on the order of the records |
| ResumeController.TopSkillCountsPositive | backend/src/controllers/resumeController.js:122-124 | every `topSkills` count is at least 1 |
| ResumeController.TopSkillsIgnoreOrder | backend/src/controllers/resumeController.js:115-124 | the counts computed over the sorted records are the counts of the unsorted ones |
| ResumeController.BucketOf | backend/src/controllers/resumeController.js:134-139 | every score falls into one of the four buckets |
| ResumeController.BucketPartition | backend/src/controllers/resumeController.js:134-139 | the four bucket counts add up to the number of records |
| ResumeController.BucketCountIsFilter | backend/src/controllers/resumeController.js:134-139 | a bucket count is the number of records whose score maps to that bucket |
| ResumeController.BucketCountIgnoresOrder | backend/src/controllers/resumeController.js:134-139 | bucket counts do not depend on the order of the records |
| ResumeController.Percent | backend/src/controllers/resumeController.js:141-146 | 0 for no records; otherwise the nearest whole percent of count/total, within 0..100 |
| ResumeController.PercentSum | backend/src/controllers/resumeController.js:141-146 | the four rounded percentages of a non-empty partition add up to between 99 and 102 |
| ResumeController.PercentSumExtremes | backend/src/controllers/resumeController.js:141-146 | both 99 (1, 1, 1, 0 of 3) and 102 (1, 1, 1, 5 of 8) are reached |
| ResumeController.CountBuckets | backend/src/controllers/resumeController.js:127-139 | after the counting loop each of the four array cells holds its label and its bucket's count |
| ResumeController.ScoreDistribution | backend/src/controllers/resumeController.js:127-146 | the four entries carry the labels in order and each bucket's rounded percentage |
| ResumeController.DistributionBounds | backend/src/controllers/resumeController.js:127-146 | every percentage lies in 0..100; all are 0 without records; otherwise they add up to 99..102 |
| ResumeController.DistributionIgnoresOrder | backend/src/controllers/resumeController.js:127-146 | the distribution of the sorted records is that of the unsorted ones |
| ResumeController.InsertByDate | backend/src/controllers/resumeController.js:92 | inserting into a newest-first list keeps it newest first and adds exactly the one record |
| ResumeController.NewestFirst | backend/src/controllers/resumeController.js:92 | `.sort({ createdAt: -1 })`: the same records, newest first |
| ResumeController.RecentAreNewest | backend/src/controllers/resumeController.js:156 | the first `min(3, n)` records of a newest-first list are newest first and no older than any record left out |
| ResumeController.GetDashboardData | backend/src/controllers/resumeController.js:88-166 | total and analyzed count the user's records; the averages, skill counts, distribution and recent list are those of exactly the user's records |
| ResumeController.EffectiveDays | backend/src/controllers/resumeController.js:174 | an absent `days` query means 7 |
| ResumeController.WindowStart | backend/src/controllers/resumeController.js:176-177 | the window starts exactly `days` days before now, and not after now for a non-negative `days` |
| ResumeController.DayOf | backend/src/controllers/resumeController.js:228 | the day key names the 24-hour UTC day containing the timestamp |
| ResumeController.SameDay | backend/src/controllers/resumeController.js:228 | two timestamps share a day key iff they fall within the same UTC day |
| ResumeController.MapTotalIncrement | backend/src/controllers/resumeController.js:229 | raising one day's count by one raises the map's total by one |
| ResumeController.ApplicationVolume | backend/src/controllers/resumeController.js:227-231 | one key per day with records, each counting that day's records, with counts adding up to the number of records |
| ResumeController.GetAnalyticsData | backend/src/controllers/resumeController.js:172-252 | every figure is over exactly the user's records created since the window start, in natural order; the excellent count is the number scoring 85 or more; one trend point per record; skill counts and per-day volume as above |
| ResumeController.ExcellentInTopBucket | backend/src/controllers/resumeController.js:194-196 | `Excellent`, a score of 85 or more, always falls in the "81-100" bucket, while scores 81 to 84 share that bucket without being excellent |
| ResumeController.EffectiveJobDescription | backend/src/controllers/resumeController.js:9-14 | the submitted description, untrimmed, when it has a non-blank character; otherwise the built-in default; the result always has content |
| ResumeController.BlankDescriptionFallsBack | backend/src/controllers/resumeController.js:34-38 | `HasContent` and `IsJsWhitespace`, the `trim().length > 0` test: a missing description or one of only spaces, tabs and newlines gives the default; " go " is kept untrimmed |
| ResumeController.NewRecord | backend/src/controllers/resumeController.js:55-65 | the stored record takes the owner, file name and timings given; missing result fields become empty lists and a score of 0 |
| ResumeController.NewRecordStorable | backend/src/models/Resume.js:5-14 | `CreateSucceeds`: the record the handler builds always has its owner, so a reachable store refuses it exactly when the file name is empty; an unreachable store saves nothing |
| ResumeController.Notifier.Emit | backend/src/controllers/resumeController.js:70-71 | broadcasting appends the event to those already sent |
| ResumeController.UploadResume | backend/src/controllers/resumeController.js:20-82 | no file: 400 and nothing else happens; a failing extractor, AI call or write: 500, no record and no event; otherwise exactly one record is appended, both update events are sent if there is a socket server, and 201 returns the record; accounts never change |
| ResumeController.SavedRecordReachesOwner | backend/src/controllers/resumeController.js:55-65 | a saved record joins the end of its owner's records and leaves every other user's records as they were |
| SettingsController.GetSettings | backend/src/controllers/settingsController.js:7-19 | a view exists iff the account does, and shows its name, email, role, notifications and theme |
| SettingsController.PasswordNotShown | backend/src/controllers/settingsController.js:10-18 | accounts differing only in their password hash have the same view |
| SettingsController.Updated | backend/src/controllers/settingsController.js:27-33 | each supplied field is written, each missing one keeps its stored value, and the password is untouched |
| SettingsController.UpdateReadBack | backend/src/controllers/settingsController.js:24-36 | a complete update is read back exactly by `getSettings` |
| SettingsController.EmptyUpdateChangesNothing | backend/src/controllers/settingsController.js:27-33 | an update supplying nothing leaves the account unchanged |
| SettingsController.UpdateSettings | backend/src/controllers/settingsController.js:24-36 | without a `profile`, or with an email another account holds (`EmailTaken`), nothing is written and no reply is sent; otherwise only the requester's account changes, as `Updated` says, and the reply is "Settings updated" |
| SettingsController.UpdateKeepsEmailsUnique | backend/src/models/User.js:12-16 | an update that the unique email index lets through leaves all emails distinct |
| SettingsController.Reset | backend/src/controllers/settingsController.js:55-65 | the settings become the schema defaults; name, email, role and password stay |
| SettingsController.ResetIdempotent | backend/src/controllers/settingsController.js:54-68 | resetting twice is resetting once |
| SettingsController.ResetForgetsSettings | backend/src/controllers/settingsController.js:54-68 | the result of a reset does not depend on the settings held before |
| SettingsController.ResetAfterUpdate | backend/src/controllers/settingsController.js:54-68 | a reset after any update restores the default settings and keeps the name the update wrote |
| SettingsController.ResetSettings | backend/src/controllers/settingsController.js:54-68 | only the requester's account changes, to its reset form; records are untouched |
| SettingsController.DeleteAllData | backend/src/controllers/settingsController.js:73-76 | the records kept are exactly those of other users, in order; accounts are untouched |
| SettingsController.DeleteLeavesNothing | backend/src/controllers/settingsController.js:74 | after the deletion the requester owns no record |
| SettingsController.DeleteKeepsOthers | backend/src/controllers/settingsController.js:74 | every other user's records are exactly as before, in order |
| SettingsController.ExportData | backend/src/controllers/settingsController.js:41-49 | the account document if it exists, and exactly the requester's records: each as many times as stored, in the store's insertion order (`OwnedBy`, the `Resume.find({ user })` filter) |
| UploadMiddleware.LastIndexOf | backend/src/middleware/uploadMiddleware.js:27 | the position of the last occurrence, or -1 when there is none |
| UploadMiddleware.BaseName | backend/src/middleware/uploadMiddleware.js:27 | the last path component contains no '/' |
| UploadMiddleware.BaseNameIsLastComponent | backend/src/middleware/uploadMiddleware.js:27 | the base name is the end of the path without its trailing slashes, and is preceded there by a '/' unless it is the whole of it |
| UploadMiddleware.ExtName | backend/src/middleware/uploadMiddleware.js:27 | the extension is empty or starts at the only '.' it contains, and has no '/' |
| UploadMiddleware.ExtNameFromLastDot | backend/src/middleware/uploadMiddleware.js:27 | the extension is empty iff the base name is ".." or has no '.' after its first character; otherwise it is the end of the base name from its last '.', shorter than the base name |
| UploadMiddleware.FileFilter | backend/src/middleware/uploadMiddleware.js:25-39 | a file is accepted iff its MIME type is exactly "application/pdf" and its lower-cased extension is ".pdf"; a rejection carries the fixed message |
| UploadMiddleware.PdfExtension | backend/src/middleware/uploadMiddleware.js:27-29 | for a name without '/', the extension test holds iff the name is longer than 4 characters and its last four lower-case to ".pdf" |
| UploadMiddleware.AnyCaseAccepted | backend/src/middleware/uploadMiddleware.js:27-29 | any letter case of ".pdf" after a non-empty stem is accepted |
| UploadMiddleware.OtherEndingRejected | backend/src/middleware/uploadMiddleware.js:27-39 | a name not ending in a case variant of ".pdf" is rejected |
| UploadMiddleware.MimeTypeIsExact | backend/src/middleware/uploadMiddleware.js:26-29 | "application/PDF" is rejected: the MIME comparison is exact |
| UploadMiddleware.DotFileRejected | backend/src/middleware/uploadMiddleware.js:27-29 | ".pdf" alone has no extension and is rejected |
| UploadMiddleware.SizeLimit | backend/src/middleware/uploadMiddleware.js:45-47 | the limit is 5,242,880 bytes, inclusive |
| UploadMiddleware.NatToDecimal | backend/src/middleware/uploadMiddleware.js:19-20 | the decimal form of a number is non-empty and made of digits only |
| UploadMiddleware.DecimalRoundTrip | backend/src/middleware/uploadMiddleware.js:19-20 | the decimal digits written for a number read back as that number |
| UploadMiddleware.StoredFilename | backend/src/middleware/uploadMiddleware.js:17-22 | the stored name contains no '/' |
| UploadMiddleware.StoredNameDeterminesParts | backend/src/middleware/uploadMiddleware.js:18-20 | equal stored names come from the same clock reading, the same random number and the same extension: the name reads back as `<now>-<random><ext>` |
| UploadMiddleware.SplitAtFirst | backend/src/middleware/uploadMiddleware.js:18-20 | a text made of a part without some character followed by a part starting with it (or empty) splits only one way |
| UploadMiddleware.StoredNameKeepsExtension | backend/src/middleware/uploadMiddleware.js:17-22 | the stored name has the original name's extension |
| SettingsPage.InsertSpaces | frontend/src/pages/Settings.jsx:259-260 | one character is added per capital A-Z, and the result never starts with a capital |
| SettingsPage.CapitalizeFirst | frontend/src/pages/Settings.jsx:260 | the first character is upper-cased unless it ends a line; the rest is unchanged |
| SettingsPage.FormatLabel | frontend/src/pages/Settings.jsx:259-260 | the label is one character longer per capital in the key |
| SettingsPage.FormatLabelOfCamelCase | frontend/src/pages/Settings.jsx:259-260 | a key starting with a small letter has that letter upper-cased, followed by the spaced-out rest |
| SettingsPage.FormatLabelOfCapitalized | frontend/src/pages/Settings.jsx:259-260 | a key starting with a capital gets a leading space |
| SettingsPage.UnspaceInsertSpaces | frontend/src/pages/Settings.jsx:259 | removing each space before a capital recovers the key, so no character is lost |
| SettingsPage.TwoWordLabel | frontend/src/pages/Settings.jsx:259-260 | a two-word camelCase key becomes both words, the first capitalised, separated by one space |
| SettingsPage.EmailAlertsLabel | frontend/src/pages/Settings.jsx:27 | "emailAlerts" is shown as "Email Alerts" |
| SettingsPage.PushNotificationsLabel | frontend/src/pages/Settings.jsx:28 | "pushNotifications" is shown as "Push Notifications" |
| SettingsPage.WeeklyReportsLabel | frontend/src/pages/Settings.jsx:29 | "weeklyReports" is shown as "Weekly Reports" |
| SettingsPage.AnalysisCompleteLabel | frontend/src/pages/Settings.jsx:30 | "analysisComplete" is shown as "Analysis Complete" |

## Left out

- The PDF text extractor (`backend/src/utils/pdfParser.js`), the HTTP client to the AI service (`backend/src/services/pythonService.js`), the database and the socket server are not part of this model. Their outcomes are inputs to `UploadResume`.
- Authentication (JWT, bcrypt, the `protect` middleware) is left out. `req.user.id` is a parameter. The stored password is an opaque string.
- Logging (`console.log`, `print`) is left out because it has no effect on results.
- spaCy is loaded by `nlp.py` but never used by the modelled functions, so it is left out.
- Clocks and randomness are parameters: `Date.now()`, `new Date()` and `Math.random()`.
- Creating the upload directory at start-up is left out, as is multer's disk I/O.
- ResumeController.Percent: the source computes `Math.round((count / total) * 100)` in floating point. The model rounds the exact rational value. The two differ where the floating-point product falls just below an exact half, e.g. 23 of 40 records: the source gives 57, the model 58.
- ResumeController.RoundDiv: the model rounds the exact quotient. For the small sums the handlers see, the floating-point quotient rounds the same way.
- Nlp.CalculateMatch: the model takes the exact floor of `100 · matched / job`. The source truncates a floating-point product. The two agree for every job set of at most 38 skills, which covers every set that extraction can produce.
- ResumeController.WindowStart: `setDate(getDate() - days)` works in local time. The model subtracts `days` whole 24-hour days, so daylight-saving shifts are left out.
- ResumeController.EffectiveDays: a `days` query that `parseInt` cannot read gives `NaN`, and the source then queries with an invalid date. The model takes the query as an optional integer.
- ResumeController.DayOf: the ISO date string is modelled as the day number since the epoch. It names the same UTC day, but the string format is left out.
- ResumeController.GetDashboardData: the order of keys in `topSkills` (JavaScript object order) is left out; the map is modelled as a `map`. The tie order of `.sort({ createdAt: -1 })` among records with equal timestamps is also left out; `IsRecent` only says the recent records are no older than the others.
- ResumeController.GetAnalyticsData: `performanceMetrics` is always `null` and is not modelled. Skill names such as `__proto__` that collide with JavaScript object prototype keys are left out.
- ResumeController.UploadResume: Mongoose validation is reduced to the required owner and non-empty filename and to store availability. Other validators are left out. The handler's `try` turns every collaborator failure into the same 500 reply.
- ResumeController.NewRecord: `score` and `processingTime` are whole numbers. Non-integer AI scores are left out.
- AiService.AnalyzeResume: the HTTP 500 path for an exception inside `analyze_resume` is left out. The modelled functions are total on strings.
- AiService.AnalyzeResume: the order of `missing_skills` comes from a Python set and is left out; it is modelled as a set.
- Case mapping is ASCII only. Python's `str.lower()` and JavaScript's `toLowerCase()`/`toUpperCase()` also map non-ASCII letters; those cases are left out.
- `\b` in `re.search` is modelled with ASCII word characters only. Every text it sees has been normalised to `[a-z0-9+ ]` first.
- SettingsController: handlers without `try` that throw leave the request unanswered (`NoReply`). This covers a missing `profile` in `updateSettings`. For a missing account, `GetSettings` returns `None`.
- SettingsController.UpdateSettings: a `notifications` object with only some of its four switches is not modelled; the object is all or nothing.
- SettingsController.ExportData: the exported account includes the stored password hash, as in the source.
- PyText.Collapse: the contract states the result's shape and character class, not a full character-by-character description. What it keeps is stated by `CollapseKeepsTokens` (every letter, digit and '+', in order) and `CollapseSamePattern` (only the whitespace positions matter). `CollapseFixesSingleSpaces` and `CollapseJoin` give its exact result on single-spaced text and on two such texts joined by whitespace.
- The catalogue entry "scikit-learn" can never be extracted, because normalisation turns its '-' into a space. `Nlp.ScikitLearnNeverReported` proves this. The default job description still lists it.
- Account creation (registration) is not part of this model, so the unique email index is modelled only where an existing account's email is updated.
- Skills ending in '+' ("c++") are found only when a letter, digit or '_' follows directly, because `\b` needs a word character on one side. This is how the source behaves, and `Nlp.PlusPlusNeedsWordCharAfter` states it; the model does not correct it.
