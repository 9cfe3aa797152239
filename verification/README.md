# Campus Fix Hub: decision rules

Campus Fix Hub is a campus issue tracker. Students report problems such as a broken fan, a leaking tap or a dead Wi-Fi point. Administrators move each issue through a fixed lifecycle: submitted, reviewed, in progress, resolved, closed. Around the screens sit a handful of pure decision rules, and this project models them in Dafny and proves what they promise:

- **The keyword classifier** (`detectCategory`). It lower-cases a description. It then tries six keyword groups in a fixed order: electrical, plumbing, network, furniture, cleanliness, security. The first group with a keyword occurring in the text, as a substring, decides the suggested category, priority and owning department. When no keyword occurs, the suggestion is other/medium/General.
- **The issue detail page.** This covers:
  - the forward order of statuses;
  - the next statuses offered to an administrator;
  - when the update panel is shown;
  - the note check of the update action;
  - the label of each offered status.
- **The student dashboard counters:** total, active, resolved (which includes closed) and critical.
- **The admin issue list filter:** a case-insensitive search of title or location, combined by AND with a status filter and a department filter, where `all` lets everything through.
- **The overall resolution rate** on the analytics page, and the colour threshold of a department's rate.
- **The sign-up form:**
  - the password strength meter, including its regular expression, modelled exactly;
  - the order of the submit checks.
- **The report form:**
  - the defaults;
  - the one-shot automatic detection driven by the description field;
  - the manual selectors;
  - the payload sent on submit, with its image URL normalisation.

Modules follow the source files:

| module | file | content |
|---|---|---|
| `IssueTypes` | `issue_types.dfy` | the types |
| `Text` | `text.dfy` | the JavaScript string operations the rules use |
| `Seqs` | `seqs.dfy` | `filter`, `indexOf` and subsequences |
| `Classifier` | `classifier.dfy` | the classifier |
| `SampleTexts`, `ClassifierExamples` | `sample_texts.dfy`, `classifier_examples.dfy` | worked classifier cases |
| `Lifecycle` | `lifecycle.dfy` | the issue detail page |
| `Dashboard` | `dashboard.dfy` | the dashboard counters |
| `IssueFilter` | `issue_filter.dfy` | the admin list filter |
| `Analytics` | `analytics.dfy` | the resolution rate |
| `Signup` | `signup.dfy` | the sign-up form |
| `ReportForm` | `report_form.dfy` | the report form |

Everything is a pure function over immutable datatypes. A page's state is a record, and a user action is a function from one record to the next.

Two details of the issue detail page, as the code has them:

- **Forward skips.** The status selector offers only the statuses later than the current one (src/pages/IssueDetail.tsx:128). The update action never re-checks the selection (see Findings). The corrected action refuses only a status that is not later, so forward skips that the selector offers, such as submitted to resolved, stay allowed.
- **Blank notes.** The note check is `!note.trim()` (src/pages/IssueDetail.tsx:43), so a note made only of white space is refused as well as the empty note.

## Model

| member | source | states |
|---|---|---|
| `IssueTypes.ParseStatus` | src/types/index.ts:13 | a status string names at most one status, and the one whose wire name it is |
| `IssueTypes.ParseStatusName` | src/types/index.ts:13 | every status is read back from its wire name |
| `IssueTypes.AllIsNotAStatus` | src/pages/AdminIssues.tsx:20 | the wildcard `all` is not the name of any status, so it cannot be confused with one |
| `Text.Lower` | src/lib/store.ts:5 | `toLowerCase` keeps the length and lowers each upper-case ASCII letter, leaving every other character alone |
| `Text.LowerFixedIffNoUpper` | src/lib/store.ts:5 | lowering changes a text if and only if it holds an upper-case letter |
| `Text.LowerIdempotent` | src/lib/store.ts:5 | lowering twice is lowering once |
| `Text.ContainsEmpty` | src/pages/AdminIssues.tsx:19 | the empty search text occurs in every text (`includes("")` is true) |
| `Text.TrimEmptyIffBlank` | src/pages/IssueDetail.tsx:43 | `!note.trim()` holds exactly for the notes made only of ECMAScript white space and line terminators, the empty note included |
| `Seqs.IndexIn` | src/pages/IssueDetail.tsx:128 | `indexOf` gives -1 exactly for an absent element, and otherwise the first position holding it |
| `Seqs.Filter` | src/pages/Dashboard.tsx:23-25 | `filter` keeps exactly the elements satisfying the callback, in order, as a subsequence, and keeps every copy of such an element and no copy of any other |
| `Seqs.FilterComplementCount` | src/pages/Dashboard.tsx:23-24 | two complementary callbacks split the elements between them |
| `Seqs.FilterDisjointCount` | src/pages/Dashboard.tsx:24 | the count for a disjunction of exclusive conditions is the sum of the counts |
| `Seqs.FilterMonotone` | src/pages/AdminIssues.tsx:18-23 | a stronger callback keeps a subsequence of what a weaker one keeps |
| `Seqs.FilterSuffix` | src/pages/IssueDetail.tsx:128 | a callback that holds exactly from some position on keeps the suffix from there |
| `Classifier.FirstMatchIndex` | src/lib/store.ts:6-23 | the groups are tried in order: the index found is the first group with a keyword occurring in the text, or none |
| `Classifier.Detect` | src/lib/store.ts:4-25 | the suggestion is that of the first group, in source order, with any keyword occurring in the lowered description, and the fallback when no group has one |
| `Classifier.DetectIsGroupOrFallback` | src/lib/store.ts:6-24 | every suggestion is one of the six groups' or the fallback |
| `Classifier.DepartmentFollowsCategory` | src/lib/store.ts:7-24 | the department is a function of the category: electrical, plumbing and furniture go to Maintenance, network to IT, cleanliness to Housekeeping, security to Security, other to General |
| `Classifier.PriorityExtremes` | src/lib/store.ts:16-22 | only security is critical and only furniture is low |
| `Classifier.DetectCaseInsensitive` | src/lib/store.ts:5 | the suggestion for a description equals that for its lower-cased form |
| `Classifier.EarlierGroupWins` | src/lib/store.ts:6-23 | when an earlier group has a keyword, no later group's category is suggested |
| `Classifier.NoKeywordGivesFallback` | src/lib/store.ts:24 | without any keyword the suggestion is exactly other/medium/General |
| `ClassifierExamples.ElectricalKeywordWins` | src/lib/store.ts:6-7 | any electrical keyword decides, since that group is tried first |
| `ClassifierExamples.WaterBeatsWifi` | src/lib/store.ts:9-13 | a description with both "water" and "wifi", and no electrical keyword, is plumbing/high/Maintenance |
| `ClassifierExamples.FlightIsElectrical` | src/lib/store.ts:6 | "flight" contains "light", so it is electrical: matching is by substring |
| `ClassifierExamples.StableExample` | src/lib/store.ts:6-16 | "stable" contains "table", so it is furniture/low/Maintenance |
| `ClassifierExamples.WifiExample` | src/lib/store.ts:5-13 | "WiFi is down in the library" is network/high/IT, in spite of its capitals |
| `ClassifierExamples.CleaningExample` | src/lib/store.ts:6-19 | "The room needs cleaning" is cleanliness/medium/Housekeeping |
| `ClassifierExamples.WaterTapExample` | src/lib/store.ts:6-10 | "The water tap is leaking in the washroom" is plumbing/high/Maintenance |
| `ClassifierExamples.NothingMatchesExample` | src/lib/store.ts:6-24 | a description with no keyword at all gets the fallback |
| `ClassifierExamples.WaterAndWifiExample` | src/lib/store.ts:9-13 | "water and wifi" resolves to the earlier group, plumbing |
| `Lifecycle.IndexOfIsRank` | src/pages/IssueDetail.tsx:15 | `statusOrder.indexOf` places each status at its lifecycle rank |
| `Lifecycle.NextStatusesAreLaterStages` | src/pages/IssueDetail.tsx:128 | the offered statuses are the part of `statusOrder` after the current status |
| `Lifecycle.NextStatusesMembers` | src/pages/IssueDetail.tsx:128 | a status is offered if and only if it is strictly later than the current one |
| `Lifecycle.NextStatusesOrdered` | src/pages/IssueDetail.tsx:128 | the offered statuses come in lifecycle order, and there are as many as later stages |
| `Lifecycle.NextStatusesAreForward` | src/pages/IssueDetail.tsx:128 | the current status and earlier ones are never offered |
| `Lifecycle.NextStatusesEnds` | src/pages/IssueDetail.tsx:128 | a closed issue offers nothing; a submitted one offers the four later statuses |
| `Lifecycle.PanelOffersChoice` | src/pages/IssueDetail.tsx:119-128 | the panel, shown to admins on issues that are not closed, always offers a status, and only a closed issue offers none |
| `Lifecycle.ActorName` | src/pages/IssueDetail.tsx:47 | the actor is the user's name, or "Admin" when there is no user or the name is empty; it is never empty |
| `Lifecycle.HandleUpdate` | src/pages/IssueDetail.tsx:42-53 | as written: a blank note is refused; otherwise the selected status is submitted with the untrimmed note and the actor, and is never refused whatever the current status |
| `Lifecycle.BackwardUpdateAccepted` | src/pages/IssueDetail.tsx:21-53 | on an issue at or past reviewed, the untouched default selection submits reviewed, a status the selector never offered |
| `Lifecycle.InProgressSentBack` | src/pages/IssueDetail.tsx:21-47 | an in-progress issue with the note "Parts ordered" is sent back to reviewed |
| `Lifecycle.HandleUpdateChecked` | src/pages/IssueDetail.tsx:42-53 | corrected: a blank note is refused first, then any status that is not strictly later; otherwise the update is submitted |
| `Lifecycle.CheckedUpdateIsForward` | src/pages/IssueDetail.tsx:128 | the corrected action only ever moves an issue forward, and agrees with the original on every offered status |
| `Lifecycle.ReplaceFirst` | src/pages/IssueDetail.tsx:129 | `replace('_', ' ')` replaces only the first underscore, and changes nothing when there is none |
| `Lifecycle.ReplaceFirstAt` | src/pages/IssueDetail.tsx:129 | the occurrence replaced is the first one |
| `Lifecycle.CapitalizeWords` | src/pages/IssueDetail.tsx:129 | `/\b\w/g` upper-cases exactly the word characters that start a word, and leaves every other character alone |
| `Lifecycle.CapitalizeLowerWord` | src/pages/IssueDetail.tsx:129 | a lower-case word gets a capital initial and nothing else |
| `Lifecycle.CapitalizeSplits` | src/pages/IssueDetail.tsx:129 | a non-word character separates words: each side is capitalised on its own |
| `Lifecycle.SubmittedLabel` | src/pages/IssueDetail.tsx:129 | `submitted` is labelled "Submitted" |
| `Lifecycle.InProgressLabel` | src/pages/IssueDetail.tsx:129 | `in_progress` is labelled "In Progress" |
| `Lifecycle.ReviewedLabel` | src/pages/IssueDetail.tsx:129 | `reviewed` is labelled "Reviewed" |
| `Lifecycle.ResolvedLabel` | src/pages/IssueDetail.tsx:129 | `resolved` is labelled "Resolved" |
| `Lifecycle.ClosedLabel` | src/pages/IssueDetail.tsx:129 | `closed` is labelled "Closed" |
| `Dashboard.MyStats` | src/pages/Dashboard.tsx:21-26 | total is the number of the student's issues, and no counter exceeds it |
| `Dashboard.ActivePlusResolvedIsTotal` | src/pages/Dashboard.tsx:22-24 | active and resolved add up to total |
| `Dashboard.ResolvedCountsBothEndStates` | src/pages/Dashboard.tsx:24 | resolved counts the resolved issues plus the closed ones |
| `Dashboard.OneMoreIssue` | src/pages/Dashboard.tsx:22-25 | one more issue adds one to total, one to exactly one of active and resolved, and one to critical exactly when it is critical |
| `Dashboard.NewReportIsActive` | src/pages/Dashboard.tsx:23-24 | a newly submitted issue is counted as active |
| `IssueFilter.FilterIssues` | src/pages/AdminIssues.tsx:18-23 | the list is a subsequence of all issues and holds exactly those passing search, status and department, each as many times as it occurs in the store |
| `IssueFilter.InitialFiltersShowAll` | src/pages/AdminIssues.tsx:14-23 | with an empty search and both filters on `all`, every issue is listed, in order |
| `IssueFilter.StatusFilterSelects` | src/pages/AdminIssues.tsx:20 | a status filter naming a status keeps exactly the issues in that status |
| `IssueFilter.SearchIgnoresCase` | src/pages/AdminIssues.tsx:19 | searching for a text and for its lower-cased form finds the same issues |
| `IssueFilter.NarrowingShrinks` | src/pages/AdminIssues.tsx:22 | any search and filter setting lists a subsequence of the unfiltered list |
| `IssueFilter.StatusNarrowing` | src/pages/AdminIssues.tsx:20 | choosing a status instead of `all`, with any search and department, lists a subsequence of the list before |
| `IssueFilter.DepartmentNarrowing` | src/pages/AdminIssues.tsx:21 | choosing a department instead of `all`, with any search and status, lists a subsequence of the list before |
| `IssueFilter.FiltersNarrowing` | src/pages/AdminIssues.tsx:20-22 | with any search, setting both drop-downs lists a subsequence of the list with both on `all` |
| `IssueFilter.SearchNarrowing` | src/pages/AdminIssues.tsx:19 | replacing the search by one that contains it, ignoring case, lists a subsequence of the list before |
| `IssueFilter.EmptyMessageIffNoneMatch` | src/pages/AdminIssues.tsx:67-68 | "No issues match your filters" appears exactly when no issue passes all three conditions |
| `IssueFilter.UnknownStatusHidesAll` | src/pages/AdminIssues.tsx:20 | a status filter value that names no status hides every issue |
| `Analytics.ResolutionRate` | src/pages/AdminAnalytics.tsx:15 | the rate is the whole percentage nearest to resolved/total, halves up, and 0 when there are no issues |
| `Analytics.RateIsUnique` | src/pages/AdminAnalytics.tsx:15 | exactly one whole percentage satisfies the rounding condition |
| `Analytics.RateBounds` | src/pages/AdminAnalytics.tsx:15 | the rate is between 0 and 100; it is 100 when every issue is resolved and 0 when none is |
| `Analytics.RateExamples` | src/pages/AdminAnalytics.tsx:15 | 1/3 gives 33, 2/3 gives 67, 1/8 gives 13, 0/0 gives 0 |
| `Analytics.RateMonotone` | src/pages/AdminAnalytics.tsx:15 | resolving more issues never lowers the rate |
| `Analytics.SuccessThreshold` | src/pages/AdminAnalytics.tsx:115 | a rate is shown in the success colour exactly when at least 49.5 percent of the issues are resolved |
| `Signup.StrongPatternNeedsBoth` | src/pages/Signup.tsx:26 | the pattern only matches a password holding an upper-case letter and a digit |
| `Signup.StrongPatternOnOneLine` | src/pages/Signup.tsx:26 | on a password without line breaks, the pattern matches exactly when there is an upper-case letter and a digit |
| `Signup.SplitAcrossLines` | src/pages/Signup.tsx:26 | the letter and the digit must be on one line, since `.` does not cross a line break |
| `Signup.StrongPatternExtends` | src/pages/Signup.tsx:26 | appending a character keeps a match |
| `Signup.PasswordStrength` | src/pages/Signup.tsx:22-28 | the level is between 0 and 4 and its label goes with it; only the empty password has no colour; levels 0 to 2 are exactly the passwords shorter than 8; "Strong" needs an upper-case letter and a digit |
| `Signup.StrengthByLength` | src/pages/Signup.tsx:23-27 | empty gives 0; 1 to 5 characters give 1; 6 or 7 give 2 whatever they are; from 8 on, a single-line password reads 4 exactly when it has an upper-case letter and a digit, and 3 otherwise |
| `Signup.TypingNeverWeakens` | src/pages/Signup.tsx:22-28 | typing one more character never lowers the meter |
| `Signup.HandleSubmit` | src/pages/Signup.tsx:35-44 | `signUp` is called exactly when the passwords agree and have at least 6 characters, with the name, e-mail and password typed; every refusal carries one of the two messages |
| `Signup.PageSubmit` | src/pages/Signup.tsx:72-101 | the browser stops the submission while any of the four `required` inputs is empty or the e-mail is not accepted; otherwise `handleSubmit` decides |
| `Signup.PageSignUpIsComplete` | src/pages/Signup.tsx:35-101 | an account is only requested with a name, an accepted e-mail address, and a confirmed password of at least 6 characters |
| `Signup.MismatchReportedFirst` | src/pages/Signup.tsx:35-42 | a mismatch is reported even when the password is also too short; the length message appears exactly for matching passwords that are too short |
| `Signup.SignUpOnlyFairOrBetter` | src/pages/Signup.tsx:22-44 | every password sent to `signUp` reads at least "Fair" |
| `Signup.AfterSignUp` | src/pages/Signup.tsx:46-50 | a non-empty error from `signUp` is shown; otherwise the success dialog opens |
| `ReportForm.InitialIsFallback` | src/pages/ReportIssue.tsx:22-26 | the form opens on other/medium/General, the classifier's fallback, with detection not yet run |
| `ReportForm.OnDescriptionChange` | src/pages/ReportIssue.tsx:28-37 | the description is always taken; detection runs exactly when the text is longer than 20 characters and has not run before, and then sets category, priority and department to the classifier's suggestion; otherwise they stay |
| `ReportForm.DetectedStays` | src/pages/ReportIssue.tsx:30-35 | once detection has run it never runs again |
| `ReportForm.DetectedFreezesDepartment` | src/pages/ReportIssue.tsx:28-37 | after detection, no input changes the department, and description edits never change category or priority |
| `ReportForm.DepartmentAlwaysKnown` | src/pages/ReportIssue.tsx:24-34 | the department is "General" until detection runs, and always one the classifier can name |
| `ReportForm.ShortDescriptionsNeverDetect` | src/pages/ReportIssue.tsx:30 | descriptions of at most 20 characters never trigger detection |
| `ReportForm.ImageUrlOf` | src/pages/ReportIssue.tsx:51 | an empty image URL is sent as absent, and any other is sent unchanged |
| `ReportForm.ImageUrlRoundTrip` | src/pages/ReportIssue.tsx:51 | the typed image URL can be read back from what is sent |
| `ReportForm.Submit` | src/pages/ReportIssue.tsx:39-52 | nothing is sent without a signed-in user; otherwise the form's fields, the reporter's id and name, and the normalised image URL |
| `ReportForm.PageSubmit` | src/pages/ReportIssue.tsx:65-84 | a report is sent exactly when the `required` title, description and location are filled in and a user is signed in; it then carries them |
| `ReportForm.UndetectedReportIsGeneral` | src/pages/ReportIssue.tsx:24-48 | a report whose descriptions were all short is filed under General |

## Left out

- `src/lib/queries.ts` is not part of this model. Its database calls have defaults and errors that cannot be seen.
- The store functions the pages call (`getStats`, `getDepartmentStats`, `getIssueById`, `updateIssueStatus`, `createIssue`, `getCurrentUser`, `getUserIssues`, `getIssues`) are not part of this model. Their bodies cannot be seen. The model stops at the values the pages hand them, and their results are parameters.
- The effect of a status update on an issue (timeline entry, `updatedAt`) belongs to `updateIssueStatus` and is left out.
- The "Issue not found" view is left out, as are the toasts after an update.
- Routing, the admin-only and sign-in redirects, and the login page are navigation, not decision logic.
- The landing page, the departments page, the overview page and the badge colour maps are presentation, and are left out.
- Charts, animations and date formatting are left out.
- `Analytics.ResolutionRate`: the page divides in floating point and then calls `Math.round`. The model takes the exact quotient, `(200 * resolved + total) / (2 * total)`. A float product that lands a hair below or above a half may round the other way.
- `Analytics.SuccessThreshold`: the department rates come from `getDepartmentStats`, which is not part of this model. The lemma assumes they use the same rounding as the overall rate. The colour rule itself, `SuccessStyle`, is modelled as written.
- `Text.Lower`: `toLowerCase` is modelled for ASCII letters only. Other scripts' case mappings are left out.
- Lengths are counted in characters, not in UTF-16 code units. This affects the 6- and 8-character password bounds and the 20-character detection threshold for text outside the Basic Multilingual Plane.
- React may batch several description changes before a re-render, and each change then reads the same stale `detected` flag. The model applies one input per render.
- `signUp` is asynchronous, and the loading flag is left out. Its answer is a parameter of `Signup.AfterSignUp`.
- `Signup.PageSubmit`: which e-mail addresses the browser accepts for `type="email"` is the browser's rule, so it is a parameter. Its sanitising of the e-mail value (dropping line breaks and surrounding spaces) is left out too.
- `Signup.HandleSubmit`: on its own it does not check the name and e-mail fields, as in the source. The browser's checks of the `required` inputs are modelled one step earlier, in `Signup.PageSubmit`.
- `ReportForm.Submit`: on its own it accepts an empty title, description or location, as `handleSubmit` does. The browser's `required` check is modelled one step earlier, in `ReportForm.PageSubmit`.

## Findings

| source | as written | input that shows it | evidently intended | confidence | as-written member | corrected member |
|---|---|---|---|---|---|---|
| src/pages/IssueDetail.tsx:21-53 | `handleUpdate` submits `newStatus` without checking it against the statuses the selector offers. `newStatus` starts at `reviewed` and is only changed by picking an offered item. | An issue in `in_progress`, the selection left untouched, the note "Parts ordered": the update sends the issue back to `reviewed`. | Refuse any status that is not strictly later than the current one, as the selector does. Forward skips stay allowed. | not executed | `Lifecycle.BackwardUpdateAccepted` | `Lifecycle.CheckedUpdateIsForward` |
