# EC2G lab website: verified model of its scripts

The EC2G lab website is a static site. Its small amount of logic lives in two
scripts, and this project models them in Dafny:

- `js/utils.js` has three browser components.
  - The **news carousel** shows the five most recent news items, one slide at a
    time, with a dot per slide. Previous/next buttons and a 10-second timer move
    through the slides, wrapping around at either end.
  - The **countdown timer** shows the days, hours, minutes and seconds left
    before an event. Once the event has started it switches to a fixed message
    and cancels its 1-second interval.
  - The **ORCID publications loader** takes the works list of an ORCID record and
    keeps the first summary of each group. It builds a numeric `YYYYMMDD` date
    key from each summary and keeps only journal articles. It shows the five
    newest, or an empty-state message, or a single failure message when
    anything goes wrong.
- `build.js` is the **build validator**. It checks that the required files and
  directories exist. It runs substring checks over the HTML pages, the
  stylesheet and the scripts, and exits with status 1 when any check failed.

Modules, one file each:

- `JsSemantics`: the JavaScript behaviour the scripts depend on. Numbers are
  integers or `NaN`, and `%` truncates. Also `includes`, `endsWith`, `padStart`,
  `Number(...)` on digit strings, and `Math.floor`.
- `Lists`: `filter`, the stable descending sort by an integer key, and
  `slice(0, k)`.
- `Arithmetic`: small facts about division and remainder.
- `Carousel`: `NewsCarousel`, a class whose slide and dot "active" flags are
  boolean sequences.
- `Countdown`: `CountdownTimer`, a class whose interval is an optional handle.
  The time-unit formulas are written with exact reals, as in the script.
- `Publications`: the selection pipeline as functions, plus the
  `ORCIDPublications` class and the view its container shows.
- `BuildValidator`: the file system as a map from path to entry, the content
  checks, the suffix filters and `main`. `main` returns its report and its exit
  status.

Browser events, timers and the network become explicit inputs. A timer firing
is a method call (`Tick`, `AutoAdvanceTick`). The current time is a parameter
`now` in milliseconds. The HTTP response is a `Response` value.

## Model

| member | source | states |
|---|---|---|
| JsSemantics.Add | js/utils.js:96 | `+` on a JS number: NaN stays NaN, otherwise the value grows by exactly `k` |
| JsSemantics.Rem | js/utils.js:96-101 | JS `%`: NaN exactly when the dividend is NaN or the divisor is 0; for a non-negative dividend the result is the mathematical remainder in `[0, n)`, for a negative one it lies in `(-n, 0]`; in both cases the dividend minus the result is a multiple of `n`, which with the range fixes the truncated remainder |
| JsSemantics.Floor | js/utils.js:143-146 | `Math.floor` gives the integer `r` with `r <= x < r + 1` |
| JsSemantics.IncludesIff | build.js:88 | `includes` holds exactly when the needle occurs at some index of the text |
| JsSemantics.PadStart | js/utils.js:204 | `padStart` gives length `max(len, |s|)`, ends with `s`, and is filled with the fill character in front |
| JsSemantics.Number | js/utils.js:204 | `Number(s)` is a number exactly when `s` is a digit string, and then lies in `[0, 10^|s|)` |
| JsSemantics.DigitsValueConcat | js/utils.js:204 | the value of concatenated digit strings is the first value shifted by the length of the second plus the second value |
| JsSemantics.LeadingZeros | js/utils.js:204 | padding a digit string with `'0'` keeps it a digit string of the same value |
| Lists.Filter | js/utils.js:215 | every element `filter` keeps passes the test, and the result is no longer than the input |
| Lists.FilterMembers | js/utils.js:215 | `filter` keeps exactly the elements that pass the test: every kept element comes from the input, every passing element is kept, and none occurs more often than in the input |
| Lists.FilterConcat | build.js:210 | `filter` keeps the relative order: filtering a concatenation concatenates the filtered parts |
| Lists.FilterKeepsPrefix | build.js:210 | a filter that passes exactly the first `n` elements returns that prefix, in order |
| Lists.FilterKeepsSuffix | build.js:225 | a filter that passes exactly the elements from index `n` on returns that suffix, in order |
| Lists.Insert | js/utils.js:216 | inserting into a descending sequence keeps it descending, adds exactly one copy of the element and keeps everything else |
| Lists.SortDesc | js/utils.js:216 | the descending sort returns a permutation of its input ordered by non-increasing key |
| Lists.Take | js/utils.js:217 | `slice(0, k)` is a prefix of length `min(k, |s|)` |
| Lists.TopK | js/utils.js:216-217 | sort then slice gives `min(k, |s|)` elements, in non-increasing key order, drawn from the input |
| Lists.TopKLeavesOutSmaller | js/utils.js:216-217 | every element left out by sort-then-slice has a key no larger than the last one kept |
| Carousel.Latest | js/utils.js:45-47 | the carousel shows `min(5, |news|)` items, newest first, taken from the news list |
| Carousel.LatestAreMostRecent | js/utils.js:45-47 | no news item left out is newer than the oldest one shown |
| Carousel.NextIndex | js/utils.js:96 | the next index wraps from the last slide to 0 and otherwise adds 1; with no slides it is NaN |
| Carousel.PrevIndex | js/utils.js:101 | the previous index wraps from 0 to the last slide and otherwise subtracts 1; with no slides it is NaN |
| Carousel.PrevUndoesNext | js/utils.js:95-103 | for a valid index, previous after next and next after previous both give back the index |
| Carousel.NextRepeatedWraps | js/utils.js:95-98 | `k` steps forward from index `c` land on `(c + k) mod n` |
| Carousel.NextCycles | js/utils.js:95-98 | `n` steps forward return to the start index |
| Carousel.OnlyOneActive | js/utils.js:85-91 | flags set to "position equals `k`" have exactly one active flag when `k` is a position, none otherwise |
| Carousel.FirstActive | js/utils.js:58 | freshly generated slides (and dots) have only the first one active |
| Carousel.NewsCarousel.constructor | js/utils.js:5-13 | a new carousel shows the latest items, has the auto-advance running, shows slide 0, and marks exactly slide 0 and dot 0 active |
| Carousel.NewsCarousel.Init | js/utils.js:15-41 | on a carousel without slides: generates the latest items, starts the auto-advance and shows slide 0, so exactly slide 0 and dot 0 are active |
| Carousel.NewsCarousel.GenerateSlides | js/utils.js:43-83 | appends one slide and one dot per item of the latest five; among the new ones only the first slide and first dot are active |
| Carousel.NewsCarousel.ShowSlide | js/utils.js:85-93 | slide `i` is active exactly when `i == idx`, and so is dot `i` where there is one; `currentSlide` becomes `idx` without normalisation |
| Carousel.NewsCarousel.NextSlide | js/utils.js:95-98 | moves to `NextIndex` of the current slide and keeps exactly that slide and dot active |
| Carousel.NewsCarousel.PrevSlide | js/utils.js:100-103 | moves to `PrevIndex` of the current slide and keeps exactly that slide and dot active |
| Carousel.NewsCarousel.StartAutoAdvance | js/utils.js:105-109 | the 10-second interval is registered |
| Carousel.NewsCarousel.AutoAdvanceTick | js/utils.js:106-108 | a firing of the interval is the same step as the next button; with no interval nothing moves |
| Carousel.NewsCarousel.StopAutoAdvance | js/utils.js:111-115 | the interval is no longer running |
| Carousel.NewsCarousel.ExactlyOneActive | js/utils.js:85-92 | while the current index is a slide position, exactly one slide and exactly one dot are active |
| Countdown.FloorOfQuotient | js/utils.js:143 | flooring the real quotient `a / k` is integer division |
| Countdown.FloorOfFloatRem | js/utils.js:144-146 | flooring a floating `%` by `m` of a non-negative value is the floor taken modulo `m` |
| Countdown.Decompose | js/utils.js:143-146 | for a positive difference: days ≥ 0, hours in 0..23, minutes and seconds in 0..59, and `days*86400 + hours*3600 + minutes*60 + seconds` is the difference in whole seconds, with milliseconds truncated |
| Countdown.SecondsTickDown | js/utils.js:130-146 | one second later the seconds field has gone down by one, wrapping from 0 to 59 |
| Countdown.View | js/utils.js:137-153 | the element shows exactly "The event has started!" when the difference is ≤ 0, and the remaining time otherwise |
| Countdown.CountdownTimer.constructor | js/utils.js:120-131 | given a non-zero `setInterval` handle (a truthy one, as browsers return): the element shows the view at construction time, and the interval handle is set and ticking even when the target is already past |
| Countdown.CountdownTimer.UpdateCountdown | js/utils.js:133-154 | the element shows the view for `now`; the ticker stops exactly when the event has started and a handle is set |
| Countdown.CountdownTimer.Stop | js/utils.js:156-160 | the interval is cleared only when a handle is set |
| Countdown.CountdownTimer.Tick | js/utils.js:130 | a firing of a live interval updates the countdown; a cleared interval changes nothing |
| Countdown.PastTargetScenario | js/utils.js:128-160 | with a target already past, the interval is still running after construction, stops at the first tick, and the message stays the same |
| Publications.ToPublication | js/utils.js:197-213 | title defaults to "Untitled" when missing or empty; url is null exactly when missing or empty; the year is the given year text, or empty when missing; the date key is a number exactly when the date text is all digits (see the `JsSemantics.Number` line under Left out); type and put-code are copied |
| Publications.DateKeyReadsAsCalendarDate | js/utils.js:201-204 | the date key equals `year*10000 + month*100 + day`, with a missing month or day counting as 1 and a missing year as 0, so an undated entry has key 101 |
| Publications.DigitDateIsDigits | js/utils.js:204 | digit year, month and day give a digit date text, so `Number` gives a number |
| Publications.FirstSummaries | js/utils.js:196-198 | taking the first summary succeeds exactly when every group has a non-empty summary list, and then gives one summary per group, in order |
| Publications.ToPublications | js/utils.js:196-214 | `map` gives one publication per summary, in order |
| Publications.JournalKeysAreNumbers | js/utils.js:204-215 | every journal article that survives the filter has a numeric date key |
| Publications.SelectPublications | js/utils.js:215-217 | at most 5 entries, exactly `min(5, #journal articles)`, all journal articles, sorted by non-increasing date key, drawn from the filtered list |
| Publications.OlderArticlesLeftOut | js/utils.js:216-217 | every journal article left out has a date key no larger than the last one shown |
| Publications.LoadPublications | js/utils.js:181-219 | loading fails exactly on a network error, a non-ok status, a body that is not JSON, or a group without a first summary; on success it gives at most 5 journal articles |
| Publications.MissingGroupShowsNoPublications | js/utils.js:193 | a body without `group` loads as no publications and shows "No publications found." |
| Publications.Rendered | js/utils.js:222-242 | "No publications found." exactly for an empty list; otherwise a list with one item per publication, in order |
| Publications.Outcome | js/utils.js:172-178 | the container shows "Unable to load publications at this time." exactly when loading failed |
| Publications.ORCIDPublications.constructor | js/utils.js:165-170 | the container ends up showing the outcome of loading the response |
| Publications.ORCIDPublications.Init | js/utils.js:172-179 | any loading failure is caught and replaced by the single failure message; otherwise the publications are displayed |
| Publications.ORCIDPublications.DisplayPublications | js/utils.js:222-242 | the container shows the rendering of the list, built one item at a time |
| BuildValidator.CheckFile | build.js:48-63 | true exactly when the path exists and is a regular file |
| BuildValidator.CheckDirectory | build.js:65-80 | true exactly when the path exists and is a directory |
| BuildValidator.ReadFile | build.js:84 | a read succeeds only for an existing regular file |
| BuildValidator.IssuesCountFailures | build.js:85-119 | at most one issue per check, and no issue exactly when every check passes |
| BuildValidator.HtmlChecksTest | build.js:88-117 | what each HTML check tests; the seventh fails when `data.js` or `utils.js` (or both) is missing |
| BuildValidator.HtmlIssuesInOrder | build.js:85-117 | the HTML issue list holds one message per failed check, in the order of the checks |
| BuildValidator.HtmlIssuesEmptyIff | build.js:88-126 | the HTML issue list is empty exactly when the page contains all eight required pieces |
| BuildValidator.HtmlStructureIssues | build.js:85-104 | the issues pushed by the four structure checks (doctype, `<html`, `<head>`, `<body>`) are exactly the issue list of those checks, in order |
| BuildValidator.HtmlIssues | build.js:85-117 | the issues pushed by the seven HTML checks are exactly the issue list of those checks |
| BuildValidator.CssAndJsChecksTest | build.js:138-170 | the CSS issue list reports a missing `:root` then a missing `@media`; the script issue list has one entry exactly when `function` occurs and `{` does not |
| BuildValidator.CssIssues | build.js:136-146 | the issues pushed by the two CSS checks are exactly their issue list |
| BuildValidator.JsIssues | build.js:165-170 | the issue pushed by the brace check is exactly its issue list |
| BuildValidator.ValidateHTML | build.js:82-131 | true exactly when the file reads and contains every required piece; false on a read error |
| BuildValidator.ValidateCSS | build.js:133-160 | true exactly when the file reads and contains both `:root` and `@media`; false on a read error |
| BuildValidator.ValidateJavaScript | build.js:162-184 | false exactly when the file does not read, or it contains `function` but no `{` |
| BuildValidator.PagesEndInHtml | build.js:15-24 | the first five required files end in `.html` and the other three do not |
| BuildValidator.ScriptsEndInJs | build.js:15-24 | the last two required files end in `.js` and the first six do not |
| BuildValidator.HtmlFilesAre | build.js:210 | the `.html` filter gives the five pages, in manifest order |
| BuildValidator.JsFilesAre | build.js:225 | the `.js` filter gives `js/data.js` and `js/utils.js`, in manifest order |
| BuildValidator.RunCheck | build.js:194-229 | each stage's check returns exactly what that stage demands of the path |
| BuildValidator.RunStage | build.js:194-198 | one `forEach`: a verdict for every path in order, and the flag stays set exactly when it was set and every path passed |
| BuildValidator.StageReportPasses | build.js:194-198 | a stage's verdicts all pass exactly when every path passes |
| BuildValidator.AllPassedConcat | build.js:190-229 | a report joined from two parts passes exactly when both parts pass |
| BuildValidator.RunValidation | build.js:186-239 | every check of every stage runs in order without short-circuit, and the exit status is 1 exactly when the site is not ready |
| BuildValidator.ReadyIffAllPassed | build.js:190-239 | the site is ready exactly when every verdict in the report passed |
| BuildValidator.SiteReportCoversManifest | build.js:14-33 | for the site's manifest the report has 21 verdicts: 8 files, 5 directories, 5 pages, 1 stylesheet, 2 scripts |
| BuildValidator.MissingFileFailsBuild | build.js:48-58 | a missing required file appears as a failed verdict at its position and makes the build fail |

## Left out

- DOM plumbing is not modelled: element lookup, `innerHTML` templates, `createElement`, `insertBefore`, `classList` and event-listener wiring. Slides and dots are their active flags. Rendered publications are `ListItem` values. The countdown element is a `Display` value.
- The `DOMContentLoaded` bootstrap (js/utils.js:280-303) and `TemplateLoader` (js/utils.js:246-277) only insert fixed markup and construct the components, so they are not modelled.
- `fetch`, HTTP, JSON parsing and `async`/`await` become the `Response` input. It is a network error, or a status flag with an optional parsed body.
- Browser timers are not modelled. `setInterval` and `clearInterval` become a handle or flag, and each firing is an explicit method call. The countdown's handle is a parameter of the constructor.
- `Date` parsing and the wall clock are not modelled. The countdown takes the target and `now` as integer milliseconds. A target the script cannot parse (a NaN difference) is not modelled.
- Floating point is not modelled. The countdown formulas use exact reals, so rounding of large millisecond values is not captured.
- JsSemantics.Number: models `Number(...)` on decimal digit strings only; every other text is taken to give NaN. JavaScript instead reads surrounding whitespace, a sign, a decimal point, an exponent or a hex prefix (`" 20230101"`, `"+20230101"` and `"20231.501"` are numbers). Such date texts occur only for entries that the journal-article filter drops or that `SortableDates` excludes.
- Publications.SelectPublications: requires every first summary to have digit-only year, month and day (`SortableDates`), because the model reads only digit strings (see `JsSemantics.Number`), and in JavaScript `Number(...)` of non-numeric text is NaN and a NaN sort key makes the order engine-defined.
- Publications.LoadPublications: requires the same digit-only dates for a successful response (`WellDated`), for the same reason. Outcome and the `ORCIDPublications` members inherit this.
- A work summary's nested optional fields are flattened to optional strings. A title object whose `value` is missing counts as a missing title.
- A group whose `work-summary` list is missing or empty makes the whole load fail, as the script's `TypeError` does.
- Lists.TopK: does not state stability. The descending insertion sort is stable, as `Array.prototype.sort` is, but the contracts only state order, length and membership.
- The in-place reordering of the global news array by `.sort` (js/utils.js:46) is not modelled. The carousel receives its news list as a value.
- The carousel's news dates are abstracted to integers that order like the dates.
- In build.js, console output and colours are not modelled. `main`'s output is the list of verdicts, and `process.exit(1)` is the returned exit status (0 for a normal exit).
- The file system is a map from path to entry. `existsSync`, `statSync` and `readFileSync` errors are absent paths, directories and unreadable files.
- `imageExtensions` is carried in the configuration but never used, as in the script.
- js/data.js is not part of this model. It is a static data literal.
- The main guard `require.main === module` and `module.exports` are not modelled.

Where the script differs from its intended behaviour:

- With no slides, `nextSlide` and `prevSlide` compute `x % 0`, which is NaN. The model keeps this: the index becomes NaN and no slide is active. The site's intent is that these are no-ops.
- `showSlide` does not bring its argument into range. A dot index is always in range, so this matters only for the NaN case above.
- `init` of the countdown runs `updateCountdown` before it stores the interval handle. So `stop` finds no handle when the target is already past at construction. The interval keeps running until its first firing stops it (`PastTargetScenario`).
