# CodeSmart NG site scripts — a Dafny model

This project models the browser-side logic of the CodeSmart NG training
site. The logic lives in three scripts:

- `script.js`, the marketing page:
  - the course-finder quiz, with its in-place tally, reset and winner rule;
  - the WhatsApp enrolment message;
  - the newsletter form's check before it calls the backend.
- `admin/admin.js`, the admin dashboard's utilities:
  - the HTML sanitiser, and the e-mail and Nigerian phone validators;
  - the course and event form validators;
  - CSV export, the key/value filter and the upload type/size gate;
  - the notification lookup tables;
  - the two-tier (session, then local) storage with its built-in defaults.
- `blog.js`, the blog:
  - view, reading-time and signup tracking;
  - related articles and the view-count lookup;
  - the e-mail check;
  - the category-filter and search predicates.

Module layout:

- `Js`: optional values, primitive values with JavaScript truthiness, and decoded JSON documents.
- `Strings`: `includes`, `split`/`join` on one character, `toLowerCase`, the `\s` class, whitespace stripping, character counts and the UTF-16 length `.length` reports.
- `Patterns`: the e-mail regular expression `/^[^\s@]+@[^\s@]+\.[^\s@]+$/`, both as a declarative shape and as a scanner, with a proof that the two agree.
- `Site`: `script.js`.
- `AdminSecurity`, `AdminNotify`, `AdminUpload`, `AdminForms`, `AdminExport`, `AdminFilter`, `AdminData`: `admin/admin.js`.
- `Blog`: `blog.js`.

Three entities change in place, so each is a class:

- `Site.Quiz`, the quiz tally;
- `AdminData.AdminStore`, the dashboard's local and session storage;
- `Blog.BlogStore`, the blog's storage.

The form validators push messages onto a list step by step, so they are methods. Each is proved against a specification function.

Browser storage is modelled as maps holding already-decoded JSON values, so `JSON.stringify` followed by `JSON.parse` is the identity.

## Model

| member | source | states |
|---|---|---|
| Js.Truthy | admin/admin.js:449 | `undefined`, `null`, `false`, `0` and `""` are falsy and every other primitive is truthy |
| Js.ToText | admin/admin.js:388 | `'' + cell` of a string is the string itself, and the text is empty only for the empty string |
| Site.Quiz.constructor | script.js:4 | the tally starts with all three counters at zero |
| Site.Quiz.Reset | script.js:268-269 | `resetQuiz` sets every counter back to zero |
| Site.Quiz.Answer | script.js:276-278 | a click on a known key adds exactly one to that counter and leaves the other two; an unknown key leaves all three |
| Site.Quiz.Recommend | script.js:286-307 | all counters zero iff the result is "Computer Basics"; otherwise the result is the display name of the unique leader, i.e. the first index with the highest positive tally (ties go to the earlier key, since the scan replaces only on `>`) |
| Site.LeaderUnique | script.js:293-298 | the tie-break rule singles out at most one key |
| Site.LeaderExists | script.js:293-298 | whenever some counter is positive a leader exists |
| Site.FirstMax | script.js:293-298 | the first index of a maximal tally: no tally is higher, and every earlier one is strictly lower |
| Site.ReplayCounts | script.js:268-278 | after any sequence of clicks from a tally, each counter has grown by exactly the number of clicks on its key |
| Site.ReplayNeverDecreases | script.js:269-278 | between resets, no counter ever decreases |
| Site.ReplaySnoc | script.js:276-278 | one more click is one more increment of the replayed tally |
| Site.QuizSession | script.js:258-307 | opening the quiz, clicking a sequence of options and reading the result recommends the most-clicked key (earliest on ties), or "Computer Basics" when no known key was clicked |
| Site.EnrollMessage | script.js:92-93 | the message is the fixed greeting, then the course, then "."; the course is read back from it unchanged |
| Site.NewsletterSubmit | script.js:416-419 | the form subscribes iff the address holds at least one `@`, so the empty address is refused; a refusal carries the fixed notice, and a subscription carries the address unchanged |
| Site.NonZeroCount | script.js:416 | `includes('@')` holds iff the count of `@` is positive |
| Site.EmailPatternPassesNewsletter | script.js:416-419 | every address the blog's and the dashboard's e-mail expression accepts passes the newsletter check |
| Site.NewsletterLaxerThanPattern | script.js:416-419 | the bare "@" passes the newsletter check, but the e-mail expression refuses it |
| Strings.Split | blog.js:72 | `split` on one character gives at least one piece, and no piece holds the separator |
| Strings.JoinSplit | blog.js:72 | joining the pieces of a split gives the string back |
| Strings.SplitJoin | admin/admin.js:383 | splitting a join of separator-free pieces gives the pieces back |
| Strings.Lower | blog.js:104 | `toLowerCase` keeps the length and maps each letter to lower case |
| Strings.LowerIdempotent | blog.js:104 | lower-casing twice is lower-casing once |
| Strings.LowerKeepsContains | blog.js:117-120 | a substring stays a substring after both strings are lower-cased |
| Strings.ContainsTransitive | blog.js:120 | `includes` is transitive |
| Strings.StripWhitespace | admin/admin.js:555 | `replace(/\s/g, '')` yields no whitespace and is no longer than its input |
| Strings.StripConcat | admin/admin.js:555 | stripping distributes over concatenation |
| Strings.StripIdempotent | admin/admin.js:555 | stripping twice is stripping once |
| Strings.OccursOnce | admin/admin.js:548 | an element present at exactly one index is counted once |
| Strings.OccurrencesConcat | admin/admin.js:388 | counting distributes over concatenation |
| Strings.Utf16Length | admin/admin.js:321 | `.length` counts UTF-16 code units: never fewer than the characters nor more than twice as many, and exactly as many iff no character lies outside the Basic Multilingual Plane |
| Patterns.IndexOfChar | admin/admin.js:548 | the first index of a character, or the length when it is absent |
| Patterns.MatchesEmailCorrect | admin/admin.js:547-550 | the scanner accepts exactly the strings the e-mail expression matches, in both directions |
| Patterns.EmailPatternIntro | admin/admin.js:548 | a non-empty `[^\s@]` run, `@`, another run, `.`, and a third run always match |
| Patterns.EmailPatternOneAt | blog.js:203-206 | a matching address holds exactly one `@` and no whitespace |
| AdminSecurity.EscapeEach | admin/admin.js:535-544 | the per-character escape leaves none of the five special characters and never shortens its input |
| AdminSecurity.Sanitize | admin/admin.js:538-543 | the five chained global replacements on a string escape each special character once and keep every other character |
| AdminSecurity.ApplyPassesChar | admin/admin.js:539-543 | on a single character, the chain of global replacements yields the entity of the first pass that matches |
| AdminSecurity.FirstEntityIsEscape | admin/admin.js:539-543 | for the sanitiser's five passes, that first matching entity is the character's escape |
| AdminSecurity.SanitizeChar | admin/admin.js:539-543 | the five chained replacements escape a one-character string |
| AdminSecurity.SanitizeIsEscapeEach | admin/admin.js:538-543 | the five chained `replace` calls equal one per-character escape: each special character becomes its entity and every other character stays |
| AdminSecurity.SanitizeInput | admin/admin.js:535-544 | a non-string is returned unchanged; a string is escaped per character, and the result holds none of `< > " ' /` |
| AdminSecurity.SanitizeIdempotent | admin/admin.js:535-544 | sanitising twice is sanitising once |
| AdminSecurity.SanitizeNotInjective | admin/admin.js:538-543 | `&` is not escaped, so "<" and "&lt;" sanitise to the same text |
| AdminSecurity.UnescapeEscapeEach | admin/admin.js:538-543 | for text without `&`, decoding the five entities recovers the original |
| AdminSecurity.IsValidEmail | admin/admin.js:547-550 | true iff the address matches the e-mail expression; an accepted address has exactly one `@` |
| AdminSecurity.IsValidPhone | admin/admin.js:553-556 | an accepted number, once whitespace is stripped, is `0` or `+234` followed by a ten-character national number (7/8/9, then 0/1, then eight digits); so it has 11 or 14 characters, a `+` or `0` lead, and digits after that |
| AdminSecurity.PhoneIntro | admin/admin.js:553-556 | conversely, `0` or `+234` followed by 7/8/9, then 0/1, then eight digits is always accepted |
| AdminSecurity.PhonePattern | admin/admin.js:554 | a string the phone expression matches is 11 or 14 characters long and starts with `0` or `+` |
| AdminSecurity.PhoneIgnoresWhitespace | admin/admin.js:555 | inserting a whitespace character anywhere does not change the verdict |
| AdminSecurity.PhonePrefixesAgree | admin/admin.js:554 | `0` and `+234` are interchangeable before the national number |
| AdminNotify.NotificationIcon | admin/admin.js:234-242 | each known type gets its table icon; any other type gets the info icon |
| AdminNotify.NotificationColor | admin/admin.js:244-252 | each known type gets its table colour; any other type gets the info colour |
| AdminNotify.TablesCoverKnownTypes | admin/admin.js:235-251 | both tables have exactly the four known types as keys |
| AdminNotify.DistinctLooks | admin/admin.js:235-251 | two different known types never share an icon or a colour |
| AdminUpload.UploadFile | admin/admin.js:272-297 | no file gives no upload; a file is accepted iff its MIME type is in the kind's list and its size is at most the kind's limit; otherwise it is rejected with the type message first, then the size message |
| AdminUpload.SizeLimitIsInclusive | admin/admin.js:291-293 | exactly the limit is accepted, one byte more is rejected |
| AdminUpload.UnknownKindIsImage | admin/admin.js:284-291 | every kind other than "pdf" is treated as "image" |
| AdminUpload.KindsDisjoint | admin/admin.js:279-282 | no file is accepted both as a PDF and as an image |
| AdminForms.KeptEmpty | admin/admin.js:319-341 | a rule list reports nothing iff no rule fails |
| AdminForms.KeptStep | admin/admin.js:319-341 | checking one more rule appends its message exactly when it fails |
| AdminForms.KeptFromList | admin/admin.js:319-341 | every reported message is the message of a failing rule |
| AdminForms.KeptMember | admin/admin.js:319-341 | with distinct messages, a rule's message is reported iff that rule fails |
| AdminForms.KeptAll | admin/admin.js:319-341 | when every rule fails, every message is reported, in order |
| AdminForms.ValidateCourseForm | admin/admin.js:318-342 | the errors are the failing rules' messages in rule order; none iff the name is at least 3 UTF-16 code units long, category and duration are given, the fee is positive and the description is at least 10 code units long; at most five messages |
| AdminForms.CourseRulesInOrder | admin/admin.js:319-341 | the course errors are the five rule checks' messages concatenated in source order |
| AdminForms.CourseValidIff | admin/admin.js:318-342 | no course error iff the form is valid |
| AdminForms.AstralNameAccepted | admin/admin.js:321 | a name of "a" and an emoji, two characters but three code units, passes the name rule |
| AdminForms.CourseMessageIff | admin/admin.js:319-341 | each course message is reported iff its own rule fails |
| AdminForms.ZeroFeeRefused | admin/admin.js:333 | a fee of 0 is reported, because 0 is falsy |
| AdminForms.EmptyCourseForm | admin/admin.js:318-342 | an empty form gets all five messages in order |
| AdminForms.ValidateEventForm | admin/admin.js:345-369 | the errors are the failing rules' messages in rule order; none iff the title is at least 3 UTF-16 code units long, both dates are given and start is before end, the venue is given and the description is at least 10 code units long; at most five messages |
| AdminForms.EventRulesInOrder | admin/admin.js:347-368 | the event errors are the rule checks' messages concatenated in source order |
| AdminForms.EventValidIff | admin/admin.js:345-369 | no event error iff the event is valid |
| AdminForms.DateOrderReported | admin/admin.js:356-358 | with both dates given, the date-order message is reported iff start is not before end |
| AdminForms.EventRulesIndependent | admin/admin.js:347-368 | the title, venue and description messages each depend on their own field only: two forms that agree on that field agree on that message |
| AdminExport.Keys | admin/admin.js:381 | the header keys are the row's keys in order |
| AdminExport.Lookup | admin/admin.js:386 | a missing key reads as `undefined`; otherwise the first entry with that key is returned |
| AdminExport.DoubleQuotes | admin/admin.js:388 | doubling adds exactly one character per `"` |
| AdminExport.QuoteCell | admin/admin.js:388-389 | a cell starts and ends with `"` |
| AdminExport.CsvLines | admin/admin.js:381-392 | one header line of the first row's keys joined by `,`, then one line per row of quoted cells in header order |
| AdminExport.ExportToCsv | admin/admin.js:374-394 | nothing is exported iff the data is missing or empty; otherwise the file name gets ".csv" and the text is the lines joined by `\n` |
| AdminExport.ReadQuotedDoubled | admin/admin.js:388-389 | reading a quote-doubled text up to the closing quote returns the text and the rest |
| AdminExport.QuoteCellRoundTrip | admin/admin.js:388-389 | removing the outer quotes and undoubling the inner ones recovers the cell text |
| AdminExport.ReadCellsRoundTrip | admin/admin.js:384-391 | a line of quoted cells joined by `,` reads back as the original texts |
| AdminExport.RowLineRoundTrip | admin/admin.js:383-391 | each data line reads back as the row's cell texts in header order |
| AdminExport.MissingKeyWritesUndefined | admin/admin.js:386-388 | a row lacking a header key writes the text "undefined" in that column |
| AdminExport.DoubledQuotesPaired | admin/admin.js:388 | the escaped text holds twice as many `"` as the original |
| AdminExport.CsvSplitsIntoLines | admin/admin.js:394 | when no line holds a newline, splitting the CSV on `\n` gives the header and one line per row |
| AdminExport.HeaderSplitsIntoKeys | admin/admin.js:382 | when no key holds a comma, the header splits back into the keys |
| AdminFilter.FilterData | admin/admin.js:447-456 | every result matches all truthy filters and comes from the data; every matching item is kept; the result is no longer than the data |
| AdminFilter.Matches | admin/admin.js:448-455 | an item that passes has every truthy filter key, holding exactly the filter's value; with no truthy filter every item passes |
| AdminFilter.FilterConcat | admin/admin.js:448 | filtering distributes over concatenation, so the original order is kept |
| AdminFilter.FilterAllMatch | admin/admin.js:447-456 | data whose items all match is returned unchanged |
| AdminFilter.FilterNoneActive | admin/admin.js:450 | with no truthy filter value (including no filter at all) the data is returned unchanged |
| AdminFilter.FilterIdempotent | admin/admin.js:447-456 | filtering twice with the same filters is filtering once |
| AdminFilter.MatchesUnion | admin/admin.js:449-453 | matching filters on disjoint keys together is matching each set |
| AdminFilter.FilterCompose | admin/admin.js:447-456 | filtering by two filter sets on disjoint keys, one after the other, is filtering by their union |
| AdminData.PrefixInjective | admin/admin.js:89-92 | distinct data types get distinct storage keys |
| AdminData.DefaultData | admin/admin.js:126-184 | the default is an object with the type as its only key, mapped to an array with one sample record for a known type and an empty array otherwise |
| AdminData.Load | admin/admin.js:106-117 | the loaded value is a session entry, a local entry or the type's default, and the default whenever neither storage has the type |
| AdminData.AdminStore.constructor | admin/admin.js:84-123 | the store starts with the given local and session maps |
| AdminData.AdminStore.SaveData | admin/admin.js:84-99 | writes `admin_<type>` locally and `current_<type>` in the session, reports success, makes the value loadable, and changes no other type's loaded value |
| AdminData.AdminStore.LoadData | admin/admin.js:102-123 | reads the session entry first, then the local one, then the default |
| AdminData.LoadAfterSave | admin/admin.js:84-123 | after saving a value, loading the same type returns it |
| AdminData.SaveLeavesOthers | admin/admin.js:84-123 | saving one type never changes what another type loads |
| AdminData.SessionShadowsLocal | admin/admin.js:106-110 | a session entry is returned whatever local storage holds |
| AdminData.FreshUnknownType | admin/admin.js:113-117 | with both stores empty, an unknown type loads as `{type: []}` |
| Blog.Bump | blog.js:26-28 | the stored count for the key grows by the amount, starting from 0 when absent; every other key keeps its value |
| Blog.BlogStore.constructor | blog.js:25-36 | every store starts empty |
| Blog.BlogStore.TrackArticleView | blog.js:25-29 | the article's view count goes up by one, from 0 when absent; nothing else changes |
| Blog.BlogStore.TrackReadingTime | blog.js:32-36 | the seconds are added to the article's total, from 0 when absent; nothing else changes |
| Blog.BlogStore.TrackNewsletterSignup | blog.js:208-215 | exactly one entry with the address and the time is appended; earlier entries and the other stores are kept |
| Blog.BlogStore.ViewAll | blog.js:25-29 | viewing a list of articles in turn equals replaying the view counts |
| Blog.ReplayViewsCount | blog.js:25-29 | after a sequence of views, each article's count has grown by the number of its views |
| Blog.ReplayViewsSnoc | blog.js:25-29 | one more view is one more increment |
| Blog.ReadingTimesAdd | blog.js:32-36 | two reading-time records for an article add up like one record of their sum |
| Blog.Find | blog.js:412 | `find` returns nothing iff no article has the id; otherwise the first article with that id: every earlier article has another id |
| Blog.SameCategory | blog.js:415-416 | every candidate is a table article of the category other than the current one, and every such article is a candidate |
| Blog.SameCategoryConcat | blog.js:415-416 | the filter distributes over concatenation, so candidates keep table order |
| Blog.RelatedIn | blog.js:412-417 | an id not in the table gives none; otherwise each result is in the current one's category with a different id, and there are exactly as many results as candidates, capped at three |
| Blog.RelatedComplete | blog.js:415-417 | when at most three candidates exist, every one of them is returned |
| Blog.RelatedIsPrefix | blog.js:415-417 | the result is a prefix of the candidates in table order; with the length clause of `RelatedIn`, it is the first three (or all, when fewer) |
| Blog.GetRelatedArticles | blog.js:400-418 | ids outside 1–7 give none; otherwise at most three articles of the same category as the current one, the current one excluded, and every other article of that category is among them |
| Blog.FewCandidates | blog.js:402-417 | in the built-in table no category has more than three other articles, so the `slice(0, 3)` drops none |
| Blog.FindInTable | blog.js:402-412 | each id from 1 to 7 finds its own table row |
| Blog.GetArticleViews | blog.js:322-335 | ids 1–7 get their table value; any other id gets "500"; the result is never empty |
| Blog.ValidateEmail | blog.js:203-206 | true iff the address matches the e-mail expression; an accepted address has exactly one `@` and no whitespace |
| Blog.ShownByCategory | blog.js:72-74 | the `all` button shows every article; any other shown category holds no comma |
| Blog.SingleCategoryShown | blog.js:72-74 | an article with one category is shown by `all` and by that category's button, and by no other |
| Blog.ShownBySearch | blog.js:117-120 | an article is shown only if the term is no longer than its title or its first paragraph |
| Blog.ShownByCategoryTags | blog.js:72-74 | an article whose categories are the comma-joined tags is shown iff "all" is selected or the selection is one of the tags |
| Blog.CategoryTagsAreNotTrimmed | blog.js:72-74 | a tag written after ", " (with a space) never matches the selected category, because the pieces are not trimmed |
| Blog.EmptySearchShowsAll | blog.js:104-120 | the empty search term shows every article |
| Blog.SearchIgnoresCase | blog.js:104-120 | the search term's case does not matter |
| Blog.SearchNarrows | blog.js:117-120 | an article shown for a term is also shown for any piece of that term |

## Left out

- All DOM work is left out as presentation only: templating, class toggles, menus, scrolling, notification toasts, timers, the reading-progress bar, language toggles and comments.
- Networking and payment are left out as I/O and foreign widgets: `callAPI`/`fetch`, the Paystack checkout, the schedule, testimonial, course and webinar loaders, and the newsletter's subscribe request. `Site.NewsletterSubmit` stops at the decision to send.
- The counter animation is left out: it is floating-point timer code.
- `formatDate`, `formatCurrency` and `generateId` are left out: they rely on locale libraries, the clock and randomness.
- `URL.createObjectURL`, `Blob` and download links are left out: upload success carries the file's name, size and type but no URL, and export stops at the file name and CSV text.
- `encodeURIComponent` and `window.open` in `enroll` are left out; the model stops at the message text.
- `exportToJSON`, `searchTable`, `checkAuth`, `logout`, the sidebar, `initializeAdminDashboard` and `loadInitialData` are left out: they are serialisation, DOM and session plumbing.
- `shareArticle`, `lazyLoadImages` and `simulateViewCounts` are left out: they only build URLs or touch the DOM.
- The third-party admin framework block at the top of `admin/admin.js` is not part of this model, and neither is `backend/server.js`: both are framework wiring.
- The date of a newsletter signup is a parameter of `Blog.BlogStore.TrackNewsletterSignup`, since the clock is not modelled.
- Storage quota errors are not modelled, so neither is the `reject` path of `saveData`/`loadData`. Both are modelled as plain methods rather than promises.
- JSON serialisation is not modelled: storage holds decoded values, and a stored value is treated as present whenever its key exists (the stored text is never empty).
- JavaScript numbers are modelled as integers. NaN, fractions and string-to-number coercion (of the course fee, of article ids in `getRelatedArticles`' loose `==`) are not modelled: fees and ids are integers.
- Event dates are optional integer timestamps; `Date` parsing and the Invalid Date comparisons are not modelled.
- AdminForms.ValidateEventForm: a missing date is modelled as `undefined` or empty, which `new Date` turns into an Invalid Date, so the order rule passes. A `null` date is not modelled: `new Date(null)` is the epoch, so with one date `null` or both `null` the source also reports "End date must be after start date" whenever start >= end.
- Site.Quiz.Answer: a `data-points` key other than the three makes the source add a NaN-valued entry to the tally. That entry can never win, since `NaN > max` is false. The model leaves the three counters unchanged and keeps no extra entry.
- Strings.Lower: `toLowerCase` is modelled on ASCII letters only; other alphabets keep their case.
- Keys inherited from `Object.prototype` (such as "toString") in the lookup tables and filters are not modelled.
- AdminExport.Lookup: cells and filter values are primitive values only; objects and arrays inside a row, and their `'' + cell` text, are not modelled.
- File contents of uploads are not modelled; only name, MIME type and size matter to the checks.
