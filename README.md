# DataExtractor content script, modelled in Dafny

This project models the content script of a browser extension (`content_scripts/extractor.js`). The script reads fixed fields from two CRM pages, an Insightly project page and a SunRun partner page, and answers the side panel's "extract" message with either a record or an error. The model covers:

- **`cleanValue`** (module `CleanValue`). It maps a falsy value to `"N/A"`. Otherwise it strips the maximal leading and trailing runs of JavaScript `\s` whitespace, and it gives `"N/A"` when nothing is left. `IsWs` is the ECMAScript WhiteSpace and LineTerminator set.
- **The project id** (module `Paths`). It is `pathname.split('/').pop()`: `Split` is `split('/')` and `Last` is `pop()`. The module also has `Includes`, the case-sensitive `String.prototype.includes`.
- **The record** (module `Records`). The JavaScript object `data` becomes a list of entries kept in insertion order. JavaScript would list array-index keys such as "0" first, but every key the script writes (`projectId`, `url`, the field names, ...) is a non-index string, for which insertion order is the order. `Put` is the assignment `data[k] = v`: it overwrites an existing property in place and otherwise appends a new one. `Get` reads a property.
- **The site extractors and `extractData`** (module `Extractor`).
  - A `Page` is the page as the script sees it: `href`, `hostname`, `pathname`, `title`, the ISO timestamp, and `find`. For each element id, `find` gives what waiting for the element with that id yields: `Some(textContent)`, or `None` when the 5000 ms wait timed out.
  - The code waits with the selector `#id`, which is not a valid selector when the id starts with a digit. `SelectorWait` and `SiteResultAsWritten` model that lookup; see "## Findings".
  - `ExtractFields` is the field loop shared by `extractInsightlyData` and `extractSunRunData`. The two functions differ only in their table (`Mapping`) and their starting properties (`Metadata`). `ExtractSite` is either function, and `ExtractData` is the dispatcher.
  - `Fill`, `AnyFound`, `SiteResult` and `Dispatch` are the functions these methods are proved against.
- **The message listener** (module `Listener`). Class `MessageListener` holds the module-level `retryCount`. `OnMessage` takes the page as the first extraction sees it and the page as the delayed second extraction sees it. It returns the response, the `setTimeout` delay it schedules and the number of extractions it runs.

Facts about the code worth stating, because a reader might expect otherwise:
- **Path marker.** The marker test is `String.prototype.includes`, which is case-sensitive.
- **Retries.** Each "extract" message gets at most ONE re-extraction, after `1000 * retryCount` ms, and that second result is returned whatever it is. `retryCount` is reset only when a first result is answered directly, so it carries over from one message to the next. There is no loop of attempts within one request. `MissesCycle` states the consequence: when no field ever appears, three messages in a row get a retry and the fourth gets its own "Fields not found" at once.
- **Not in the extractors.** The extractors do no date highlighting and compute no dispatch identifier.

## Model

| member | source | states |
|---|---|---|
| CleanValue.LeadingWs | content_scripts/extractor.js:10 | the length of the leading run `^\s+` removes: everything before it is whitespace, and the next character is not |
| CleanValue.TrailingWs | content_scripts/extractor.js:10 | the length of the trailing run `\s+$` removes: everything after it is whitespace, and the character before is not |
| CleanValue.TrimSpec | content_scripts/extractor.js:10 | the trimmed text is a contiguous piece of the input; interior characters, newlines included, are unchanged; it has only whitespace on either side and none at either end |
| CleanValue.TrimUnique | content_scripts/extractor.js:10 | any split into whitespace, a middle with no whitespace at its ends, and whitespace has the trimmed text as its middle, so only the maximal runs are removed |
| CleanValue.TrimEmpty | content_scripts/extractor.js:10 | a text trims to the empty string exactly when it is all whitespace |
| CleanValue.Clean | content_scripts/extractor.js:7-11 | `cleanValue` never returns an empty string or one that starts or ends with whitespace, and returns "N/A" for null, undefined and "" |
| CleanValue.CleanText | content_scripts/extractor.js:8-10 | for a string, the result is "N/A" exactly when the string is blank or trims to "N/A"; otherwise it is the trimmed string |
| CleanValue.CleanIdempotent | content_scripts/extractor.js:7-11 | cleaning a cleaned value changes nothing |
| Paths.Split | content_scripts/extractor.js:41 | `split('/')` yields at least one piece and no piece contains '/' |
| Paths.JoinSplit | content_scripts/extractor.js:41 | joining the pieces of `split('/')` with '/' gives back the path |
| Paths.SplitJoin | content_scripts/extractor.js:41 | splitting slash-free pieces joined with '/' gives back the pieces |
| Paths.ProjectIdSpec | content_scripts/extractor.js:41 | `projectId` has no '/', ends the path, and is preceded by '/' unless it is the whole path |
| Paths.ProjectIdTrailingSlash | content_scripts/extractor.js:41 | a path ending in '/' has an empty `projectId` |
| Paths.IncludesSpec | content_scripts/extractor.js:119 | `includes` holds exactly when the marker occurs at some position of the path |
| Records.Get | content_scripts/extractor.js:64 | reading `data[k]` finds a value exactly when `k` is a property, and that value is stored under `k` |
| Records.Put | content_scripts/extractor.js:63 | after `data[k] = v`, `k` reads `v` and every other property is unchanged |
| Records.PutKeys | content_scripts/extractor.js:63 | an assigned key that already exists keeps its place in the key order, and a new key goes last |
| Extractor.ExtractFields | content_scripts/extractor.js:58-70 | the field loop builds exactly `Fill` of the table, and `fieldsFound` is true exactly when some mapped element appeared |
| Extractor.FillGet | content_scripts/extractor.js:59-69 | after the loop, each field name holds the cleaned text of its element, or "Field not found" if the wait timed out |
| Extractor.FillGetOther | content_scripts/extractor.js:40-69 | the loop changes no property whose name is not in the table |
| Extractor.FillKeys | content_scripts/extractor.js:40-69 | the record's keys are the metadata keys followed by every name of the table, in table order; none is omitted |
| Extractor.FillSpec | content_scripts/extractor.js:40-69 | together: keys complete and distinct, each field with its own value, metadata values untouched |
| Extractor.TablesWellFormed | content_scripts/extractor.js:47-56 | both tables have distinct names that are not metadata keys, and the metadata keys are distinct |
| Extractor.ExtractionError | content_scripts/extractor.js:72-74 | a site extractor returns `{error: "Fields not found"}` exactly when no element of its table appeared |
| Extractor.SiteResultData | content_scripts/extractor.js:38-115 | when some element appeared, `{data}` lists the site's metadata keys and then every field name of its table, with no key twice; each field holds its own value and each metadata property is unchanged |
| Extractor.ExtractSite | content_scripts/extractor.js:72-77 | the extractor's response is the error envelope when no field was found and the filled record otherwise |
| Extractor.SunRunWaits | content_scripts/extractor.js:87-101 | waiting with `#id` for SunRun's four "00N" ids fails at once, whatever the page; only `LastModifiedBy_ileinner` is looked up |
| Extractor.SunRunAsWritten | content_scripts/extractor.js:86-114 | as written, SunRun's four "00N" fields always hold "Field not found", and "Fields not found" is returned exactly when `LastModifiedBy_ileinner` is missing |
| Extractor.InsightlyAsWritten | content_scripts/extractor.js:47-75 | every Insightly id is a valid `#id` selector, so the Insightly extractor as written reads every element it waits for |
| Extractor.DigitIdCounterexample | content_scripts/extractor.js:86-114 | on a SunRun page where only "Status Update" is present, the extractor as written returns "Fields not found", while reading elements by id gives a record |
| Extractor.SelectSiteSpec | content_scripts/extractor.js:118-122 | Insightly is chosen exactly for host `crm.na1.insightly.com` with "/details/project/" in the path, and SunRun exactly for host `sunrun.my.site.com` with "/partner/" in the path |
| Extractor.DispatchInvalid | content_scripts/extractor.js:124-126 | "Not a valid Insightly or SunRun page" is returned exactly when neither site is recognised |
| Extractor.ExtractData | content_scripts/extractor.js:117-127 | `extractData` runs the selected site's extractor, or returns the invalid-page error |
| Listener.NextCountBounded | content_scripts/extractor.js:133-140 | the counter update keeps `0 <= retryCount <= MAX_RETRIES` |
| Listener.MissesCycle | content_scripts/extractor.js:133-140 | when every first attempt finds no field, the counter after n messages is (start + n) mod 4 |
| Listener.MessageListener.constructor | content_scripts/extractor.js:4-5 | the counter starts at 0 |
| Listener.MessageListener.OnMessage | content_scripts/extractor.js:129-146 | a first "Fields not found" with `retryCount < 3` increments the counter and schedules one more extraction after `1000 * retryCount` ms, whose result is returned as-is; any other first result resets the counter and is returned; an "extract" message runs at most two extractions; any other action is ignored |

## Left out

- `waitForElement` (content_scripts/extractor.js:13-36): the Promise, the `MutationObserver` and the 5000 ms timer are not modelled. The page's `find` function gives the outcome of each wait directly: `None` means the wait timed out.
- Page.find: `ExtractSite`, `ExtractData` and `OnMessage` read each element by its id, as an attribute selector `[id="..."]` would. The code's `#id` selector instead fails at once for the ids `00N60000002WJIm_ileinner`, `00N60000002VX72_ileinner`, `00N60000002VX7L_ileinner` and `00N60000002VX7S_ileinner`. That behaviour is modelled only by `SiteResultAsWritten`, not by the methods (see "## Findings").
- `window.location`, `document.title` and `new Date().toISOString()` are fields of `Page` and are taken as given. The page for the delayed second extraction is a separate parameter, because the DOM and the clock may have changed by then.
- `chrome.runtime.onMessage`, `sendResponse` and the `setTimeout` call are not modelled. `OnMessage` returns the response and the delay it would wait, and treats each message as handled atomically. Two messages whose handling overlaps in the browser could interleave their reads and writes of `retryCount`; that is not modelled.
- `console.log` output is not modelled.
- `cleanValue` on a truthy non-string is not modelled. Its argument is `Option<string>`: `Some(s)` is a string and `None` is `null` or `undefined`. The field loop only ever passes an element's `textContent`, which is always a string, so it calls `Clean` with `Some`; `Clean(None)` models `cleanValue` called with `null` or `undefined` in general.
- Strings are sequences of Unicode scalar values, while JavaScript strings are UTF-16 code units. No `\s` character is a surrogate, so trimming is unaffected.
- A found element whose cleaned text is literally "Field not found" cannot be told apart from a missing one in the record. The model keeps this, as the code does.
- `sidebar/sidebar.js`, `background_scripts/background.js` and `popup/popup.js` are not part of this model. They hold the panel rendering and the background page's reload-and-resend step.
- Date highlighting and identifier parsing appear in no source file, so they are not modelled.

## Findings

| source | as written | input that shows it | evidently intended | confidence | as-written member | corrected member |
|---|---|---|---|---|---|---|
| content_scripts/extractor.js:88-105 | four SunRun ids start with a digit, so the selector `#00N...` is invalid: `document.querySelector` throws, the wait rejects at once, and the field is always "Field not found" | a SunRun page where only `#00N60000002WJIm_ileinner` ("Status Update") is present gives `{error: "Fields not found"}` | each field holds its element's cleaned text whenever the element is present, as reading by id (`[id="..."]` or `getElementById`) does | high; not executed | Extractor.DigitIdCounterexample | Extractor.SiteResultData |
