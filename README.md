# player.js embed helpers and schema.org markup, in Dafny

This project models two parts of the Vimeo player.js library and proves
properties about them.

1. **Embed helpers** in `src/lib/functions.js`:
   - `getMethodName` forms the `getX`/`setX` name for a property.
   - `isInteger` decides whether an embed option holds an integer.
   - `isVimeoUrl` recognises `vimeo.com` URLs.
   - `getVimeoUrl` turns the `{id, url}` oEmbed parameters into a canonical
     `https://vimeo.com/...` URL, or throws a plain `Error` or one of two
     `TypeError`s.
2. **The schema.org `VideoObject` builders**:
   - `addVideoObjectMarkup` (`src/lib/addVideoObjectMarkup.js`).
   - `addClipMarkup`, in its two copies (`src/lib/addClipMarkup.js` and
     `src/lib/functions.js:96-191`).

   Each builder asks the player for the video's metadata. It writes a
   `VideoObject` entry into the page's first `application/ld+json` script,
   after the entries already there. The entry holds:
   - the title;
   - the duration as an ISO 8601 duration `PTnS` (section 4.4.3.2 of
     ISO 8601:2004);
   - the description, upload date, embed URL and thumbnail;
   - when a three-part gate allows it, the chapters as `Clip` parts.

   Each clip ends where the next one starts, and the last ends with the
   video. Each clip links to the page with `vimeo_t=<start>` appended to
   the query. The gate is meant to keep chapters on at most one video in
   the page.

## Modules

| file | module | contents |
|---|---|---|
| `wrappers.dfy` | `Wrappers` | `Option`, `Result` |
| `js_string.dfy` | `JsString` | the JavaScript string built-ins the code relies on |
| `functions.dfy` | `Functions` | the four embed helpers and their properties |
| `json.dfy` | `JsonValue` | parsed JSON values, and the read of the existing entries |
| `microdata.dfy` | `Microdata` | the entry both builders share, the chapter clips, writing the list back |
| `dom.dfy` | `Dom` | the page's ld+json scripts as a `Document` object |
| `video_object_markup.dfy` | `VideoObjectMarkup` | `addVideoObjectMarkup` |
| `clip_markup.dfy` | `ClipMarkup` | `addClipMarkup`, both copies |
| `page.dfy` | `Page` | several builder calls on one page |

Details of `JsString`:
- Case mapping, `indexOf`, `replace` with a string pattern (first
  occurrence only), `trim` with the ECMAScript white-space set, and
  decimal rendering of integers.

Details of `JsonValue`:
- A script's text is either the JSON value `JSON.parse` reads from it, or
  `Malformed`. Writing `JSON.stringify(list)` back yields that list.
- `new Array(x)` is modelled as the source runs it on the non-array values
  it meets:
  - a plain number `n` gives `n` holes, or a `RangeError` when `n` is not
    an integer in `0 .. 2^32-1`;
  - any other value gives a one-element list.
- `.some(item => item.hasOwnProperty('hasPart'))` skips holes. It throws on
  `null`, and on an object that has its own `hasOwnProperty` member.

`Dom`:
- A `Document` object holding the sequence of ld+json scripts, in place.
  The builder methods update it: the source replaces the first script's
  text or appends a new script to the head.

Each builder has three layers:
- An imperative `method` that follows the source's statements:
  - `VideoObjectMarkup.AddVideoObjectMarkup`;
  - `ClipMarkup.AddClipMarkup`, with its metadata callback
    `ClipMarkup.OnMetadata`.
- A function that specifies it: `VideoObjectPage` / `ClipPage` (and
  `ClipThrown` for what escapes synchronously).
- Lemmas that state what those functions promise.

The player is a parameter. It is either falsy, or a player whose metadata
promise has settled: rejected, resolved to falsy data, or resolved to
metadata. `window.location` is a parameter as well, a parsed `Location`.

### Behaviours the model keeps as the source has them

- `getVimeoUrl` replaces the first `http:` anywhere in a Vimeo URL, not
  only in its scheme. The model keeps this (`ReplaceFirst`).
  `UpgradeKeepsVimeoUrl` shows the result is still a Vimeo URL and never
  starts with `http:`.
- `addVideoObjectMarkup` catches whatever reading the existing script
  throws. The consequences:
  - When the text does not parse, the script is overwritten with just the
    new entry (`VideoObjectReplacesMalformed`).
  - When the `hasPart` probe throws, the "already has chapters" flag stays
    falsy. So an existing list `[null, {"hasPart": []}]` gets a second
    chaptered entry (`VideoObjectChaptersTwiceAfterNull`).
  - The one-chaptered-entry invariant is therefore proved for lists
    without such elements (`VideoObjectKeepsOneChaptered`).
- `addClipMarkup` lets the same errors escape synchronously (`ClipThrown`).
  The page is then left as it was. So it keeps chapters on one entry at
  most, whatever the existing elements are (`ClipKeepsAtMostOneChaptered`).
- A bare number in the existing script (for instance `3`) becomes three
  holes, which are written back as `null`. A non-integral number makes the
  read throw a `RangeError`.

## Model

| member | source | states |
|---|---|---|
| Functions.GetMethodName | src/lib/functions.js:20-26 | a property that already starts with the lower-cased type comes back unchanged; otherwise the result is the lower-cased type, then the property's first letter upper-cased, then the rest of the property (just the type for an empty property); every result starts with the lower-cased type |
| Functions.GetMethodNameIdempotent | src/lib/functions.js:21-25 | naming a name already formed changes nothing |
| Functions.GetMethodNameGetExamples | test/functions-test.js:6-8 | `color`/`get`, `color`/`GET` and `getColor`/`get` all give `getColor` |
| Functions.GetMethodNameSetExamples | test/functions-test.js:9-11 | `color`/`set`, `color`/`SET` and `setColor`/`set` all give `setColor` |
| JsString.IndexOfZeroIffStartsWith | src/lib/functions.js:21 | `indexOf` answers 0 exactly when the string starts with the pattern |
| JsString.IndexOfFrom | src/lib/functions.js:21 | the index found is an occurrence at or after the start, with no earlier one; no index means no occurrence there |
| JsString.ReplaceFirst | src/lib/functions.js:85 | without an occurrence the string is unchanged; otherwise the text before the first occurrence is kept, the pattern is replaced once, and the rest is kept |
| Functions.IsIntegerExamples | test/functions-test.js:25-33 | `1`, `'1'` and `1.0` are integers; `1.1`, `false`, `NaN` and `Infinity` are not |
| Functions.IntegersAreIntegers | src/lib/functions.js:49-52 | every integral number, and the decimal text of every integer, passes isInteger |
| Functions.NotIntegerHead | src/lib/functions.js:49-52 | a string that starts with a lower-case letter is never an integer (parseFloat gives NaN) |
| Functions.IntegerTextHead | src/lib/functions.js:81 | the text an integer id renders as is never empty and never starts with `/` or `h` |
| Functions.IsVimeoUrlIffPattern | src/lib/functions.js:60-62 | a URL is accepted exactly when it starts with one of the nine hosts (an optional `http:` or `https:`, then `//`, an optional `player.` or `www.`, then `vimeo.com`), followed by nothing or by `/` |
| Functions.RejectedHost | src/lib/functions.js:61 | a string that starts with none of the nine hosts is rejected |
| Functions.HostEndOfLead | src/lib/functions.js:61 | after a scheme, `//` and a subdomain, the host ends after `vimeo.com` when that follows, and is not recognised otherwise |
| Functions.HostWithPath | src/lib/functions.js:61 | each of the nine hosts followed by nothing or by a path is accepted |
| Functions.HostWithMore | src/lib/functions.js:61 | each of the nine hosts followed by anything other than a path is rejected |
| Functions.HostNotVimeo | src/lib/functions.js:61 | a scheme, `//` and subdomain followed by anything but `vimeo.com` is rejected |
| Functions.NotVimeoDotCom | src/lib/functions.js:61 | every string that starts with `https://notvimeo` is rejected |
| Functions.IsVimeoUrlAccepts | test/functions-test.js:36 | `http://vimeo.com` is accepted |
| Functions.IsVimeoUrlAcceptsPath | test/functions-test.js:47 | `https://player.vimeo.com/video/123` is accepted |
| Functions.IsVimeoUrlRejectsNotVimeo | test/functions-test.js:45 | `https://notvimeo.com` is rejected |
| Functions.IsVimeoUrlRejectsWww2 | test/functions-test.js:52 | `https://www2vimeo.com` is rejected |
| Functions.IsVimeoUrlRejectsOtherDomain | test/functions-test.js:46 | `https://vimeo.someone.com` is rejected |
| Functions.IsVimeoUrlRejectsLongerHost | test/functions-test.js:49 | `https://vimeo.com.evil.net` is rejected |
| Functions.IsVimeoUrlRejectsLongerPlayerHost | test/functions-test.js:50 | `http://player.vimeo.com.evil.com` is rejected |
| Functions.IsVimeoUrlRejectsMissingDot | test/functions-test.js:51 | `https://player.vimeozcom` is rejected |
| Functions.GetVimeoUrl | src/lib/functions.js:71-93 | the plain Error is raised exactly when neither id nor url is truthy; every URL returned is a Vimeo URL that does not start with `http:` |
| Functions.IntegerUrlIsVimeoUrl | src/lib/functions.js:80-82 | `https://vimeo.com/` followed by anything is a Vimeo URL and does not start with `http:` |
| Functions.UpgradeKeepsVimeoUrl | src/lib/functions.js:84-86 | replacing the first `http:` of a Vimeo URL by `https:` gives a Vimeo URL that does not start with `http:` |
| Functions.UpgradeHttpScheme | src/lib/functions.js:85 | for an `http:` Vimeo URL the replacement upgrades exactly its scheme |
| Functions.GetVimeoUrlIdTakesPrecedence | src/lib/functions.js:72-74 | with a truthy id, the url does not affect the outcome |
| Functions.GetVimeoUrlOfInteger | src/lib/functions.js:80-82 | an integer id or url gives `https://vimeo.com/` followed by its text |
| Functions.GetVimeoUrlOfVimeoUrl | src/lib/functions.js:84-86 | any other Vimeo URL string comes back with its first `http:` made `https:` |
| Functions.GetVimeoUrlUpgradesHttp | src/lib/functions.js:84-86 | an `http:` Vimeo URL comes back as the same URL with `https:` |
| Functions.GetVimeoUrlKeepsHttps | src/lib/functions.js:84-86 | an `https:` Vimeo URL without `http:` anywhere comes back unchanged |
| Functions.GetVimeoUrlTypeErrors | src/lib/functions.js:88-92 | the "not a valid video id" TypeError is raised exactly when a truthy id is neither an integer nor a Vimeo URL; the "not a vimeo.com url" TypeError exactly when the id is falsy and the url is truthy and neither |
| Functions.GetVimeoUrlErrorExamples | test/functions-test.js:62-69 | no parameters raise the plain Error; the id `string` raises the invalid-id TypeError |
| Functions.GetVimeoUrlOtherHostExamples | test/functions-test.js:71-77 | `https://notvimeo.com/2` as an id raises the invalid-id TypeError, and as a url the not-a-Vimeo-URL TypeError |
| JsString.BlankIffAllSpace | src/lib/addClipMarkup.js:47 | `trim().length` is zero exactly when every character is ECMAScript white space |
| JsString.NatToDecimal | src/lib/addVideoObjectMarkup.js:47 | the decimal text of a number is non-empty, all digits, without a leading zero |
| JsString.DigitsValueOfNatToDecimal | src/lib/addVideoObjectMarkup.js:47 | the decimal text reads back as the number |
| Microdata.IsoDurationRoundTrip | src/lib/addVideoObjectMarkup.js:47 | `PT<seconds>S` reads back as the seconds for every non-negative duration, and no negative duration yields a well-formed one |
| JsonValue.WrapParsed | src/lib/addVideoObjectMarkup.js:28 | an array is copied element for element; a number `n` gives `n` holes when it is a valid array length and a RangeError otherwise; any other value becomes a one-element list; the only error is a RangeError |
| JsonValue.OwnsHasPart | src/lib/addVideoObjectMarkup.js:29 | `hasOwnProperty('hasPart')` throws a TypeError exactly on `null` and on an object owning `hasOwnProperty`; otherwise it answers whether the value is an object owning `hasPart` |
| JsonValue.FirstDecisive | src/lib/addVideoObjectMarkup.js:29 | the index `.some` stops at: no earlier element throws or answers true, and the one there does |
| JsonValue.SomeHasPart | src/lib/addVideoObjectMarkup.js:29 | the probe's outcome is the outcome at the first element that throws or owns `hasPart`, and `false` when no element does |
| JsonValue.SomeHasPartCounts | src/lib/addVideoObjectMarkup.js:29 | a probe that does not throw answers true exactly when some written-back entry has chapters |
| JsonValue.SomeHasPartWithoutThrowers | src/lib/addVideoObjectMarkup.js:29 | a list with no null element and no object owning `hasOwnProperty` never makes the probe throw |
| JsonValue.Serialize | src/lib/addVideoObjectMarkup.js:85 | the list written back has one value per element, with holes written as null |
| JsonValue.SerializeWrappedArray | src/lib/addVideoObjectMarkup.js:85 | an existing array is written back exactly as it was |
| JsonValue.ChapteredCountAppend | src/lib/addVideoObjectMarkup.js:85 | the chaptered entries of two lists joined are those of each |
| JsonValue.ChapteredCountZero | src/lib/addVideoObjectMarkup.js:59 | no chaptered entry is counted exactly when no entry has `hasPart` |
| Microdata.AppendParam | src/lib/addVideoObjectMarkup.js:71-72 | appending a query parameter keeps the rest of the URL and puts the new pair after all existing pairs |
| Microdata.ChapterClips | src/lib/addVideoObjectMarkup.js:60-79 | one clip per chapter, with the chapter's title and start; each clip ends where the next starts, the last at the duration; each links to the page with `vimeo_t=<start>` |
| Microdata.ChapterClipsRoundTrip | src/lib/addVideoObjectMarkup.js:60-66 | the chapters can be read back from the clips unchanged |
| Microdata.ChapterClipsSpanVideo | src/lib/addVideoObjectMarkup.js:61 | the clips' lengths sum to the duration less the first chapter's start |
| Microdata.AttachChapters | src/lib/addVideoObjectMarkup.js:59-82 | `hasPart` is set exactly when there is a chapter, the duration exceeds 30 and no existing entry has chapters, and then holds the chapter clips; nothing else changes |
| JsonValue.Lookup | src/lib/addVideoObjectMarkup.js:27 | a key is found exactly when some member has it |
| JsonValue.LookupUnique | src/lib/addVideoObjectMarkup.js:27 | a key written once reads back as the value written with it |
| Microdata.ClipToJson | src/lib/addVideoObjectMarkup.js:62-76 | a clip is written as an object of five members, none of them `hasPart` or `hasOwnProperty` |
| Microdata.ClipToJsonFields | src/lib/addVideoObjectMarkup.js:62-76 | a clip's JSON reads back its `@type` `Clip`, its url's `href`, its name and both offsets, and has no `hasPart` |
| Microdata.EntryToJson | src/lib/addVideoObjectMarkup.js:48-81 | the entry is written as the eight fixed members in source order, plus `hasPart` when it has clips; it is chaptered exactly when it has clips, and the probe never throws on it |
| Microdata.EntryToJsonFields | src/lib/addVideoObjectMarkup.js:48-81 | an entry's JSON reads back `@context` `http://schema.org`, `@type` `VideoObject` and its name, duration, description, upload date, embed URL and thumbnail; `hasPart` holds the clips' JSON when it has clips and is absent otherwise |
| Microdata.WriteBack | src/lib/addClipMarkup.js:84-93 | when a script was found on reading, the first script's text becomes the existing list followed by the entry and the other scripts are kept; otherwise a script holding `[entry]` is appended after all the scripts the page has |
| Microdata.Publish | src/lib/addVideoObjectMarkup.js:84-93 | with a script, its text becomes the existing list followed by the entry and the other scripts are kept; without one, a new script holds `[entry]` |
| Microdata.PublishKeepsOneChaptered | src/lib/addVideoObjectMarkup.js:18-20 | appending an entry that has chapters only when the list has none keeps at most one chaptered entry |
| VideoObjectMarkup.ReadExisting | src/lib/addVideoObjectMarkup.js:21-34 | no script, text that does not parse, or a number that is not an array length (RangeError) reads as an empty list without chapters; otherwise the list is the wrapped value; when the probe does not throw the flag is set exactly when a written-back entry has chapters, and when it throws the flag is unset |
| VideoObjectMarkup.VideoObjectEntry | src/lib/addVideoObjectMarkup.js:36-82 | the entry copies the title as name, and the description, upload date, embed URL and thumbnail; its duration reads back as the seconds; its clips follow the gate |
| VideoObjectMarkup.AddVideoObjectMarkup | src/lib/addVideoObjectMarkup.js:7-98 | the page's scripts become what `VideoObjectPage` gives for the old scripts |
| VideoObjectMarkup.VideoObjectNeedsPlayerAndData | src/lib/addVideoObjectMarkup.js:8-16 | without a player, with a rejected request or with falsy metadata, the page is unchanged |
| VideoObjectMarkup.VideoObjectOnBarePage | src/lib/addVideoObjectMarkup.js:87-93 | on a page without ld+json, one new script holds just the entry, gated as if no entry had chapters |
| VideoObjectMarkup.VideoObjectAppendsToList | src/lib/addVideoObjectMarkup.js:84-86 | an existing list keeps all its entries in order and gains the new entry last; the other scripts are kept |
| VideoObjectMarkup.VideoObjectWrapsValue | src/lib/addVideoObjectMarkup.js:28-29 | a single existing non-array value becomes the first element of the new list |
| VideoObjectMarkup.VideoObjectReplacesMalformed | src/lib/addVideoObjectMarkup.js:25-34 | text that does not parse is overwritten with just the new entry, gated as if no entry had chapters |
| VideoObjectMarkup.VideoObjectKeepsOneChaptered | src/lib/addVideoObjectMarkup.js:18-20 | a list with at most one chaptered entry and no element the probe throws on stays so |
| VideoObjectMarkup.VideoObjectChaptersTwiceAfterNull | src/lib/addVideoObjectMarkup.js:29 | an existing list `[null, {"hasPart": []}]` ends with two chaptered entries when the new video qualifies |
| ClipMarkup.ClipDescriptionAsWritten | src/lib/addClipMarkup.js:47 | a description that is not blank is used as is; a blank one raises a ReferenceError (on a page that defines no global `title`) |
| ClipMarkup.ClipDescription | src/lib/functions.js:136-138 | the description is never blank: the video's own when that is not blank, otherwise the sentence naming title and author |
| ClipMarkup.ClipEntry | src/lib/addClipMarkup.js:32-82 | the entry exists exactly when the description can be formed; it copies name, upload date and embed URL, takes the thumbnail from `thumbsBaseUrl + "_640"` or the default portrait, reads back its duration and follows the gate |
| ClipMarkup.ReadExistingStrict | src/lib/addClipMarkup.js:16-24 | no script reads as empty; unparsable text raises a SyntaxError; a number that is not an array length a RangeError; a probe that throws a TypeError; the read succeeds exactly when the wrap and the probe both do, and always for a list with at most one chaptered entry and nothing the probe throws on; when nothing is raised the read is that of addVideoObjectMarkup and the flag says whether a written-back entry has chapters |
| ClipMarkup.OneChapteredReadsCleanly | src/lib/addClipMarkup.js:21-23 | a first script that is such a list is wrapped and probed without an exception |
| ClipMarkup.AddClipMarkup | src/lib/addClipMarkup.js:8-100 | what escapes is `ClipThrown` of the old scripts, and the page's scripts become what `ClipPage` gives |
| ClipMarkup.ClipCallback | src/lib/addClipMarkup.js:27-96 | the callback leaves the page unchanged when the entry cannot be formed, and otherwise writes it back, into the script element found on reading or into a new one |
| ClipMarkup.OnMetadata | src/lib/addClipMarkup.js:27-96 | the page's scripts become what `ClipCallback` gives for the old scripts, the script presence captured on reading, and what was read |
| ClipMarkup.ClipPageWrites | src/lib/addClipMarkup.js:16-93 | when the page reads without an exception and the entry can be formed, one uninterrupted call writes the list followed by the entry, as `Publish` does |
| ClipMarkup.ClipNeedsPlayer | src/lib/addClipMarkup.js:9-11 | without a player nothing is thrown and the page is unchanged |
| ClipMarkup.ClipNeedsData | src/lib/addClipMarkup.js:26-30 | with a rejected request or falsy metadata the page is unchanged |
| ClipMarkup.ClipMalformedThrows | src/lib/addClipMarkup.js:20-21 | unparsable existing text raises a SyntaxError to the caller and the page is unchanged |
| ClipMarkup.ClipModuleSkipsBlankDescription | src/lib/addClipMarkup.js:47 | in addClipMarkup.js a video with a blank description never gets an entry |
| ClipMarkup.FallbackEntry | src/lib/functions.js:136-138 | for a video with a blank description the functions.js copy forms an entry whose description is the fallback sentence |
| ClipMarkup.FunctionsModuleDescribesBlankVideo | src/lib/functions.js:136-138 | in the functions.js copy such a video gets an entry with the fallback sentence whenever the existing entries can be read |
| ClipMarkup.ClipCopiesAgree | src/lib/functions.js:96-191 | for a video whose description is not blank both copies write the same page |
| ClipMarkup.ClipAppendsToList | src/lib/addClipMarkup.js:84-86 | an existing list keeps all its entries in order and gains the new entry last; the other scripts are kept |
| ClipMarkup.ClipOnBarePage | src/lib/addClipMarkup.js:87-93 | on a page without ld+json nothing is thrown and one new script holds just the entry |
| ClipMarkup.ClipKeepsAtMostOneChaptered | src/lib/addClipMarkup.js:13-24 | a list with at most one chaptered entry keeps at most one, whatever its elements |
| ClipMarkup.ClipKeepsOneChaptered | src/lib/addClipMarkup.js:13-24 | a list with at most one chaptered entry and no element the probe throws on stays so |
| Page.StepScriptCount | src/lib/addClipMarkup.js:84-93 | a call run without pause keeps the number of scripts of a page that has some, and adds one at most to a page that has none |
| Page.RunScriptCount | src/lib/addClipMarkup.js:84-93 | calls run one after another never give a page with at most one script a second one |
| Page.ChapteredOnPageAppend | src/lib/addClipMarkup.js:92 | an appended script adds its own chaptered entries to those of the page |
| Page.RunKeepsOneChaptered | src/lib/addVideoObjectMarkup.js:18-20 | any sequence of calls of either builder keeps a well-formed list at one chaptered entry at most |
| Page.BarePageKeepsOneChaptered | src/lib/addClipMarkup.js:13-15 | starting from a page without ld+json, calls run one after another keep one script at most and chapters on one entry of the whole page at most |
| Page.InterleavedClipsChapterTwice | src/lib/addClipMarkup.js:16-93 | two addClipMarkup calls on a page without ld+json that both read it before either callback runs leave two scripts, with two chaptered entries on the page |
| Page.ChapteredEntryScript | src/lib/addClipMarkup.js:88 | a script holding one entry with clips carries chapters once |

## Left out

- Other parts of the repository are not modelled:
  - the timing-object connector and the `Player` class (their sources are
    not part of this model, and they are event-driven and asynchronous);
  - the fullscreen helpers;
  - the test helpers;
  - `isNode` and `isDomElement` (environment and DOM-object probing).
- Promise timing: `Page.Run` runs each call to completion before the next.
  addClipMarkup reads the page before it requests the metadata, so a
  second call can read it before the first callback writes it. The
  callback's write-back itself is modelled with the script presence
  captured on reading (`ClipCallback`, `OnMetadata`), and
  `Page.InterleavedClipsChapterTwice` exhibits one such interleaving. No
  general scheduler of reads and callbacks is modelled. addVideoObjectMarkup
  reads and writes within its callback, with nothing in between.
- `Page.RunKeepsOneChaptered`: holds for the calls run one after another,
  as above, and not for interleaved callbacks.
- `Page.BarePageKeepsOneChaptered`: holds for the calls run one after
  another; `Page.InterleavedClipsChapterTwice` shows two interleaved
  addClipMarkup calls putting chapters on two entries.
- `ClipMarkup.ClipDescriptionAsWritten`: assumes the page defines no global
  `title`. A global variable of that name, or an element with
  `id="title"` reachable as a named property of `window`, would be
  interpolated instead, and no ReferenceError would arise.
- Not modelled: `console.warn`/`console.error`; the DOM query; creating
  the script element. `document.head` is the list of ld+json scripts.
- `JSON.parse`/`JSON.stringify` are abstract. Text is either a parsed
  value or `Malformed`, and written-back text is exactly the list written.
  Object members are looked up as `JSON.parse` keeps them (the last of a
  key wins). The number formatting of the text is not modelled.
- `new URL(href)`: the location is given already parsed. Percent-encoding
  of the query and the text form of `url.href` are not modelled.
- Numbers: JSON numbers and embed-option numbers are exact rationals.
  Metadata times are whole seconds. Not modelled: floating-point rounding;
  the exponent form JavaScript prints for very large or very small numbers;
  fractional durations in `PTnS`.
- `Functions.IsInteger`: for strings it covers plain decimal literals only
  (optional sign, digits, at most one point). Not modelled: JavaScript's
  acceptance of surrounding white space and of hexadecimal, binary, octal
  and exponent forms; objects, arrays and functions as values.
- `JsString.ToLower`, `JsString.ToUpper`: case mapping is ASCII only.
  Other letters are left as they are.
- `Functions.GetMethodName`: strings are sequences of characters, not of
  UTF-16 code units. `prop.substr(0, 1)` takes one code unit, so for a
  property whose first character lies outside the Basic Multilingual
  Plane it splits a surrogate pair, where the model takes the whole
  character.
- `Functions.GetVimeoUrl`: the plain Error and the TypeError messages are modelled as the
  error kind (plus the offending value for a TypeError), not as message text.
- `Functions.GetVimeoUrl`: the success vectors of the tests
  (`336812660`, `http://vimeo.com/336812660`,
  `https://vimeo.com/336812660`) are not stated as literal examples. They
  follow from `GetVimeoUrlOfInteger`, `GetVimeoUrlUpgradesHttp` and
  `GetVimeoUrlKeepsHttps`.
- Metadata fields are typed: a missing string is the empty string. Not
  modelled:
  - a `null` or missing description. In both addClipMarkup copies its
    `trim` throws a TypeError that `.catch` logs, so nothing is written;
    the model instead treats it as blank, so the functions.js copy writes
    the fallback entry;
  - in addVideoObjectMarkup, a missing string field. `JSON.stringify`
    leaves an undefined member out, while `EntryToJson` writes `""`;
  - a `chapters` value that is not a list.
- `Object.assign` on each chapter object (addVideoObjectMarkup.js) and the
  object spread (functions.js) build the same JSON, so both are one
  `ClipToJson`. The `@context` and `@type` members are written out as
  constants.

## Findings

| source | as written | input that shows it | evidently intended | confidence | as-written member | corrected member |
|---|---|---|---|---|---|---|
| src/lib/addClipMarkup.js:47 | the default description interpolates `title`, but this function binds the title as `name` (line 42), so, on a page that defines no global `title`, the branch raises a ReferenceError; `.catch` logs it, and no entry is written | metadata whose description is `"   "`, on such a page | the sentence `This is "<title>" by <author> on Vimeo, ...`, as the copy at src/lib/functions.js:136-138 writes it | not executed | ClipMarkup.ClipModuleSkipsBlankDescription | ClipMarkup.ClipDescription |
