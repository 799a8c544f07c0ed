# Interactive progress bar: a Dafny model

This project models the state machine behind the `progress-bar` code block of the Obsidian
plugin in `main.js`. The block text is parsed into a bar configuration. The bar's progress is
looked up in a shared memory keyed by `notePath-name`, and a saved value only counts on the day it
was saved. A left click steps the progress by the increment, clamps it at the total, and wraps a
full bar back to 0. A right click resets it when that is enabled. Each change is saved under the
bar's key, and the bar's legend template is filled in again.

The modules follow the parts of `main.js`:

- `JsString` covers the JavaScript string operations the parser and the legend rely on:
  - `trim`;
  - `split(':')` and `join`;
  - `split(/[\n,]+/)`;
  - `replace` with a string pattern.
- `JsNumber` covers JavaScript numbers as the plugin meets them: a whole number, `NaN` or
  `undefined`. It also covers their arithmetic and comparison, `parseInt(value, 10)` and
  decimal rendering.
- `ConfigParser` covers the plugin settings and their defaults, the constructor's field
  defaults, and `parseSource`.
- `Persistence` covers the progress memory: `loadProgressFromMemory`, `saveProgressToMemory`
  and `clearOldEntries`.
- `ProgressState` covers `incrementProgress` and `resetProgress` on the progress value, and
  what repeated clicks do.
- `Legend` covers `updateLegend`.
- `ProgressBar` covers a whole bar:
  - construction, which parses the block and then loads the day's progress;
  - event dispatch from `initializeProgressBarClick`;
  - the transitions with their save and legend refresh;
  - sequences of events.

Inputs the code takes from its environment become parameters:

- the memory file's contents become a `Store` map;
- today's date becomes a `today` string;
- the random text of a fallback name becomes a `token` string;
- the plugin settings become a `Settings` value.

Some behaviours of the code are worth knowing. Several differ from what the plugin's own settings
tab documents at `main.js:406-423`. The model follows the code:

- **The total has no default.** A block without a `total` line leaves the total `undefined`. The
  settings' `total: 100` is never read by a bar. Every left click then sets the bar to 0
  (`ProgressBar.NoTotalLineClicksToZero`).
- **Malformed numbers are not replaced by a default.** `parseInt` gives `NaN`, and `NaN` flows
  through the arithmetic as it does in JavaScript.
- **The fallback name is not alphabetic.** It is `bar-` followed by a random token. Because the
  token is fresh on every render, such a bar never finds its saved progress again, unless the
  new token repeats the old one (`ProgressBar.FallbackKeysDiffer`,
  `ProgressBar.RerenderRestoresProgress`).
- **A `name` item without a colon is fatal.** Its value is `undefined`, `value.replace` throws,
  and construction fails. The model returns `Failure(NameWithoutValue)`.
- **`initialProgress` never shows.** The settings tab calls it the initial progress. Loading from
  the memory always overwrites it, with the saved value or with 0
  (`ProgressBar.NewBarIgnoresInitialProgress`).
- **The increment is an amount, not a percentage.** The settings tab calls it a percentage. The
  code adds it to the progress as is (`ProgressState.Increment`).
- **`total: 0` is not guarded.** The legend's progress text becomes `NaN` (`Legend.ProgressText`).
  A click on a bar with non-negative progress sets it back to 0.
- **The range bound holds only for well-configured bars.** `0 <= progress <= total` holds when the
  total is positive and the increment non-negative. It is not clamped in general.

## Model

| member | source | states |
|---|---|---|
| `ConfigParser.Defaults` | main.js:73-92 | Before parsing, the total is `undefined` (never assigned) and the name is empty. |
| `ConfigParser.FieldOfKeyName` | main.js:98-122 | Each of the twelve recognised keys selects its own field in the `if`/`else if` chain. |
| `ConfigParser.FieldOfName` | main.js:120-122 | Only the exact key `name` selects the name field. |
| `ConfigParser.KeyNameInjective` | main.js:98-122 | No two fields share a key, so the order of the chain does not matter. |
| `ConfigParser.Lookup` | main.js:98-122 | A key found in the chain is that field's key text. A key not found matches none of the listed keys. |
| `ConfigParser.KeepLetters` | main.js:121 | Removing non-letters leaves only ASCII letters and never lengthens the text. |
| `ConfigParser.KeepLettersAppend` | main.js:121 | The letter filter works character by character, in order: it distributes over concatenation. |
| `ConfigParser.KeepLettersChar` | main.js:121 | A single character is kept exactly when it is an ASCII letter. |
| `ConfigParser.KeepLettersOfLetters` | main.js:121 | An alphabetic name is unchanged, so sanitising is idempotent. |
| `ConfigParser.KeepLettersExample` | main.js:121 | `A1b2!` sanitises to `Ab`. |
| `ConfigParser.KeyValueOfPieces` | main.js:97 | For an item with a colon, the key is the trimmed text before the first colon. The value is the trimmed text between the first and second colons. |
| `ConfigParser.KeyValueWithoutColon` | main.js:97 | An item with no colon gives its trimmed text as key and an `undefined` value. |
| `ConfigParser.SecondColonCuts` | main.js:97 | `legend: a: b` yields key `legend` and value `a`: text after a second colon is lost. |
| `ConfigParser.Assign` | main.js:98-122 | An unrecognised key changes nothing. Assignment fails exactly for the name field with an `undefined` value (`value.replace` throws). |
| `ConfigParser.ApplyItemsIsApplyEntries` | main.js:95-123 | The `forEach` that cuts each item into key and value and assigns it before moving on gives the same result, failure included, as cutting every item first and then assigning the entries in order. |
| `ConfigParser.ApplyEntry` | main.js:96-123 | One `forEach` step ignores an unknown key. It fails exactly on a `name` entry without a value. |
| `ConfigParser.ApplyEntriesMeaning` | main.js:96-123 | The in-order fold fails exactly when some entry is `name` without a value. Otherwise it equals the last-occurrence-wins reading, in which each field holds its last entry's value or its starting value. |
| `ConfigParser.LastWinsStep` | main.js:96-123 | Assigning one more entry to the last-wins configuration gives the last-wins configuration of the longer list. |
| `ConfigParser.Parse` | main.js:94-129 | Parsing fails exactly when a `name` item has no value. On success the name is non-empty and is either purely alphabetic or `bar-` plus the random token. |
| `ConfigParser.ParseMeaning` | main.js:94-129 | A successful parse is the last-occurrence-wins configuration over the constructor's defaults, with an empty name replaced by the fallback. |
| `ConfigParser.ParseIgnoresToken` | main.js:120-128 | A block whose name survives sanitising parses the same whatever random token is drawn. Otherwise the name is `bar-` plus the token. |
| `JsString.Trim` | main.js:97 | The result has no whitespace at either end and is no longer than the input. |
| `JsString.TrimOfPadded` | main.js:97 | Trimming whitespace-padded text with no whitespace at its ends gives back that text, independently of how trim is computed. |
| `JsString.Split` | main.js:97 | Splitting on a character gives at least one piece, and no piece contains the separator. |
| `JsString.JoinSplit` | main.js:97 | Joining the pieces of a split with the separator gives back the text. |
| `JsString.SplitJoin` | main.js:97 | Joining separator-free pieces and splitting again gives back the pieces, empty ones included. |
| `JsString.SplitItems` | main.js:95 | Splitting on runs of newlines and commas gives at least one item. No item contains a separator, and no item strictly inside the list is empty. |
| `JsString.WeaveSplitItems` | main.js:95 | Interleaving the items with the separator runs that were cut out gives back the block text. |
| `JsString.SplitItemsOfWeave` | main.js:95 | Separator-free items (non-empty except at the ends) joined by non-empty separator runs split back into exactly those items. |
| `JsString.IndexOf` | main.js:238-239 | The search returns the first occurrence at or after the start position, or reports that there is none. |
| `JsString.ReplaceFirst` | main.js:238-239 | Without an occurrence of the pattern, `replace` leaves the text unchanged. |
| `JsString.ReplaceFirstAt` | main.js:238-239 | Only the first occurrence is replaced. Everything after it, later occurrences included, is kept. |
| `JsNumber.Plus` | main.js:158 | Two numbers add to their sum. If either operand is `NaN` or `undefined`, the result is `NaN`. |
| `JsNumber.IntToDecimal` | main.js:239 | The decimal text of a whole number is non-empty, starts with `-` exactly for negatives, and is digits after its first character. |
| `JsNumber.ParseIntOfMissing` | main.js:99-107 | `parseInt(undefined, 10)` is `NaN`. |
| `JsNumber.ParseIntSkipsWhiteSpace` | main.js:99-107 | Leading whitespace does not change what `parseInt` reads. |
| `JsNumber.DigitsValueOfDecimal` | main.js:99-107 | The digits of a number's decimal text denote that number. |
| `JsNumber.ParseIntOfDecimalText` | main.js:99-107 | `parseInt` of a whole number's decimal text gives back that number, whatever non-digit text follows. |
| `JsNumber.ParseIntOfDecimal` | main.js:99-107 | The same holds with any whitespace before the text, so `parseInt("12px")` is 12. |
| `Persistence.MemoryKeyInjective` | main.js:134 | For names without `-`, which includes every sanitised name, equal memory keys mean the same note and the same name. |
| `Persistence.LoadProgress` | main.js:131-141 | A bar loads the saved progress when its record is dated today, and 0 otherwise. |
| `Persistence.SaveProgress` | main.js:143-154 | Saving writes a record dated today for the bar's key and keeps every other key as it was. |
| `Persistence.Prune` | main.js:58-69 | Exactly the records dated today are kept, unchanged. |
| `Persistence.ClearOldEntries` | main.js:58-69 | The key-by-key deletion loop leaves exactly the pruned store. |
| `Persistence.PruneIdempotent` | main.js:58-69 | Pruning twice on the same day is pruning once. |
| `Persistence.LoadAfterPrune` | main.js:58-69 | Pruning never changes what a bar loads on the same day. |
| `Persistence.LoadAfterSave` | main.js:131-154 | A bar that saves and reloads on the same day gets back what it saved. |
| `Persistence.LoadAfterSaveOnAnotherDay` | main.js:131-154 | On any other day a saved value reads as 0 (daily expiry). |
| `Persistence.LoadAfterSaveOfOtherKey` | main.js:131-154 | Saving one bar does not change what any other bar loads. |
| `Persistence.PruneAfterSave` | main.js:58-69 | Pruning after a save made today equals saving after the prune. |
| `ProgressState.Increment` | main.js:156-162 | Below the total, the progress becomes progress plus increment, clamped to the total. It becomes `NaN` when the increment is not a number. Otherwise, meaning full or with an incomparable total, it becomes 0. |
| `ProgressState.IncrementInRange` | main.js:156-162 | With a positive total and a non-negative increment, a click from any non-negative progress lands in `0..total`. |
| `ProgressState.ResetInRange` | main.js:261-262 | A reset is always within range. |
| `ProgressState.MissingTotalPinsAtZero` | main.js:156-162 | With an `undefined` total every click sets the progress to 0. |
| `ProgressState.ClicksAdd` | main.js:156-162 | `a` clicks followed by `b` clicks are `a + b` clicks. |
| `ProgressState.ClicksToFill` | main.js:156-162 | The click count is the total divided by the increment, rounded up: `(n-1)*increment < total <= n*increment`. |
| `ProgressState.Filling` | main.js:156-162 | While below the total, each click from 0 adds exactly the increment. |
| `ProgressState.Fills` | main.js:156-162 | From 0, `ceil(total / increment)` clicks reach exactly the total. |
| `ProgressState.Wraps` | main.js:156-162 | The next click after that wraps the bar to 0. |
| `ProgressState.Periodic` | main.js:156-162 | From 0 the progress is periodic, with period `ceil(total / increment) + 1`. |
| `ProgressState.ZeroIncrementStays` | main.js:156-162 | With increment 0 an empty bar never moves. |
| `Legend.ProgressTextReadsBack` | main.js:236-238 | For a non-zero total, the progress text reads back with `parseInt` as the bar's progress. |
| `Legend.NumberTextBraceFree` | main.js:236-239 | The progress and total texts never contain `{`, so they cannot form a placeholder. |
| `Legend.FillFirst` | main.js:238-239 | With no `{` before it, the first placeholder in the text is the one filled in. |
| `Legend.RenderLegendOf` | main.js:235-240 | If no `{` comes before the progress placeholder or between it and the total placeholder, the legend is the template with those two placeholders filled and everything else kept. |
| `Legend.RenderLegendOfTwo` | main.js:235-240 | The same for a template that starts with the progress placeholder and ends with the total placeholder. |
| `Legend.LegendExample` | main.js:235-240 | `{current_progress}/{total}` with progress 40 of 200 and the default terms of `main.js:6-7` renders `40/200`. |
| `Legend.LegendFirstOccurrenceOnly` | main.js:235-240 | `{total}/{total}` renders `200/{total}`: only the first occurrence is filled. |
| `ProgressBar.NewBar` | main.js:73-92 | Construction fails exactly when parsing fails. The bar's key is `notePath-name`, and its progress is what the memory holds for that key today. |
| `ProgressBar.NewBarIgnoresInitialProgress` | main.js:89-92 | The starting progress is the day's saved value or 0: `initialProgress` is always overwritten. |
| `ProgressBar.NewBarAfterPrune` | main.js:29 | Pruning the memory at plugin load changes no bar built that day. |
| `ProgressBar.FallbackKeysDiffer` | main.js:125-128 | Bars that fall back to generated names with different tokens get different memory keys. |
| `ProgressBar.Commit` | main.js:156-177 | A transition keeps the bar's configuration and key and leaves the bar in step with the memory. The bar's entry becomes a record of the new progress dated today, and every other entry is kept as it was. The legend is rewritten exactly when the bar has one, and then shows the new progress against the total. |
| `ProgressBar.ContextMenuFollowsInstalledSetting` | main.js:242-258 | A right click resets the bar to 0 and saves it when right-click reset was enabled at the time the listeners were installed. Otherwise it changes nothing: not the bar, the memory or the legend. A later change of the setting has no effect on a rendered bar. |
| `ProgressBar.Dispatch` | main.js:242-277 | A primary-button click increments. A context-menu event resets only when its listener was installed. Every other event changes nothing and saves nothing. A handled event saves the new progress. |
| `ProgressBar.DispatchFrame` | main.js:143-154 | An event changes at most the bar's own memory entry. |
| `ProgressBar.DispatchKeepsBar` | main.js:156-177 | After any event the memory agrees with the bar. A handled event keeps a well-configured bar within `0..total`. |
| `ProgressBar.DispatchLegend` | main.js:172-174 | The legend is rewritten exactly when a handled event reaches a bar with a legend, and it then shows the new progress. |
| `ProgressBar.NoTotalLineClicksToZero` | main.js:94-162 | A block without a `total` line leaves the bar at 0 after every left click. |
| `ProgressBar.RunKeepsBar` | main.js:242-277 | Over any sequence of events the bar keeps its configuration and key and stays in step with the memory. A well-configured bar stays non-negative, and no other memory entry changes. |
| `ProgressBar.RunStaysOnDay` | main.js:143-154 | Records written during a day are dated that day, so they never become fresh on another day. |
| `ProgressBar.RerenderRestoresProgress` | main.js:89-92 | A named block rendered again the same day, with a freshly drawn token, shows the progress the bar last had. On another day it shows 0 when the memory held no record dated that day. A block that fell back to a generated name gets a different key when the new token differs, so it does not see the old progress. |

## Left out

- Rendering is not modelled: the DOM, bar widths and percentages, colours, the font size,
  `applyAnimation`, the wave animation and its `setTimeout`. None of these affects the progress,
  the memory or the legend text.
- The settings tab and `loadSettings`/`saveSettings` are not modelled. Settings are a parameter,
  with `DefaultSettings` as the defaults.
- File access and JSON are not modelled. The memory file is a map. `JSON.stringify` writing a
  `NaN` progress as `null` is not modelled: such a bar reloads as `null`, not as `NaN`.
- `Date` and `Math.random` are not modelled. Today's date and the random token are parameters.
  The bar's `id` is not modelled because nothing in the core reads it.
- Concurrency between bars sharing the memory file is not modelled. Each operation is applied
  atomically.
- `Legend.ProgressTextReadsBack`: the float computation `(progress / total) * total` followed by
  `toFixed(0)` is not modelled. It is taken to be the progress itself for whole numbers and a
  non-zero total, and `NaN` otherwise. Exponent notation for magnitudes of `1e21` and above and
  precision loss beyond `2^53` are not modelled.
- `JsNumber.ParseIntOfDecimal`: JavaScript numbers are 64-bit floats, while the model's whole
  numbers are unbounded. Above `2^53` the program rounds (`parseInt("9007199254740993", 10)` is
  9007199254740992), and a long enough digit run parses to `Infinity`. The round trip is promised
  only for magnitudes below `2^53`, where the float is exact.
- `JsNumber.ParseIntOfDecimalText`: the same float limit applies.
- `JsNumber.IntToDecimal`: `${x}` prints exponent notation from `1e21` up (`1e+21`). The model
  always prints plain digits.
- `JsNumber.Plus`: a float sum rounds above `2^53`. The model's sum is exact.
- `ProgressState.Fills`: past `2^53`, `progress + increment` can round back to `progress`, so the
  bar would never fill. The filling laws hold as stated only while values stay below `2^53`.
- `ProgressState.Periodic`: the same float limit applies.
- `JsString.Trim`, `JsString.SplitItems` and `ConfigParser.KeepLetters` work on Dafny
  characters, not UTF-16 code units. Surrogate pairs are not modelled.
- `JsString.ReplaceFirst`: `$` substitution patterns in the replacement string are not
  modelled. The replacements the plugin passes are decimal texts, `NaN` or `undefined`.
- `console.error` for the fallback name is not modelled. It has no effect on state.
