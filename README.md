# crawlrec click curation and session bookkeeping, in Dafny

crawlrec records the clicks a user makes in a browser page. A terminal UI
lists the captured clicks, newest first. The operator selects some of them
and saves. The recorder then merges the saved clicks into its action list,
stops the session and writes the list to a JSON file.

This project models the sequential state logic of that pipeline and proves
its properties:

- `values.dfy` (module `Values`) holds the click records, which are
  dictionaries of JSON values, and the messages on the result queue.
- `tui.dfy` (module `Tui`) is the curation buffer of `ClickUI`. It has pure
  functions on a `Buffer` value that specify each operation: ingest, cursor
  keys, toggle, save and quit. It has lemmas about those functions. It has the
  class `ClickUI`, whose methods change `items`, `itemsSig`, `selected` and
  `cursor` in place and are proved against those functions.
- `output_names.dfy` (module `OutputNames`) builds the default output name.
  It strips a leading `www.`, tries `domain.json`, `domain2.json`, ... and
  picks the first that does not exist.
- `recording.dfy` (module `Recording`) is the recorder. It has the merge of
  chosen clicks into `actions`, the save, the file system as an object
  mapping paths to written documents, and the class `Recorder`. Its methods
  are `OnClick`, `MakeOutputPath`, `Save`, `MergeExit`, `SafeStop` and
  `ConsumeUi`.
- `session.dfy` (module `Session`) runs one whole session through the
  contracts. Three clicks arrive, the third a repeat of the first. Both
  distinct clicks are selected and saved. The file written holds them oldest
  first.

Facts about the code that shape the model:

- On an empty buffer the cursor is 0 (crawlrec/tui.py:78), and the key and
  toggle handlers keep it there.
- The chosen clicks are merged into `actions` in `_consume_ui`
  (crawlrec/recorder.py:91-94), before `safe_stop` is called
  (crawlrec/recorder.py:96).
- The `recording` flag makes a stop a no-op only once an earlier stop has
  finished. The model makes no claim about overlapping stops.
- The default path is `Path.cwd() / "crawls" / name`. Path joining adds a
  separator unless the left part already ends in one, so run from `/` the
  first attempt is `/crawls/<domain>.json`.

## Model

| member | source | states |
|---|---|---|
| `Tui.SigOf` | crawlrec/tui.py:11-18 | The signature is the tuple of `text`, `href`, `selector` and `xpathSelector`, each `None` when the key is missing |
| `Tui.SameSignature` | crawlrec/tui.py:11-18 | Two clicks have equal signatures exactly when they agree on the four keys, with a missing key reading as `None` |
| `Tui.SigIgnoresOtherKeys` | crawlrec/tui.py:11-18 | Adding, changing or removing any other attribute leaves the signature unchanged |
| `Tui.Label` | crawlrec/tui.py:128-134 | The label is `href` when text and href are both truthy and differ; otherwise it is `text or href or "[no text]"`; it is never falsy |
| `Tui.Ingest` | crawlrec/tui.py:103-113 | Definition with no contract of its own: one event-worker step. `IngestNew`, `IngestDropped`, `IngestPreservesInv` and `IngestKeepsSelectedClicks` specify it |
| `Tui.IngestAll` | crawlrec/tui.py:94-113 | Definition with no contract of its own: the event worker's steps over a sequence of clicks, oldest first. `IngestAllPreservesInv` and `IngestAllKeepsSuffix` specify it |
| `Tui.IngestNew` | crawlrec/tui.py:104-108 | A click with a new, hashable signature goes to index 0. The list grows by one and the signature is added to `items_sig`. An index is selected afterwards exactly when the index below it was selected before. The cursor is unchanged |
| `Tui.IngestDropped` | crawlrec/tui.py:103-113 | A click whose signature was seen before, or cannot be hashed (the `TypeError` path), leaves the buffer unchanged |
| `Tui.IngestPreservesInv` | crawlrec/tui.py:104-108 | Ingest keeps the signatures pairwise distinct and equal as a set to `items_sig`; it keeps every selected index below `len(items)` and the cursor in range |
| `Tui.IngestKeepsSelectedClicks` | crawlrec/tui.py:106-108 | The shift of the selected indices keeps exactly the same clicks selected |
| `Tui.IngestAllPreservesInv` | crawlrec/tui.py:94-113 | Any sequence of clicks processed by the event worker leaves the buffer valid, so the buffer never holds two clicks with one signature |
| `Tui.IngestAllKeepsSuffix` | crawlrec/tui.py:94-113 | The event worker never drops or reorders clicks it already holds: the old list is a suffix of the new one |
| `Tui.MoveUp` | crawlrec/tui.py:151-154 | Definition with no contract of its own. `KeyPressedEffect` specifies it |
| `Tui.MoveDown` | crawlrec/tui.py:156-159 | Definition with no contract of its own. `KeyPressedEffect` specifies it |
| `Tui.KeyPressed` | crawlrec/tui.py:148-159 | Definition with no contract of its own: the key handler's effect. `KeyPressedEffect` and `KeyPressedPreservesInv` specify it |
| `Tui.KeyPressedEffect` | crawlrec/tui.py:148-159 | "up" decrements the cursor exactly when it is above 0. "down" increments it exactly when it is below `len-1`. At an end stop, or for any other key, nothing changes, and the items and selection never change |
| `Tui.KeyPressedPreservesInv` | crawlrec/tui.py:151-159 | Cursor moves keep the buffer invariant |
| `Tui.Toggle` | crawlrec/tui.py:162-168 | Definition with no contract of its own. `ToggleEffect`, `ToggleTwice` and `TogglePreservesInv` specify it |
| `Tui.ToggleEffect` | crawlrec/tui.py:162-168 | With the cursor at or past the end, toggle does nothing. Otherwise it flips whether the cursor's index is selected and leaves every other index as it was |
| `Tui.ToggleTwice` | crawlrec/tui.py:162-168 | Two toggles restore the original state |
| `Tui.TogglePreservesInv` | crawlrec/tui.py:162-168 | Toggle keeps the buffer invariant |
| `Tui.Ascending` | crawlrec/tui.py:175-176 | Every listed index is selected and below the length |
| `Tui.AscendingIncreasing` | crawlrec/tui.py:175 | The listed indices are strictly increasing, as `sorted` yields them |
| `Tui.AscendingComplete` | crawlrec/tui.py:175-176 | Every selected index below the length is listed |
| `Tui.AscendingLength` | crawlrec/tui.py:173-177 | There are as many listed indices as selected indices below the length |
| `Tui.Pick` | crawlrec/tui.py:173-177 | The comprehension gives one click per index, the click at that index, in index order |
| `Tui.Reverse` | crawlrec/tui.py:178 | `[::-1]` has the same length and puts element `k` at position `len-1-k` |
| `Tui.Chosen` | crawlrec/tui.py:173-178 | Definition with no contract of its own: the reverse of the clicks at the sorted, in-range selected indices. `ChosenSpec`, `ChosenElements` and `ChosenReversesDisplayOrder` specify it |
| `Tui.SaveMessage` | crawlrec/tui.py:172-179 | Definition with no contract of its own: `("exit", Chosen)`. `ClickUI.ActionSaveQuitApp` is proved equal to it |
| `Tui.ChosenSpec` | crawlrec/tui.py:172-179 | Under the index invariant, save-and-quit returns exactly `len(selected)` clicks, and position `k` holds the click at the `k`-th largest selected index (oldest first) |
| `Tui.ChosenElements` | crawlrec/tui.py:173-178 | The clicks returned by save are exactly the selected clicks |
| `Tui.ChosenReversesDisplayOrder` | crawlrec/tui.py:173-178 | Display order `[e0, e1, e2]` with `{0, 2}` selected saves `[e2, e0]` |
| `Tui.ClickUI.constructor` | crawlrec/tui.py:75-78 | A new UI has no items, no seen signatures, no selection and cursor 0, and is valid |
| `Tui.ClickUI.IngestClick` | crawlrec/tui.py:98-113 | One event-worker step changes the fields exactly as `Ingest` does and keeps the object valid |
| `Tui.ClickUI.EventWorker` | crawlrec/tui.py:94-113 | Draining a sequence of clicks in FIFO order gives the fold of `Ingest` over them and keeps the object valid |
| `Tui.ClickUI.OnKey` | crawlrec/tui.py:148-159 | The key handler changes only the cursor, as `KeyPressed` does, and keeps the object valid |
| `Tui.ClickUI.ActionToggle` | crawlrec/tui.py:162-169 | Toggle changes only the selection, as `Toggle` does, and keeps the object valid |
| `Tui.ClickUI.ActionSaveQuitApp` | crawlrec/tui.py:172-180 | The message sent is `("exit", chosen)` where `chosen` is the reverse of the clicks at the sorted, in-range selected indices |
| `Tui.ClickUI.ActionQuitApp` | crawlrec/tui.py:182-184 | The message sent is `("exit", [])` |
| `OutputNames.StripWww` | crawlrec/recorder.py:46 | The domain is the host with one leading `www.` removed, and unchanged when it has none |
| `OutputNames.StripWwwOnlyOnce` | crawlrec/recorder.py:46 | Only the `www.` at the start goes: `www.www.a` becomes `www.a` |
| `OutputNames.Decimal` | crawlrec/recorder.py:49 | `str(n)` is a non-empty string of digits with no leading zero, and has one digit exactly when `n < 10` |
| `OutputNames.DecimalValue` | crawlrec/recorder.py:49 | The digits of `str(n)`, read most significant first, denote `n`, so `domain12.json` is attempt 12 |
| `OutputNames.DecimalInjective` | crawlrec/recorder.py:49 | Different numbers print differently |
| `OutputNames.CrawlDir` | crawlrec/recorder.py:43 | `Path.cwd() / "crawls"` starts with the working directory and ends in `/crawls`. It is 6 characters longer when the working directory already ends in a separator and 7 otherwise, so exactly one separator is added, and it never ends in a separator |
| `OutputNames.CandidateAtRoot` | crawlrec/recorder.py:43-49 | Run from `/`, the first attempt is `/crawls/a.json`, with no doubled separator |
| `OutputNames.Suffix` | crawlrec/recorder.py:49 | Definition with no contract of its own: nothing for attempt 1, `str(n)` after that. `DecimalValue` and `CandidateInjective` specify it |
| `OutputNames.FileName` | crawlrec/recorder.py:49 | Definition with no contract of its own: `<domain><suffix>.json`. `CandidateInjective` specifies it |
| `OutputNames.Candidate` | crawlrec/recorder.py:43-49 | Definition with no contract of its own: the file name under the `crawls` directory. `CandidateInjective` and `CandidateAtRoot` specify it |
| `OutputNames.DefaultPath` | crawlrec/recorder.py:43-52 | Definition with no contract of its own: the candidate at the first free attempt. `DefaultPathIsLeastFree` specifies it |
| `OutputNames.CandidateInjective` | crawlrec/recorder.py:43-49 | `domain.json`, `domain2.json`, `domain3.json`, ... are pairwise different paths |
| `OutputNames.FirstFree` | crawlrec/recorder.py:47-52 | The search returns an attempt whose path does not exist, and every earlier attempt's path exists, so it is the least free one |
| `OutputNames.DefaultPathIsLeastFree` | crawlrec/recorder.py:43-52 | The default path is never an existing path and comes no later than any free attempt |
| `Recording.Merged` | crawlrec/recorder.py:92-94 | Definition with no contract of its own: each chosen click not already present is appended. The `Merged…` lemmas below specify it |
| `Recording.MergedPayload` | crawlrec/recorder.py:91-94 | Definition with no contract of its own: a list payload is merged, any other payload leaves the actions as they are. `Recorder.MergeExit` and `QuitOnEmptySessionWritesNothing` use it |
| `Recording.MergedPrefix` | crawlrec/recorder.py:91-94 | The old `actions` stays a prefix of the merged list |
| `Recording.MergedElements` | crawlrec/recorder.py:91-94 | Afterwards every chosen click is in `actions`, and nothing else was added |
| `Recording.MergedAppendsFresh` | crawlrec/recorder.py:93-94 | Each appended click was absent from the old list and is appended once |
| `Recording.MergedNoDup` | crawlrec/recorder.py:91-94 | If `actions` had no duplicates, it has none after the merge |
| `Recording.MergedKeepsOrder` | crawlrec/recorder.py:92-94 | Appended clicks keep the order of their first occurrence in the chosen list |
| `Recording.FileStore.constructor` | crawlrec/recorder.py:43-61 | The file system the recorder writes to: the working directory and the document at each existing path |
| `Recording.OutputPath` | crawlrec/recorder.py:37-52 | Definition with no contract of its own: the explicit output when non-empty, else the default path. `SaveEffect`, `Recorder.MakeOutputPath` and `DefaultPathIsLeastFree` specify it |
| `Recording.AfterSave` | crawlrec/recorder.py:54-61 | Definition with no contract of its own: the files after `_save`. `SaveEffect` and `Recorder.Save` specify it |
| `Recording.FirstExit` | crawlrec/recorder.py:83-89 | The first index holding an "exit" message, or the queue's length when there is none: every earlier message is something else |
| `Recording.SaveEffect` | crawlrec/recorder.py:54-61 | Empty `actions` writes nothing. Otherwise exactly one document `{url, actions}` is written. At a default path it goes to a new file and leaves every existing file as it was |
| `Recording.QuitOnEmptySessionWritesNothing` | crawlrec/recorder.py:54-57 | Quitting without saving on a session with no actions writes no file |
| `Recording.Recorder.constructor` | crawlrec/recorder.py:10-19 | A new recorder has no actions, is recording, has the shutdown event clear and both queues empty |
| `Recording.Recorder.OnClick` | crawlrec/recorder.py:68-72 | While recording, the click is appended at the back of the event queue; afterwards it is dropped |
| `Recording.Recorder.MakeOutputPath` | crawlrec/recorder.py:37-52 | The path is the explicit output when that is a non-empty string; otherwise it is the first free default path |
| `Recording.Recorder.Save` | crawlrec/recorder.py:54-61 | The files change as `AfterSave` says: nothing for empty actions, else one document at the output path |
| `Recording.Recorder.MergeExit` | crawlrec/recorder.py:89-94 | A list payload is merged into `actions`; any other payload leaves `actions` unchanged; no duplicates are introduced |
| `Recording.Recorder.SafeStop` | crawlrec/recorder.py:103-137 | Once recording has ended, a stop changes nothing. Otherwise it queues `("exit", None)`, saves the current actions, clears `recording` and sets the shutdown event. `recording` never goes back to true |
| `Recording.Recorder.ConsumeUi` | crawlrec/recorder.py:78-97 | Messages other than "exit" are skipped. On the first "exit" the payload is merged and the session stopped, and the messages after it stay queued. With no "exit" queued the state is unchanged apart from the drained queue |
| `Session.ClicksDeduplicated` | crawlrec/tui.py:104-108 | Clicks Login, Cart, Login leave the buffer `[Cart, Login]` |
| `Session.SelectBothAndSave` | crawlrec/tui.py:151-179 | Toggling the top click, moving down, toggling again and saving gives `[Login, Cart]` |
| `Session.SavedToFirstName` | crawlrec/recorder.py:46-61 | Merging that choice into an empty session and saving writes one file, `<cwd>/crawls/shop.example.json`, holding `[Login, Cart]` |
| `Session.CurateClicks` | crawlrec/tui.py:94-184 | Through the `ClickUI` methods, the three clicks and the key presses yield `("exit", [Login, Cart])` |
| `Session.SaveTwoClicks` | crawlrec/recorder.py:68-97 | Through the `Recorder` and `ClickUI` methods, the whole session writes exactly one file, holding `[Login, Cart]` |

## Left out

- Concurrency: the asyncio queues, tasks, `wait_for` timeouts, signal handlers and `create_task`. Each operation is one sequential step. Queues are sequences, and a blocking `get` on an empty queue ends `ConsumeUi` instead of waiting.
- Recording.Recorder.SafeStop: is modelled as one atomic step. In recorder.py, `recording` is cleared only after several awaits, so two overlapping stops can both run. Single execution under concurrency is not claimed.
- Browser automation: launching the browser, the page binding, navigation, script injection and closing the context and browser. These are foreign calls; the browser-closing and UI-joining steps of `safe_stop` are omitted.
- `record()` and `setup_signal_handlers()`: they only wire the browser, the UI task and signals to `safe_stop`.
- UI rendering: CSS, `compose`, widget mounting, `refresh`, `run_worker`, `exit()`, and turning a label value into text with `str()`. `Tui.Label` returns the value that is shown. The save and quit actions return the message they put on the result queue.
- The "d" key binding: it names an action method that does not exist, so it has no behaviour.
- File I/O: opening files, `json.dump` formatting, `mkdir`, `expanduser` and `resolve` of an explicit path (the path is used as given), and the log and print lines. The file system is a map from path strings to documents, and a path exists when it is a key of that map.
- `urlparse(url).netloc`: the recorder receives the host part of its URL as a separate value.
- Python's cross-type equality among JSON values (`True == 1`, `1 == 1.0`): booleans and non-integral numbers are not modelled, so equality of values is structural. A click record that is not a dictionary (an `AttributeError` in `_sig`) is not modelled.
- A result-queue entry that is not a pair (the `except Exception: continue` around the unpacking): every message is a pair.
