# kaya-workspace: the terminal command pipeline and its helpers, in Dafny

This project models the deterministic core of the kaya workspace, a PySide6 desktop shell, and proves properties of that model.

- **Terminal pipeline.** A line typed into the terminal page is echoed, parsed and dispatched through the main window's command bus. The `theme` family of commands reaches the theme service. That service normalises a payload of any of four shapes into a sub-command and an accent name. It then lists, sets or resets the accent, and persists it in a one-line store file. Every answer is written to the output pane by a typewriter that emits queued texts a few characters per timer tick.
- **Helpers around the pipeline:**
  - the accent catalogue and hex-colour parsing of the stylesheet module;
  - the older palette switcher;
  - the time-of-day greeting;
  - the file helpers of the projects page (`slugify`, `ensure_unique_path`, the extension tests, the hidden-path rule of the project explorer);
  - its flow layout;
  - its search, count and bucket logic.

One module per source concern:

| module | models |
|---|---|
| `Wrappers` | `Option` |
| `Text` | Python's `str.isspace`, `split()`, `strip()`, ASCII `lower()`, `join` and decimal formatting |
| `Payload` | the four payload shapes a handler can receive, with Python truthiness and `str()` |
| `ThemeStore` | the file `~/.kaya_theme.txt`: missing, unreadable, or holding text; writes may fail |
| `Accents` | `kaya/ui/theme.py` |
| `Themes` | `kaya/utils/theme.py` |
| `ThemeService` | `kaya/services/theme_service.py` |
| `Typewriter` | the `Typewriter` class of `kaya/ui/terminal_page.py` |
| `Bus` | the inner `Bus` and the theme registrations of `kaya/ui/main.py` |
| `Terminal` | `TerminalPage.log` and `TerminalPage.execute` |
| `Slug`, `ProjectFiles`, `FlowLayout`, `ProjectSearch` | `kaya/ui/projects_page.py` |
| `Greetings` | `kaya/utils/greetings.py` (also copied in `kaya/ui/terminal_page.py`) |

What the model takes as parameters:

- **Clock.** The hour of the day.
- **File system.** The set of existing paths, and the store state plus whether writing succeeds.
- **Command-line parser.** A function from the line to a command and payload, or an exception message.
- **Handlers outside the model.** These are the default commands and the project-opening hook; their behaviour is a function from name and payload to a returned value or a raised message.
- **Qt timer.** Replaced by explicit ticks that fire only while the typewriter runs.
- **`finished` signal.** Replaced by a counter.

## Model

| member | source | states |
|---|---|---|
| ThemeService.Normalize | kaya/services/theme_service.py:24-63 | None gives (None, None). A string or list gives its first token lower-cased as sub and its second as name, later tokens ignored; no tokens gives (None, None). Results are always lower case, and trimmed for strings and mappings. |
| ThemeService.NormalizeShapeEquivalence | kaya/services/theme_service.py:29-59 | The same remainder normalises alike as a string, a token list, a mapping with the list under `args`, `argv` or `tokens`, or a mapping with the string under `rest`. |
| ThemeService.FirstTruthyPicksEarliest | kaya/services/theme_service.py:46-47 | The `or` chain over the probed keys yields the earliest truthy value, and is falsy exactly when every probed value is falsy. |
| ThemeService.FirstPresentNone | kaya/services/theme_service.py:50-54 | No token key is chosen exactly when none of `args`, `argv`, `tokens` is present. |
| ThemeService.TokenListFields | kaya/services/theme_service.py:49-59 | A mapping holding only a token list under one of the token keys normalises like that list. |
| ThemeService.RestIgnoredWhenTokenKeyPresent | kaya/services/theme_service.py:49-56 | Once any of `args`, `argv`, `tokens` is present (even holding an empty list), changing `rest` changes nothing. |
| ThemeService.ExplicitFieldsWin | kaya/services/theme_service.py:57-59 | A truthy sub or name given under a probed key is never overridden: changing the token keys or `rest` leaves it as is. |
| ThemeService.TokensFillMissing | kaya/services/theme_service.py:57-59 | With a non-empty token list, the first token supplies a missing sub and the second a missing name; one token leaves a missing name None. |
| ThemeService.Finish | kaya/services/theme_service.py:61-62 | A non-empty string becomes its trimmed lower-cased form; an empty string or a non-string value becomes None. |
| ThemeService.WhitespaceIsNotEmpty | kaya/services/theme_service.py:61-62 | A whitespace-only sub yields the empty string, not None. |
| ThemeService.ScalarArgs | kaya/services/theme_service.py:53 | A non-list value under `args` is stringified and split, so it normalises like its `str()` typed as a string. |
| ThemeService.NormalizeNoneArgs | kaya/services/theme_service.py:53 | `args = None` gives sub `"none"`, because `str(None)` is split. |
| ThemeService.NormalizeMixedSources | kaya/services/theme_service.py:46-59 | Sub and name are probed independently: a name from `name` combines with a sub from the token list. |
| ThemeService.NormalizeFoldsCase | kaya/services/theme_service.py:46-62 | `{cmd: "SET", value: "BLUE"}` normalises to ("set", "blue"). |
| ThemeService.WordPayload | kaya/services/theme_service.py:29-34 | A single-word string gives that word lower-cased as sub and no name. |
| ThemeService.ReadSaved | kaya/services/theme_service.py:9-16 | The saved name exists exactly when the store holds text that is non-empty after strip, and it is that stripped text. |
| ThemeStore.Write | kaya/services/theme_service.py:18-22 | A successful write leaves the store holding exactly the text; a failed write changes nothing. |
| ThemeService.ReadAfterWrite | kaya/services/theme_service.py:9-22 | Reading back after a successful write gives the stripped text, or nothing when it is blank; after a failed write it reads as before. |
| ThemeService.SetAccent | kaya/services/theme_service.py:88-95 | No name: usage plus the catalogue, nothing changes. Unknown name: a refusal naming it, nothing changes. Known name: the reply names it, and that accent is applied and saved. |
| ThemeService.Reset | kaya/services/theme_service.py:97-100 | Reset applies and saves green and says so. |
| ThemeService.Respond | kaya/services/theme_service.py:85-102 | `list` answers with the catalogue in declaration order and changes nothing; `set` and `reset` act as above; any other sub (None included) gives the usage line and changes nothing. |
| ThemeService.Handle | kaya/services/theme_service.py:82-102 | `handle` never fails. It changes the state only for `set` or `reset`, and every change applies a catalogue accent and persists that same accent. |
| ThemeService.HandleKeepsAccentValid | kaya/services/theme_service.py:82-102 | The current accent stays a catalogue accent across every command. |
| ThemeService.ApplySavedOrDefault | kaya/services/theme_service.py:77-80 | Start-up returns the saved name and applies it when it is a catalogue accent; a saved name outside the catalogue leaves green applied; a missing, unreadable or blank store gives green. |
| ThemeService.ThemeRoundTrip | kaya/services/theme_service.py:9-95 | Typing `set <accent>` with a writable store, then starting later over the store that leaves behind, applies and returns that accent; with the store gone, green. |
| ThemeService.SetLine | kaya/services/theme_service.py:88-92 | The string `set <word>` reaches the `set` branch with the word lower-cased; an unknown word is refused by name and changes nothing. |
| Accents.Names | kaya/ui/theme.py:7-25 | The catalogue names in declaration order, one per table entry. |
| Accents.Find | kaya/ui/theme.py:36 | Lookup succeeds exactly when the name is a key, and then returns that key's palette. |
| Accents.PaletteFor | kaya/ui/theme.py:35-37 | The palette of a known accent is its own entry; an unknown accent gets green's palette; the result is always a catalogue palette. |
| Accents.Apply | kaya/ui/theme.py:91-94 | The recorded accent is the requested one when it is in the catalogue, green otherwise, and always a catalogue name. |
| Accents.Current | kaya/ui/theme.py:111-112 | `current()` is always a catalogue palette, and for a known accent its own entry. |
| Accents.CurrentAfterApply | kaya/ui/theme.py:91-112 | After `apply`, `current()` is the requested accent's entry, or green's for an unknown name. |
| Accents.LStripHash | kaya/ui/theme.py:29 | After `lstrip('#')` the text no longer starts with `#`. |
| Accents.HexIgnoresDecoration | kaya/ui/theme.py:29 | Surrounding whitespace and any number of leading `#` do not change the parsed colour. |
| Accents.HexShorthand | kaya/ui/theme.py:30-31 | A 3-digit colour parses like its digit-doubled 6-digit form, giving the doubled pairs' values. |
| Accents.HexSixDigits | kaya/ui/theme.py:32-33 | A valid 6-digit colour yields the values of its three two-digit pairs, each within 0..255. |
| Accents.PairParses | kaya/ui/theme.py:32 | `int(xy, 16)` of two hex digits is their base-16 value, within 0..255. |
| Accents.HexRoundTrip | kaya/ui/theme.py:28-33 | Formatting a colour as `#RRGGBB` and parsing it back gives the same colour. |
| Themes.Available | kaya/utils/theme.py:59-60 | The five palette names in declaration order, distinct, `matrix` first. |
| Themes.ApplyTheme | kaya/utils/theme.py:62-65 | A known name is applied and returned; an unknown one applies and returns `matrix`; palette and returned name always agree. |
| Themes.StoredName | kaya/utils/theme.py:74-80 | The name asked for at start-up is the stripped store text, or `matrix` when the store is missing, unreadable or blank. |
| Themes.LoadAndApply | kaya/utils/theme.py:74-81 | Start-up always ends on a palette name: the stored one when valid, and `matrix` when the store is missing or holds blank or unknown text. |
| Themes.SaveCurrent | kaya/utils/theme.py:67-72 | Saving stores the stripped name; a failed write is swallowed and changes nothing. |
| Themes.SaveThenLoad | kaya/utils/theme.py:67-81 | Saving a palette name and loading it back applies that palette. |
| Typewriter.ClampChunk | kaya/ui/terminal_page.py:50 | The chunk size is at least 1, and a positive request is kept. |
| Typewriter.New | kaya/ui/terminal_page.py:46-56 | A new typewriter is idle with an empty queue and satisfies the class invariant. |
| Typewriter.Enqueue | kaya/ui/terminal_page.py:58-62 | `queue` appends to the tail while running; when idle it starts writing the text at once. |
| Typewriter.StartNext | kaya/ui/terminal_page.py:76-84 | With an empty queue the writer goes idle and emits `finished`; otherwise it pops the head and starts it at position 0. |
| Typewriter.Tick | kaya/ui/terminal_page.py:86-94 | At the end of the current text a tick moves on to the next one. Otherwise it writes exactly the next piece: a full chunk, or up to the end of the text. It advances the position past that piece and makes progress. |
| Typewriter.Skip | kaya/ui/terminal_page.py:64-74 | `skip` writes everything promised, leaves the writer idle with an empty queue, and emits `finished` once, even when already idle. |
| Typewriter.OperationsKeepValid | kaya/ui/terminal_page.py:46-94 | Queueing, ticking and skipping keep the invariant: chunk at least 1, position within the current text, an empty queue while idle. |
| Typewriter.EnqueueConserves | kaya/ui/terminal_page.py:58-62 | Queueing adds exactly the new text after everything already promised. |
| Typewriter.StartNextConserves | kaya/ui/terminal_page.py:76-84 | Moving to the next text neither loses nor reorders pending text. |
| Typewriter.TickConserves | kaya/ui/terminal_page.py:86-99 | A tick writes only what was promised, in order. |
| Typewriter.TickProgress | kaya/ui/terminal_page.py:86-94 | Every tick of the running timer strictly decreases a measure, so the timer eventually stops. |
| Typewriter.Drain | kaya/ui/terminal_page.py:76-94 | Letting the timer run until idle leaves the pane holding everything promised, with `finished` emitted once if it was running. |
| Typewriter.RunConserves | kaya/ui/terminal_page.py:53-99 | Over any interleaving of queueing, ticks and skips, the pane followed by the pending text is the initial text followed by every queued text in order. |
| Typewriter.RunExtendsPane | kaya/ui/terminal_page.py:96-99 | Text once written into the pane stays there: the pane only grows. |
| Typewriter.FreshThenSkip | kaya/ui/terminal_page.py:64-74 | After any trace on a fresh typewriter, a skip leaves the initial text followed by all queued texts in order. |
| Terminal.LogLine | kaya/ui/terminal_page.py:150-153 | `log` queues the text with exactly one trailing newline added when missing. |
| Terminal.SetDefault | kaya/ui/terminal_page.py:179-182 | `setdefault` adds the key when missing and keeps every existing value. |
| Terminal.PrepareTheme | kaya/ui/terminal_page.py:176-182 | For `theme` with more than one word, the four token keys are defaulted and existing keys kept. A truthy non-mapping payload raises. Other commands pass unchanged. |
| Terminal.OrEmpty | kaya/ui/terminal_page.py:185 | `p or {}`: a truthy payload is kept, a falsy one becomes the empty mapping. |
| Terminal.AfterEcho | kaya/ui/terminal_page.py:171-191 | A parse failure or a failed `setdefault` is logged as `Error: msg` with the theme state unchanged. Otherwise the dispatch's state is kept: an exception is logged as `Error: msg`, a truthy result is logged as it is, and a falsy result logs nothing. |
| Terminal.UnknownCommandAnswer | kaya/ui/terminal_page.py:185-189 | A typed command that nothing registered is answered `Error: Unknown command: <cmd>` and leaves the theme state alone. |
| Terminal.Execute | kaya/ui/terminal_page.py:155-195 | Nothing happens while busy. Otherwise the input is cleared, the gap flag set and the lock released. A blank line writes nothing and dispatches nothing. |
| Terminal.ExecuteTranscript | kaya/ui/terminal_page.py:164-191 | A non-blank line appends, after what was already promised, the separator (only when due), the echo `> line`, then the logged answer or error, in that order. |
| Terminal.FreshThemeDefaults | kaya/ui/terminal_page.py:178-182 | A `theme` line without parser payload gets exactly the keys `args`, `argv`, `tokens`, `rest`, holding the words after `theme`. |
| Terminal.ThemeLineTokens | kaya/ui/terminal_page.py:176-185 | The theme handler sees the words after `theme` exactly as if they had been typed to it as a string. |
| Terminal.TypedThemeSet | kaya/ui/terminal_page.py:155-195 | Typing `theme set <accent>` applies and persists that accent and logs `Theme set to: <accent>`. |
| Terminal.TypedLineSplits | kaya/ui/terminal_page.py:176-177 | `theme set <accent>` is already trimmed and splits into its three words. |
| Bus.Register | kaya/ui/main.py:110 | `register` binds the name, overwriting an earlier binding, and leaves every other entry unchanged. |
| Bus.Dispatch | kaya/ui/main.py:111-114 | An unbound name raises `Unknown command: <name>` and changes nothing; a bound name runs exactly its handler on the payload. |
| Bus.Invoke | kaya/ui/main.py:141-144 | `theme` forwards the payload unchanged to the handler; `theme.reset` always calls it with `{sub: reset}`; outside handlers leave the theme state as it was, by the assumption on outside handlers below. |
| Bus.MergeSub | kaya/ui/main.py:142-143 | `{"sub": s, **(payload or {})}`: a falsy payload gives only `sub`. A mapping keeps its own keys, a `sub` key of its own winning. A truthy string or list raises. |
| Bus.Alias | kaya/ui/main.py:142-143 | `theme.list` and `theme.set` call the theme handler on the merged mapping, or raise without changing anything. |
| Bus.SetupBindings | kaya/ui/main.py:116-144 | After setup the four theme names and the project hook are bound to the window's handlers, whatever the default commands registered; other defaults stay as they were. |
| Bus.UnknownCommandRaises | kaya/ui/main.py:111-113 | Names are matched exactly: any name not registered raises and leaves the theme alone. |
| Bus.ResetIgnoresPayload | kaya/ui/main.py:144 | `theme.reset` gives the same result whatever its payload. |
| Bus.SetAliasMerges | kaya/ui/main.py:143 | `theme.set` with a mapping acts as `theme` with `sub = "set"` added, unless the mapping has its own `sub`, which then wins. |
| Bus.AliasRejectsNonMapping | kaya/ui/main.py:142-143 | A truthy string or list sent to an alias cannot be unpacked: the call raises and nothing changes. |
| Bus.ExternalKeepsTheme | kaya/ui/main.py:119-138 | Only the four theme names can change the theme state; every other name reaches an outside handler, which is assumed to return an outcome and nothing else. |
| Slug.DropForbidden | kaya/ui/projects_page.py:103 | Removing forbidden characters never lengthens the name. |
| Slug.Dashes | kaya/ui/projects_page.py:105 | Every space becomes a dash; every other character is kept in place. |
| Slug.Fold | kaya/ui/projects_page.py:106-107 | Each Turkish letter is replaced by its ASCII counterpart; the length is kept. |
| Slug.KeepAllowed | kaya/ui/projects_page.py:108 | Only ASCII letters, digits, `-` and `_` survive. |
| Slug.Slugify | kaya/ui/projects_page.py:101-109 | The slug is never empty and holds only ASCII letters, digits, `-` and `_`. |
| Slug.CollapseWords | kaya/ui/projects_page.py:104 | Collapsing whitespace runs and stripping gives the whitespace-separated words joined by single spaces. |
| Slug.DashesJoin | kaya/ui/projects_page.py:104-105 | Turning spaces into dashes turns the space-joined words into the dash-joined words. |
| Slug.SlugifyWords | kaya/ui/projects_page.py:103-109 | The slug is the words of the cleaned name, joined by dashes, folded to ASCII and filtered, or `project` when nothing is left. |
| Slug.ForbiddenIgnored | kaya/ui/projects_page.py:103 | A forbidden character anywhere in the name does not change the slug. |
| Slug.SlugFixesAllowed | kaya/ui/projects_page.py:101-109 | A non-empty name made only of allowed characters is its own slug. |
| Slug.SlugifyIdempotent | kaya/ui/projects_page.py:101-109 | `slugify(slugify(x)) == slugify(x)`. |
| Slug.TurkishFolded | kaya/ui/projects_page.py:106-107 | A non-empty name of ASCII and Turkish letters is transliterated letter by letter, not dropped. |
| ProjectFiles.LastDot | kaya/ui/projects_page.py:82 | The index of the last dot, or -1 when there is none. |
| ProjectFiles.EnsureUniquePath | kaya/ui/projects_page.py:80-87 | The result does not exist and has the same parent. A free path is returned unchanged. Otherwise the result is `stem (i)suffix` for the least `i >= 1` whose candidate is free. |
| ProjectFiles.CandidateInjective | kaya/ui/projects_page.py:85 | Different numbers give different candidate names. |
| ProjectFiles.KindIgnoresCase | kaya/ui/projects_page.py:88-92 | Both extension tests ignore the case of the file name. |
| ProjectFiles.CandidateKeepsKind | kaya/ui/projects_page.py:82-92 | A numbered copy passes each extension test exactly when the original does. |
| ProjectFiles.AcceptsExactly | kaya/ui/projects_page.py:57-70 | A path is shown exactly when it lies inside the project folder and no component below the folder starts with a dot. |
| ProjectFiles.MetaHidden | kaya/ui/projects_page.py:62-69 | The `.kaya` folder and everything inside it are hidden. |
| ProjectFiles.AncestorsShown | kaya/ui/projects_page.py:62-70 | The ancestors of a shown path inside the folder are shown, so hiding a folder hides its subtree. |
| FlowLayout.DoLayout | kaya/ui/projects_page.py:34-50 | One position per item, the first at the content area's top-left. Each item sits right beside its predecessor when it fits, and at the start of a lower row when it does not fit and the row has height. With non-negative spacing every item lies within the returned height, and some item reaches it. |
| ProjectSearch.Tally | kaya/ui/projects_page.py:922-927 | Counts and buckets have an entry for each of the five types and for every type that occurs. Each bucket holds exactly that type's projects in order, and each count is that bucket's size. |
| ProjectSearch.CountsAddUp | kaya/ui/projects_page.py:922-927 | The counts add up to the number of listed projects; a project of an unknown type is counted too. |
| ProjectSearch.KeepExactly | kaya/ui/projects_page.py:918-921 | A project is kept exactly when it is listed and the query occurs in its lower-cased name plus folder name or in its space-joined tags. |
| ProjectSearch.KeepConcat | kaya/ui/projects_page.py:918-921 | Filtering keeps the order: the filter of two lists joined is the two filters joined. |
| ProjectSearch.KeepTwice | kaya/ui/projects_page.py:946-949 | Filtering an already filtered list changes nothing. |
| ProjectSearch.QueryNormalized | kaya/ui/projects_page.py:917 | The search ignores case and surrounding whitespace of the typed text. |
| ProjectSearch.BlankSearchListsAll | kaya/ui/projects_page.py:917-918 | A blank or whitespace-only search lists every project. |
| ProjectSearch.KeepOfType | kaya/ui/projects_page.py:943-949 | Filtering then taking a type gives the same list as taking the type then filtering. |
| ProjectSearch.TitleRoundTrip | kaya/ui/projects_page.py:963 | The title shown for a lower-case type name reads back as that name after strip and lower. |
| ProjectSearch.TypeListIsBucket | kaya/ui/projects_page.py:943-949 | The refreshed type list is exactly that type's projects among those the search keeps. |
| ProjectSearch.TilesCountTiledProjects | kaya/ui/projects_page.py:935-938 | The five tiles together count every listed project whose type has a tile, each once. |
| ProjectSearch.TilesAddUp | kaya/ui/projects_page.py:935-938 | When every project has one of the five types, the tiles add up to the number of listed projects. |
| Greetings.Word | kaya/utils/greetings.py:24-32 | Each part of the day has a non-empty greeting word without a full stop. |
| Greetings.Greeting | kaya/utils/greetings.py:24-33 | The greeting starts with the word for the hour's part of the day and ends with a full stop. |
| Greetings.ChangesAtBoundaries | kaya/utils/greetings.py:25-32 | Over 0..23 the greeting changes exactly at 05, 12, 17 and 22 o'clock. |
| Greetings.WordsDistinct | kaya/utils/greetings.py:25-32 | The four greeting words differ, so the text tells the part of the day. |
| Greetings.NameReadBack | kaya/utils/greetings.py:33 | A non-empty name sits between `, ` and the final full stop; a missing or empty name gives the bare word and a full stop. |

## Left out

- Qt widgets, layouts, painting, dialogs, shortcuts and signals. The `finished` signal is a counter, and the QTimer is an explicit tick that fires only while the typewriter runs.
- Stylesheet text: the body of `qss` in kaya/ui/theme.py and `_QSS.format` in kaya/utils/theme.py. The glow colours `qss` derives from the parsed accent are also left out. Only the palette lookup is modelled.
- File I/O. The theme store is a three-state value plus a "write succeeds" flag. The file system seen by `ensure_unique_path` is a set of existing paths, and the explorer's rows are component lists.
- Clocks and time zones. `time_based_greeting` takes the hour as a parameter; `now_iso` and `shortid` are not modelled.
- The command-line parser and `register_default_commands`. Their source is not part of this model: the parser is a parameter, and each default command is an outside handler whose behaviour is a parameter.
- `ui_project_open` (kaya/ui/main.py:122-136). It probes paths and navigates pages, so it is an outside handler as well.
- The opening sequence and the welcome banner of the terminal page. They are only a fixed series of `queue` calls, which `Typewriter.RunConserves` covers.
- `_scan_projects` and the metadata defaults it fills in. The scanned projects are a parameter.
- The newest-first sort of `_populate_list`.
- The `heightForWidth`, `sizeHint` and `minimumSize` wrappers of the flow layout. `heightForWidth(w)` is `DoLayout` over the rectangle (0, 0, w, 0). `test_only` only suppresses `setGeometry`.
- `safe_child_path`, project creation, opening and deletion, drag-and-drop, the image viewer's zoom arithmetic, and the rest of the projects page's widgets.
- Payloads beyond the four shapes. `_normalize` raises on other objects at `dict(params)`. List payload elements are scalars, and mapping values are scalars or lists. Floats and nested mappings are not modelled.
- Character handling is ASCII only:
  - `str.lower`, `str.title` and `int(…, 16)` are modelled on ASCII text; Python's Unicode case mapping and non-ASCII digits are left out.
- `" ".join(tags)` raising on non-string tags. Tags are strings in the model.
- Bus.ExternalKeepsTheme: outside handlers are assumed to return only an outcome and never to touch the theme state. The project hook does only page navigation (kaya/ui/main.py:122-136). `register_default_commands` receives the main window, which owns the theme service, and its source is not part of this model, so whether a default command changes the theme is not known. `Bus.Invoke` states the same assumption.
- FlowLayout.DoLayout: the positions are stated relationally rather than as one closed formula. Each item is either right beside its predecessor or at the start of a lower row, with the fit rule deciding. The two height facts are stated only under non-negative vertical spacing and non-negative item heights; outside those bounds the returned height is not characterised.
- Greetings.Greeting: its own contract states only how the text starts and ends. The name in between is stated by `Greetings.NameReadBack`, and the day-part partition over 0..23 by `Greetings.ChangesAtBoundaries`.
- ProjectSearch.TilesAddUp: the tiles add up only when every project has one of the five tile types. A project of any other type is counted in `counts` but shown by no tile, as `ProjectSearch.TilesCountTiledProjects` states.
