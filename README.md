# Wallboard layout reconciliation, modelled in Dafny

The wallboard shows four web views tiled over one display. This project
models the core of its layout reconciliation and the checks around it.

- **Monitor selection.** One display is chosen by one of three policies: the
  primary display, an index into the enumerated list, or the first display
  whose lower-cased name contains a lower-cased needle.
- **Tile geometry.** The chosen display is split into four tiles, in view
  order: top-left, top-right, bottom-left, bottom-right. Each tile is half
  the display in each direction, rounded down.
- **The apply loop.** `spawn_wallboard` walks the four views. A view whose
  window (label `view-<id>`) already exists has that window navigated, moved,
  resized and shown. Otherwise a window is built with its own storage
  directory `profiles/(profile or label)`. The first error stops the loop,
  and changes already made stay.
- **Rebuild.** `recreate_wallboard_windows` closes every window whose label
  starts with `view-`, then applies again.
- **The settings commands.** `save_config` validates the URL schemes, writes
  the file, and only then replaces the stored configuration.
  `list_monitors` flags the primary display by its position and size.
  `apply_config` applies a snapshot of the stored configuration.
- **The settings page.** HTML escaping of the values put into the form, and
  trimming and null-mapping when the form is read back.
- **The configuration.** The data model and the default configuration. A
  configuration always holds exactly four views; the type `FourViews` says so.

Modules, one per source file plus two support modules:

| module | file | models |
|---|---|---|
| `Wrappers` | `wrappers.dfy` | `Option` and `Result` |
| `Text` | `text.dfy` | lower-casing, `str::contains`, `usize` parsing and decimal formatting |
| `Config` | `app_config.dfy` | `src-tauri/src/app_config.rs` |
| `WindowManager` | `window_manager.dfy` | `src-tauri/src/window_manager.rs` |
| `SettingsApi` | `settings_api.dfy` | `src-tauri/src/settings_api.rs` |
| `SettingsUi` | `settings_ui.dfy` | the value mapping of `src/settings/settings.ts` |

The host windowing layer is the class `WindowManager.Host`. Its field
`windows` maps a window label to a record: URL, page loads, x, y, width,
height, visibility and storage directory. The page-load count is 1 when a
window is built and grows by one on every navigate, so a reload of an
unchanged URL shows in the record. The displays, the primary display, the
application data directory and the URL parser are constants of the host.
`Host.SpawnWallboard` and `Host.RecreateWallboardWindows` are the loops of
the source. They are proved equal to the specification functions
`ApplyViews` and `Reconcile`, which are left folds over the views, and the
lemmas about those functions carry the properties: create versus update,
what a repeated apply changes, the frame, no rollback, and rebuild.

Notes on what the code does:

- Every apply navigates every existing view window, not only the windows
  whose URL changed. A repeated apply therefore moves, creates and closes
  nothing, but reloads every view's page (`ApplyViewsIdempotent`).
- A URL that does not parse stops the apply with the parser's error. That
  error does not name the view, so `InvalidViewUrl` carries no data.
- `save_config` does not apply the configuration. The settings page calls
  `apply_config` separately.
- `apply_config` calls `window_manager::apply_wallboard`, but the only apply
  routine in `window_manager.rs` is `spawn_wallboard`. Both are taken to be
  the same operation.

## Model

| member | source | states |
|---|---|---|
| `Text.ContainsIffOccurs` | src-tauri/src/window_manager.rs:33 | the left-to-right scan used as `str::contains` holds exactly when the needle occurs at some position of the name |
| `Text.ContainsEmpty` | src-tauri/src/window_manager.rs:22-34 | every name contains the empty needle, which is what a missing value gives |
| `Text.ParseUsize` | src-tauri/src/window_manager.rs:17 | an accepted index value is non-empty and at most 2^64-1 |
| `Text.ParseFormatRoundTrip` | src-tauri/src/window_manager.rs:17 | parsing the decimal form of any `usize` gives the same number back |
| `Text.ParseRejectsMinus` | src-tauri/src/window_manager.rs:17 | no value starting with `-` is accepted as an index |
| `Text.NatToStringDigits` | src-tauri/src/settings_api.rs:60 | the decimal form of `n` is non-empty, all digits, and has value `n` |
| `Config.DefaultConfigFacts` | src-tauri/src/app_config.rs:34-64 | the default has version 1, the primary display with no value, pairwise distinct view ids, four pairwise distinct profiles, and only `https://` URLs |
| `WindowManager.FindByName` | src-tauri/src/window_manager.rs:25-34 | the result is the first display in enumeration order whose name matches; `None` exactly when none matches |
| `WindowManager.SelectMonitor` | src-tauri/src/window_manager.rs:7-44 | Primary: the primary display, or `NoPrimaryMonitor` when there is none. Index: the value (default "0") is parsed, an unparsable value fails, index `idx` gives `monitors[idx]`, and `idx >= |monitors|` fails. NameContains: success exactly when some display's lower-cased name contains the lower-cased needle, and then the first such display |
| `WindowManager.IndexDefaultsToFirst` | src-tauri/src/window_manager.rs:15-21 | Index mode with no value selects the first display, and fails with index 0 on an empty list |
| `WindowManager.IndexSelectsListed` | src-tauri/src/window_manager.rs:15-21 | Index mode with the decimal form of `i` selects `monitors[i]`, and fails with `NoMonitorAtIndex(i)` exactly when `i` is out of range |
| `WindowManager.EmptyNeedleSelectsFirst` | src-tauri/src/window_manager.rs:22-42 | NameContains with no value selects the first display, and fails only on an empty list |
| `WindowManager.NameContainsIgnoresCase` | src-tauri/src/window_manager.rs:22-34 | the needle "DELL" selects a display named "Dell U2720Q" |
| `WindowManager.TilesInsideDisplay` | src-tauri/src/window_manager.rs:54-62 | each of the four tiles has size (w/2, h/2), rounded down, and lies inside the display |
| `WindowManager.TilesPartitionEven` | src-tauri/src/window_manager.rs:54-62 | for even width and height a point is in the display exactly when it is in some tile, and no point is in two tiles |
| `WindowManager.TilesOddWidthStrip` | src-tauri/src/window_manager.rs:54-62 | for an odd width the right-most pixel column lies in no tile |
| `WindowManager.TilesOddHeightStrip` | src-tauri/src/window_manager.rs:54-62 | for an odd height the bottom pixel row lies in no tile |
| `WindowManager.TilesFullHd` | src-tauri/src/window_manager.rs:54-62 | a 1920x1080 display at the origin gives the tiles (0,0), (960,0), (0,540) and (960,540), each 960x540, in that order |
| `WindowManager.LabelIsViewLabel` | src-tauri/src/window_manager.rs:68 | every derived label starts with `view-`, and different ids give different labels |
| `WindowManager.DistinctDataDirs` | src-tauri/src/window_manager.rs:86-88 | two views with different ids and no profile get different storage directories |
| `WindowManager.DefaultViewsIsolated` | src-tauri/src/app_config.rs:41-62 | the four default views get four different labels and four different storage directories |
| `WindowManager.ApplyViewsFailsIff` | src-tauri/src/window_manager.rs:67-71 | the loop ends with an error exactly when some view's URL does not parse, and the error is `InvalidViewUrl` |
| `WindowManager.ApplyViewsStopsAt` | src-tauri/src/window_manager.rs:67-104 | when view `k` is the first with an unparsable URL, the result is the windows after views `0..k` with no rollback, plus the error |
| `WindowManager.CountWithDistinct` | src-tauri/src/window_manager.rs:67-68 | with distinct ids, each view's label is derived by exactly one of the views |
| `WindowManager.ApplyViewsLoads` | src-tauri/src/window_manager.rs:73-96 | after a successful loop a window's page loads are its earlier ones (none for a new window) plus one per view with its label; a label left without a window had none before and is derived by no view |
| `WindowManager.ApplyViewsWindow` | src-tauri/src/window_manager.rs:67-104 | after a successful loop, a label no view derives is untouched. Any other label holds a window showing the last view with that label at that view's tile, visible. An existing window keeps its storage directory; a missing one is created with the directory of one of those views |
| `WindowManager.ApplyViewsFrame` | src-tauri/src/window_manager.rs:67-104 | whether the loop succeeds or stops early, windows under labels no view derives, and every window without the `view-` prefix, are unchanged and none is added or removed |
| `WindowManager.ApplyCreatesOrUpdates` | src-tauri/src/window_manager.rs:73-103 | for views with distinct ids, every view's window shows it at its tile after a successful loop. An existing window is navigated once more and keeps its storage directory (update); a missing one is built with one page load and `root/profiles/(profile or label)` (create) |
| `WindowManager.ApplyViewsIdempotent` | src-tauri/src/window_manager.rs:67-104 | running the loop again on its own result succeeds, creates, closes and moves nothing, and only reloads every view window, once per view with its label |
| `WindowManager.ReconcileIdempotent` | src-tauri/src/window_manager.rs:46-107 | a failed monitor selection leaves every window as it was, and a successful apply repeated on its own result succeeds again and only reloads the view windows |
| `WindowManager.UrlOnlyEdit` | src-tauri/src/window_manager.rs:73-84 | for any number of views with distinct ids, after editing only the URL of one view, applying again gives that view's window the new URL, reloads every view window once, and creates, closes and moves nothing |
| `WindowManager.RebuildCreatesAll` | src-tauri/src/window_manager.rs:109-121 | after closing the view windows, a successful apply creates every view's window afresh, with one page load and its own storage directory. No other `view-` window remains, and every window without the prefix is unchanged |
| `WindowManager.Host.SpawnWallboard` | src-tauri/src/window_manager.rs:46-107 | the imperative loop leaves exactly the windows of `Reconcile` on the old windows, and fails exactly when `Reconcile` reports an error, with that error |
| `WindowManager.Host.RecreateWallboardWindows` | src-tauri/src/window_manager.rs:109-121 | closing the `view-` windows one by one and then applying gives `Reconcile` on the old windows with every view window removed, with the same error |
| `SettingsApi.ValidateViewUrls` | src-tauri/src/settings_api.rs:77-84 | success exactly when every URL starts with `http://` or `https://`; otherwise the error names the first view, in order, whose URL starts with neither |
| `SettingsApi.InvalidUrlMessageNamesView` | src-tauri/src/settings_api.rs:79-82 | the rejection message contains the offending view's id |
| `SettingsApi.DefaultConfigPassesValidation` | src-tauri/src/app_config.rs:41-62 | every default URL passes save validation |
| `SettingsApi.ListMonitors` | src-tauri/src/settings_api.rs:32-69 | one entry per display, in order. Entry `i` has index `i`, the display's position and size, and its name or `Monitor i`. It is flagged primary exactly when its position and size equal the primary display's |
| `SettingsApi.PrimaryFlags` | src-tauri/src/settings_api.rs:36-61 | with no primary display no entry is flagged, and a display equal to the primary is flagged |
| `SettingsApi.SameSignatureSameFlag` | src-tauri/src/settings_api.rs:49-61 | two displays with the same position and size get the same primary flag |
| `SettingsApi.FallbackNamesDistinct` | src-tauri/src/settings_api.rs:57-60 | fallback names of displays at different indices differ |
| `SettingsApi.ListedIndexSelects` | src-tauri/src/settings_api.rs:45-56 | choosing a listed entry's index in Index mode selects that same display |
| `SettingsApi.AppState.constructor` | src-tauri/src/main.rs:22-24 | the state starts out holding the loaded configuration |
| `SettingsApi.AppState.SaveConfig` | src-tauri/src/settings_api.rs:71-92 | success exactly when every URL has an http(s) scheme and the write succeeds. The stored configuration is replaced only on success and unchanged otherwise. An invalid URL reports the first offending view, and a failed write reports the write error |
| `SettingsApi.AppState.ApplyConfig` | src-tauri/src/settings_api.rs:20-24 | the stored configuration is unchanged, and the host's windows become those of `Reconcile` with the stored configuration |
| `SettingsUi.EscapeHtmlAppend` | src/settings/settings.ts:55-62 | escaping distributes over concatenation |
| `SettingsUi.EscapeHtmlPerChar` | src/settings/settings.ts:55-62 | the chain of `replaceAll` calls, `&` first, equals escaping each character on its own, so no entity is escaped twice |
| `SettingsUi.EscapeHtmlProperties` | src/settings/settings.ts:55-62 | the output holds no `<`, `>`, `"` or `'`, is never shorter than the input, and equals the input when that holds none of the five special characters |
| `SettingsUi.UnescapeEscapeHtml` | src/settings/settings.ts:40-45 | decoding the character references in an escaped value gives the value back |
| `SettingsUi.RenderedValue` | src/settings/settings.ts:40-45 | a value rendered into an input's attribute comes back with every U+0000 turned into U+FFFD and nothing else changed, so it comes back unchanged exactly when it holds no U+0000 |
| `SettingsUi.Trim` | src/settings/settings.ts:66-74 | `trim` returns the slice of the input left after removing white space at both ends; the result has none at either end, and everything removed was white space |
| `SettingsUi.TrimFixpoint` | src/settings/settings.ts:66-74 | a value without white space at its ends is kept, and trimming twice is trimming once |
| `SettingsUi.ReadView` | src/settings/settings.ts:71-75 | a view read from the form keeps its id, gets a trimmed URL, and gets a profile that is absent or non-empty and trimmed |
| `SettingsUi.ReadConfigFromUI` | src/settings/settings.ts:64-82 | the version and view ids are kept. The mode is taken as selected. The monitor value, URLs and profiles are trimmed, with a missing input read as "" and an empty value or profile read as null. The result is in the form's normal shape |
| `SettingsUi.ReadViewRoundTrip` | src/settings/settings.ts:40-75 | a view in the form's shape without U+0000, rendered into its two inputs and read back, is unchanged |
| `SettingsUi.RenderReadRoundTrip` | src/settings/settings.ts:64-89 | a configuration in the form's shape without U+0000 in its URLs and profiles, rendered into the form and read back without edits, is unchanged |

## Left out

- Host calls (`primary_monitor`, `available_monitors`, `get_webview_window`, `webview_windows`): the host is a window map plus a display list held by `WindowManager.Host`; failures of display enumeration (`?` at window_manager.rs:13, 16, 24 and settings_api.rs:33-34) are not modelled.
- WindowManager.Host.SpawnWallboard: `navigate`, `set_position`, `set_size` and `build` are taken never to fail, so their `?` exits are not modelled; the ignored `show()` result is a no-op.
- WindowManager.Host.SpawnWallboard: the window title, decorations, resizability and always-on-top flag given to the builder are not recorded in the window record.
- WindowManager.Host.SpawnWallboard: `app_data_dir` is the host constant `dataRoot`, so its failure (window_manager.rs:65) is not modelled.
- WindowManager.Host.RecreateWallboardWindows: `close` is taken to remove the window at once and never fail; the host's asynchronous close is not modelled.
- WindowManager.SelectMonitor: `to_lowercase` is modelled as ASCII lower-casing; Unicode case mapping is not modelled.
- WindowManager.ApplyView: URL parsing by the `url` crate is the host's `parseUrl` function, which yields the serialised URL or nothing; its rules are not modelled.
- WindowManager.Tiles: coordinates are mathematical integers; the `tile_w as i32` casts and `i32` overflow of `origin.x + tile_w` are not modelled.
- WindowManager.DataDir: `PathBuf::join` is modelled as appending path components; a profile name that is an absolute path or holds separators is not modelled.
- Text.ParseUsize: the target is taken to be 64-bit, so `usize` is at most 2^64-1.
- SettingsApi.AppState.SaveConfig: locating the file, serialising with `serde_json` and `fs::write` are one outcome, `writeError`; the file contents are not modelled.
- SettingsApi.AppState.ApplyConfig: the error is returned as an `ApplyError` rather than mapped to its message text.
- The `Mutex` around the stored configuration and the startup thread in main.rs are not modelled; the state is one owned cell.
- `get_config` (a plain read of the state), `config_path` and `load_or_init` (file I/O) are not modelled.
- main.rs command registration, settings_window.rs, src/main.tsx (shortcut registration) and src/settings/types.ts (a type mirror) are not part of this model.
- The DOM code in settings.ts (`renderViews`, `setStatus`, the event handlers and `invoke` calls) is not modelled; the form is given as the selected mode and the lists of input values.
- SettingsUi.AttributeValue: the browser's attribute decoding is modelled only for the five character references `escapeHtml` writes and for the replacement of U+0000 by U+FFFD; input elements stripping line breaks from values is not modelled.
- SettingsUi.RenderReadRoundTrip: the round trip is promised only for URLs and profiles without U+0000, because the browser turns U+0000 into U+FFFD (`SettingsUi.RenderedValue`).
- Strings are sequences of characters; UTF-8 in Rust and UTF-16 in TypeScript are not distinguished.
