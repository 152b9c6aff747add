# H5P activity module for Moodle: asset paths, capability table and page settings

This project models the deterministic part of the H5P activity module's
`lib.php` in Dafny:

- **`hvp_supports`**: the capability table Moodle queries to find out what
  the module supports.
- **`hvp_get_file_paths`**: turns the library-dependency rows of one content
  instance into two ordered URL lists, `preloadedJs` and `preloadedCss`.
- **`hvp_add_scripts_and_styles`**: registers H5P core's assets, the plugin
  script, a localised string and the preloaded assets with the page. It then
  hands the H5P runtime one settings bundle.

Files and modules:

- `wrappers.dfy` (`Wrappers`): `Option`. It stands for a missing PHP array
  key and for PHP's `null`.
- `seq_facts.dfy` (`SeqFacts`): small facts about sequences (splitting off
  the last element, associativity of `+`) that the other proofs cite.
- `php_strings.dfy` (`PhpStrings`): the PHP built-ins the resolver depends
  on.
  - `empty()` and truthiness of strings: `""` and `"0"` are the only empty
    strings.
  - `explode()` with a one-character delimiter. It keeps empty pieces, and
    `implode()` is its inverse.
  - `trim()` with its default character list: space, tab, LF, CR, NUL and
    vertical tab, stripped at both ends only.
  - PHP strings are bytes, while the model's strings are sequences of
    characters. For the UTF-8 text Moodle delivers the two agree: `,` and the
    six trim characters are ASCII, and no ASCII byte occurs inside a
    multi-byte UTF-8 sequence, so character-wise `Explode` and `Trim` split
    and strip exactly where PHP's byte-wise `explode` and `trim` do.
- `features.dfy` (`Features`): the capability table.
- `asset_paths.dfy` (`AssetPaths`): the path resolver.
  - `GetFilePaths` is the nested `foreach` of the source. Its inner loop is
    the method `AppendEntryUrls`.
  - It is proved equal to the specification function `FilePathsOf`. The
    lemmas state the resolver's properties about that function.
- `scripts_and_styles.dfy` (`ScriptsAndStyles`): the page's requirements
  manager and the settings assembler.
  - `$PAGE->requires` is the class `PageRequirements`: an append-only log of
    `CssUrl`, `JsUrl`, `JsString` and `JsData` registrations.
  - `$settings` is the record `Settings`. An `Option` field is an array key
    that may be missing.
  - `AddScriptsAndStyles` performs the source's statements in order. It is
    proved to append exactly `RequirementsLog(...)` to the page's log, and
    the lemmas state what that log and the settings contain.

Collaborators become parameters:

- The dependency query's result is an input `seq<LibraryRow>`, in the order
  the query returns it.
- H5P core's `libraryToString($data, TRUE)` is a function parameter
  `LibraryData -> string` whose format the model does not fix.
- `H5PCore::$styles`, `H5PCore::$scripts` and `$CFG->wwwroot` are the
  fields of `Environment`.
- Database columns are strings, as Moodle's database layer delivers them. A
  NULL in `preloaded_js`, `preloaded_css` or `drop_css` is represented by
  `""`. Those three columns are only tested with `empty()` and `!`
  (lib.php:160, 165), which treat NULL and `""` alike.

Behaviour of the code worth knowing:

- Preloaded scripts are registered with the page and added to `loadedJs`
  for every embed type (lib.php:200-204). Only the preloaded styles,
  `loadedCss`, `core` and the per-content `scripts`/`styles` depend on
  `$embedtype === 'div'` (lib.php:206-226).
- The library directory's name is whatever `libraryToString` returns
  (lib.php:162). The model does not fix its format.
- `loadedJs` (and `loadedCss` for a `div` embed) is added only when there
  is at least one asset to add. PHP creates the key on the first
  `$a['key'][] = ...`, so with no preloaded scripts the key is missing,
  not an empty list. The model keeps this (`Appended`).

## Model

| member | source | states |
|---|---|---|
| `Features.Supports` | lib.php:26-41 | Exactly the three group features answer true. The other seven declared features answer false. Any other value answers null (`None`). |
| `PhpStrings.IsEmpty` | lib.php:160-165 | Definition: PHP's `empty()` on a string holds for `""` and `"0"` and for no other string. |
| `PhpStrings.IsTruthy` | lib.php:165 | Definition: a string is truthy, as `!$library->drop_css` tests it, exactly when it is not empty. |
| `PhpStrings.Occurrences` | lib.php:161 | The count of a character is at most the string's length, and it is zero exactly when the character does not occur. |
| `PhpStrings.Explode` | lib.php:161 | Always one piece more than the string has separators. No piece contains the separator. |
| `PhpStrings.ExplodeStep` | lib.php:161 | One more character: a separator starts a new empty piece, and any other character extends the last piece. |
| `PhpStrings.ImplodeSnoc` | lib.php:161 | Joining one more piece adds the separator and then the piece. |
| `PhpStrings.ImplodeExtendLast` | lib.php:161 | Extending the last piece by a character extends the joined string by that character. |
| `PhpStrings.ImplodeExplode` | lib.php:161 | Joining the pieces of `explode` with the separator gives back the original string, so nothing is lost or reordered. |
| `PhpStrings.ExplodeWithoutSeparator` | lib.php:161 | A string without the separator explodes into itself alone. |
| `PhpStrings.ExplodeLastPiece` | lib.php:161 | A separator followed by separator-free text adds that text as one more, last piece. |
| `PhpStrings.ExplodeImplode` | lib.php:161 | Exploding joined separator-free pieces gives back the same pieces. Empty pieces are kept. |
| `PhpStrings.IsTrimmable` | lib.php:162 | Definition: the characters `trim()` strips by default are exactly space, tab, LF, CR, NUL and vertical tab. |
| `PhpStrings.LeadingCount` | lib.php:162 | The number of strippable characters at the start is at most the length. |
| `PhpStrings.KeptLength` | lib.php:162 | Where the strippable characters at the end begin is at most the length. |
| `PhpStrings.LeadingCountBounds` | lib.php:162 | Every character before the leading count is strippable, and the next one, if any, is not. |
| `PhpStrings.KeptLengthBounds` | lib.php:162 | Every character from the kept length on is strippable, and the one before, if any, is not. |
| `PhpStrings.LeadingCountIs` | lib.php:162 | The leading count is the one position before which all characters are strippable and at which the first non-strippable character stands. |
| `PhpStrings.KeptLengthIs` | lib.php:162 | The kept length is the one position after the last non-strippable character, with only strippable characters after it. |
| `PhpStrings.Trim` | lib.php:162 | The result is no longer than the input. |
| `PhpStrings.TrimEnds` | lib.php:162 | The result of `trim` has no strippable character at either end, and it is empty exactly when every character of the input is strippable. |
| `PhpStrings.TrimExact` | lib.php:162 | Trimming strippable text, then an inner string with no strippable ends, then strippable text gives exactly the inner string. The interior is untouched. |
| `PhpStrings.TrimDecomposes` | lib.php:162 | What `trim` keeps is a contiguous slice of the input, and everything before and after it is strippable. |
| `PhpStrings.TrimIdempotent` | lib.php:162 | Trimming twice equals trimming once. |
| `AssetPaths.DataOf` | lib.php:155-159 | Definition: the `$librarydata` array passed to `libraryToString` holds the row's machine name, major version and minor version. |
| `AssetPaths.Contributes` | lib.php:160-165 | Definition: a row adds scripts when its `preloaded_js` is not empty, and styles when its `preloaded_css` is not empty and its `drop_css` is not truthy. |
| `AssetPaths.AssetUrl` | lib.php:151-167 | Definition: `/mod/hvp/files`, then `/libraries/`, the library's name, `/` and the file's trimmed name. |
| `AssetPaths.RowUrls` | lib.php:160-168 | Definition: a contributing row adds the URLs of its column's comma-separated pieces, each trimmed, in order. Any other row adds nothing. |
| `AssetPaths.Preloaded` | lib.php:153-171 | Definition: one list is the rows' contributions joined in row order. |
| `AssetPaths.FilePathsOf` | lib.php:130-174 | Definition: the two lists the resolver returns, scripts and styles, each built by `Preloaded`. |
| `AssetPaths.TrimAll` | lib.php:161-162 | One trimmed piece per piece. |
| `AssetPaths.TrimAllAt` | lib.php:161-162 | The trimmed piece at each position is the piece at that position, trimmed. |
| `AssetPaths.TrimAllOfTwo` | lib.php:161-162 | A two-piece list trims to its two pieces, each trimmed. |
| `AssetPaths.EntryUrls` | lib.php:161-163 | One URL per file name. |
| `AssetPaths.EntryUrlAt` | lib.php:161-163 | The URL at each position is the file-area path, `/libraries/`, the library name, `/` and the file name at that position. |
| `AssetPaths.EntryUrlsSnoc` | lib.php:161-163 | One more file name adds its URL at the end. |
| `AssetPaths.AppendEntryUrls` | lib.php:161-163 | The inner loop appends exactly the trimmed entries' URLs, in order, to the list built so far. |
| `AssetPaths.GetFilePaths` | lib.php:130-174 | Returns exactly the two specification lists for the rows. An empty row sequence gives two empty lists. |
| `AssetPaths.PreloadedStep` | lib.php:153-171 | Each loop iteration of the resolver appends the current row's contribution to each list. |
| `AssetPaths.PreloadedAppend` | lib.php:153-171 | The lists for `a + b` are the lists for `a` followed by those for `b`: row order is kept and nothing is merged across rows. |
| `AssetPaths.PreloadedOne` | lib.php:160-169 | A list over a single row is that row's contribution. |
| `AssetPaths.SingleRow` | lib.php:160-169 | A contributing row adds one URL per comma-separated piece, in split order, each path ending with the trimmed piece. A row that does not contribute adds nothing. |
| `AssetPaths.RowUrlAt` | lib.php:160-163 | The URL a contributing row adds for its `k`-th piece ends with that piece, trimmed. |
| `AssetPaths.PreloadedSplit` | lib.php:153-171 | A row's contribution sits between those of the rows before and after it. |
| `AssetPaths.PreloadedLength` | lib.php:160-168 | Each list's length is the sum, over contributing rows, of the number of commas in the column plus one. There is no deduplication and no filtering of empty pieces. |
| `AssetPaths.EmptyFieldContributesNothing` | lib.php:160-165 | A row whose column is `""` or `"0"` leaves that list unchanged, wherever it stands. |
| `AssetPaths.DropCssKeepsScripts` | lib.php:160-168 | A row with truthy `drop_css` leaves the style list unchanged. Its scripts are still emitted in place: one more than its commas when its script column is non-empty. |
| `AssetPaths.NoDeduplication` | lib.php:161-167 | Two rows naming the same files of the same library yield every URL twice: the list is twice as long, and its second half repeats its first. |
| `AssetPaths.PreloadedOrigin` | lib.php:153-171 | Every URL in a list comes from a contributing row and from one piece of that row's column, trimmed. |
| `AssetPaths.EntryUrlsOfTwo` | lib.php:161-163 | A two-name list yields the two names' URLs. |
| `AssetPaths.ExplodeTwo` | lib.php:161 | A column written `f1, f2` splits into `f1` and ` f2`, the blank kept. |
| `AssetPaths.TrimPlain` | lib.php:162 | A plain file name is left alone by `trim`, with or without one leading blank removed. |
| `AssetPaths.ExplodeTrailingComma` | lib.php:161 | A column written `f,` splits into `f` and an empty piece. |
| `AssetPaths.TwoEntryList` | lib.php:161-162 | A column written `f1, f2` yields the two URLs, with the blank before `f2` trimmed away. |
| `AssetPaths.TrailingCommaKeepsEmptyPiece` | lib.php:161-162 | A column written `f,` yields the URL of `f` and then the library directory itself, ending in `/`. |
| `ScriptsAndStyles.PageRequirements.Css` | lib.php:180 | A stylesheet registration is appended to the page's log and nothing else changes. |
| `ScriptsAndStyles.PageRequirements.Js` | lib.php:182 | A script registration is appended to the page's log and nothing else changes. |
| `ScriptsAndStyles.PageRequirements.StringForJs` | lib.php:183 | A string registration is appended to the page's log and nothing else changes. |
| `ScriptsAndStyles.PageRequirements.DataForJs` | lib.php:228 | The settings hand-over is appended to the page's log and nothing else changes. |
| `ScriptsAndStyles.PrefixAll` | lib.php:215-221 | One prefixed string per input string. |
| `ScriptsAndStyles.PrefixAllElements` | lib.php:215-221 | The `k`-th result is the prefix followed by the `k`-th input. |
| `ScriptsAndStyles.CssRequirements` | lib.php:179-181 | One stylesheet registration per URL. |
| `ScriptsAndStyles.CssRequirementsElements` | lib.php:179-181 | The `k`-th stylesheet registration is for the `k`-th URL. |
| `ScriptsAndStyles.JsRequirements` | lib.php:184-186 | One head-script registration per URL. |
| `ScriptsAndStyles.JsRequirementsElements` | lib.php:184-186 | The `k`-th registration is a head script for the `k`-th URL. |
| `ScriptsAndStyles.Appended` | lib.php:203-209 | Definition: after a run of `$a['key'][] = $x`, the key holds the appended values, and it is missing when nothing was appended. |
| `ScriptsAndStyles.ContentKey` | lib.php:190-225 | Definition: the instance's entry in `$settings['content']` is keyed `'cid-' . $hvp->id`. |
| `ScriptsAndStyles.InitialSettings` | lib.php:188-198 | Definition: the settings array as first built: one `cid-<id>` entry with the JSON content and fullscreen flag, the content and library paths under the site root, export off, and no other key. |
| `ScriptsAndStyles.SettingsFor` | lib.php:188-226 | Definition: the settings bundle handed over. `loadedJs` comes from the preloaded scripts. A `div` embed adds `loadedCss`. Any other embed adds `core` and the content entry's `scripts`/`styles`. |
| `ScriptsAndStyles.CoreRequirements` | lib.php:179-186 | Definition: H5P core's styles under the library directory, then `hvp.js` in the head, then the `fullscreen` string, then H5P core's scripts in the head. |
| `ScriptsAndStyles.RequirementsLog` | lib.php:179-228 | Definition: the core registrations, then the preloaded scripts, then (for a `div` embed only) the preloaded styles, then the settings hand-over. |
| `ScriptsAndStyles.RegisterCoreStyles` | lib.php:179-181 | The loop appends one stylesheet per H5P core style, under `/mod/hvp/library/`, in order. |
| `ScriptsAndStyles.RegisterCoreScripts` | lib.php:184-186 | The loop appends one head script per H5P core script, under `/mod/hvp/library/`, in order. |
| `ScriptsAndStyles.RegisterCoreAssets` | lib.php:179-186 | Appends H5P core's styles (under `/mod/hvp/library/`), then `/mod/hvp/hvp.js`, then the `fullscreen` string, then H5P core's scripts. |
| `ScriptsAndStyles.RegisterPreloadedScripts` | lib.php:200-204 | Appends one head script per preloaded script. `loadedJs` becomes the site root before each of them, and stays missing when there are none. |
| `ScriptsAndStyles.RegisterPreloadedStyles` | lib.php:206-211 | Appends one stylesheet per preloaded style. `loadedCss` becomes the site root before each of them, and stays missing when there are none. |
| `ScriptsAndStyles.AddCoreSettings` | lib.php:213-221 | `core.styles` lists H5P core's styles under the library directory, in order. `core.scripts` lists `/mod/hvp/hvp.js` and then H5P core's scripts under it. Nothing else in the settings changes. |
| `ScriptsAndStyles.AddEmbedAssets` | lib.php:206-226 | A `div` embed registers the preloaded styles. Any other embed registers nothing. The settings become the specified bundle. |
| `ScriptsAndStyles.AddScriptsAndStyles` | lib.php:176-229 | Appends to the page's log exactly the specified registration sequence for the rows, embed type and environment, closed by the hand-over of the specified settings bundle. |
| `ScriptsAndStyles.LogOpening` | lib.php:179-204 | For any embed type and settings the log opens with: one stylesheet per core style, `hvp.js`, `fullscreen`, one head script per core script, then one head script per preloaded script, each group in order. |
| `ScriptsAndStyles.LogPreloadedStyles` | lib.php:206-212 | A `div` embed then registers one stylesheet per preloaded style, in order. Any other embed registers nothing more before the settings. |
| `ScriptsAndStyles.NoSettingsAppend` | lib.php:179-211 | Two runs of registrations without a settings hand-over, joined, still have none. |
| `ScriptsAndStyles.LogClosing` | lib.php:228 | The log ends with the hand-over of the settings to `hvp`, and it is the only hand-over. |
| `ScriptsAndStyles.SettingsCommon` | lib.php:188-204 | For any embed type there is one content entry, `cid-<id>`, holding the instance's JSON and fullscreen flag. The content and library paths sit under the site root and export is off. `loadedJs[i]` is the site root followed by `preloadedJs[i]`, and the key is missing when there are no preloaded scripts. |
| `ScriptsAndStyles.DivSettings` | lib.php:206-211 | For a `div` embed there is no `core` and no per-content `scripts`/`styles`. `loadedCss[i]` is the site root followed by `preloadedCss[i]`, and the key is missing when there are no preloaded styles. |
| `ScriptsAndStyles.StandaloneSettings` | lib.php:212-226 | For any other embed there is no `loadedCss`. `core` lists the prefixed core styles, and `hvp.js` followed by the prefixed core scripts. The content entry carries `preloadedJs`/`preloadedCss` unprefixed. |

## Left out

- `hvp_add_instance`, `hvp_update_instance`, `hvp_delete_instance`, `hvp_get_hvp` (lib.php:53-128): database writes and calls into H5P's storage engine (`savePackage`, `updatePackage`, `deletePackage`), whose behaviour is not part of this model.
- The SQL text of the queries (lib.php:138-149) and Moodle's keying of `get_records_sql` results by their first column: the rows are an input in query order. If two rows shared a library id, Moodle would collapse them into one; the model does not.
- The internals of `libraryToString`, `H5PCore::$styles`, `H5PCore::$scripts` and `$CFG`: these are external, so the model takes them as parameters.
- `hvp_get_instance('core')` (lib.php:152), and the `require_once` at lib.php:24: plumbing. They are replaced by the naming-function parameter.
- `debugging()` output (lib.php:100): I/O.
- `Hvp.jsonContent` and `Hvp.fullscreen` are strings, so a NULL `json_content` or `fullscreen` on the instance is modelled as `""`. lib.php:191-192 copies these two fields unchanged into the settings, where PHP's `null` and `""` are different values and `data_for_js` encodes them differently. The model does not tell them apart.
- The JSON encoding performed by `data_for_js`, including the order of keys in the encoded settings: the settings are modelled as a record.
- Features.Supports: the FEATURE_* constants are names of values from Moodle that are not part of this model. PHP's loose `==` in `switch` is not modelled either; that would matter only if a caller passed a non-string (say `true`). `Other` stands for every value equal to none of the ten constants, and carries no payload.
- PhpStrings.Explode: takes a one-character delimiter, which is the only kind the source uses; PHP's multi-character delimiters and its `limit` argument are left out.
