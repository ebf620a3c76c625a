# LUYA theme subsystem — a Dafny model

This project models the core of LUYA's theme subsystem:

- the **theme manager** (`luya\theme\ThemeManager`), which discovers theme
  directories, loads each into a theme configuration, registers them in a
  table keyed by base path, publishes `@<basename>Theme` aliases, and on `setup`
  activates exactly one theme (the configured one, or `@app/themes/blank`),
  after a `setup` event listener may have rewritten its base path;
- the **path map** of a theme, as the theme test asserts it: the
  application's view root and the theme's own view directory both resolve
  through one fallback list, `@app/views` first and then every theme of the
  parent chain, most specific first.

Layout:

- `wrappers.dfy` — `Option` and `Result`.
- `paths.dfy` — `strpos(...) === 0` and PHP's `basename`.
- `theme.dfy` — the decoded manifest (`Json`), `Config`, `Theme`, the fallback
  list and path map, and the theme test's expectation.
- `manager_spec.dfy` — the manager as pure functions over an explicit state
  value (`Mgr`: theme table, aliases written, active theme, error log) and the
  outside world (`World`), with the invariant `Consistent` it keeps.
- `manager.dfy` — class `ThemeManager` with the fields the PHP object updates
  (`themes`, `aliases`, `active`, `log`, and a ghost `viewTheme` for the view
  component's `theme`); every method except `SetActiveTheme` is proved to
  leave exactly the state the matching `ManagerSpec` function describes;
  `SetActiveTheme`, which has no such function, sets `active` and its frame
  lets nothing else change. The function `GetActiveTheme` reads `active`.
- `properties.dfy` — lemmas relating several steps: what a scan stores and
  which aliases it publishes, where a scan stops, what
  `setup` swallows and what it lets escape, caching, the test scenario
  through `setup`.

The outside world is a parameter (`ManagerSpec.World`): the application base
path, the alias resolver, `is_dir`, `is_readable`, `file_exists`, the decoded
`theme.json` of a file, `scandir`, the package themes, the `setup` listeners
(one function from base path to base path) and the parent chain a `Theme`
finds for a base path.

The model keeps these behaviours of the code:

- the duplicate-registration error is an `InvalidArgumentException`, so
  `setup` catches it like a failed lookup and logs it;
- an absolute base path takes neither branch of `loadThemeConfig`, so its
  directory is never assigned and the directory check fails;
- `scandir`'s `.` and `..` become definitions;
- an empty table counts as "not loaded yet", so an empty scan is repeated on
  every call, while a table left partly filled by an exception is kept and
  never rescanned.

## Model

| member | source | states |
|---|---|---|
| Paths.BasenameOfChild | core/theme/ThemeManager.php:193 | the base name of `dir/name` is `name` for a single non-empty component, so a theme under `@app/themes/x` gets alias `@xTheme` |
| Paths.BasenameOfName | core/theme/ThemeManager.php:155 | a `scandir` entry without a slash is its own base name, `.` and `..` included |
| Themes.FallbackList | tests/core/theme/ThemeTest.php:27-32 | one entry per chain theme plus the app root: `@app/views` first, then `<basePath>/views` for each theme in chain order |
| Themes.PathMap | tests/core/theme/ThemeTest.php:26-38 | exactly the two keys `@app/views` and `<basePath>/views`, both mapped to the same fallback list of the chain starting at the theme |
| Themes.PathMapIgnoresManifest | tests/core/theme/ThemeTest.php:20-24 | for a fixed parent chain the path map depends only on the base path, not on the rest of the manifest; no registration is involved |
| Themes.FallbackListDistinct | tests/core/theme/ThemeTest.php:27-32 | the fallback list repeats no directory when the chain repeats no theme and does not contain `@app` |
| Themes.ThemeTestPathMap | tests/core/theme/ThemeTest.php:18-41 | for blank3 → blank2 → blank the path map is the literal the test expects |
| Paths.Basename | core/theme/ThemeManager.php:155 | PHP's `basename` on a POSIX path: the result holds no `/` |
| Themes.Truthy | core/theme/ThemeManager.php:61 | a decoded value is falsy exactly when it is `null`, `false`, `0`, `""`, `"0"` or an empty array |
| Themes.NewTheme | core/theme/ThemeManager.php:87 | a theme keeps its configuration and its base path; its path map has the app view root and its own view directory as keys, each resolving through `@app/views`, its own views, then one directory per ancestor |
| ManagerSpec.StoredKey | core/theme/ThemeManager.php:49-53 | an alias or absolute definition is its own key; see `ThemeDir` for the app-relative one |
| ManagerSpec.ThemeDir | core/theme/ThemeManager.php:49-53 | no directory exactly for an absolute definition; an alias definition is resolved; an app-relative definition's directory is its key |
| ManagerSpec.ReadManifest | core/theme/ThemeManager.php:59-64 | the manifest is truthy exactly when `theme.json` exists and decodes to a truthy value, and is then that value; otherwise it is the empty array |
| Paths.StartsWith | core/theme/ThemeManager.php:49-51 | `strpos($s, $c) === 0`: the string is non-empty and its first character is `c` |
| ManagerSpec.Fault.IsInvalidArgument | core/theme/ThemeManager.php:89 | the duplicate and not-loaded errors are the `InvalidArgumentException`s `setup` catches; the directory error is not |
| ManagerSpec.Fault.Message | core/theme/ThemeManager.php:56 | the directory error's message, `Theme directory not exists or readable: <dir>`; the other two are at lines 172 and 188 |
| ManagerSpec.LoadThemeConfig | core/theme/ThemeManager.php:47-69 | `@` paths are kept as key and resolved for the check; other relative paths become `appBasePath/path`, used as key and directory; absolute paths always fail with an empty directory; a failed check is the directory error; the manifest is the decoded file when it exists and is truthy, else empty |
| ManagerSpec.ThemeAlias | core/theme/ThemeManager.php:193 | the theme alias starts with `@`; as stored here, without the alias service's normalisation, it is a different key from `activeTheme` |
| ManagerSpec.ThemeAliasOfActiveDirectory | core/theme/ThemeManager.php:193-204 | a theme directory named `active` publishes `@activeTheme`, the key the alias service gives `activeTheme` |
| ManagerSpec.Register | core/theme/ThemeManager.php:185-194 | a new base path adds exactly that key with the given config and the alias `@<basename>Theme` to it, every other entry and alias unchanged; a registered one raises the duplicate error and changes nothing |
| ManagerSpec.AppThemeDefinitions | core/theme/ThemeManager.php:153-157 | one definition `@app/themes/<basename(entry)>` per listed entry, in listing order, none filtered |
| ManagerSpec.FlattenMembers | core/theme/ThemeManager.php:159-162 | every theme of every package list is in the joined list, and nothing else is |
| ManagerSpec.ThemeDefinitions | core/theme/ThemeManager.php:149-165 | one `@app/themes/<basename(entry)>` per root entry in listing order when the root exists, then exactly the joined package lists |
| ManagerSpec.LoadAll | core/theme/ThemeManager.php:136-139 | registering in turn keeps every earlier entry, adds only keys of the definitions, all of them when nothing was raised, and keeps the table keyed by base path and the `activeTheme` alias; the stored configs and aliases are stated by `LoadAllStoresLoadedConfigs` |
| ManagerSpec.GetThemes | core/theme/ThemeManager.php:128-142 | a non-empty table is returned unchanged without loading; an empty one is filled from the definitions, app-root entries first and then package themes, and on success holds exactly their keys, with the configs `GetThemesStoresLoadedConfigs` gives |
| ManagerSpec.GetThemeByBasePath | core/theme/ThemeManager.php:167-176 | returns exactly the config stored under the key after loading; an absent key raises the not-loaded error; a loading error is passed on |
| ManagerSpec.ActiveThemeBasePath | core/theme/ThemeManager.php:112-119 | the configured name unless PHP-empty (`""` or `"0"`), else `@app/themes/blank`; never empty |
| ManagerSpec.PhpEmpty | core/theme/ThemeManager.php:114 | `empty` on a string holds exactly for the strings that are not truthy, `""` and `"0"` |
| ManagerSpec.SetupBasePath | core/theme/ThemeManager.php:97-104 | the `setup` listeners see the configured name, or `@app/themes/blank` when it is PHP-empty, and their rewrite is the base path looked up; with no rewriting listener it is the active theme base path |
| ManagerSpec.Activate | core/theme/ThemeManager.php:201-207 | the theme becomes active and `activeTheme` aliases its base path; table, log and other aliases unchanged |
| ManagerSpec.Setup | core/theme/ThemeManager.php:74-92 | no-op when a theme is active; otherwise looks up the hook-rewritten path and activates a theme built from the found config, or logs exactly one message for an `InvalidArgumentException`, or lets the directory error escape without logging; of the modelled faults, only the directory error escapes |
| ManagerSpec.InitialConsistent | core/theme/ThemeManager.php:36 | a new manager (empty table, no active theme) is consistent |
| ManagerSpec.SetupPreservesConsistency | core/theme/ThemeManager.php:74-92 | `setup` keeps the table keyed by base path and an active theme in it and published as `activeTheme` |
| ManagerSpec.SetupActivatesRewrittenPath | core/theme/ThemeManager.php:81-104 | when lookup succeeds, the activated theme has the base path the hook returned, its config is the table's entry for it, and `activeTheme` aliases it |
| ManagerSpec.SetupIsIdempotent | core/theme/ThemeManager.php:74-79 | after a `setup` that activated a theme, another `setup` changes nothing |
| ManagerProperties.LoadAllSplit | core/theme/ThemeManager.php:136-139 | loading a list is loading a fault-free prefix and then the rest |
| ManagerProperties.LoadAllStopsAtFirstFault | core/theme/ThemeManager.php:136-139 | the first definition that fails or repeats a key ends the scan with exactly the table the earlier ones built |
| ManagerProperties.AbsoluteDefinitionFails | core/theme/ThemeManager.php:49-56 | a scan reaching an absolute definition raises the directory error |
| ManagerProperties.SetupSwallowsDuplicate | core/theme/ThemeManager.php:83-91 | a duplicate during the scan is logged once as `Theme already registered.`, nothing escapes, no theme is active and the partial table stays |
| ManagerProperties.SetupPropagatesDirectoryError | core/theme/ThemeManager.php:55-56 | a directory error during the scan escapes `setup`, nothing is logged, no theme is active |
| ManagerProperties.SetupLogsUnknownThemeOnce | core/theme/ThemeManager.php:171-173 | a base path missing from the loaded table leaves no active theme and appends exactly `Theme <path> could not loaded.` to the log |
| ManagerProperties.SetupUsesCachedTable | core/theme/ThemeManager.php:130-132 | with a non-empty table `setup` does not rescan: the directories do not affect its outcome and the table stays as it is |
| ManagerProperties.LoadAllAddingNoKeyChangesNothing | core/theme/ThemeManager.php:136-139 | a scan that adds no key leaves table and aliases exactly as they were |
| ManagerProperties.EmptyScanIsRepeated | core/theme/ThemeManager.php:130-134 | a scan that leaves the table empty (no definitions, or its first one raised) changes nothing, so the next call is a full load of the definitions the directories then hold |
| ManagerProperties.RootEntryBecomesDefinition | core/theme/ThemeManager.php:153-157 | every single-component entry listed in an existing theme root yields the definition `@app/themes/<entry>` |
| ManagerProperties.DotEntriesBecomeDefinitions | core/theme/ThemeManager.php:153-157 | `.` and `..` listed in the theme root yield `@app/themes/.` and `@app/themes/..` definitions |
| ManagerProperties.LoadAllFront | core/theme/ThemeManager.php:136-139 | in a scan that raises nothing the first definition loads, is new to the table under its key, and the rest is loaded after registering it |
| ManagerProperties.LoadAllStoresLoaded | core/theme/ThemeManager.php:136-139 | a scan that raises nothing stores, under every definition's key, the config `loadThemeConfig` returns for it |
| ManagerProperties.LoadAllAddsAliases | core/theme/ThemeManager.php:136-139 | a scan that raises nothing adds exactly the `@<basename>Theme` aliases of the definitions and leaves every other alias unchanged |
| ManagerProperties.LoadAllLastWins | core/theme/ThemeManager.php:136-139 | when two definitions share a base name, the later one's base path is what their alias ends up naming |
| ManagerProperties.LoadAllStoresLoadedConfigs | core/theme/ThemeManager.php:136-139 | the conjunction of the three: configs stored, aliases added, last definition wins |
| ManagerProperties.GetThemesStoresLoadedConfigs | core/theme/ThemeManager.php:128-142 | filling an empty table without an exception leaves every definition's loaded config under its key, with its aliases |
| ManagerProperties.SetupActivatesLoadedConfig | core/theme/ThemeManager.php:81-88 | after a scan, the theme `setup` activates carries the config loaded from the definition stored under the rewritten base path, whose manifest is that directory's `theme.json` |
| ManagerProperties.GetThemesPreservesConsistency | core/theme/ThemeManager.php:128-142 | loading the table keeps a manager consistent |
| ManagerProperties.SetupBlank3PathMap | tests/core/theme/ThemeTest.php:26-41 | configured blank3, registered, with parents blank2 and blank: `setup` activates a theme whose path map is the test's literal |
| ThemeManagement.ThemeManager.constructor | core/theme/ThemeManager.php:31-36 | a new manager has the configured name, an empty table, no aliases, no active theme and an empty log |
| ThemeManagement.ThemeManager.GetActiveTheme | core/theme/ThemeManager.php:219-222 | the active theme is the one the view holds, is in the table under its base path and is published as `activeTheme` |
| ThemeManagement.ThemeManager.SetActiveTheme | core/theme/ThemeManager.php:224-227 | stores the theme as the active one |
| ThemeManagement.ThemeManager.Activate | core/theme/ThemeManager.php:201-207 | hands the theme to the view, sets the `activeTheme` alias and the active theme, as `ManagerSpec.Activate` says |
| ThemeManagement.ThemeManager.RegisterTheme | core/theme/ThemeManager.php:185-194 | updates table and aliases in place exactly as `ManagerSpec.Register` |
| ThemeManagement.ThemeManager.GetThemeDefinitions | core/theme/ThemeManager.php:149-165 | the two loops produce the theme-root entries first, then each package's themes in order |
| ThemeManagement.ThemeManager.LoadDefinitions | core/theme/ThemeManager.php:136-139 | the `foreach` of `getThemes` leaves the table and aliases `ManagerSpec.LoadAll` gives |
| ThemeManagement.ThemeManager.GetThemes | core/theme/ThemeManager.php:128-142 | returns and leaves what `ManagerSpec.GetThemes` says, keeping the manager consistent |
| ThemeManagement.ThemeManager.GetThemeByBasePath | core/theme/ThemeManager.php:167-176 | returns and leaves what `ManagerSpec.GetThemeByBasePath` says |
| ThemeManagement.ThemeManager.Setup | core/theme/ThemeManager.php:74-92 | returns the escaping error and leaves the state `ManagerSpec.Setup` says, with the view's theme equal to the active one, which `GetActiveTheme` then returns |

## Left out

- Filesystem access, JSON decoding, the alias resolver, `scandir` and the package installer are parameters of `World`; their own behaviour is not modelled.
- Alias normalisation by the alias service is left out: aliases are stored as written, so `activeTheme` stays without the `@` the service would add, and `@` values are not resolved.
- Event dispatch is one function from base path to base path; how many listeners run and in what order is folded into it.
- The error log keeps only the message; the category `luya-theme` is not recorded.
- ManagerSpec.ThemeAlias: the alias service stores `activeTheme` as `@activeTheme`, so a theme directory named `active` (alias `@activeTheme`, see `ThemeAliasOfActiveDirectory`) and the activated theme write the same alias, the later write winning; with aliases stored as written the model keeps the two apart, and what `@activeTheme` names after such a collision is not modelled.
- `DIRECTORY_SEPARATOR` is fixed to `/`.
- `World.resolveAlias` is total: `Yii::getAlias` failing on an unknown root alias with an `InvalidArgumentException`, which `setup` would catch and log, is not modelled.
- The view component is foreign: the theme handed to it is a ghost field.
- Themes.NewTheme: the theme's `basePath` is taken to be its configuration's base path, which the test does not assert; the `activeTheme` alias value and `SetupActivatesRewrittenPath` rest on that choice.
- The parent chain is keyed by base path (`World.parentChain`) and is not tied to the parent entry of the manifest, so `PathMapIgnoresManifest` holds only for a fixed chain.
- `Theme` and `ThemeConfig` are not part of this model beyond what the test asserts: how parents are found, any deduplication of the fallback list, cycle and unknown-parent errors, and errors of the `Theme` constructor are not modelled; the parent chain is an input. The model's fallback list is therefore never deduplicated; `FallbackListDistinct` proves it has no duplicates whenever the chain repeats no theme and does not contain `@app`.
- The `InvalidConfigException` that the docblocks of `loadThemeConfig`, `getThemes` and `registerTheme` declare (raised from the `ThemeConfig` side, for instance by `new ThemeConfig`) is not modelled; it is not an `InvalidArgumentException`, so `setup` would let it escape as it does the directory error.
- A malformed `theme.json` (an exception of the JSON helper) is not modelled: the decoded value is always supplied. A truthy manifest that is not an array is stored as it is; what `ThemeConfig` does with it is not modelled. JSON floats are not represented.
- On the absolute-path branch the unassigned `$dir` may itself raise a PHP notice turned into an exception; the model treats both as the directory error with an empty directory, which `setup` does not catch either way.
- `activeThemeName` is a string fixed at construction; non-string values of the PHP property are not represented, and "" stands for unset.
- The table is a map: the order of the returned PHP array and `array_merge` on string-keyed package lists are not modelled.
- `scandir` failing (returning `false`) is not modelled.
- Concurrency: none in the source.
