/** What the theme manager does, stated as functions over an explicit value
    of its state, with the properties that state keeps. The class in module
    ThemeManagement is proved to behave exactly as these functions say. */
module ManagerSpec {
  import opened Wrappers
  import opened Paths
  import opened Themes

  /** The theme activated when no name is configured. */
  const AppThemesBlank: string := "@app/themes/blank"
  /** The application's theme root, scanned for theme directories. */
  const AppThemesRoot: string := "@app/themes"
  /** The optional manifest inside a theme directory, after the directory. */
  const ManifestFile: string := "/theme.json"
  /** The alias published for the activated theme. */
  const ActiveThemeAlias: string := "activeTheme"

  /** The exceptions the model raises. `DirectoryUnavailable` is a
      `luya\Exception`; the other two are `InvalidArgumentException`s. */
  datatype Fault =
    | DirectoryUnavailable(dir: string)
    | AlreadyRegistered
    | NotLoaded(basePath: string)
  {
    /** The exceptions `setup` catches. */
    predicate IsInvalidArgument() {
      AlreadyRegistered? || NotLoaded?
    }

    function Message(): string {
      match this
      case DirectoryUnavailable(dir) => "Theme directory not exists or readable: " + dir
      case AlreadyRegistered => "Theme already registered."
      case NotLoaded(basePath) => "Theme " + basePath + " could not loaded."
    }
  }

  /** Everything outside the manager that it consults. */
  datatype World = World(
    appBasePath: string,                 // Yii::$app->basePath
    resolveAlias: string -> string,      // Yii::getAlias
    isDir: string -> bool,               // is_dir
    isReadable: string -> bool,          // is_readable
    fileExists: string -> bool,          // file_exists
    readJson: string -> Json,            // Json::decode(file_get_contents(...))
    scandir: string -> seq<string>,      // scandir, "." and ".." included
    packageThemes: seq<seq<string>>,     // the `themes` of each package config, in order
    setupHook: string -> string,         // the listeners of the `setup` event
    parentChain: string -> seq<string>)  // the ancestors a Theme finds for a base path

  /** The theme table and the aliases the manager has written. */
  datatype Registry = Registry(themes: map<string, Config>, aliases: map<string, string>)

  /** The whole state of a manager. */
  datatype Mgr = Mgr(reg: Registry, active: Option<Theme>, log: seq<string>)

  /** What an operation on the table returns, and the table after it. */
  datatype Step<T> = Step(out: T, reg: Registry)

  /** What `setup` lets escape, and the state after it. */
  datatype After = After(raised: Option<Fault>, mgr: Mgr)

  const Initial: Mgr := Mgr(Registry(map[], map[]), None, [])

  // ---------------------------------------------------------------------
  // loadThemeConfig

  /** The key a definition is stored under: an app-relative path is made
      absolute against the application base path, anything else is kept. */
  function StoredKey(basePath: string, appBasePath: string): (k: string)
    ensures StartsWith(basePath, '@') || StartsWith(basePath, '/') ==> k == basePath
  {
    if !StartsWith(basePath, '@') && !StartsWith(basePath, '/') then appBasePath + "/" + basePath
    else basePath
  }

  /** The directory `loadThemeConfig` checks. An absolute path takes neither
      branch and leaves the directory unassigned (None). */
  function ThemeDir(basePath: string, w: World): (r: Option<string>)
    ensures r.None? <==> StartsWith(basePath, '/')
    ensures StartsWith(basePath, '@') ==> r == Some(w.resolveAlias(basePath))
    ensures !StartsWith(basePath, '@') && r.Some? ==> r.value == StoredKey(basePath, w.appBasePath)
  {
    if StartsWith(basePath, '@') then Some(w.resolveAlias(basePath))
    else if !StartsWith(basePath, '/') then Some(w.appBasePath + "/" + basePath)
    else None
  }

  /** The manifest of a theme directory: the decoded `theme.json`, or the
      empty configuration when the file is missing or decodes to a falsy value. */
  function ReadManifest(dir: string, w: World): (r: Json)
    ensures Truthy(r) <==> w.fileExists(dir + ManifestFile) && Truthy(w.readJson(dir + ManifestFile))
    ensures Truthy(r) ==> r == w.readJson(dir + ManifestFile)
    ensures !Truthy(r) ==> r == EmptyManifest
  {
    var file := dir + ManifestFile;
    if w.fileExists(file) && Truthy(w.readJson(file)) then w.readJson(file) else EmptyManifest
  }

  function LoadThemeConfig(basePath: string, w: World): (r: Result<Config, Fault>)
    ensures StartsWith(basePath, '/') ==> r == Err(DirectoryUnavailable(""))
    ensures StartsWith(basePath, '@') ==>
      var dir := w.resolveAlias(basePath);
      && (r.Ok? <==> w.isDir(dir) && w.isReadable(dir))
      && (r.Ok? ==> r.value.basePath == basePath)
      && (r.Err? ==> r.error == DirectoryUnavailable(dir))
    ensures !StartsWith(basePath, '@') && !StartsWith(basePath, '/') ==>
      var dir := w.appBasePath + "/" + basePath;
      && (r.Ok? <==> w.isDir(dir) && w.isReadable(dir))
      && (r.Ok? ==> r.value.basePath == dir)
      && (r.Err? ==> r.error == DirectoryUnavailable(dir))
    ensures r.Ok? ==> r.value.basePath == StoredKey(basePath, w.appBasePath)
    ensures r.Ok? ==>
      && ThemeDir(basePath, w).Some?
      && var file := ThemeDir(basePath, w).value + "/theme.json";
      && (!w.fileExists(file) ==> r.value.manifest == EmptyManifest)
      && (w.fileExists(file) && !Truthy(w.readJson(file)) ==> r.value.manifest == EmptyManifest)
      && (w.fileExists(file) && Truthy(w.readJson(file)) ==> r.value.manifest == w.readJson(file))
  {
    match ThemeDir(basePath, w)
    case None => Err(DirectoryUnavailable(""))
    case Some(dir) =>
      if !w.isDir(dir) || !w.isReadable(dir) then Err(DirectoryUnavailable(dir))
      else Ok(Config(StoredKey(basePath, w.appBasePath), ReadManifest(dir, w)))
  }

  // ---------------------------------------------------------------------
  // registerTheme

  /** The alias `@<basename>Theme` published for every registered theme.
      It differs from `activeTheme` as written; see ThemeAliasOfActiveDirectory
      for where the alias service's `@` prefix makes them meet. */
  function ThemeAlias(basePath: string): (a: string)
    ensures |a| > 0 && a[0] == '@' && a != ActiveThemeAlias
  {
    "@" + Basename(basePath) + "Theme"
  }

  /** The alias service stores a name without `@` under `@name`, so
      `activeTheme` is kept as `@activeTheme`; a theme directory named
      `active` publishes that very alias. */
  lemma ThemeAliasOfActiveDirectory(dir: string)
    ensures ThemeAlias(dir + "/active") == "@" + ActiveThemeAlias
  {
    var name := Basename(dir + "/active");
    BasenameOfChild(dir, "active");
    assert dir + "/" + "active" == dir + "/active";
    assert name == "active";
    assert ThemeAlias(dir + "/active") == "@" + name + "Theme";
    assert "@" + name + "Theme" == "@activeTheme" == "@" + ActiveThemeAlias;
  }

  /** Every theme in the table is stored under its own base path. */
  predicate Keyed(reg: Registry) {
    forall k :: k in reg.themes ==> reg.themes[k].basePath == k
  }

  function Register(reg: Registry, config: Config): (r: Step<Option<Fault>>)
    ensures config.basePath in reg.themes ==> r == Step(Some(AlreadyRegistered), reg)
    ensures config.basePath !in reg.themes ==> r.out == None
    ensures config.basePath !in reg.themes ==> r.reg.themes.Keys == reg.themes.Keys + {config.basePath}
    ensures config.basePath !in reg.themes ==> r.reg.themes[config.basePath] == config
    ensures forall k :: k in reg.themes ==> r.reg.themes[k] == reg.themes[k]
    ensures config.basePath !in reg.themes ==>
      r.reg.aliases.Keys == reg.aliases.Keys + {ThemeAlias(config.basePath)}
    ensures config.basePath !in reg.themes ==>
      r.reg.aliases[ThemeAlias(config.basePath)] == config.basePath
    ensures r.reg.aliases - {ThemeAlias(config.basePath)} == reg.aliases - {ThemeAlias(config.basePath)}
    ensures Keyed(reg) ==> Keyed(r.reg)
  {
    if config.basePath in reg.themes then Step(Some(AlreadyRegistered), reg)
    else
      var alias := ThemeAlias(config.basePath);
      Step(None, Registry(reg.themes[config.basePath := config], reg.aliases[alias := config.basePath]))
  }

  // ---------------------------------------------------------------------
  // getThemeDefinitions, getThemes

  /** One definition per entry of the theme root listing, none filtered out. */
  function AppThemeDefinitions(entries: seq<string>): (r: seq<string>)
    ensures |r| == |entries|
    ensures forall i :: 0 <= i < |entries| ==> r[i] == "@app/themes/" + Basename(entries[i])
  {
    seq(|entries|, i requires 0 <= i < |entries| => AppThemesRoot + "/" + Basename(entries[i]))
  }

  /** The lists one after another, the way repeated `array_merge` joins them. */
  function Flatten(lists: seq<seq<string>>): seq<string> {
    if lists == [] then [] else Flatten(lists[..|lists| - 1]) + lists[|lists| - 1]
  }

  /** The joined list holds every theme of every list, and nothing else. */
  lemma {:induction false} FlattenMembers(lists: seq<seq<string>>)
    ensures forall j, x :: 0 <= j < |lists| && x in lists[j] ==> x in Flatten(lists)
    ensures forall x :: x in Flatten(lists) ==> exists j :: 0 <= j < |lists| && x in lists[j]
    decreases |lists|
  {
    if lists != [] {
      var init := lists[..|lists| - 1];
      FlattenMembers(init);
      forall j, x | 0 <= j < |lists| && x in lists[j] ensures x in Flatten(lists) {
        if j < |init| {
          assert init[j] == lists[j];
        }
      }
      forall x | x in Flatten(lists) ensures exists j :: 0 <= j < |lists| && x in lists[j] {
        if x in Flatten(init) {
          var j :| 0 <= j < |init| && x in init[j];
          assert init[j] == lists[j];
        }
      }
    }
  }

  /** The definitions `getThemes` loads: the entries of the application's
      theme root (when it exists) first, then every package's themes in order. */
  function ThemeDefinitions(w: World): (r: seq<string>)
    ensures
      var root := w.resolveAlias(AppThemesRoot);
      var fromRoot := if w.fileExists(root) then |w.scandir(root)| else 0;
      && |r| == fromRoot + |Flatten(w.packageThemes)|
      && (forall i :: 0 <= i < fromRoot ==> r[i] == "@app/themes/" + Basename(w.scandir(root)[i]))
      && r[fromRoot..] == Flatten(w.packageThemes)
  {
    var root := w.resolveAlias(AppThemesRoot);
    (if w.fileExists(root) then AppThemeDefinitions(w.scandir(root)) else []) + Flatten(w.packageThemes)
  }

  /** The keys the definitions are stored under. */
  function KeysOf(defs: seq<string>, appBasePath: string): set<string> {
    if defs == [] then {} else {StoredKey(defs[0], appBasePath)} + KeysOf(defs[1..], appBasePath)
  }

  /** The aliases the definitions publish once loaded. */
  function AliasesOf(defs: seq<string>, appBasePath: string): set<string> {
    set i | 0 <= i < |defs| :: ThemeAlias(StoredKey(defs[i], appBasePath))
  }

  /** No later definition publishes the alias of definition `i`. */
  predicate LastToPublish(defs: seq<string>, i: int, appBasePath: string)
    requires 0 <= i < |defs|
  {
    forall l :: i < l < |defs| ==>
      ThemeAlias(StoredKey(defs[l], appBasePath)) != ThemeAlias(StoredKey(defs[i], appBasePath))
  }

  /** Every definition loads, and its configuration is stored under its key. */
  predicate StoresLoaded(after: Registry, defs: seq<string>, w: World) {
    forall i :: 0 <= i < |defs| ==>
      && LoadThemeConfig(defs[i], w).Ok?
      && StoredKey(defs[i], w.appBasePath) in after.themes
      && after.themes[StoredKey(defs[i], w.appBasePath)] == LoadThemeConfig(defs[i], w).value
  }

  /** The aliases of the definitions are added and every other alias is as
      it was. */
  predicate AddsAliases(before: Registry, after: Registry, defs: seq<string>, appBasePath: string) {
    && after.aliases.Keys == before.aliases.Keys + AliasesOf(defs, appBasePath)
    && (forall a :: a in before.aliases && a !in AliasesOf(defs, appBasePath) ==>
          after.aliases[a] == before.aliases[a])
  }

  /** Each alias of the definitions points at the last definition that
      publishes it. */
  predicate LastWins(after: Registry, defs: seq<string>, appBasePath: string) {
    forall i :: 0 <= i < |defs| && LastToPublish(defs, i, appBasePath) ==>
      && ThemeAlias(StoredKey(defs[i], appBasePath)) in after.aliases
      && after.aliases[ThemeAlias(StoredKey(defs[i], appBasePath))] == StoredKey(defs[i], appBasePath)
  }

  /** What loading `defs` into `before` leaves in `after` when nothing was raised. */
  predicate Loaded(before: Registry, after: Registry, defs: seq<string>, w: World) {
    && StoresLoaded(after, defs, w)
    && AddsAliases(before, after, defs, w.appBasePath)
    && LastWins(after, defs, w.appBasePath)
  }

  /** The `foreach` of `getThemes`: load and register each definition in
      turn, stopping at the first exception with the table as filled so far. */
  function LoadAll(reg: Registry, defs: seq<string>, w: World): (r: Step<Option<Fault>>)
    ensures forall k :: k in reg.themes ==> k in r.reg.themes && r.reg.themes[k] == reg.themes[k]
    ensures r.reg.themes.Keys <= reg.themes.Keys + KeysOf(defs, w.appBasePath)
    ensures r.out.None? ==> r.reg.themes.Keys == reg.themes.Keys + KeysOf(defs, w.appBasePath)
    ensures Keyed(reg) ==> Keyed(r.reg)
    ensures ActiveThemeAlias in reg.aliases ==>
      ActiveThemeAlias in r.reg.aliases && r.reg.aliases[ActiveThemeAlias] == reg.aliases[ActiveThemeAlias]
    decreases |defs|
  {
    if defs == [] then Step(None, reg)
    else
      match LoadThemeConfig(defs[0], w)
      case Err(fault) => Step(Some(fault), reg)
      case Ok(config) =>
        var registered := Register(reg, config);
        if registered.out.Some? then registered else LoadAll(registered.reg, defs[1..], w)
  }

  function GetThemes(reg: Registry, w: World): (r: Step<Result<map<string, Config>, Fault>>)
    ensures |reg.themes| > 0 ==> r == Step(Ok(reg.themes), reg)
    ensures r.out.Ok? ==> r.out.value == r.reg.themes
    ensures r.out.Err? ==> |reg.themes| == 0
    ensures |reg.themes| == 0 && r.out.Ok? ==>
      r.reg.themes.Keys == KeysOf(ThemeDefinitions(w), w.appBasePath)
    ensures forall k :: k in reg.themes ==> k in r.reg.themes && r.reg.themes[k] == reg.themes[k]
    ensures Keyed(reg) ==> Keyed(r.reg)
    ensures ActiveThemeAlias in reg.aliases ==>
      ActiveThemeAlias in r.reg.aliases && r.reg.aliases[ActiveThemeAlias] == reg.aliases[ActiveThemeAlias]
  {
    if |reg.themes| > 0 then Step(Ok(reg.themes), reg)
    else
      var loaded := LoadAll(reg, ThemeDefinitions(w), w);
      Step(if loaded.out.Some? then Err(loaded.out.value) else Ok(loaded.reg.themes), loaded.reg)
  }

  // ---------------------------------------------------------------------
  // getThemeByBasePath

  function GetThemeByBasePath(reg: Registry, basePath: string, w: World): (r: Step<Result<Config, Fault>>)
    ensures r.reg == GetThemes(reg, w).reg
    ensures r.out.Ok? <==> GetThemes(reg, w).out.Ok? && basePath in r.reg.themes
    ensures r.out.Ok? ==> r.out.value == r.reg.themes[basePath]
    ensures GetThemes(reg, w).out.Ok? && basePath !in r.reg.themes ==> r.out == Err(NotLoaded(basePath))
    ensures GetThemes(reg, w).out.Err? ==> r.out == Err(GetThemes(reg, w).out.error)
  {
    var loaded := GetThemes(reg, w);
    match loaded.out
    case Err(fault) => Step(Err(fault), loaded.reg)
    case Ok(themes) =>
      if basePath !in themes then Step(Err(NotLoaded(basePath)), loaded.reg)
      else Step(Ok(themes[basePath]), loaded.reg)
  }

  // ---------------------------------------------------------------------
  // getActiveThemeBasePath, activate, setup

  /** PHP's `empty` on a string: only "" and "0" are empty, exactly the
      strings that are not truthy. */
  function PhpEmpty(s: string): (e: bool)
    ensures e <==> !Truthy(JString(s))
  {
    s == "" || s == "0"
  }

  function ActiveThemeBasePath(activeThemeName: string): (r: string)
    ensures !PhpEmpty(activeThemeName) ==> r == activeThemeName
    ensures PhpEmpty(activeThemeName) ==> r == AppThemesBlank
    ensures !PhpEmpty(r)
  {
    if !PhpEmpty(activeThemeName) then activeThemeName else AppThemesBlank
  }

  function Activate(m: Mgr, theme: Theme): (r: Mgr)
    ensures r.active == Some(theme)
    ensures r.reg.themes == m.reg.themes && r.log == m.log
    ensures r.reg.aliases.Keys == m.reg.aliases.Keys + {ActiveThemeAlias}
    ensures r.reg.aliases[ActiveThemeAlias] == theme.basePath
    ensures forall a :: a in m.reg.aliases && a != ActiveThemeAlias ==> r.reg.aliases[a] == m.reg.aliases[a]
  {
    Mgr(Registry(m.reg.themes, m.reg.aliases[ActiveThemeAlias := theme.basePath]), Some(theme), m.log)
  }

  /** The base path `setup` resolves: the configured one as the hook rewrote it. */
  function SetupBasePath(activeThemeName: string, w: World): (r: string)
    ensures !PhpEmpty(activeThemeName) ==> r == w.setupHook(activeThemeName)
    ensures PhpEmpty(activeThemeName) ==> r == w.setupHook(AppThemesBlank)
    ensures (forall p :: w.setupHook(p) == p) ==> r == ActiveThemeBasePath(activeThemeName)
  {
    w.setupHook(ActiveThemeBasePath(activeThemeName))
  }

  /** `setup`: catches the `InvalidArgumentException`s and logs them; of the
      faults modelled, only the directory error escapes. */
  function Setup(m: Mgr, activeThemeName: string, w: World): (r: After)
    ensures m.active.Some? ==> r == After(None, m)
    ensures m.active.None? ==>
      var lookup := GetThemeByBasePath(m.reg, SetupBasePath(activeThemeName, w), w);
      && r.mgr.reg.themes == lookup.reg.themes
      && (lookup.out.Ok? ==>
            var config := lookup.out.value;
            && r.raised == None
            && r.mgr.active == Some(NewTheme(config, w.parentChain(config.basePath)))
            && r.mgr.reg.aliases == lookup.reg.aliases[ActiveThemeAlias := config.basePath]
            && r.mgr.log == m.log)
      && (lookup.out.Err? && lookup.out.error.IsInvalidArgument() ==>
            && r.raised == None
            && r.mgr == Mgr(lookup.reg, None, m.log + [lookup.out.error.Message()]))
      && (lookup.out.Err? && !lookup.out.error.IsInvalidArgument() ==>
            && r.raised == Some(lookup.out.error)
            && r.mgr == Mgr(lookup.reg, None, m.log))
    ensures r.raised.Some? ==> r.raised.value.DirectoryUnavailable?
  {
    if m.active.Some? then After(None, m)
    else
      var basePath := SetupBasePath(activeThemeName, w);
      var lookup := GetThemeByBasePath(m.reg, basePath, w);
      var loaded := Mgr(lookup.reg, m.active, m.log);
      match lookup.out
      case Ok(config) => After(None, Activate(loaded, NewTheme(config, w.parentChain(config.basePath))))
      case Err(fault) =>
        if fault.IsInvalidArgument() then After(None, loaded.(log := m.log + [fault.Message()]))
        else After(Some(fault), loaded)
  }

  // ---------------------------------------------------------------------
  // Properties

  /** The invariant of a manager: the table is keyed by base path, and an
      active theme is one of the table's and is published as `activeTheme`. */
  predicate Consistent(m: Mgr) {
    && Keyed(m.reg)
    && (m.active.Some? ==>
          var theme := m.active.value;
          && theme.basePath in m.reg.themes
          && m.reg.themes[theme.basePath] == theme.config
          && ActiveThemeAlias in m.reg.aliases
          && m.reg.aliases[ActiveThemeAlias] == theme.basePath)
  }

  lemma InitialConsistent()
    ensures Consistent(Initial)
  {
  }

  lemma SetupPreservesConsistency(m: Mgr, activeThemeName: string, w: World)
    requires Consistent(m)
    ensures Consistent(Setup(m, activeThemeName, w).mgr)
  {
  }

  /** The theme `setup` activates is the one stored under the base path as
      rewritten by the hook, and that path is published as `activeTheme`. */
  lemma SetupActivatesRewrittenPath(m: Mgr, activeThemeName: string, w: World)
    requires Consistent(m) && m.active.None?
    requires GetThemeByBasePath(m.reg, SetupBasePath(activeThemeName, w), w).out.Ok?
    ensures
      var basePath := SetupBasePath(activeThemeName, w);
      var r := Setup(m, activeThemeName, w);
      && r.raised == None
      && r.mgr.active.Some?
      && r.mgr.active.value.basePath == basePath
      && r.mgr.active.value.config == r.mgr.reg.themes[basePath]
      && r.mgr.reg.aliases[ActiveThemeAlias] == basePath
  {
  }

  /** Once a theme is active, `setup` again changes nothing. */
  lemma SetupIsIdempotent(m: Mgr, activeThemeName: string, w: World)
    ensures
      var first := Setup(m, activeThemeName, w);
      first.mgr.active.Some? ==> Setup(first.mgr, activeThemeName, w) == After(None, first.mgr)
  {
  }
}
