/** Properties of the manager that relate several of its steps. */
module ManagerProperties {
  import opened Wrappers
  import opened Themes
  import opened ManagerSpec

  /** Loading a list is loading a prefix of it and then the rest, as long as
      the prefix raised nothing. */
  lemma {:induction false} LoadAllSplit(reg: Registry, defs: seq<string>, w: World, i: nat)
    requires i <= |defs|
    requires LoadAll(reg, defs[..i], w).out.None?
    ensures LoadAll(reg, defs, w) == LoadAll(LoadAll(reg, defs[..i], w).reg, defs[i..], w)
    decreases i
  {
    if i > 0 {
      var prefix, rest := defs[..i], defs[1..];
      assert prefix[0] == defs[0] && prefix[1..] == rest[..i - 1];
      var config := LoadThemeConfig(defs[0], w);
      assert config.Ok? by {
        assert LoadAll(reg, prefix, w).out.None?;
      }
      var first := Register(reg, config.value);
      assert first.out.None? && LoadAll(reg, prefix, w) == LoadAll(first.reg, rest[..i - 1], w) by {
        assert LoadAll(reg, prefix, w).out.None?;
      }
      assert LoadAll(reg, defs, w) == LoadAll(first.reg, rest, w);
      LoadAllSplit(first.reg, rest, w, i - 1);
      assert rest[i - 1..] == defs[i..];
    }
  }

  /** The first definition that fails to load or is met again ends the scan:
      the table keeps exactly what the definitions before it registered, and
      none after it is loaded. */
  lemma LoadAllStopsAtFirstFault(reg: Registry, defs: seq<string>, w: World, i: nat)
    requires i < |defs|
    requires LoadAll(reg, defs[..i], w).out.None?
    requires
      var before := LoadAll(reg, defs[..i], w).reg;
      var config := LoadThemeConfig(defs[i], w);
      config.Err? || config.value.basePath in before.themes
    ensures
      var before := LoadAll(reg, defs[..i], w).reg;
      var config := LoadThemeConfig(defs[i], w);
      LoadAll(reg, defs, w)
        == Step(Some(if config.Err? then config.error else AlreadyRegistered), before)
  {
    LoadAllSplit(reg, defs, w, i);
    assert defs[i..][0] == defs[i];
  }

  /** A duplicate definition is an `InvalidArgumentException`, so `setup`
      swallows it too: it logs it once, stays inactive and keeps the partly
      filled table. */
  lemma SetupSwallowsDuplicate(m: Mgr, activeThemeName: string, w: World)
    requires m.active.None? && m.reg.themes == map[]
    requires LoadAll(m.reg, ThemeDefinitions(w), w).out == Some(AlreadyRegistered)
    ensures Setup(m, activeThemeName, w)
         == After(None, Mgr(LoadAll(m.reg, ThemeDefinitions(w), w).reg, None,
                            m.log + ["Theme already registered."]))
  {
  }

  /** A directory error raised while loading escapes `setup`, which then
      logs nothing and stays inactive. */
  lemma SetupPropagatesDirectoryError(m: Mgr, activeThemeName: string, w: World, dir: string)
    requires m.active.None? && m.reg.themes == map[]
    requires LoadAll(m.reg, ThemeDefinitions(w), w).out == Some(DirectoryUnavailable(dir))
    ensures Setup(m, activeThemeName, w)
         == After(Some(DirectoryUnavailable(dir)),
                  Mgr(LoadAll(m.reg, ThemeDefinitions(w), w).reg, None, m.log))
  {
  }

  /** An absolute definition always fails the directory check. */
  lemma AbsoluteDefinitionFails(reg: Registry, defs: seq<string>, w: World, i: nat)
    requires i < |defs| && Paths.StartsWith(defs[i], '/')
    requires LoadAll(reg, defs[..i], w).out.None?
    ensures LoadAll(reg, defs, w).out == Some(DirectoryUnavailable(""))
  {
    LoadAllStopsAtFirstFault(reg, defs, w, i);
  }

  /** A base path missing from the loaded table: `setup` logs the lookup
      failure exactly once and stays inactive. */
  lemma SetupLogsUnknownThemeOnce(m: Mgr, activeThemeName: string, w: World)
    requires m.active.None?
    requires
      var loaded := GetThemes(m.reg, w);
      loaded.out.Ok? && SetupBasePath(activeThemeName, w) !in loaded.reg.themes
    ensures
      var r := Setup(m, activeThemeName, w);
      && r.raised == None
      && r.mgr.active == None
      && r.mgr.log == m.log + ["Theme " + SetupBasePath(activeThemeName, w) + " could not loaded."]
  {
  }

  /** A table that is not empty is never scanned again: `setup` then looks
      the base path up in it as it is, whatever the directories now hold. */
  lemma SetupUsesCachedTable(m: Mgr, activeThemeName: string, w1: World, w2: World)
    requires m.active.None? && |m.reg.themes| > 0
    requires SetupBasePath(activeThemeName, w1) == SetupBasePath(activeThemeName, w2)
    requires w1.parentChain == w2.parentChain
    ensures Setup(m, activeThemeName, w1) == Setup(m, activeThemeName, w2)
    ensures Setup(m, activeThemeName, w1).mgr.reg.themes == m.reg.themes
  {
  }

  /** The scenario of the theme test, through `setup`: with blank3
      configured, registered and descending from blank2 and blank, the
      activated theme carries the path map the test expects. */
  lemma SetupBlank3PathMap(m: Mgr, w: World)
    requires Consistent(m) && m.active.None?
    requires SetupBasePath("@app/themes/blank3", w) == "@app/themes/blank3"
    requires GetThemes(m.reg, w).out.Ok? && "@app/themes/blank3" in GetThemes(m.reg, w).reg.themes
    requires w.parentChain("@app/themes/blank3") == ["@app/themes/blank2", "@app/themes/blank"]
    ensures
      var r := Setup(m, "@app/themes/blank3", w);
      var expected := ["@app/views", "@app/themes/blank3/views",
                       "@app/themes/blank2/views", "@app/themes/blank/views"];
      && r.mgr.active.Some?
      && r.mgr.active.value.pathMap
           == map["@app/views" := expected, "@app/themes/blank3/views" := expected]
  {
    SetupActivatesRewrittenPath(m, "@app/themes/blank3", w);
    var config := GetThemes(m.reg, w).reg.themes["@app/themes/blank3"];
    ThemeTestPathMap(config.manifest);
  }

  /** Every single-component entry of an existing theme root is a definition. */
  lemma RootEntryBecomesDefinition(w: World, entry: string)
    requires w.fileExists(w.resolveAlias(AppThemesRoot))
    requires entry in w.scandir(w.resolveAlias(AppThemesRoot)) && '/' !in entry
    ensures "@app/themes/" + entry in ThemeDefinitions(w)
  {
    var entries := w.scandir(w.resolveAlias(AppThemesRoot));
    var i :| 0 <= i < |entries| && entries[i] == entry;
    Paths.BasenameOfName(entry);
    var fromRoot := AppThemeDefinitions(entries);
    assert fromRoot[i] == "@app/themes/" + entry;
    assert ThemeDefinitions(w) == fromRoot + Flatten(w.packageThemes);
    assert ThemeDefinitions(w)[i] == fromRoot[i];
  }

  /** `scandir` lists `.` and `..` as well, and nothing filters them out: a
      theme root that exists contributes a definition for each. */
  lemma DotEntriesBecomeDefinitions(w: World)
    requires w.fileExists(w.resolveAlias(AppThemesRoot))
    requires "." in w.scandir(w.resolveAlias(AppThemesRoot))
    requires ".." in w.scandir(w.resolveAlias(AppThemesRoot))
    ensures "@app/themes/." in ThemeDefinitions(w)
    ensures "@app/themes/.." in ThemeDefinitions(w)
  {
    RootEntryBecomesDefinition(w, ".");
    RootEntryBecomesDefinition(w, "..");
    assert "@app/themes/" + "." == "@app/themes/.";
    assert "@app/themes/" + ".." == "@app/themes/..";
  }

  /** A scan that adds no key changes nothing at all: it stopped at its first
      definition, by a directory error or a duplicate, or had none. */
  lemma LoadAllAddingNoKeyChangesNothing(reg: Registry, defs: seq<string>, w: World)
    requires LoadAll(reg, defs, w).reg.themes.Keys == reg.themes.Keys
    ensures LoadAll(reg, defs, w).reg == reg
  {
    if defs != [] {
      var loaded := LoadThemeConfig(defs[0], w);
      if loaded.Ok? && loaded.value.basePath !in reg.themes {
        assert false;
      }
    }
  }

  /** The cache test is the table's truthiness: a scan that leaves the table
      empty, because it found nothing or because its first definition raised,
      is not remembered, and the next call is a full scan of whatever the
      directories hold then. */
  lemma EmptyScanIsRepeated(reg: Registry, w1: World, w2: World)
    requires reg.themes == map[]
    requires GetThemes(reg, w1).reg.themes == map[]
    ensures ThemeDefinitions(w1) == [] ==> GetThemes(reg, w1) == Step(Ok(map[]), reg)
    ensures GetThemes(reg, w1).reg == reg
    ensures GetThemes(GetThemes(reg, w1).reg, w2) == GetThemes(reg, w2)
    ensures GetThemes(GetThemes(reg, w1).reg, w2).reg == LoadAll(reg, ThemeDefinitions(w2), w2).reg
  {
    LoadAllAddingNoKeyChangesNothing(reg, ThemeDefinitions(w1), w1);
  }

  /** The aliases one more definition in front adds. */
  lemma AliasesOfFront(defs: seq<string>, ab: string)
    requires defs != []
    ensures AliasesOf(defs, ab) == {ThemeAlias(StoredKey(defs[0], ab))} + AliasesOf(defs[1..], ab)
  {
    var rest := defs[1..];
    forall a | a in AliasesOf(defs, ab) ensures a in {ThemeAlias(StoredKey(defs[0], ab))} + AliasesOf(rest, ab) {
      var i :| 0 <= i < |defs| && a == ThemeAlias(StoredKey(defs[i], ab));
      if i > 0 {
        assert rest[i - 1] == defs[i];
      }
    }
    forall a | a in AliasesOf(rest, ab) ensures a in AliasesOf(defs, ab) {
      var i :| 0 <= i < |rest| && a == ThemeAlias(StoredKey(rest[i], ab));
      assert defs[i + 1] == rest[i];
    }
  }

  /** The first step of a scan that raises nothing: the first definition
      loads and is registered as new, and the rest is loaded after it. */
  lemma LoadAllFront(reg: Registry, defs: seq<string>, w: World)
    requires defs != [] && LoadAll(reg, defs, w).out.None?
    ensures LoadThemeConfig(defs[0], w).Ok?
    ensures LoadThemeConfig(defs[0], w).value.basePath == StoredKey(defs[0], w.appBasePath)
    ensures StoredKey(defs[0], w.appBasePath) !in reg.themes
    ensures
      var first := Register(reg, LoadThemeConfig(defs[0], w).value);
      && LoadAll(first.reg, defs[1..], w) == LoadAll(reg, defs, w)
  {
  }

  /** A scan that raises nothing stores every definition's loaded
      configuration under its key. */
  lemma {:induction false} LoadAllStoresLoaded(reg: Registry, defs: seq<string>, w: World)
    requires LoadAll(reg, defs, w).out.None?
    ensures StoresLoaded(LoadAll(reg, defs, w).reg, defs, w)
    decreases |defs|
  {
    if defs != [] {
      LoadAllFront(reg, defs, w);
      var first := Register(reg, LoadThemeConfig(defs[0], w).value);
      var rest := defs[1..];
      LoadAllStoresLoaded(first.reg, rest, w);
      var r := LoadAll(reg, defs, w).reg;
      forall i | 0 <= i < |defs|
        ensures LoadThemeConfig(defs[i], w).Ok?
        ensures StoredKey(defs[i], w.appBasePath) in r.themes
        ensures r.themes[StoredKey(defs[i], w.appBasePath)] == LoadThemeConfig(defs[i], w).value
      {
        if i > 0 {
          assert rest[i - 1] == defs[i];
        }
      }
    }
  }

  /** A scan that raises nothing adds the alias of every definition and
      leaves every other alias as it was. */
  lemma {:induction false} LoadAllAddsAliases(reg: Registry, defs: seq<string>, w: World)
    requires LoadAll(reg, defs, w).out.None?
    ensures AddsAliases(reg, LoadAll(reg, defs, w).reg, defs, w.appBasePath)
    decreases |defs|
  {
    var ab := w.appBasePath;
    if defs == [] {
      assert AliasesOf(defs, ab) == {};
    } else {
      LoadAllFront(reg, defs, w);
      var first := Register(reg, LoadThemeConfig(defs[0], w).value);
      LoadAllAddsAliases(first.reg, defs[1..], w);
      AliasesOfFront(defs, ab);
    }
  }

  /** In a scan that raises nothing the last definition of a base name wins
      its alias. */
  lemma {:induction false} LoadAllLastWins(reg: Registry, defs: seq<string>, w: World)
    requires LoadAll(reg, defs, w).out.None?
    ensures LastWins(LoadAll(reg, defs, w).reg, defs, w.appBasePath)
    decreases |defs|
  {
    var ab := w.appBasePath;
    if defs != [] {
      LoadAllFront(reg, defs, w);
      var key := StoredKey(defs[0], ab);
      var alias := ThemeAlias(key);
      var first := Register(reg, LoadThemeConfig(defs[0], w).value);
      var rest := defs[1..];
      var r := LoadAll(first.reg, rest, w).reg;
      assert r == LoadAll(reg, defs, w).reg;
      LoadAllLastWins(first.reg, rest, w);
      forall i | 0 <= i < |defs| && LastToPublish(defs, i, ab)
        ensures ThemeAlias(StoredKey(defs[i], ab)) in r.aliases
        ensures r.aliases[ThemeAlias(StoredKey(defs[i], ab))] == StoredKey(defs[i], ab)
      {
        if i > 0 {
          assert rest[i - 1] == defs[i];
          assert LastToPublish(rest, i - 1, ab) by {
            forall l | i - 1 < l < |rest|
              ensures ThemeAlias(StoredKey(rest[l], ab)) != ThemeAlias(StoredKey(rest[i - 1], ab))
            {
              assert rest[l] == defs[l + 1];
            }
          }
        } else {
          assert alias !in AliasesOf(rest, ab);
          assert alias in first.reg.aliases && first.reg.aliases[alias] == key;
          LoadAllAddsAliases(first.reg, rest, w);
        }
      }
    }
  }

  /** A scan that raises nothing leaves what `Loaded` describes. */
  lemma LoadAllStoresLoadedConfigs(reg: Registry, defs: seq<string>, w: World)
    requires LoadAll(reg, defs, w).out.None?
    ensures Loaded(reg, LoadAll(reg, defs, w).reg, defs, w)
  {
    LoadAllStoresLoaded(reg, defs, w);
    LoadAllAddsAliases(reg, defs, w);
    LoadAllLastWins(reg, defs, w);
  }

  /** Loading an empty table without an exception leaves, for every
      definition, the configuration `loadThemeConfig` gives it, with the
      aliases of `registerTheme`. */
  lemma GetThemesStoresLoadedConfigs(reg: Registry, w: World)
    requires reg.themes == map[]
    requires GetThemes(reg, w).out.Ok?
    ensures Loaded(reg, GetThemes(reg, w).reg, ThemeDefinitions(w), w)
  {
    LoadAllStoresLoadedConfigs(reg, ThemeDefinitions(w), w);
  }

  /** The theme `setup` activates after a scan is the configuration loaded
      from the definition stored under the rewritten base path: its manifest
      is the `theme.json` of that definition's directory. */
  lemma SetupActivatesLoadedConfig(m: Mgr, activeThemeName: string, w: World, i: nat)
    requires m.active.None? && m.reg.themes == map[]
    requires GetThemes(m.reg, w).out.Ok?
    requires i < |ThemeDefinitions(w)|
    requires StoredKey(ThemeDefinitions(w)[i], w.appBasePath) == SetupBasePath(activeThemeName, w)
    ensures
      var def := ThemeDefinitions(w)[i];
      var r := Setup(m, activeThemeName, w);
      && LoadThemeConfig(def, w).Ok?
      && ThemeDir(def, w).Some?
      && r.raised == None
      && r.mgr.active.Some?
      && r.mgr.active.value.config == LoadThemeConfig(def, w).value
      && r.mgr.active.value.config.manifest == ReadManifest(ThemeDir(def, w).value, w)
  {
    GetThemesStoresLoadedConfigs(m.reg, w);
  }

  /** Loading the table keeps a manager consistent. */
  lemma GetThemesPreservesConsistency(m: Mgr, w: World)
    requires Consistent(m)
    ensures Consistent(Mgr(GetThemes(m.reg, w).reg, m.active, m.log))
  {
  }
}
