/** The theme manager as the object it is: a table of theme configurations,
    the active theme and the aliases it publishes, updated in place. Each
    method is proved to do what the matching function of ManagerSpec says. */
module ThemeManagement {
  import opened Wrappers
  import opened Paths
  import opened Themes
  import opened ManagerSpec

  class ThemeManager {
    /** The configured name of the theme to activate ("" when unset). */
    const activeThemeName: string
    var themes: map<string, Config>
    var aliases: map<string, string>
    var active: Option<Theme>
    /** The messages sent to the error log, category `luya-theme`. */
    var log: seq<string>
    /** The theme handed to the view component. */
    ghost var viewTheme: Option<Theme>

    function Reg(): Registry
      reads this
    {
      Registry(themes, aliases)
    }

    function State(): Mgr
      reads this
    {
      Mgr(Reg(), active, log)
    }

    ghost predicate Valid()
      reads this
    {
      Consistent(State()) && viewTheme == active
    }

    constructor (activeThemeName: string)
      ensures Valid()
      ensures this.activeThemeName == activeThemeName
      ensures State() == Initial
    {
      this.activeThemeName := activeThemeName;
      themes, aliases, active, log := map[], map[], None, [];
      viewTheme := None;
    }

    /** Reads the active theme; None until a `setup` has succeeded. */
    function GetActiveTheme(): (r: Option<Theme>)
      reads this
      ensures Valid() ==> r == viewTheme
      ensures Valid() && r.Some? ==>
        && r.value.basePath in themes
        && themes[r.value.basePath] == r.value.config
        && ActiveThemeAlias in aliases
        && aliases[ActiveThemeAlias] == r.value.basePath
    {
      active
    }

    method SetActiveTheme(theme: Theme)
      modifies this`active
      ensures active == Some(theme)
    {
      active := Some(theme);
    }

    method Activate(theme: Theme)
      modifies this
      ensures State() == ManagerSpec.Activate(old(State()), theme)
      ensures viewTheme == Some(theme)
    {
      viewTheme := Some(theme);
      aliases := aliases[ActiveThemeAlias := theme.basePath];
      SetActiveTheme(theme);
    }

    method RegisterTheme(config: Config) returns (fault: Option<Fault>)
      requires Valid()
      modifies this`themes, this`aliases
      ensures Valid()
      ensures Step(fault, Reg()) == Register(old(Reg()), config)
    {
      if config.basePath in themes {
        return Some(AlreadyRegistered);
      }
      themes := themes[config.basePath := config];
      aliases := aliases[ThemeAlias(config.basePath) := config.basePath];
      fault := None;
    }

    /** Lists the definitions: the theme root's entries, then the packages'. */
    method GetThemeDefinitions(w: World) returns (defs: seq<string>)
      ensures defs == ThemeDefinitions(w)
    {
      defs := [];
      var root := w.resolveAlias(AppThemesRoot);
      if w.fileExists(root) {
        var entries := w.scandir(root);
        for i := 0 to |entries|
          invariant |defs| == i
          invariant forall j :: 0 <= j < i ==> defs[j] == AppThemesRoot + "/" + Basename(entries[j])
        {
          defs := defs + [AppThemesRoot + "/" + Basename(entries[i])];
        }
      }
      ghost var fromRoot := defs;
      assert fromRoot == if w.fileExists(root) then AppThemeDefinitions(w.scandir(root)) else [];
      var packages := w.packageThemes;
      for k := 0 to |packages|
        invariant defs == fromRoot + Flatten(packages[..k])
      {
        assert packages[..k + 1][..k] == packages[..k];
        defs := defs + packages[k];
      }
      assert packages[..|packages|] == packages;
    }

    /** The `foreach` of `getThemes`: loads and registers each definition,
        leaving the table as filled so far when one throws. */
    method LoadDefinitions(defs: seq<string>, w: World) returns (fault: Option<Fault>)
      requires Valid()
      modifies this`themes, this`aliases
      ensures Valid()
      ensures Step(fault, Reg()) == LoadAll(old(Reg()), defs, w)
    {
      var i := 0;
      while i < |defs|
        invariant 0 <= i <= |defs|
        invariant Valid()
        invariant LoadAll(old(Reg()), defs, w) == LoadAll(Reg(), defs[i..], w)
      {
        ghost var here := Reg();
        ghost var rest := defs[i..];
        assert rest[0] == defs[i] && rest[1..] == defs[i + 1..];
        var config := LoadThemeConfig(defs[i], w);
        if config.Err? {
          assert LoadAll(here, rest, w) == Step(Some(config.error), here);
          return Some(config.error);
        }
        fault := RegisterTheme(config.value);
        if fault.Some? {
          return;
        }
        i := i + 1;
      }
      assert defs[i..] == [];
      fault := None;
    }

    method GetThemes(w: World) returns (r: Result<map<string, Config>, Fault>)
      requires Valid()
      modifies this`themes, this`aliases
      ensures Valid()
      ensures Step(r, Reg()) == ManagerSpec.GetThemes(old(Reg()), w)
    {
      if |themes| > 0 {
        return Ok(themes);
      }
      var defs := GetThemeDefinitions(w);
      var fault := LoadDefinitions(defs, w);
      if fault.Some? {
        return Err(fault.value);
      }
      r := Ok(themes);
    }

    method GetThemeByBasePath(basePath: string, w: World) returns (r: Result<Config, Fault>)
      requires Valid()
      modifies this`themes, this`aliases
      ensures Valid()
      ensures Step(r, Reg()) == ManagerSpec.GetThemeByBasePath(old(Reg()), basePath, w)
    {
      var loaded := GetThemes(w);
      if loaded.Err? {
        return Err(loaded.error);
      }
      if basePath !in loaded.value {
        return Err(NotLoaded(basePath));
      }
      r := Ok(loaded.value[basePath]);
    }

    method Setup(w: World) returns (raised: Option<Fault>)
      requires Valid()
      modifies this
      ensures Valid()
      ensures After(raised, State()) == ManagerSpec.Setup(old(State()), activeThemeName, w)
    {
      if active.Some? {
        return None;
      }
      var basePath := ActiveThemeBasePath(activeThemeName);
      basePath := w.setupHook(basePath);
      var config := GetThemeByBasePath(basePath, w);
      if config.Err? {
        if config.error.IsInvalidArgument() {
          log := log + [config.error.Message()];
          return None;
        }
        return Some(config.error);
      }
      var theme := NewTheme(config.value, w.parentChain(config.value.basePath));
      Activate(theme);
      raised := None;
    }
  }
}
