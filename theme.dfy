/** Theme configurations and the view path map a theme builds from its
    parent chain. */
module Themes {

  /** A decoded `theme.json` value. */
  datatype Json =
    | JNull
    | JBool(b: bool)
    | JNumber(n: int)
    | JString(s: string)
    | JList(items: seq<Json>)
    | JObject(fields: map<string, Json>)

  /** PHP truthiness of a decoded value, as the `?:` operator tests it:
      `null`, `false`, `0`, `""`, `"0"` and the empty array are falsy. */
  function Truthy(j: Json): (t: bool)
    ensures !t <==> j in {JNull, JBool(false), JNumber(0), JString(""), JString("0"), JList([]), JObject(map[])}
  {
    match j
    case JNull => false
    case JBool(b) => b
    case JNumber(n) => n != 0
    case JString(s) => s != "" && s != "0"
    case JList(items) => items != []
    case JObject(fields) => fields != map[]
  }

  /** The empty configuration array `[]`. */
  const EmptyManifest: Json := JObject(map[])

  /** A theme directory: the key it is registered under and its manifest. */
  datatype Config = Config(basePath: string, manifest: Json)

  /** An activated theme: its configuration, its base path and the path map
      the view component resolves templates through. */
  datatype Theme = Theme(config: Config, basePath: string, pathMap: map<string, seq<string>>)

  /** The application's own view root. */
  const AppViews: string := "@app/views"

  /** The view directory a theme contributes. */
  function ViewDir(basePath: string): string {
    basePath + "/views"
  }

  /** The ordered lookup directories for a parent chain given most specific
      first: the application root, then one view directory per theme. */
  function FallbackList(chain: seq<string>): (r: seq<string>)
    ensures |r| == |chain| + 1
    ensures r[0] == AppViews
    ensures forall i :: 0 <= i < |chain| ==> r[i + 1] == chain[i] + "/views"
  {
    [AppViews] + seq(|chain|, i requires 0 <= i < |chain| => ViewDir(chain[i]))
  }

  /** The path map of the theme at `basePath` whose ancestors, nearest first,
      are `ancestors`: both the application view root and the theme's own
      view directory resolve through the same fallback list. */
  function PathMap(basePath: string, ancestors: seq<string>): (r: map<string, seq<string>>)
    ensures r.Keys == {AppViews, basePath + "/views"}
    ensures forall k :: k in r ==> r[k] == FallbackList([basePath] + ancestors)
  {
    var fallback := FallbackList([basePath] + ancestors);
    map[AppViews := fallback, ViewDir(basePath) := fallback]
  }

  /** `new Theme($themeConfig)`, the parent chain being supplied. */
  function NewTheme(config: Config, ancestors: seq<string>): (t: Theme)
    ensures t.config == config && t.basePath == config.basePath
    ensures t.pathMap.Keys == {AppViews, ViewDir(config.basePath)}
    ensures forall k :: k in t.pathMap ==>
      |t.pathMap[k]| == |ancestors| + 2 && t.pathMap[k][0] == AppViews && t.pathMap[k][1] == ViewDir(config.basePath)
  {
    Theme(config, config.basePath, PathMap(config.basePath, ancestors))
  }

  /** For a fixed parent chain the path map depends only on the base path:
      two configurations that differ only in their manifests give the same
      map. The chain itself is an input here, not read from the manifest. */
  lemma PathMapIgnoresManifest(basePath: string, m1: Json, m2: Json, ancestors: seq<string>)
    ensures NewTheme(Config(basePath, m1), ancestors).pathMap
         == NewTheme(Config(basePath, m2), ancestors).pathMap
    ensures NewTheme(Config(basePath, m1), ancestors).basePath == basePath
  {
  }

  predicate Distinct(s: seq<string>) {
    forall i, j :: 0 <= i < j < |s| ==> s[i] != s[j]
  }

  lemma ViewDirInjective(a: string, b: string)
    requires ViewDir(a) == ViewDir(b)
    ensures a == b
  {
    assert |a| == |b|;
    assert a == ViewDir(a)[..|a|];
    assert b == ViewDir(b)[..|b|];
  }

  lemma ViewDirIsAppViewsOnlyForApp(a: string)
    requires ViewDir(a) == AppViews
    ensures a == "@app"
  {
    assert a == ViewDir(a)[..|a|];
  }

  /** No lookup directory repeats when the chain repeats no theme and does not
      contain the application itself. */
  lemma FallbackListDistinct(chain: seq<string>)
    requires Distinct(chain)
    requires "@app" !in chain
    ensures Distinct(FallbackList(chain))
  {
    var r := FallbackList(chain);
    forall i, j | 0 <= i < j < |r| ensures r[i] != r[j] {
      if i == 0 {
        if r[j] == AppViews {
          ViewDirIsAppViewsOnlyForApp(chain[j - 1]);
        }
      } else if r[i] == r[j] {
        ViewDirInjective(chain[i - 1], chain[j - 1]);
      }
    }
  }

  /** The path map asserted for theme blank3 with the parent chain blank2,
      blank. In the test that chain comes from the themes' `theme.json`
      files; here it is given, so the manifest does not enter the map. */
  lemma ThemeTestPathMap(manifest: Json)
    ensures
      var config := Config("@app/themes/blank3", manifest);
      var expected := ["@app/views", "@app/themes/blank3/views",
                       "@app/themes/blank2/views", "@app/themes/blank/views"];
      NewTheme(config, ["@app/themes/blank2", "@app/themes/blank"]).pathMap
        == map["@app/views" := expected, "@app/themes/blank3/views" := expected]
  {
    var expected := ["@app/views", "@app/themes/blank3/views",
                     "@app/themes/blank2/views", "@app/themes/blank/views"];
    var chain := ["@app/themes/blank3", "@app/themes/blank2", "@app/themes/blank"];
    var fallback := FallbackList(chain);
    assert fallback[1] == "@app/themes/blank3" + "/views" == expected[1];
    assert fallback[2] == "@app/themes/blank2" + "/views" == expected[2];
    assert fallback[3] == "@app/themes/blank" + "/views" == expected[3];
    assert fallback == expected;
    assert ViewDir(chain[0]) == expected[1];
    var config := Config("@app/themes/blank3", manifest);
    var ancestors := ["@app/themes/blank2", "@app/themes/blank"];
    assert [config.basePath] + ancestors == chain;
    assert NewTheme(config, ancestors).pathMap == map[AppViews := fallback, ViewDir(chain[0]) := fallback];
  }
}
