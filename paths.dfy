/** The string operations on paths that the theme manager relies on. */
module Paths {

  /** `strpos($s, $c) === 0`: the string is non-empty and starts with `c`. */
  predicate StartsWith(s: string, c: char) {
    |s| > 0 && s[0] == c
  }

  /** Drops every trailing `/`, as PHP's `basename` does first. */
  function StripTrailingSlashes(s: string): (r: string)
    ensures r <= s
    ensures r == [] || r[|r| - 1] != '/'
    decreases |s|
  {
    if |s| > 0 && s[|s| - 1] == '/' then StripTrailingSlashes(s[..|s| - 1]) else s
  }

  /** The longest suffix of `s` that holds no `/`. */
  function LastComponent(s: string): (r: string)
    ensures '/' !in r
    decreases |s|
  {
    if |s| == 0 || s[|s| - 1] == '/' then "" else LastComponent(s[..|s| - 1]) + [s[|s| - 1]]
  }

  /** PHP's `basename` on a POSIX path (no suffix argument): the last
      component once trailing slashes are removed. */
  function Basename(path: string): (r: string)
    ensures '/' !in r
  {
    LastComponent(StripTrailingSlashes(path))
  }

  lemma {:induction false} LastComponentOfChild(dir: string, name: string)
    requires '/' !in name
    ensures LastComponent(dir + "/" + name) == name
    decreases |name|
  {
    var s := dir + "/" + name;
    if name == [] {
      assert s[|s| - 1] == '/';
    } else {
      var init := name[..|name| - 1];
      assert s[..|s| - 1] == dir + "/" + init;
      assert '/' !in init by {
        forall i | 0 <= i < |init| ensures init[i] != '/' {
          assert init[i] == name[i];
        }
      }
      LastComponentOfChild(dir, init);
      assert s[|s| - 1] == name[|name| - 1];
      assert init + [name[|name| - 1]] == name;
    }
  }

  /** The base name of `dir/name` is `name` when `name` is a single,
      non-empty path component. */
  lemma BasenameOfChild(dir: string, name: string)
    requires name != [] && '/' !in name
    ensures Basename(dir + "/" + name) == name
  {
    var s := dir + "/" + name;
    assert s[|s| - 1] == name[|name| - 1];
    assert StripTrailingSlashes(s) == s;
    LastComponentOfChild(dir, name);
  }

  lemma {:induction false} LastComponentOfName(name: string)
    requires '/' !in name
    ensures LastComponent(name) == name
    decreases |name|
  {
    if name != [] {
      var init := name[..|name| - 1];
      assert '/' !in init by {
        forall i | 0 <= i < |init| ensures init[i] != '/' {
          assert init[i] == name[i];
        }
      }
      LastComponentOfName(init);
      assert init + [name[|name| - 1]] == name;
    }
  }

  /** A single path component is its own base name. */
  lemma BasenameOfName(name: string)
    requires '/' !in name
    ensures Basename(name) == name
  {
    if name != [] {
      assert name[|name| - 1] in name;
    }
    LastComponentOfName(name);
  }
}
