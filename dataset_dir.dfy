/**
 * `_get_dataset_dir` of `alleninf/datasets.py`: where a dataset lives. The
 * environment variable and the home directory are parameters; creating the
 * directory is not modelled.
 */
module DatasetDir {
  import opened Wrappers

  /** `os.path.join(a, b)` on POSIX: an absolute `b` replaces `a`; otherwise one `/` separates them. */
  function PathJoin(a: string, b: string): (r: string)
    ensures |b| > 0 && b[0] == '/' ==> r == b
    ensures !(|b| > 0 && b[0] == '/') ==> |r| >= |a| + |b| && r[..|a|] == a && r[|r| - |b|..] == b
  {
    if |b| > 0 && b[0] == '/' then b
    else if a == [] || a[|a| - 1] == '/' then a + b
    else a + "/" + b
  }

  /** `s.rstrip('/')`. */
  function StripSlashes(s: string): (r: string)
    ensures |r| <= |s| && r == s[..|r|] && (|r| > 0 ==> r[|r| - 1] != '/')
    ensures forall i :: |r| <= i < |s| ==> s[i] == '/'
  {
    if s == [] || s[|s| - 1] != '/' then s
    else
      var r := StripSlashes(s[..|s| - 1]);
      assert s[..|s| - 1][..|r|] == s[..|r|];
      r
  }

  const DefaultDir: string := "~/alleninf_data"

  /**
   * `os.path.expanduser("~/alleninf_data")` with `$HOME` (or the password
   * database entry) given as `home`: trailing slashes of the home directory
   * are dropped before the rest of the path is appended.
   */
  function ExpandUser(home: string): (r: string)
    ensures r == StripSlashes(home) + "/alleninf_data"
  {
    var i := 1;  // `path.find('/', 1)` for "~/alleninf_data"
    assert DefaultDir[i] == '/';
    StripSlashes(home) + DefaultDir[i..]
  }

  /** A Python string argument that may be `None`; `""` and `None` are both falsy. */
  predicate Truthy(s: Option<string>)
  {
    s.Some? && s.value != ""
  }

  /** The base directory, by priority: `data_dir` if truthy, else `ALLENINF_DATA` if set, else `~/alleninf_data`. */
  function BaseDir(dataDir: Option<string>, env: Option<string>, home: string): string
  {
    if Truthy(dataDir) then dataDir.value
    else if env.Some? then env.value
    else ExpandUser(home)
  }

  /** `_get_dataset_dir(name, data_dir, folder)` with `ALLENINF_DATA` as `env` and the home directory as `home`. */
  function GetDatasetDir(name: string, dataDir: Option<string>, folder: Option<string>,
                         env: Option<string>, home: string): (r: string)
    ensures folder.None? ==> r == PathJoin(BaseDir(dataDir, env, home), name)
    ensures folder.Some? ==> r == PathJoin(PathJoin(BaseDir(dataDir, env, home), name), folder.value)
  {
    var dir := PathJoin(BaseDir(dataDir, env, home), name);
    if folder.Some? then PathJoin(dir, folder.value) else dir
  }

  /** A relative path joined below a directory can be split off again. */
  lemma PathJoinSplits(a: string, b: string)
    requires |a| > 0 && a[|a| - 1] != '/' && !(|b| > 0 && b[0] == '/')
    ensures var r := PathJoin(a, b);
            |r| == |a| + 1 + |b| && r[..|a|] == a && r[|a|] == '/' && r[|a| + 1..] == b
  {
  }

  /** An explicit, non-empty `data_dir` decides alone: the environment and the home directory are not consulted. */
  lemma DataDirWins(name: string, d: string, folder: Option<string>,
                    env1: Option<string>, home1: string, env2: Option<string>, home2: string)
    requires d != ""
    ensures GetDatasetDir(name, Some(d), folder, env1, home1) == GetDatasetDir(name, Some(d), folder, env2, home2)
    ensures GetDatasetDir(name, Some(d), folder, env1, home1) == GetDatasetDir(name, Some(d), folder, None, "")
  {
  }

  /** Without a usable `data_dir`, a set `ALLENINF_DATA` wins over the home directory, even when it is empty. */
  lemma EnvironmentWins(name: string, dataDir: Option<string>, folder: Option<string>, e: string, home1: string, home2: string)
    requires !Truthy(dataDir)
    ensures GetDatasetDir(name, dataDir, folder, Some(e), home1) == GetDatasetDir(name, dataDir, folder, Some(e), home2)
  {
  }

  /** A non-empty `ALLENINF_DATA` acts exactly as the same `data_dir` would. */
  lemma EnvironmentActsAsDataDir(name: string, dataDir: Option<string>, folder: Option<string>, e: string, home: string)
    requires !Truthy(dataDir) && e != ""
    ensures GetDatasetDir(name, dataDir, folder, Some(e), home) == GetDatasetDir(name, Some(e), folder, None, home)
  {
  }

  /** `ALLENINF_DATA` set to the empty string is still used, and leaves the dataset directory relative. */
  lemma EmptyEnvironmentIsRelative(name: string, home: string)
    ensures GetDatasetDir(name, None, None, Some(""), home) == name
  {
  }

  /** With nothing configured, a relative dataset name lands in `alleninf_data` under the home directory. */
  lemma HomeDefault(name: string, home: string)
    requires |name| > 0 && name[0] != '/'
    ensures GetDatasetDir(name, None, None, None, home) == StripSlashes(home) + "/alleninf_data/" + name
  {
  }

  /** A dataset directory with a folder is the folder joined below the directory without one. */
  lemma FolderBelowDataset(name: string, dataDir: Option<string>, f: string, env: Option<string>, home: string)
    requires |f| > 0 && f[0] != '/'
    ensures var dir := GetDatasetDir(name, dataDir, None, env, home);
            var sub := GetDatasetDir(name, dataDir, Some(f), env, home);
            sub[..|dir|] == dir && sub[|sub| - |f|..] == f
  {
  }

  /** `folder=""` is not `None`: it is joined, and leaves a trailing slash. */
  lemma EmptyFolderAddsSlash(name: string, d: string)
    requires d != "" && |name| > 0 && name[0] != '/' && name[|name| - 1] != '/'
    ensures GetDatasetDir(name, Some(d), Some(""), None, "") == GetDatasetDir(name, Some(d), None, None, "") + "/"
  {
  }

  /** An absolute dataset name replaces the base directory altogether. */
  lemma AbsoluteNameIgnoresBase(name: string, dataDir: Option<string>, env: Option<string>, home: string)
    requires |name| > 0 && name[0] == '/'
    ensures GetDatasetDir(name, dataDir, None, env, home) == name
  {
  }
}
