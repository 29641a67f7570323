/**
 * The path and suffix helpers the core uses: `strings.HasSuffix`, and simplified
 * forms of `filepath.Join` and `filepath.Dir` over "/"-separated paths without
 * the normalisation of `filepath.Clean`.
 */
module Paths {

  /** `strings.HasSuffix`: the last `|suffix|` characters of `s` are those of `suffix`, one by one. */
  predicate HasSuffix(s: string, suffix: string)
    ensures HasSuffix(s, suffix) <==>
      |suffix| <= |s| && forall i :: 0 <= i < |suffix| ==> s[|s| - |suffix| + i] == suffix[i]
  {
    |suffix| <= |s| && s[|s| - |suffix|..] == suffix
  }

  /** `filepath.Join(dir, name)`: empty parts are skipped, one "/" separates the others. */
  function Join(dir: string, name: string): (p: string)
    ensures dir == "" ==> p == name
    ensures name == "" ==> p == dir
    ensures dir != "" && name != "" ==> |p| > |dir| && p[..|dir|] == dir && HasSuffix(p, name)
    ensures dir != "" && name != "" && dir[|dir| - 1] == '/' ==> p == dir + name
    ensures dir != "" && name != "" && dir[|dir| - 1] != '/' ==> p == dir + "/" + name
  {
    if dir == "" then name
    else if name == "" then dir
    else if dir[|dir| - 1] == '/' then dir + name
    else dir + "/" + name
  }

  /** The index of the last "/" in `s`, or -1 when there is none. */
  function LastSlash(s: string): (k: int)
    ensures -1 <= k < |s|
    ensures k >= 0 ==> s[k] == '/'
    ensures forall j :: k < j < |s| ==> s[j] != '/'
  {
    if s == [] then -1
    else if s[|s| - 1] == '/' then |s| - 1
    else LastSlash(s[..|s| - 1])
  }

  /** `filepath.Dir(p)`: everything before the last "/", "/" for a root entry, "." without a "/". */
  function Dir(p: string): (d: string)
    ensures d != ""
    ensures LastSlash(p) < 0 ==> d == "."
    ensures LastSlash(p) == 0 ==> d == "/"
    ensures LastSlash(p) > 0 ==> d == p[..LastSlash(p)] && '/' !in p[LastSlash(p) + 1..]
  {
    var k := LastSlash(p);
    if k < 0 then "." else if k == 0 then "/" else p[..k]
  }

  /** The directory of a joined path is the directory it was joined to. */
  lemma DirOfJoin(dir: string, name: string)
    requires dir != "" && dir[|dir| - 1] != '/'
    requires name != "" && '/' !in name
    ensures Dir(Join(dir, name)) == dir
  {
    var p := Join(dir, name);
    assert p == dir + "/" + name;
    assert p[|dir|] == '/';
    assert forall j :: |dir| < j < |p| ==> p[j] == name[j - |dir| - 1];
  }
}
