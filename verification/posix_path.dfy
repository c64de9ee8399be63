/** The two `os.path` operations the scripts use, for POSIX paths. */
module PosixPath {
  import opened Text

  /** `os.path.join(base, name)`: an absolute `name` replaces `base`;
      otherwise a '/' is inserted unless `base` is empty or already ends
      with one. */
  function Join(base: string, name: string): (r: string)
    ensures StartsWith(name, "/") ==> r == name
    ensures !StartsWith(name, "/") ==> StartsWith(r, base) && EndsWith(r, name)
    ensures !StartsWith(name, "/") ==> |r| == |base| + |name| || |r| == |base| + 1 + |name|
    ensures !StartsWith(name, "/") ==> (|r| == |base| + 1 + |name| <==> base != "" && !EndsWith(base, "/"))
    ensures |r| == |base| + 1 + |name| ==> r[|base|] == '/'
  {
    if StartsWith(name, "/") then name
    else if |base| == 0 || base[|base| - 1] == '/' then base + name
    else base + "/" + name
  }

  /** `os.path.expanduser(path)`. `home` is `$HOME` (the current user's home)
      and `homes` maps other user names to their home directories (the
      password database). A `~name` with no entry is left unchanged. */
  function ExpandUser(path: string, home: string, homes: map<string, string>): (r: string)
    ensures !StartsWith(path, "~") ==> r == path
    ensures path == "~" ==> r == if RightStripSlashes(home) == "" then "/" else RightStripSlashes(home)
    ensures StartsWith(path, "~/") ==> r == RightStripSlashes(home) + path[1..]
    ensures StartsWith(path, "~") && '/' !in path && |path| > 1 ==>
      r == if path[1..] in homes then (if RightStripSlashes(homes[path[1..]]) == "" then "/" else RightStripSlashes(homes[path[1..]])) else path
    ensures forall i :: 1 < i < |path| && StartsWith(path, "~") && path[i] == '/' && '/' !in path[1..i] ==>
      r == if path[1..i] in homes then RightStripSlashes(homes[path[1..i]]) + path[i..] else path
  {
    if !StartsWith(path, "~") then path
    else
      var i := match Find(path, "/", 1) case Some(k) => k case None => |path|;
      assert i < |path| ==> path[i..i + 1][0] == path[i] && path[i] in path;
      assert i == |path| ==> path[1..i] == path[1..];
      forall j | 1 < j < |path| && path[j] == '/' && '/' !in path[1..j] ensures j == i {
        assert path[j..j + 1] == "/" && OccursAt(path, "/", j);
      }
      var name := path[1..i];
      if i != 1 && name !in homes then path
      else
        var userHome := if i == 1 then home else homes[name];
        var expanded := RightStripSlashes(userHome) + path[i..];
        if expanded == "" then "/" else expanded
  }

  /** `s.rstrip('/')`. */
  function RightStripSlashes(s: string): (r: string)
    ensures StartsWith(s, r)
    ensures |r| == 0 || r[|r| - 1] != '/'
    ensures forall k :: |r| <= k < |s| ==> s[k] == '/'
  {
    if |s| == 0 || s[|s| - 1] != '/' then s else RightStripSlashes(s[..|s| - 1])
  }
}
