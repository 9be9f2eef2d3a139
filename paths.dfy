/** POSIX path base name, as `os.path.basename` computes it: the part of the
    path after its last '/', or the whole path when it holds no '/'. */
module Paths {

  /** `s.rfind(c)`: the position of the last `c` in `s`, or -1 if there is none. */
  function RFind(s: string, c: char): (i: int)
    ensures -1 <= i < |s|
    ensures i >= 0 ==> s[i] == c
    ensures forall j :: i < j < |s| ==> s[j] != c
  {
    if |s| == 0 then -1
    else if s[|s| - 1] == c then |s| - 1
    else RFind(s[..|s| - 1], c)
  }

  /** `path[path.rfind('/') + 1:]` */
  function Basename(path: string): (name: string)
    ensures '/' !in name
    ensures |name| <= |path| && name == path[|path| - |name|..]
    ensures |name| < |path| ==> path[|path| - |name| - 1] == '/'
  {
    path[RFind(path, '/') + 1..]
  }

  /** The three facts above determine the base name: any '/'-free suffix that
      is the whole path or follows a '/' is the base name. */
  lemma BasenameUnique(path: string, name: string)
    requires |name| <= |path| && name == path[|path| - |name|..]
    requires '/' !in name
    requires |name| < |path| ==> path[|path| - |name| - 1] == '/'
    ensures name == Basename(path)
  {
    var k, i := |path| - |name|, RFind(path, '/');
    // no '/' from position k on, and a '/' just before k unless k is 0
    assert forall j :: k <= j < |path| ==> path[j] == name[j - k];
    assert i < k;
    assert k - 1 <= i;
  }

  /** A file downloaded into a directory has the base name of its own name:
      the base name of `dir/file` is that of `file`, which is `file` itself
      when it holds no '/'. */
  lemma BasenameOfJoin(dir: string, file: string)
    ensures Basename(dir + "/" + file) == Basename(file)
    ensures '/' !in file ==> Basename(dir + "/" + file) == file
  {
    var path, name := dir + "/" + file, Basename(file);
    assert path[|path| - |file|..] == file;
    assert path[|path| - |name|..] == name;
    if |name| == |file| {
      assert path[|path| - |name| - 1] == '/';
    } else {
      assert path[|path| - |name| - 1] == file[|file| - |name| - 1];
    }
    BasenameUnique(path, name);
    if '/' !in file {
      BasenameUnique(file, file);
    }
  }
}
