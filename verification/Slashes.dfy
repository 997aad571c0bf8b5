/** Finding slashes in ids and paths. */
module Slashes {

  function IndexOfSlash(s: string): (i: int)
    ensures -1 <= i < |s|
    ensures i >= 0 ==> s[i] == '/' && '/' !in s[..i]
    ensures i < 0 ==> '/' !in s
  {
    if s == "" then -1
    else if s[0] == '/' then 0
    else
      var i := IndexOfSlash(s[1..]);
      assert s == [s[0]] + s[1..];
      if i < 0 then -1 else assert s[..i + 1] == [s[0]] + s[1..][..i]; i + 1
  }

  lemma {:induction false} IndexOfSlashIs(s: string, n: nat)
    requires n < |s| && s[n] == '/' && '/' !in s[..n]
    ensures IndexOfSlash(s) == n
    decreases n
  {
  }

  function LastIndexOfSlash(s: string): (i: int)
    ensures -1 <= i < |s|
    ensures i >= 0 ==> s[i] == '/'
    ensures forall j :: i < j < |s| ==> s[j] != '/'
  {
    if s == "" then -1
    else if s[|s| - 1] == '/' then |s| - 1
    else LastIndexOfSlash(s[..|s| - 1])
  }

  /** The folder of a file. */
  function PathOf(filename: string): (folder: string)
    ensures folder <= filename && (folder == "" || folder[|folder| - 1] == '/') && '/' !in filename[|folder|..]
  {
    filename[..LastIndexOfSlash(filename) + 1]
  }
}
