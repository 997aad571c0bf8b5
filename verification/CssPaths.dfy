/** The path algebra of the CSS plugin: joining, relative paths, and why rewritten URLs keep their target. */
module CssPaths {

  import opened Slashes

  const UP := "../"
  const HERE := "./"
  const ROOT := "/"

  // ---- pieces ----

  /** A path cut behind each slash. */
  function Pieces(path: string): (ps: seq<string>)
    ensures path != "" ==> ps != []
  {
    if path == "" then []
    else
      var i := IndexOfSlash(path);
      if i < 0 then [path] else [path[..i + 1]] + Pieces(path[i + 1..])
  }

  function Join(ps: seq<string>): string {
    if ps == [] then "" else ps[0] + Join(ps[1..])
  }

  predicate IsFolder(piece: string) {
    piece != "" && piece[|piece| - 1] == '/' && '/' !in piece[..|piece| - 1]
  }

  predicate IsFile(piece: string) {
    piece != "" && '/' !in piece
  }

  /** What cutting a path produces: folders, then possibly a file. */
  predicate IsCut(ps: seq<string>) {
    ps == [] || (if |ps| == 1 then IsFolder(ps[0]) || IsFile(ps[0]) else IsFolder(ps[0]) && IsCut(ps[1..]))
  }

  lemma PiecesStep(head: string, rest: string)
    requires IsFolder(head)
    ensures Pieces(head + rest) == [head] + Pieces(rest)
  {
    hide IndexOfSlash;
    var path, n := head + rest, |head| - 1;
    assert path[..n] == head[..n];
    IndexOfSlashIs(path, n);
    assert path[..n + 1] == head && path[n + 1..] == rest;
  }

  lemma FirstPiece(path: string)
    requires IndexOfSlash(path) >= 0
    ensures
      var n := IndexOfSlash(path) + 1;
      IsFolder(path[..n]) && path == path[..n] + path[n..] && Pieces(path) == [path[..n]] + Pieces(path[n..])
  {
    hide IndexOfSlash;
    var n := IndexOfSlash(path) + 1;
    assert path[..n][..n - 1] == path[..n - 1];
  }

  lemma IsCutCons(head: string, ps: seq<string>)
    requires IsFolder(head) && IsCut(ps)
    ensures IsCut([head] + ps) && Join([head] + ps) == head + Join(ps)
  {
  }

  lemma {:induction false} PiecesAreCut(path: string)
    ensures IsCut(Pieces(path)) && Join(Pieces(path)) == path
    decreases |path|
  {
    hide IsCut, Join, IsFolder;
    if path == "" {
      CutEnds("");
    } else if IndexOfSlash(path) < 0 {
      CutEnds(path);
    } else {
      var n := IndexOfSlash(path) + 1;
      FirstPiece(path);
      PiecesAreCut(path[n..]);
      IsCutCons(path[..n], Pieces(path[n..]));
    }
  }

  lemma CutEnds(file: string)
    requires '/' !in file
    ensures IsCut([]) && Join([]) == "" && (file != "" ==> IsCut([file]) && Join([file]) == file)
  {
  }

  lemma {:induction false} PiecesOfJoin(ps: seq<string>)
    requires IsCut(ps)
    ensures Pieces(Join(ps)) == ps
    decreases |ps|
  {
    if ps == [] {
    } else if |ps| == 1 {
      assert ps[1..] == [] && ps == [ps[0]];
      if IsFolder(ps[0]) { PiecesStep(ps[0], ""); }
      assert ps[0] + "" == ps[0];
    } else {
      PiecesOfJoin(ps[1..]);
      PiecesStep(ps[0], Join(ps[1..]));
      assert ps == [ps[0]] + ps[1..];
    }
  }

  predicate AllFolders(ps: seq<string>) {
    forall i :: 0 <= i < |ps| ==> IsFolder(ps[i])
  }

  lemma {:induction false} PiecesAppend(ps: seq<string>, rest: string)
    requires AllFolders(ps)
    ensures Pieces(Join(ps) + rest) == ps + Pieces(rest)
    decreases |ps|
  {
    hide IndexOfSlash, Pieces, IsFolder;
    if ps == [] {
      assert "" + rest == rest;
    } else {
      PiecesAppend(ps[1..], rest);
      assert Join(ps) + rest == ps[0] + (Join(ps[1..]) + rest);
      PiecesStep(ps[0], Join(ps[1..]) + rest);
      assert ps + Pieces(rest) == [ps[0]] + (ps[1..] + Pieces(rest));
    }
  }

  lemma NoPieces()
    ensures Pieces("") == []
  {
  }

  /** A path that is empty or ends with a slash consists of folders. */
  lemma {:induction false} FolderPath(path: string)
    requires path == "" || path[|path| - 1] == '/'
    ensures AllFolders(Pieces(path))
    decreases |path|
  {
    hide IndexOfSlash, Pieces, IsFolder;
    NoPieces();
    if path != "" {
      assert path[|path| - 1] in path;
      var n := IndexOfSlash(path) + 1;
      FirstPiece(path);
      if n < |path| { assert path[n..][|path| - n - 1] == path[|path| - 1]; }
      FolderPath(path[n..]);
    }
  }

  // ---- pathOf ----

  // ---- joinPaths ----

  function PushPiece(pieces: seq<string>, piece: string): seq<string> {
    if piece == HERE then pieces
    else if piece == UP && pieces != [] && pieces[|pieces| - 1] == ROOT then pieces
    else if piece == UP && pieces != [] && pieces[|pieces| - 1] != UP then pieces[..|pieces| - 1]
    else pieces + [piece]
  }

  function PushAll(pieces: seq<string>, more: seq<string>): seq<string>
    decreases |more|
  {
    if more == [] then pieces else PushAll(PushPiece(pieces, more[0]), more[1..])
  }

  /** Where the path starts in a URL that begins with the given prefix; 0 if it does not. */
  function PathStart(haystack: string, prefix: string): (i: nat)
    ensures i <= |haystack|
  {
    if prefix <= haystack then
      var i := IndexOfSlash(haystack[|prefix|..]);
      if i < 0 then |prefix| else |prefix| + i
    else 0
  }

  function PathStartOf(a: string): (i: nat)
    ensures i <= |a|
  {
    if PathStart(a, "//") != 0 then PathStart(a, "//")
    else if PathStart(a, "http://") != 0 then PathStart(a, "http://")
    else PathStart(a, "https://")
  }

  function JoinPaths(a: string, b: string): string {
    var start := PathStartOf(a);
    var base := if b != "" && b[0] == '/' then [] else PushAll([], Pieces(a[start..]));
    a[..start] + Join(PushAll(base, Pieces(b)))
  }

  /** The loop that cuts pieces off the front of a path and pushes them. */
  method Push(pieces: seq<string>, path: string) returns (result: seq<string>)
    ensures result == PushAll(pieces, Pieces(path))
  {
    result := pieces;
    var rest := path;
    while |rest| > 0
      invariant PushAll(result, Pieces(rest)) == PushAll(pieces, Pieces(path))
      decreases |rest|
    {
      var slashIndex := IndexOfSlash(rest);
      var piece := if slashIndex >= 0 then rest[..slashIndex + 1] else rest;
      var next := if slashIndex >= 0 then rest[slashIndex + 1..] else "";
      assert Pieces(rest) == [piece] + Pieces(next);
      assert Pieces(rest)[1..] == Pieces(next);
      rest := next;
      if piece == HERE {
      } else if piece == UP && |result| > 0 && result[|result| - 1] == ROOT {
      } else if piece == UP && |result| > 0 && result[|result| - 1] != UP {
        result := result[..|result| - 1];
      } else {
        result := result + [piece];
      }
    }
  }

  method ComputeJoinPaths(a: string, b: string) returns (r: string)
    ensures r == JoinPaths(a, b)
  {
    var start := PathStart(a, "//");
    if start == 0 { start := PathStart(a, "http://"); }
    if start == 0 { start := PathStart(a, "https://"); }
    var pieces := Push([], a[start..]);
    if |b| > 0 && b[0] == '/' {
      pieces := [];
    }
    pieces := Push(pieces, b);
    r := a[..start] + Join(pieces);
  }

  // ---- relativePath ----

  /** The longest common prefix of two strings. */
  method CommonPrefix(s: string, t: string) returns (prefix: string)
    ensures prefix <= s && prefix <= t
    ensures |prefix| < |s| && |prefix| < |t| ==> s[|prefix|] != t[|prefix|]
    ensures prefix == CommonPrefixOf(s, t)
  {
    var len := if |s| <= |t| then |s| else |t|;
    for i := 0 to len
      invariant s[..i] == t[..i]
    {
      if s[i] != t[i] {
        CommonPrefixUnique(s, t, i);
        return s[..i];
      }
      assert s[..i + 1] == s[..i] + [s[i]] && t[..i + 1] == t[..i] + [t[i]];
    }
    CommonPrefixUnique(s, t, len);
    return s[..len];
  }

  function CommonPrefixOf(s: string, t: string): (p: string)
    ensures p <= s && p <= t
  {
    if s == "" || t == "" || s[0] != t[0] then "" else [s[0]] + CommonPrefixOf(s[1..], t[1..])
  }

  lemma {:induction false} CommonPrefixUnique(s: string, t: string, n: nat)
    requires n <= |s| && n <= |t| && s[..n] == t[..n]
    requires n == |s| || n == |t| || s[n] != t[n]
    ensures CommonPrefixOf(s, t) == s[..n]
    decreases n
  {
    if n > 0 {
      assert s[0] == s[..n][0] && t[0] == t[..n][0];
      assert s[1..][..n - 1] == s[..n][1..] && t[1..][..n - 1] == t[..n][1..];
      CommonPrefixUnique(s[1..], t[1..], n - 1);
      assert s[..n] == [s[0]] + s[1..][..n - 1];
    }
  }

  function CommonFolderPrefix(fromPath: string, toPath: string): string {
    PathOf(CommonPrefixOf(fromPath, toPath))
  }

  function CountSlashes(s: string): nat {
    if s == "" then 0 else (if s[0] == '/' then 1 else 0) + CountSlashes(s[1..])
  }

  function Ups(n: nat): (r: seq<string>)
    ensures |r| == n && forall i :: 0 <= i < n ==> r[i] == UP
  {
    seq(n, i => UP)
  }

  predicate IsAbsolute(path: string) {
    ROOT <= path || "http://" <= path || "https://" <= path
  }

  function RelativePath(fromPath: string, toPath: string): string {
    if IsAbsolute(toPath) then toPath
    else
      var n := |CommonFolderPrefix(fromPath, toPath)|;
      Join(Ups(CountSlashes(fromPath[n..]))) + toPath[n..]
  }

  method ComputeRelativePath(fromPath: string, toPath: string) returns (r: string)
    ensures r == RelativePath(fromPath, toPath)
  {
    hide CommonPrefixOf, CountSlashes, Join, Ups, LastIndexOfSlash, IsAbsolute;
    if IsAbsolute(toPath) {
      return toPath;
    }
    var common := CommonPrefix(fromPath, toPath);
    var prefix := PathOf(common);
    var from := fromPath[|prefix|..];
    var upCount := CountSlashes(from) + 1;  // the number of parts between slashes
    var result := "";
    NoUps();
    for i := 1 to upCount
      invariant result == Join(Ups(i - 1))
    {
      UpsStep(i - 1);
      result := result + UP;
    }
    r := result + toPath[|prefix|..];
  }

  lemma {:induction false} JoinAppend(ps: seq<string>, p: string)
    ensures Join(ps + [p]) == Join(ps) + p
    decreases |ps|
  {
    if ps == [] {
      assert [p][1..] == [];
      assert p + "" == p;
    } else {
      assert (ps + [p])[1..] == ps[1..] + [p];
      JoinAppend(ps[1..], p);
    }
  }

  lemma NoUps()
    ensures Join(Ups(0)) == ""
  {
  }

  lemma UpsStep(n: nat)
    ensures Join(Ups(n + 1)) == Join(Ups(n)) + UP
  {
    assert Ups(n + 1) == Ups(n) + [UP];
    JoinAppend(Ups(n), UP);
  }

  // ---- normal forms ----

  /** Neither empty, `./` nor `../`. */
  predicate IsName(piece: string) {
    piece != UP && piece != HERE && piece != ROOT
  }

  ghost predicate Names(ps: seq<string>) {
    forall i :: 0 <= i < |ps| ==> IsName(ps[i])
  }

  ghost predicate NoEmpty(ps: seq<string>) {
    forall i :: 0 <= i < |ps| ==> ps[i] != ROOT
  }

  /** Nothing that steps anywhere: neither `./` nor `../`. */
  ghost predicate Plain(ps: seq<string>) {
    forall i :: 0 <= i < |ps| ==> ps[i] != UP && ps[i] != HERE
  }

  /** Some `../` first, then nothing that steps anywhere. */
  ghost predicate Normal(ps: seq<string>) {
    ps == [] || (ps[0] == UP && Normal(ps[1..])) || Plain(ps)
  }

  lemma {:induction false} PushPlain(pieces: seq<string>, more: seq<string>)
    requires Plain(more)
    ensures PushAll(pieces, more) == pieces + more
    decreases |more|
  {
    if more == [] {
      assert pieces + more == pieces;
    } else {
      PushPlain(pieces + [more[0]], more[1..]);
      assert pieces + [more[0]] + more[1..] == pieces + more;
    }
  }

  lemma {:induction false} PushSplit(pieces: seq<string>, a: seq<string>, b: seq<string>)
    ensures PushAll(pieces, a + b) == PushAll(PushAll(pieces, a), b)
    decreases |a|
  {
    if a == [] {
      assert a + b == b;
    } else {
      assert (a + b)[1..] == a[1..] + b;
      PushSplit(PushPiece(pieces, a[0]), a[1..], b);
    }
  }

  lemma {:induction false} PushUps(pieces: seq<string>, n: nat)
    requires Names(pieces) && n <= |pieces|
    ensures PushAll(pieces, Ups(n)) == pieces[..|pieces| - n]
    decreases n
  {
    if n == 0 {
      assert pieces[..|pieces|] == pieces;
    } else {
      var rest := pieces[..|pieces| - 1];
      assert Ups(n)[1..] == Ups(n - 1);
      PushUps(rest, n - 1);
      assert rest[..|rest| - (n - 1)] == pieces[..|pieces| - n];
    }
  }

  /** Pushing a normal form onto leading `../` pieces adds it as it is. */
  lemma {:induction false} PushNormal(ups: nat, ps: seq<string>)
    requires Normal(ps)
    ensures PushAll(Ups(ups), ps) == Ups(ups) + ps
    decreases |ps|
  {
    if Plain(ps) {
      PushPlain(Ups(ups), ps);
    } else {
      assert Ups(ups) + [UP] == Ups(ups + 1);
      assert PushPiece(Ups(ups), UP) == Ups(ups + 1);
      PushNormal(ups + 1, ps[1..]);
      assert Ups(ups + 1) + ps[1..] == Ups(ups) + ps;
    }
  }

  /** Pushing onto a normal form of folders gives a normal form. */
  lemma {:induction false} PushKeepsNormal(pieces: seq<string>, more: seq<string>)
    requires Normal(pieces) && AllFolders(pieces) && IsCut(more)
    ensures Normal(PushAll(pieces, more)) && IsCut(PushAll(pieces, more))
    decreases |more|
  {
    hide Normal;
    if more == [] {
      FoldersAreCut(pieces);
    } else {
      var next := PushPiece(pieces, more[0]);
      NormalStep(pieces, more[0]);
      if |more| == 1 {
        assert more[1..] == [];
        PushedIsCut(pieces, more[0]);
      } else {
        FolderStep(pieces, more[0]);
        PushKeepsNormal(next, more[1..]);
      }
    }
  }

  /** A normal form is a run of `../` followed by a plain rest, and conversely. */
  lemma {:induction false} NormalShape(ps: seq<string>) returns (n: nat)
    requires Normal(ps)
    ensures n <= |ps| && ps[..n] == Ups(n) && Plain(ps[n..])
    decreases |ps|
  {
    if Plain(ps) {
      n := 0;
    } else {
      var k := NormalShape(ps[1..]);
      n := k + 1;
      assert ps[..n] == [UP] + ps[1..][..k] && Ups(n) == [UP] + Ups(k);
      assert ps[n..] == ps[1..][k..];
    }
  }

  lemma {:induction false} ShapeIsNormal(n: nat, rest: seq<string>)
    requires Plain(rest)
    ensures Normal(Ups(n) + rest)
    decreases n
  {
    if n == 0 {
      assert Ups(0) + rest == rest;
    } else {
      ShapeIsNormal(n - 1, rest);
      assert (Ups(n) + rest)[1..] == Ups(n - 1) + rest;
    }
  }

  lemma NormalStep(pieces: seq<string>, piece: string)
    requires Normal(pieces)
    ensures Normal(PushPiece(pieces, piece))
  {
    hide Normal;
    var n := NormalShape(pieces);
    var rest := pieces[n..];
    assert pieces == Ups(n) + rest;
    if piece == UP && rest == [] {
      assert PushPiece(pieces, UP) == Ups(n + 1) + [];
      ShapeIsNormal(n + 1, []);
    } else if piece == UP {
      assert pieces[|pieces| - 1] == rest[|rest| - 1];
      assert pieces[..|pieces| - 1] == Ups(n) + rest[..|rest| - 1];
      ShapeIsNormal(n, rest[..|rest| - 1]);
    } else if piece != HERE {
      assert pieces + [piece] == Ups(n) + (rest + [piece]);
      ShapeIsNormal(n, rest + [piece]);
    }
  }

  lemma FolderStep(pieces: seq<string>, piece: string)
    ensures AllFolders(pieces) && IsFolder(piece) ==> AllFolders(PushPiece(pieces, piece))
  {
  }

  lemma {:induction false} FoldersAreCut(ps: seq<string>)
    requires AllFolders(ps)
    ensures IsCut(ps)
    decreases |ps|
  {
    if ps != [] { FoldersAreCut(ps[1..]); }
  }

  lemma {:induction false} FoldersThenPiece(ps: seq<string>, piece: string)
    requires AllFolders(ps) && (IsFolder(piece) || IsFile(piece))
    ensures IsCut(ps + [piece])
    decreases |ps|
  {
    if ps == [] {
      assert ps + [piece] == [piece];
    } else {
      assert (ps + [piece])[1..] == ps[1..] + [piece];
      FoldersThenPiece(ps[1..], piece);
    }
  }

  lemma PushedIsCut(pieces: seq<string>, piece: string)
    requires AllFolders(pieces) && (IsFolder(piece) || IsFile(piece))
    ensures IsCut(PushPiece(pieces, piece))
  {
    FoldersAreCut(pieces);
    if pieces != [] { FoldersAreCut(pieces[..|pieces| - 1]); }
    FoldersThenPiece(pieces, piece);
  }

  // ---- joining from a folder ----

  lemma NotRooted(p: string)
    requires NoEmpty(Pieces(p))
    ensures p == "" || p[0] != '/'
  {
    if p != "" && p[0] == '/' { RootedStartsEmpty(p); }
  }

  lemma RootedStartsEmpty(p: string)
    requires p != "" && p[0] == '/'
    ensures Pieces(p) != [] && Pieces(p)[0] == ROOT
  {
  }

  lemma NotUrl(p: string)
    requires NoEmpty(Pieces(p))
    ensures !("http://" <= p) && !("https://" <= p)
  {
    hide Pieces, NoEmpty;
    if "http://" <= p {
      assert "http://" == "http:/" + "/";
      HasEmptyPiece("http:/", p);
    }
    if "https://" <= p {
      assert "https://" == "https:/" + "/";
      HasEmptyPiece("https:/", p);
    }
  }

  /** Without empty pieces a path is neither rooted nor a URL. */
  lemma NotAbsolute(p: string)
    requires NoEmpty(Pieces(p))
    ensures !IsAbsolute(p) && PathStartOf(p) == 0 && (p == "" || p[0] != '/')
  {
    hide Pieces, NoEmpty;
    assert "//" <= p ==> p != "" && p[0] == "//"[0];
    NotRooted(p);
    NotUrl(p);
  }

  lemma HasEmptyPiece(scheme: string, p: string)
    requires IsFolder(scheme) && scheme + "/" <= p
    ensures !NoEmpty(Pieces(p))
  {
    var rest := p[|scheme| + 1..];
    assert p == scheme + (ROOT + rest);
    PiecesStep(scheme, ROOT + rest);
    PiecesStep(ROOT, rest);
    assert Pieces(p)[1] == ROOT;
  }

  /** Cutting at a folder boundary cuts the pieces. */
  lemma SplitAtFolder(path: string, t: string)
    requires t <= path && (t == "" || t[|t| - 1] == '/')
    ensures AllFolders(Pieces(t)) && Pieces(path) == Pieces(t) + Pieces(path[|t|..])
  {
    FolderPath(t);
    PiecesAreCut(t);
    PiecesAppend(Pieces(t), path[|t|..]);
    assert path == t + path[|t|..];
  }

  lemma {:induction false} CountSlashesAppend(a: string, b: string)
    ensures CountSlashes(a + b) == CountSlashes(a) + CountSlashes(b)
    decreases |a|
  {
    if a == "" {
      assert a + b == b;
    } else {
      assert (a + b)[1..] == a[1..] + b;
      CountSlashesAppend(a[1..], b);
    }
  }

  lemma {:induction false} NoSlashes(a: string)
    requires '/' !in a
    ensures CountSlashes(a) == 0
    decreases |a|
  {
    if a != "" { NoSlashes(a[1..]); }
  }

  lemma {:induction false} SlashesOfFolders(ps: seq<string>)
    requires AllFolders(ps)
    ensures CountSlashes(Join(ps)) == |ps|
    decreases |ps|
  {
    if ps != [] {
      var p := ps[0];
      CountSlashesAppend(p, Join(ps[1..]));
      CountSlashesAppend(p[..|p| - 1], "/");
      assert p == p[..|p| - 1] + "/";
      NoSlashes(p[..|p| - 1]);
      SlashesOfFolders(ps[1..]);
    }
  }

  lemma FolderContains(f: string, t: string)
    requires t <= f && (t == "" || t[|t| - 1] == '/')
    ensures t <= PathOf(f)
  {
  }

  lemma SlashesBelow(below: string, file: string)
    requires (below == "" || below[|below| - 1] == '/') && '/' !in file
    ensures CountSlashes(below + file) == |Pieces(below)|
  {
    hide Pieces, Join;
    FolderPath(below);
    PiecesAreCut(below);
    SlashesOfFolders(Pieces(below));
    CountSlashesAppend(below, file);
    NoSlashes(file);
  }

  /** The folders of f below a common folder t are what the relative path climbs. */
  lemma FoldersBelow(f: string, t: string)
    requires t <= f && (t == "" || t[|t| - 1] == '/')
    ensures t <= PathOf(f)
    ensures Pieces(PathOf(f)) == Pieces(t) + Pieces(PathOf(f)[|t|..])
    ensures CountSlashes(f[|t|..]) == |Pieces(PathOf(f)[|t|..])|
  {
    hide Pieces, CountSlashes, LastIndexOfSlash;
    var a := PathOf(f);
    FolderContains(f, t);
    SplitAtFolder(a, t);
    var below := a[|t|..];
    assert f[|t|..] == below + f[|a|..];
    SlashesBelow(below, f[|a|..]);
  }

  lemma JoinFrom(a: string, b: string)
    requires PathStartOf(a) == 0
    ensures JoinPaths(a, b) == Join(PushAll(if "/" <= b then [] else PushAll([], Pieces(a)), Pieces(b)))
  {
    hide PathStartOf, Pieces, PushAll, Join;
    assert a[0..] == a;
    assert "/" <= b <==> b != "" && b[0] == '/';
    var joined := Join(PushAll(if "/" <= b then [] else PushAll([], Pieces(a)), Pieces(b)));
    assert "" + joined == joined;
  }

  /** Joining from a folder without a protocol yields a normal form, whatever is joined. */
  lemma JoinPathsIsNormal(a: string, b: string)
    requires (a == "" || a[|a| - 1] == '/') && PathStartOf(a) == 0
    ensures Normal(Pieces(JoinPaths(a, b)))
  {
    hide JoinPaths, PushAll, PathStartOf;
    JoinFrom(a, b);
    FolderPath(a);
    FoldersAreCut(Pieces(a));
    FoldersStayFolders([], Pieces(a));
    PiecesAreCut(b);
    PushKeepsNormal([], Pieces(a));
    var base := if "/" <= b then [] else PushAll([], Pieces(a));
    assert Normal([]);
    PushKeepsNormal(base, Pieces(b));
    PiecesOfJoin(PushAll(base, Pieces(b)));
  }

  lemma {:induction false} FoldersStayFolders(pieces: seq<string>, more: seq<string>)
    requires AllFolders(pieces) && AllFolders(more)
    ensures AllFolders(PushAll(pieces, more))
    decreases |more|
  {
    if more != [] { FoldersStayFolders(PushPiece(pieces, more[0]), more[1..]); }
  }

  // ---- the laws of joining: any join reduces by these to a path that stays ----

  predicate IsFolderPath(x: string) {
    x == "" || x[|x| - 1] == '/'
  }

  /** Pieces that leave the stack as it is can be left out. */
  lemma LeaveOut(base: seq<string>, p: seq<string>, x: seq<string>, q: seq<string>)
    requires PushAll(PushAll(base, p), x) == PushAll(base, p)
    ensures PushAll(base, p + x + q) == PushAll(base, p + q)
  {
    PushSplit(base, p + x, q);
    PushSplit(base, p, x);
    PushSplit(base, p, q);
  }

  /** Leaving out a folder path y between x and z, if its pieces leave the stack as it is. */
  lemma LeaveOutText(a: string, x: string, y: string, z: string)
    requires IsFolderPath(x) && IsFolderPath(y) && ("/" <= x + y + z <==> "/" <= x + z)
    requires
      var base := if "/" <= x + z then [] else PushAll([], Pieces(a[PathStartOf(a)..]));
      PushAll(PushAll(base, Pieces(x)), Pieces(y)) == PushAll(base, Pieces(x))
    ensures JoinPaths(a, x + y + z) == JoinPaths(a, x + z)
  {
    hide Pieces, PushAll, Join, PathStartOf;
    TextPieces(x, y, z);
    var base := if "/" <= x + z then [] else PushAll([], Pieces(a[PathStartOf(a)..]));
    assert forall b: string :: "/" <= b <==> b != "" && b[0] == '/';
    LeaveOut(base, Pieces(x), Pieces(y), Pieces(z));
  }

  lemma FolderThen(x: string, z: string)
    requires IsFolderPath(x)
    ensures Pieces(x + z) == Pieces(x) + Pieces(z)
  {
    hide Pieces, AllFolders;
    assert (x + z)[|x|..] == z;
    SplitAtFolder(x + z, x);
  }

  lemma TextPieces(x: string, y: string, z: string)
    requires IsFolderPath(x) && IsFolderPath(y)
    ensures Pieces(x + y + z) == Pieces(x) + Pieces(y) + Pieces(z) && Pieces(x + z) == Pieces(x) + Pieces(z)
  {
    hide Pieces, IsFolderPath;
    FolderThen(x, z);
    FolderThen(y, z);
    FolderThen(x, y + z);
    assert x + y + z == x + (y + z);
    assert Pieces(x) + (Pieces(y) + Pieces(z)) == Pieces(x) + Pieces(y) + Pieces(z);
  }

  lemma FolderPiece(name: string)
    requires '/' !in name
    ensures Pieces(name + "/") == [name + "/"]
  {
    hide Pieces;
    assert (name + "/")[..|name|] == name;
    PiecesStep(name + "/", "");
    assert name + "/" + "" == name + "/";
    NoPieces();
  }

  /** A `./` says nothing. */
  lemma HereLaw(a: string, x: string, z: string)
    requires IsFolderPath(x) && (x != "" || !("/" <= z))
    ensures JoinPaths(a, x + "./" + z) == JoinPaths(a, x + z)
  {
    hide JoinPaths, PathStartOf;
    SameStart(x, "./", z);
    FolderPiece(".");
    assert "." + "/" == "./";
    LeaveOutText(a, x, "./", z);
  }

  lemma SameStart(x: string, y: string, z: string)
    requires (x != "" || !("/" <= z)) && y != "" && y[0] != '/'
    ensures "/" <= x + y + z <==> "/" <= x + z
  {
    if x != "" {
      assert (x + y + z)[0] == x[0] && (x + z)[0] == x[0];
    } else {
      assert x + z == z && (x + y + z)[0] == y[0];
    }
  }

  predicate IsSegment(name: string) {
    name != "" && '/' !in name && name != "." && name != ".."
  }

  lemma SlashIsInjective(x: string, y: string)
    ensures x + "/" == y + "/" ==> x == y
  {
    assert (x + "/")[..|x|] == x && (y + "/")[..|y|] == y;
  }

  lemma SegmentFolder(name: string)
    requires IsSegment(name)
    ensures IsName(name + "/") && Pieces(name + "/../") == [name + "/", "../"] && (name + "/../")[0] != '/'
  {
    hide Pieces;
    var folder := name + "/";
    assert name + "/../" == folder + "../";
    assert folder[..|name|] == name && folder[|name|] == '/';
    PiecesStep(folder, "../");
    UpPiece();
    assert "./" == "." + "/" && "../" == ".." + "/" && "/" == "" + "/";
    SlashIsInjective(name, ".");
    SlashIsInjective(name, "..");
    SlashIsInjective(name, "");
    assert (name + "/../")[0] == name[0] && name[0] in name;
  }

  /** A `../` takes back the segment in front of it. */
  lemma UpLaw(a: string, x: string, name: string, z: string)
    requires IsFolderPath(x) && IsSegment(name) && (x != "" || !("/" <= z))
    ensures JoinPaths(a, x + (name + "/../") + z) == JoinPaths(a, x + z)
  {
    hide JoinPaths, PathStartOf, Pieces, PushAll, IsName, IsSegment;
    SegmentFolder(name);
    SameStart(x, name + "/../", z);
    var base := if "/" <= x + z then [] else PushAll([], Pieces(a[PathStartOf(a)..]));
    UpCancels(PushAll(base, Pieces(x)), name + "/");
    LeaveOutText(a, x, name + "/../", z);
  }

  lemma UpCancels(stack: seq<string>, piece: string)
    requires IsName(piece)
    ensures PushAll(stack, [piece, "../"]) == stack
  {
    assert [piece, "../"][1..] == ["../"] && ["../"][1..] == [];
    assert (stack + [piece])[..|stack + [piece]| - 1] == stack;
  }

  /** A `../` goes no higher than a root. */
  lemma RootLaw(a: string, x: string, z: string)
    requires IsFolderPath(x)
    ensures JoinPaths(a, x + "/" + "../" + z) == JoinPaths(a, x + "/" + z)
  {
    hide JoinPaths, PathStartOf, Pieces, PushAll;
    SameStart(x + "/", "../", z);
    var base := if "/" <= x + "/" + z then [] else PushAll([], Pieces(a[PathStartOf(a)..]));
    RootPieces(x);
    PushSplit(base, Pieces(x), ["/"]);
    UpAtRoot(PushAll(base, Pieces(x)));
    UpPiece();
    LeaveOutText(a, x + "/", "../", z);
  }

  lemma UpPiece()
    ensures Pieces("../") == ["../"]
  {
    FolderPiece("..");
    assert ".." + "/" == "../";
  }

  lemma RootPieces(x: string)
    requires IsFolderPath(x)
    ensures Pieces(x + "/") == Pieces(x) + ["/"]
  {
    TextPieces(x, "", "/");
    FolderPiece("");
    assert "" + "/" == "/";
  }

  lemma UpAtRoot(stack: seq<string>)
    ensures PushAll(stack, ["/"]) == stack + ["/"] && PushAll(PushAll(stack, ["/"]), ["../"]) == PushAll(stack, ["/"])
  {
    assert ["/"][1..] == [] && ["../"][1..] == [];
  }

  /** What joins a rooted path does not matter; otherwise a folder can be moved from one side to the other. */
  lemma RootedLaw(a: string, b: string)
    requires PathStartOf(a) == 0 && "/" <= b
    ensures JoinPaths(a, b) == JoinPaths("", b)
  {
    hide JoinPaths, PushAll, Pieces, Join;
    JoinFrom(a, b);
    JoinFrom("", b);
  }

  lemma ShiftLaw(a: string, x: string, b: string)
    requires IsFolderPath(a) && IsFolderPath(x) && PathStartOf(a) == 0 && PathStartOf(a + x) == 0
    requires !("/" <= b) && !("/" <= x + b)
    ensures JoinPaths(a + x, b) == JoinPaths(a, x + b)
  {
    hide JoinPaths, PathStartOf, Pieces, PushAll, Join;
    JoinFrom(a + x, b);
    JoinFrom(a, x + b);
    TextPieces(a, "", x);
    TextPieces(x, "", b);
    PushSplit([], Pieces(a), Pieces(x));
    PushSplit(PushAll([], Pieces(a)), Pieces(x), Pieces(b));
  }

  /** A normal path stays, and only a normal one does. */
  lemma NormalLaw(b: string)
    ensures JoinPaths("", b) == b <==> Normal(Pieces(b))
  {
    hide JoinPaths, Pieces, Join, PushAll;
    JoinPathsIsNormal("", b);
    if Normal(Pieces(b)) {
      JoinFrom("", b);
      NoPieces();
      NothingPushed();
      assert Ups(0) == [] && [] + Pieces(b) == Pieces(b);
      PushNormal(0, Pieces(b));
      PiecesAreCut(b);
    }
  }

  lemma NothingPushed()
    ensures PushAll([], []) == []
  {
  }

  /** Plain paths are simply put together. */
  lemma PlainLaw(a: string, b: string)
    requires IsFolderPath(a) && PathStartOf(a) == 0 && !("/" <= b) && Plain(Pieces(a)) && Plain(Pieces(b))
    ensures JoinPaths(a, b) == a + b
  {
    hide JoinPaths, PathStartOf, Pieces, PushAll, Join;
    JoinFrom(a, b);
    PushPlain([], Pieces(a));
    assert [] + Pieces(a) == Pieces(a);
    PushPlain(Pieces(a), Pieces(b));
    JoinConcat(Pieces(a), Pieces(b));
    PiecesAreCut(a);
    PiecesAreCut(b);
  }

  predicate IsProtocol(prefix: string) {
    prefix == "//" || prefix == "http://" || prefix == "https://"
  }

  lemma ProtocolStart(prefix: string, host: string, path: string)
    requires IsProtocol(prefix) && '/' !in host && "/" <= path
    ensures PathStartOf(prefix + host + path) == |prefix + host|
  {
    var a := prefix + host + path;
    var rest := host + path;
    assert a == prefix + rest && a[|prefix|..] == rest;
    assert rest[..|host|] == host && rest[|host|] == '/';
    IndexOfSlashIs(rest, |host|);
    assert PathStart(a, prefix) == |prefix + host|;
    if prefix != "//" {
      assert a[0] == 'h' && !("//" <= a);
      if prefix == "https://" { assert a[4] == 's' && !("http://" <= a); }
    }
  }

  /** Behind a protocol and a host, joining works on the path. */
  lemma ProtocolLaw(prefix: string, host: string, path: string, b: string)
    requires IsProtocol(prefix) && '/' !in host && "/" <= path && PathStartOf(path) == 0
    ensures JoinPaths(prefix + host + path, b) == prefix + host + JoinPaths(path, b)
  {
    hide PathStartOf, Pieces, PushAll, Join;
    var a := prefix + host + path;
    ProtocolStart(prefix, host, path);
    assert a[|prefix + host|..] == path && a[..|prefix + host|] == prefix + host;
    JoinFrom(path, b);
    assert "/" <= b <==> b != "" && b[0] == '/';
  }

  lemma NoProtocol(a: string)
    requires !("//" <= a) && !("http://" <= a) && !("https://" <= a)
    ensures PathStartOf(a) == 0
  {
  }

  lemma FilePiece(name: string)
    requires name != "" && '/' !in name
    ensures Pieces(name) == [name]
  {
  }

  /** For instance. */
  lemma JoinedHere()
    ensures JoinPaths("a/b/", "./c") == "a/b/c"
  {
    hide JoinPaths, Pieces;
    var a := "a/" + "b/";
    FolderPiece("a");
    FolderPiece("b");
    FilePiece("c");
    assert "a" + "/" == "a/" && "b" + "/" == "b/";
    TextPieces("a/", "", "b/");
    assert a == "a/b/" && a[0] == 'a';
    NoProtocol(a);
    HereLaw(a, "", "c");
    PlainLaw(a, "c");
    assert "" + "./" + "c" == "./c" && "" + "c" == "c";
  }

  lemma JoinedUp()
    ensures JoinPaths("a/b/", "../c") == "a/c"
  {
    hide JoinPaths, Pieces;
    FolderPiece("a");
    FilePiece("c");
    assert "a" + "/" == "a/" && "a/" + "b/" == "a/b/" && "a/b/"[0] == 'a' && "a/"[0] == 'a';
    NoProtocol("a/");
    NoProtocol("a/b/");
    ShiftLaw("a/", "b/", "../c");
    UpLaw("a/", "", "b", "c");
    PlainLaw("a/", "c");
    assert "b/" + "../c" == "" + ("b" + "/../") + "c" && "" + "c" == "c";
  }

  lemma JoinedUrl()
    ensures JoinPaths("http://h/a/", "/b") == "http://h/b"
  {
    hide JoinPaths, Pieces;
    assert "/a/"[1] == 'a' && "/a/"[0] == '/';
    NoProtocol("/a/");
    ProtocolLaw("http://", "h", "/a/", "/b");
    RootedLaw("/a/", "/b");
    RootPieces("");
    FilePiece("b");
    TextPieces("/", "", "b");
    FolderPiece("");
    assert "/" + "b" == "/b" && "" + "/" == "/" && Plain(["/"] + ["b"]);
    NormalLaw("/b");
    assert "http://" + "h" + "/a/" == "http://h/a/" && "http://" + "h" + "/b" == "http://h/b";
  }

  // ---- relative paths lead back ----

  lemma {:induction false} JoinConcat(a: seq<string>, b: seq<string>)
    ensures Join(a + b) == Join(a) + Join(b)
    decreases |a|
  {
    if a == [] {
      assert a + b == b;
    } else {
      assert (a + b)[1..] == a[1..] + b;
      JoinConcat(a[1..], b);
    }
  }

  lemma ClimbAndDescend(shared: seq<string>, below: seq<string>, target: seq<string>)
    requires Names(shared + below) && Normal(shared + target)
    ensures PushAll(shared + below, Ups(|below|) + target) == shared + target
  {
    hide PushAll, Normal, Ups;
    PushSplit(shared + below, Ups(|below|), target);
    PushUps(shared + below, |below|);
    assert (shared + below)[..|shared|] == shared;
    assert Names(shared) by {
      assert forall i :: 0 <= i < |shared| ==> shared[i] == (shared + below)[i];
    }
    Descend(shared, target);
  }

  lemma Descend(shared: seq<string>, target: seq<string>)
    requires Names(shared) && Normal(shared + target)
    ensures PushAll(shared, target) == shared + target
  {
    hide PushAll;
    if shared == [] {
      assert shared + target == target && shared == Ups(0);
      PushNormal(0, target);
    } else {
      assert (shared + target)[0] == shared[0] && Plain(shared + target);
      assert forall i :: 0 <= i < |target| ==> target[i] == (shared + target)[|shared| + i];
      PushPlain(shared, target);
    }
  }

  /** The pieces of a relative path: climb out of the folders that are not shared, then descend. */
  lemma RelativePieces(f: string, p: string) returns (shared: seq<string>, below: seq<string>, target: seq<string>)
    requires !IsAbsolute(p)
    ensures Pieces(PathOf(f)) == shared + below && Pieces(p) == shared + target
    ensures Pieces(RelativePath(f, p)) == Ups(|below|) + target
  {
    hide CommonPrefixOf, Join, CountSlashes, IsAbsolute;
    var t := CommonFolderPrefix(f, p);
    FoldersBelow(f, t);
    SplitAtFolder(p, t);
    shared, below, target := Pieces(t), Pieces(PathOf(f)[|t|..]), Pieces(p[|t|..]);
    UpsAreFolders(|below|);
    PiecesAppend(Ups(|below|), p[|t|..]);
  }

  lemma UpsAreFolders(n: nat)
    ensures AllFolders(Ups(n))
  {
  }

  /** A folder of names is a path of its own, and joining starts with its pieces. */
  lemma NamesFolder(a: string)
    requires Names(Pieces(a))
    ensures PathStartOf(a) == 0 && PushAll([], Pieces(a)) == Pieces(a) && Join(Pieces(a)) == a
  {
    hide Pieces, PathStartOf, Join;
    assert NoEmpty(Pieces(a)) && Plain(Pieces(a));
    NotAbsolute(a);
    PushPlain([], Pieces(a));
    assert [] + Pieces(a) == Pieces(a);
    PiecesAreCut(a);
  }

  predicate IsUrl(p: string) {
    "http://" <= p || "https://" <= p
  }

  /** Whether the relative path from f leads back to p: rooted paths always do; URLs only from a file without a folder;
      and a path with an empty segment right behind the folder of f does not, as its rest looks rooted. */
  predicate LeadsBack(f: string, p: string) {
    if "/" <= p then true else if IsUrl(p) then PathOf(f) == "" else !(PathOf(f) + "/" <= p)
  }

  lemma RootedLeadsBack(a: string, p: string)
    requires PathStartOf(a) == 0 && "/" <= p && Normal(Pieces(p))
    ensures JoinPaths(a, p) == p
  {
    hide JoinPaths, PushAll, PathStartOf, Pieces, Join;
    JoinFrom(a, p);
    assert Ups(0) == [] && [] + Pieces(p) == Pieces(p);
    PushNormal(0, Pieces(p));
    PiecesAreCut(p);
  }

  lemma UrlLeadsBack(f: string, p: string)
    requires Names(Pieces(PathOf(f))) && Normal(Pieces(p)) && IsUrl(p)
    ensures JoinPaths(PathOf(f), p) == PathOf(f) + p
  {
    hide JoinPaths, PushAll, PathStartOf, Pieces, Join, PathOf;
    var a := PathOf(f);
    NamesFolder(a);
    JoinFrom(a, p);
    assert p[0] == 'h';
    UrlIsPlain(p);
    PushPlain(Pieces(a), Pieces(p));
    JoinConcat(Pieces(a), Pieces(p));
    PiecesAreCut(p);
  }

  lemma UrlIsPlain(p: string)
    requires Normal(Pieces(p)) && IsUrl(p)
    ensures Plain(Pieces(p))
  {
    hide Pieces, Join;
    assert p[0] == 'h';
    PiecesAreCut(p);
    JoinStep(Pieces(p));
  }

  lemma {:induction false} RootStaysFirst(rest: seq<string>, more: seq<string>)
    ensures PushAll([ROOT] + rest, more) != [] && PushAll([ROOT] + rest, more)[0] == ROOT
    decreases |more|
  {
    if more != [] {
      var next := PushPiece([ROOT] + rest, more[0]);
      assert next == [ROOT] + next[1..];
      RootStaysFirst(next[1..], more[1..]);
    }
  }

  lemma RootedStaysRooted(a: string, b: string)
    requires PathStartOf(a) == 0 && "/" <= b
    ensures "/" <= JoinPaths(a, b)
  {
    hide JoinPaths, PathStartOf, Pieces;
    JoinFrom(a, b);
    assert b == ROOT + b[1..];
    PiecesStep(ROOT, b[1..]);
    var pieces := Pieces(b);
    assert pieces[1..] == Pieces(b[1..]) && PushPiece([], ROOT) == [ROOT] + [];
    RootStaysFirst([], pieces[1..]);
  }

  lemma {:induction false} CommonPrefixLongest(s: string, t: string, n: nat)
    requires n <= |s| && n <= |t| && s[..n] == t[..n]
    ensures n <= |CommonPrefixOf(s, t)|
    decreases n
  {
    if n > 0 {
      assert s[0] == s[..n][0] && t[0] == t[..n][0];
      assert s[1..][..n - 1] == s[..n][1..] && t[1..][..n - 1] == t[..n][1..];
      CommonPrefixLongest(s[1..], t[1..], n - 1);
    }
  }

  /** If p goes on with a slash behind the folder of f, the relative path is that rest. */
  lemma RestIsRooted(f: string, p: string)
    requires !IsAbsolute(p) && PathOf(f) + "/" <= p
    ensures "/" <= RelativePath(f, p)
  {
    hide CommonPrefixOf, CountSlashes, Join;
    var a, t := PathOf(f), CommonFolderPrefix(f, p);
    assert "" + "/" == "/";
    assert a <= p;
    CommonPrefixLongest(f, p, |a|);
    assert CommonPrefixOf(f, p)[|a| - 1] == '/';
    FolderContains(f, t);
    assert t == a;
    NoSlashes(f[|a|..]);
    NoUps();
    assert "" + p[|a|..] == p[|a|..] && p[|a|] == '/';
  }

  /** And only then is it rooted. */
  lemma OnlyThenRooted(f: string, p: string)
    requires !IsAbsolute(p) && "/" <= RelativePath(f, p)
    ensures PathOf(f) + "/" <= p
  {
    hide RelativePath, Pieces, Join, PathOf;
    var shared, below, target := RelativePieces(f, p);
    RootedStartsEmpty(RelativePath(f, p));
    ClimbsFirst(|below|, target);
    assert below == [];
    assert Ups(0) + target == target && shared + [] == shared;
    JoinConcat(shared, target);
    PiecesAreCut(p);
    PiecesAreCut(PathOf(f));
    assert Join(target) == target[0] + Join(target[1..]) by { JoinStep(target); }
  }

  lemma ClimbsFirst(n: nat, target: seq<string>)
    ensures n > 0 ==> (Ups(n) + target)[0] == UP
  {
  }

  lemma JoinStep(ps: seq<string>)
    requires ps != []
    ensures Join(ps) == ps[0] + Join(ps[1..])
  {
  }

  /** A relative path does not mention the folders that both sides share. */
  lemma RelativeShared(t: string, f: string, p: string)
    requires IsFolderPath(t) && !IsAbsolute(t + p) && !IsAbsolute(p)
    ensures RelativePath(t + f, t + p) == RelativePath(f, p)
  {
    hide IsAbsolute, CountSlashes, CommonPrefixOf, LastIndexOfSlash, Join, Ups;
    PrefixShared(t, f, p);
    var c := CommonPrefixOf(f, p);
    LastSlashShared(t, c);
    var n := LastIndexOfSlash(c) + 1;
    assert (t + f)[|t| + n..] == f[n..] && (t + p)[|t| + n..] == p[n..];
  }

  lemma {:induction false} PrefixShared(t: string, f: string, p: string)
    ensures CommonPrefixOf(t + f, t + p) == t + CommonPrefixOf(f, p)
    decreases |t|
  {
    if t == "" {
      assert t + f == f && t + p == p;
    } else {
      assert (t + f)[1..] == t[1..] + f && (t + p)[1..] == t[1..] + p;
      PrefixShared(t[1..], f, p);
    }
  }

  lemma {:induction false} LastSlashShared(t: string, c: string)
    requires IsFolderPath(t)
    ensures LastIndexOfSlash(t + c) == |t| + LastIndexOfSlash(c)
    decreases |c|
  {
    if c == "" {
      assert t + c == t;
    } else {
      assert (t + c)[|t + c| - 1] == c[|c| - 1];
      assert (t + c)[..|t + c| - 1] == t + c[..|c| - 1];
      LastSlashShared(t, c[..|c| - 1]);
    }
  }

  lemma RelativeLeadsBack(f: string, p: string)
    requires Names(Pieces(PathOf(f))) && Normal(Pieces(p)) && !IsAbsolute(p)
    ensures JoinPaths(PathOf(f), RelativePath(f, p)) == p <==> !("/" <= RelativePath(f, p))
  {
    hide JoinPaths, RelativePath, PathOf, PushAll, Pieces, Normal, Names, Join, Ups, PathStartOf;
    var a, r := PathOf(f), RelativePath(f, p);
    NamesFolder(a);
    if "/" <= r {
      RootedStaysRooted(a, r);
    } else {
      var shared, below, target := RelativePieces(f, p);
      JoinFrom(a, r);
      ClimbAndDescend(shared, below, target);
      PiecesAreCut(p);
    }
  }

  /** Resolving the relative path against the file it was made for gives a normal target back exactly if it leads back. */
  lemma RelativePathRoundTrip(f: string, p: string)
    requires Names(Pieces(PathOf(f))) && Normal(Pieces(p))
    ensures JoinPaths(PathOf(f), RelativePath(f, p)) == p <==> LeadsBack(f, p)
  {
    hide JoinPaths, PathOf, PushAll, Pieces, Normal, Names, Join, PathStartOf, CommonFolderPrefix, CountSlashes;
    NamesFolder(PathOf(f));
    if "/" <= p {
      RootedLeadsBack(PathOf(f), p);
    } else if IsUrl(p) {
      UrlLeadsBack(f, p);
    } else {
      RelativeLeadsBack(f, p);
      if PathOf(f) + "/" <= p { RestIsRooted(f, p); }
      if "/" <= RelativePath(f, p) { OnlyThenRooted(f, p); }
    }
  }

  /** Without empty segments it always does. */
  lemma NoEmptyLeadsBack(f: string, p: string)
    requires NoEmpty(Pieces(p))
    ensures LeadsBack(f, p)
  {
    hide Pieces, NoEmpty, PathOf;
    NotAbsolute(p);
    var a := PathOf(f);
    if a + "/" <= p && a != "" {
      EmptyBehind(a, p);
    }
  }

  lemma EmptyBehind(a: string, p: string)
    requires a != "" && a[|a| - 1] == '/' && a + "/" <= p
    ensures !NoEmpty(Pieces(p))
  {
    hide Pieces;
    var rest := p[|a| + 1..];
    assert p[|a|..] == ROOT + rest;
    SplitAtFolder(p, a);
    PiecesStep(ROOT, rest);
    assert Pieces(p)[|Pieces(a)|] == ROOT;
  }

  /** What the CSS rewriter puts in place of a URL when a file moves. */
  function RewriteUrl(originalFile: string, newFile: string, url: string): string {
    RelativePath(newFile, JoinPaths(PathOf(originalFile), url))
  }

  /** A rewritten URL, read from the new file, points where the original pointed, exactly if that target leads back. */
  lemma RewrittenUrlKeepsTarget(originalFile: string, newFile: string, url: string)
    requires PathStartOf(PathOf(originalFile)) == 0 && Names(Pieces(PathOf(newFile)))
    ensures
      var target := JoinPaths(PathOf(originalFile), url);
      JoinPaths(PathOf(newFile), RewriteUrl(originalFile, newFile, url)) == target <==> LeadsBack(newFile, target)
  {
    hide JoinPaths, RelativePath, LastIndexOfSlash, PathStartOf;
    JoinPathsIsNormal(PathOf(originalFile), url);
    RelativePathRoundTrip(newFile, JoinPaths(PathOf(originalFile), url));
  }

  /** In particular, if neither the original file nor the URL has empty segments. */
  lemma RewrittenPlainUrl(originalFile: string, newFile: string, url: string)
    requires NoEmpty(Pieces(PathOf(originalFile))) && NoEmpty(Pieces(url)) && Names(Pieces(PathOf(newFile)))
    ensures JoinPaths(PathOf(newFile), RewriteUrl(originalFile, newFile, url)) == JoinPaths(PathOf(originalFile), url)
  {
    hide JoinPaths, RelativePath, PathOf, PushAll, Pieces, PathStartOf, NoEmpty, LeadsBack;
    var a := PathOf(originalFile);
    NotAbsolute(a);
    NotAbsolute(url);
    JoinFrom(a, url);
    RewrittenUrlKeepsTarget(originalFile, newFile, url);
    PushKeepsNoEmpty([], Pieces(a));
    assert NoEmpty([]) by { NothingIsEmpty(); }
    PushKeepsNoEmpty(PushAll([], Pieces(a)), Pieces(url));
    JoinedPieces(a, url);
    NoEmptyLeadsBack(newFile, JoinPaths(a, url));
  }

  lemma NothingIsEmpty()
    ensures NoEmpty([])
  {
  }

  lemma JoinedPieces(a: string, b: string)
    requires (a == "" || a[|a| - 1] == '/') && PathStartOf(a) == 0 && !("/" <= b)
    ensures Pieces(JoinPaths(a, b)) == PushAll(PushAll([], Pieces(a)), Pieces(b))
  {
    hide JoinPaths, PushAll, PathStartOf;
    JoinFrom(a, b);
    FolderPath(a);
    FoldersAreCut(Pieces(a));
    FoldersStayFolders([], Pieces(a));
    PiecesAreCut(b);
    assert Normal([]);
    PushKeepsNormal([], Pieces(a));
    PushKeepsNormal(PushAll([], Pieces(a)), Pieces(b));
    PiecesOfJoin(PushAll(PushAll([], Pieces(a)), Pieces(b)));
  }

  lemma {:induction false} PushKeepsNoEmpty(pieces: seq<string>, more: seq<string>)
    requires NoEmpty(pieces) && NoEmpty(more)
    ensures NoEmpty(PushAll(pieces, more))
    decreases |more|
  {
    if more != [] { PushKeepsNoEmpty(PushPiece(pieces, more[0]), more[1..]); }
  }

  /** A rooted URL keeps its target wherever the file moves. */
  lemma RewrittenRootedUrlKeepsTarget(originalFile: string, newFile: string, url: string)
    requires PathStartOf(PathOf(originalFile)) == 0 && PathStartOf(PathOf(newFile)) == 0 && "/" <= url
    ensures JoinPaths(PathOf(newFile), RewriteUrl(originalFile, newFile, url)) == JoinPaths(PathOf(originalFile), url)
  {
    hide JoinPaths, PathOf, PathStartOf, Pieces, Normal;
    var target := JoinPaths(PathOf(originalFile), url);
    RootedStaysRooted(PathOf(originalFile), url);
    JoinPathsIsNormal(PathOf(originalFile), url);
    RootedLeadsBack(PathOf(newFile), target);
  }

  // ---- the condition on the new file is exact ----

  /** A stack of pieces: some `../`, then names. */
  ghost function Stack(ups: nat, names: seq<string>): seq<string> {
    Ups(ups) + names
  }

  /** Pushing never adds more names than pieces, and only names add as many. */
  lemma {:induction false} PushShape(ups: nat, names: seq<string>, more: seq<string>) returns (ups': nat, names': seq<string>)
    requires Names(names) && NoEmpty(more)
    ensures Names(names') && PushAll(Stack(ups, names), more) == Stack(ups', names')
    ensures |names'| <= |names| + |more| && ups' >= ups
    ensures |names'| == |names| + |more| ==> Names(more)
    decreases |more|
  {
    if more == [] {
      return ups, names;
    }
    var u, ns := PushOneShape(ups, names, more[0]);
    ups', names' := PushShape(u, ns, more[1..]);
    if |names'| == |names| + |more| {
      assert Names(more) by { assert more == [more[0]] + more[1..]; }
    }
  }

  lemma PushOneShape(ups: nat, names: seq<string>, piece: string) returns (ups': nat, names': seq<string>)
    requires Names(names) && piece != ROOT
    ensures Names(names') && PushPiece(Stack(ups, names), piece) == Stack(ups', names')
    ensures |names'| <= |names| + 1 && ups' >= ups && (|names'| == |names| + 1 ==> IsName(piece))
  {
    var stack := Stack(ups, names);
    if piece == HERE {
      return ups, names;
    } else if piece == UP && names == [] {
      assert stack + [UP] == Stack(ups + 1, []);
      return ups + 1, [];
    } else if piece == UP {
      assert stack[|stack| - 1] == names[|names| - 1];
      assert stack[..|stack| - 1] == Stack(ups, names[..|names| - 1]);
      return ups, names[..|names| - 1];
    } else {
      assert stack + [piece] == Stack(ups, names + [piece]);
      return ups, names + [piece];
    }
  }

  lemma PushUpOnName(ups: nat, names: seq<string>)
    requires Names(names) && names != []
    ensures PushPiece(Stack(ups, names), UP) == Stack(ups, names[..|names| - 1])
  {
  }

  lemma PushUpOnUps(ups: nat)
    ensures PushPiece(Stack(ups, []), UP) == Stack(ups + 1, []) && Stack(ups, []) == Ups(ups)
  {
  }

  lemma {:induction false} PushManyUps(ups: nat, names: seq<string>, n: nat)
    requires Names(names) && n >= |names|
    ensures PushAll(Stack(ups, names), Ups(n)) == Ups(ups + n - |names|)
    decreases n
  {
    hide Stack, PushPiece;
    if names == [] { PushUpOnUps(ups); } else { PushUpOnName(ups, names); }
    if n > 0 {
      assert Ups(n)[1..] == Ups(n - 1);
      if names == [] {
        PushManyUps(ups + 1, [], n - 1);
      } else {
        PushManyUps(ups, names[..|names| - 1], n - 1);
      }
    }
  }

  /** Climbing as often as there are folders overshoots when some of them are no names. */
  lemma ClimbTooFar(folders: seq<string>) returns (left: nat)
    requires NoEmpty(folders) && !Names(folders)
    ensures left > 0 && PushAll(PushAll([], folders), Ups(|folders|) + ["z"]) == Ups(left) + ["z"]
  {
    hide PushAll, PushPiece;
    var ups, names := PushShape(0, [], folders);
    assert Stack(0, []) == [];
    PushSplit(Stack(ups, names), Ups(|folders|), ["z"]);
    PushManyUps(ups, names, |folders|);
    left := ups + |folders| - |names|;
    PushPlain(Ups(left), ["z"]);
  }

  lemma Overshot(left: nat)
    requires left > 0
    ensures Join(Ups(left) + ["z"]) != "z"
  {
    hide Join;
    UpsAreFolders(left);
    FoldersThenPiece(Ups(left), "z");
    PiecesOfJoin(Ups(left) + ["z"]);
    LocalFile();
  }

  lemma LocalFile()
    ensures Pieces("z") == ["z"] && !IsAbsolute("z") && forall n: nat :: NoEmpty(Ups(n) + ["z"])
  {
  }

  /** A root in the stack stays there, so the joined path has a slash. */
  lemma {:induction false} RootStays(pieces: seq<string>, more: seq<string>)
    requires ROOT in pieces || ROOT in more
    ensures ROOT in PushAll(pieces, more)
    decreases |more|
  {
    if more != [] {
      assert more == [more[0]] + more[1..];
      if ROOT in pieces { RootStaysOnce(pieces, more[0]); }
      RootStays(PushPiece(pieces, more[0]), more[1..]);
    }
  }

  lemma RootStaysOnce(pieces: seq<string>, piece: string)
    requires ROOT in pieces
    ensures ROOT in PushPiece(pieces, piece)
  {
    assert pieces == pieces[..|pieces| - 1] + [pieces[|pieces| - 1]];
  }

  lemma {:induction false} RootIsSeen(ps: seq<string>)
    requires ROOT in ps
    ensures '/' in Join(ps)
    decreases |ps|
  {
    assert ps == [ps[0]] + ps[1..];
    if ps[0] == ROOT {
      assert Join(ps)[0] == '/';
    } else {
      RootIsSeen(ps[1..]);
    }
  }

  lemma ProtocolIsSeen(a: string)
    requires PathStartOf(a) > 0
    ensures '/' in a[..PathStartOf(a)]
  {
    hide IndexOfSlash;
    var n := PathStartOf(a);
    if "//" <= a {
      assert a[..n][0] == '/';
    } else if "http://" <= a {
      assert a[..n][5] == '/';
    } else {
      assert a[..n][6] == '/';
    }
  }

  /** From a folder with a protocol or an empty segment no path joins to a bare name. */
  lemma SlashStays(a: string, b: string)
    requires PathStartOf(a) > 0 || (ROOT in Pieces(a) && !("/" <= b))
    ensures '/' in JoinPaths(a, b)
  {
    hide PathStartOf, Pieces, PushAll, Join;
    if PathStartOf(a) > 0 {
      ProtocolIsSeen(a);
    } else {
      JoinFrom(a, b);
      RootStays([], Pieces(a));
      RootStays(PushAll([], Pieces(a)), Pieces(b));
      RootIsSeen(PushAll(PushAll([], Pieces(a)), Pieces(b)));
    }
  }

  /** A file beside the stylesheet's root is not found again if the new file's folder has `./`, `../` or empty pieces. */
  lemma LocalFileIsMissed(f: string)
    requires !Names(Pieces(PathOf(f)))
    ensures JoinPaths(PathOf(f), RelativePath(f, "z")) != "z"
  {
    hide JoinPaths, RelativePath, PathOf, PushPiece, PushAll, Pieces, Names, NoEmpty, Join, Ups, IsAbsolute, PathStartOf;
    LocalFile();
    var a, r := PathOf(f), RelativePath(f, "z");
    var shared, below, target := RelativePieces(f, "z");
    NoSharedFolder(f, shared, target);
    assert NoEmpty(Pieces(r));
    NotAbsolute(r);
    if NoEmpty(Pieces(a)) {
      NotAbsolute(a);
      JoinFrom(a, r);
      var left := ClimbTooFar(Pieces(a));
      Overshot(left);
    } else {
      EmptyIsRoot(Pieces(a));
      SlashStays(a, r);
    }
  }

  lemma EmptyIsRoot(ps: seq<string>)
    requires !NoEmpty(ps)
    ensures ROOT in ps
  {
  }

  lemma NoSharedFolder(f: string, shared: seq<string>, target: seq<string>)
    requires shared + target == ["z"] && shared <= Pieces(PathOf(f))
    ensures shared == [] && target == ["z"]
  {
    FolderPath(PathOf(f));
    if shared != [] { FoldersAreNoFile(shared, target); }
  }

  lemma FoldersAreNoFile(shared: seq<string>, target: seq<string>)
    requires AllFolders(shared) && shared != []
    ensures shared + target != ["z"]
  {
    assert (shared + target)[0] == shared[0];
  }

  /** Relative paths come back for every normal target without empty segments if and only if the file's folder has no
      `./`, `../` or empty pieces. */
  lemma RoundTripExactly(f: string)
    ensures Names(Pieces(PathOf(f))) <==>
      forall p :: Normal(Pieces(p)) && NoEmpty(Pieces(p)) ==> JoinPaths(PathOf(f), RelativePath(f, p)) == p
  {
    hide JoinPaths, RelativePath, PathOf;
    if Names(Pieces(PathOf(f))) {
      forall p | Normal(Pieces(p)) && NoEmpty(Pieces(p)) ensures JoinPaths(PathOf(f), RelativePath(f, p)) == p {
        NoEmptyLeadsBack(f, p);
        RelativePathRoundTrip(f, p);
      }
    } else {
      LocalFileIsMissed(f);
      assert Pieces("z") == ["z"];
      assert Names(["z"]);
      assert Normal(Pieces("z"));
    }
  }
}
