/** The directory tree derived from the flat file paths of a torrent. */
module TorrentTree {
  import opened GoBytes
  import SetSum

  // ---- path strings -------------------------------------------------------------------------------------

  /** The part of a path before its first slash. */
  function First(s: string): (f: string)
    ensures f <= s && '/' !in f
    ensures f == s <==> '/' !in s
  {
    if s == "" || s[0] == '/' then "" else [s[0]] + First(s[1..])
  }

  function TrimPrefix(s: string, prefix: string): (t: string)
    ensures |t| <= |s|
  {
    if prefix <= s then s[|prefix|..] else s
  }

  function TrimSlashes(s: string): (t: string)
    ensures |t| <= |s|
  {
    var u := if s != "" && s[|s| - 1] == '/' then s[..|s| - 1] else s;
    TrimPrefix(u, "/")
  }

  /** How Open cuts its own name off the path it is given. */
  function OwnTrimmed(name: string, path: string): (t: string)
    ensures |t| <= |path|
    ensures name != "" && name <= path ==> |t| < |path|
  {
    TrimSlashes(TrimPrefix(path, name))
  }

  /** Components joined by slashes; path.Join does the same to plain components. */
  function Join(cs: seq<string>): string {
    if cs == [] then "" else if |cs| == 1 then cs[0] else cs[0] + "/" + Join(cs[1..])
  }

  predicate IsPlain(c: string) {
    c != "" && '/' !in c && c != "." && c != ".."
  }

  predicate Plain(cs: seq<string>) {
    forall i :: 0 <= i < |cs| ==> IsPlain(cs[i])
  }

  /** The path below directory `curr`, if the file lies below it. */
  function Below(path: string, curr: string): Option<string> {
    if curr == "" then Some(path)
    else if curr + "/" <= path then Some(TrimPrefix(path, curr + "/"))
    else None
  }

  // ---- reading a directory --------------------------------------------------------------------------------

  datatype Node = FileNode(index: nat) | DirNode

  type Nodes = map<string, Node>

  /** What one file path adds to the nodes of directory `curr`: a file replaces what was there, a
      directory does not. */
  function AddFile(nodes: Nodes, path: string, index: nat, curr: string): Nodes {
    var rel := Below(path, curr);
    if rel == None || rel.value == "" || First(rel.value) == "" then nodes
    else
      var name := First(rel.value);
      if '/' !in rel.value then nodes[name := FileNode(index)]
      else if name !in nodes then nodes[name := DirNode]
      else nodes
  }

  function NodesOf(paths: seq<string>, curr: string): (nodes: Nodes)
    ensures "" !in nodes
  {
    if paths == [] then map[]
    else AddFile(NodesOf(paths[..|paths| - 1], curr), paths[|paths| - 1], |paths| - 1, curr)
  }

  /** The loop over the files. */
  method CollectNodes(paths: seq<string>, curr: string) returns (nodes: Nodes)
    ensures nodes == NodesOf(paths, curr)
  {
    nodes := map[];
    for i := 0 to |paths|
      invariant nodes == NodesOf(paths[..i], curr)
    {
      assert paths[..i + 1][..i] == paths[..i];
      var dp := paths[i];
      var rel;
      if curr == "" {
        rel := dp;
      } else {
        var prefix := curr + "/";
        if !(prefix <= dp) {
          continue;
        }
        rel := TrimPrefix(dp, prefix);
      }
      if rel == "" {
        continue;
      }
      var name := First(rel);
      if name == "" {
        continue;
      }
      if '/' !in rel {
        nodes := nodes[name := FileNode(i)];
      } else if name !in nodes {
        nodes := nodes[name := DirNode];
      }
    }
    assert paths[..|paths|] == paths;
  }

  datatype DirEntry = DirEntry(name: string, node: Node)

  /** Nodes of the directory, each name once; all of them, or `n` if `n` is positive and less. */
  ghost predicate IsListingOf(entries: seq<DirEntry>, nodes: Nodes, n: int) {
    && (forall e :: e in entries ==> e.name in nodes && nodes[e.name] == e.node)
    && (forall i, j :: 0 <= i < j < |entries| ==> entries[i].name != entries[j].name)
    && |entries| == (if n > 0 && |nodes| > n then n else |nodes|)
    && (n <= 0 || n >= |nodes| ==> forall name :: name in nodes ==> DirEntry(name, nodes[name]) in entries)
  }

  /** The entries of a directory, each name once and in any order; with a positive `n` no more than
      that many of them. */
  method ListEntries(paths: seq<string>, curr: string, n: int) returns (entries: seq<DirEntry>)
    ensures IsListingOf(entries, NodesOf(paths, curr), n)
  {
    var nodes := CollectNodes(paths, curr);
    entries := [];
    var left := nodes.Keys;
    while left != {}
      invariant left <= nodes.Keys && |entries| + |left| == |nodes.Keys|
      invariant forall e :: e in entries ==> e.name in nodes && nodes[e.name] == e.node && e.name !in left
      invariant forall i, j :: 0 <= i < j < |entries| ==> entries[i].name != entries[j].name
      invariant forall name :: name in nodes && name !in left ==> DirEntry(name, nodes[name]) in entries
      decreases left
    {
      var name := SetSum.Pick(left);
      left := left - {name};
      entries := entries + [DirEntry(name, nodes[name])];
    }
    if n > 0 && |entries| > n {
      entries := entries[..n];
    }
  }

  /** A directory of the tree, known by its parent and its name. */
  datatype Dir = Top(title: string) | Sub(parent: Dir, name: string)

  function Components(d: Dir): seq<string> {
    match d
    case Top(_) => []
    case Sub(parent, name) => Components(parent) + [name]
  }

  function DirName(d: Dir): string {
    if d.Top? then d.title else d.name
  }

  method GetTorrPath(d: Dir) returns (s: string)
    ensures s == Join(Components(d))
  {
    var parts: seq<string> := [];
    var n := Some(d);
    while n.Some?
      invariant (match n
                 case Some(m) => Components(d) == Components(m) + parts
                 case None => |parts| >= 1 && Components(d) == parts[1..])
      decreases if n.Some? then 1 else 0, if n.Some? then n.value else d
    {
      parts := [DirName(n.value)] + parts;
      n := if n.value.Top? then None else Some(n.value.parent);
    }
    s := Join(parts[1..]);
  }

  // ---- a directory that may have to wait for its torrent -----------------------------------------------------

  /** A torrent of the catalogue: whether its metadata has come, and the paths of its files; without
      metadata there are none. */
  datatype Torrent = Torrent(gotInfo: bool, paths: seq<string>)

  /** The torrent to read: the directory's own if its metadata has come, else the first that the
      catalogue answers with metadata, else the directory's own as it is. */
  function Awaited(t: Torrent, polls: seq<Option<Torrent>>): Torrent {
    if t.gotInfo || polls == [] then t
    else if polls[0].Some? && polls[0].value.gotInfo then polls[0].value
    else Awaited(t, polls[1..])
  }

  /** Which torrent that is. */
  lemma {:induction false} AwaitedIs(t: Torrent, polls: seq<Option<Torrent>>, i: nat)
    requires !t.gotInfo && i < |polls| && polls[i].Some? && polls[i].value.gotInfo
    requires forall j :: 0 <= j < i ==> polls[j] == None || !polls[j].value.gotInfo
    ensures Awaited(t, polls) == polls[i].value
  {
    if i > 0 {
      AwaitedIs(t, polls[1..], i - 1);
    }
  }

  datatype Listing = Invalid | Listed(entries: seq<DirEntry>)

  class TorrDir {
    const dir: Dir
    var torrent: Option<Torrent>

    constructor (dir: Dir, torrent: Option<Torrent>)
      ensures this.dir == dir && this.torrent == torrent
    {
      this.dir, this.torrent := dir, torrent;
    }

    /** `polls` are the catalogue's answers, one for each half second of the waiting time. */
    method ReadDir(polls: seq<Option<Torrent>>, n: int) returns (r: Listing)
      modifies this
      ensures r == Invalid <==> old(torrent) == None
      ensures old(torrent) == None ==> torrent == None
      ensures old(torrent).Some? ==>
                && torrent == Some(Awaited(old(torrent).value, polls))
                && IsListingOf(r.entries, NodesOf(torrent.value.paths, Join(Components(dir))), n)
    {
      if torrent == None {
        return Invalid;
      }
      var t := torrent.value;
      if !t.gotInfo {
        assert polls[0..] == polls;
        for i := 0 to |polls|
          invariant torrent == Some(t) && Awaited(t, polls) == Awaited(t, polls[i..])
        {
          assert polls[i..][0] == polls[i] && polls[i..][1..] == polls[i + 1..];
          if polls[i].Some? && polls[i].value.gotInfo {
            torrent := polls[i];
            break;
          }
        }
      }
      var curr := GetTorrPath(dir);
      var entries := ListEntries(torrent.value.paths, curr, n);
      return Listed(entries);
    }
  }

  /** A directory whose metadata does not come in time reads as empty, without an error. */
  method UnreadyReadsEmpty(d: TorrDir, polls: seq<Option<Torrent>>, n: int) returns (r: Listing)
    requires d.torrent == Some(Torrent(false, []))
    requires forall i :: 0 <= i < |polls| && polls[i].Some? ==> !polls[i].value.gotInfo
    modifies d
    ensures r == Listed([])
  {
    NeverReady(d.torrent.value, polls);
    r := d.ReadDir(polls, n);
    assert |r.entries| == 0;
  }

  lemma {:induction false} NeverReady(t: Torrent, polls: seq<Option<Torrent>>)
    requires forall i :: 0 <= i < |polls| && polls[i].Some? ==> !polls[i].value.gotInfo
    ensures Awaited(t, polls) == t
  {
    if polls != [] {
      NeverReady(t, polls[1..]);
    }
  }

  // ---- opening a path ---------------------------------------------------------------------------------------

  datatype Opened = File(index: nat) | Directory(components: seq<string>) | NotExist

  /** Open on a directory of the tree: cut off its own name, look the next name up, and let that node
      open the rest; a file takes whatever path is left. */
  function Open(paths: seq<string>, dir: seq<string>, name: string, path: string): Opened {
    Walk(paths, dir, OwnTrimmed(name, path))
  }

  function Walk(paths: seq<string>, dir: seq<string>, rel: string): Opened
    decreases |rel|
  {
    if rel == "" then Directory(dir)
    else
      var nodes, first := NodesOf(paths, Join(dir)), First(rel);
      if first !in nodes then NotExist
      else
        match nodes[first]
        case FileNode(i) => File(i)
        case DirNode => Walk(paths, dir + [first], OwnTrimmed(first, rel))
  }

  // ---- joined components and their strings ----------------------------------------------------------------------

  lemma {:induction false} FirstOfSlash(c: string, tail: string)
    requires '/' !in c
    ensures First(c + "/" + tail) == c
  {
    var s := c + "/" + tail;
    if c != "" {
      FirstOfSlash(c[1..], tail);
      assert s[1..] == c[1..] + "/" + tail;
    }
  }

  lemma {:induction false} JoinEnds(cs: seq<string>)
    requires cs != [] && Plain(cs)
    ensures var j := Join(cs); j != "" && j[0] != '/' && j[|j| - 1] != '/'
    ensures First(Join(cs)) == cs[0]
    ensures '/' in Join(cs) <==> |cs| > 1
  {
    assert IsPlain(cs[0]);
    if |cs| > 1 {
      JoinEnds(cs[1..]);
      FirstOfSlash(cs[0], Join(cs[1..]));
      var j := Join(cs);
      assert j[|cs[0]|] == '/';
      assert j[|j| - 1] == Join(cs[1..])[|Join(cs[1..])| - 1];
    }
  }

  lemma TrimsOneSlash(t: string)
    requires t != "" ==> t[0] != '/' && t[|t| - 1] != '/'
    ensures TrimSlashes("/" + t) == t
  {
    var u := "/" + t;
    if t != "" {
      assert u[|u| - 1] == t[|t| - 1];
    }
    assert u[1..] == t;
  }

  lemma OwnTrimmedSlash(name: string, t: string)
    requires t != "" ==> t[0] != '/' && t[|t| - 1] != '/'
    ensures OwnTrimmed(name, name + "/" + t) == t
  {
    var path := name + "/" + t;
    assert name <= path && path[|name|..] == "/" + t;
    TrimsOneSlash(t);
  }

  lemma OwnTrimmedJoin(cs: seq<string>)
    requires cs != [] && Plain(cs)
    ensures OwnTrimmed(cs[0], Join(cs)) == Join(cs[1..])
  {
    if |cs| == 1 {
      assert TrimPrefix(cs[0], cs[0]) == "";
    } else {
      JoinEnds(cs[1..]);
      OwnTrimmedSlash(cs[0], Join(cs[1..]));
    }
  }

  /** The slashed form of a directory's components, each followed by a slash. */
  function Slashed(cs: seq<string>): string {
    if cs == [] then "" else cs[0] + "/" + Slashed(cs[1..])
  }

  lemma {:induction false} SlashedJoin(cs: seq<string>)
    requires cs != []
    ensures Slashed(cs) == Join(cs) + "/"
  {
    if |cs| == 1 {
      assert Slashed(cs[1..]) == "";
    } else {
      SlashedJoin(cs[1..]);
    }
  }

  lemma SameFirst(c: string, d: string, s: string, t: string)
    requires '/' !in c && '/' !in d && c + "/" + s <= d + "/" + t
    ensures c == d && s <= t
  {
    var a, b := c + "/" + s, d + "/" + t;
    assert b == a + b[|a|..];
    FirstOfSlash(c, s + b[|a|..]);
    assert c + "/" + (s + b[|a|..]) == b;
    FirstOfSlash(d, t);
    assert a[|c| + 1..] == s && b[|c| + 1..] == t;
  }

  /** A path starts with a directory's slashed form exactly when the directory's components are the
      first ones of the path; what follows is the rest of the path. */
  lemma {:induction false} PrefixIsPrefix(dir: seq<string>, cs: seq<string>)
    requires Plain(dir) && Plain(cs) && cs != []
    ensures Slashed(dir) <= Join(cs) <==> dir < cs
    ensures dir < cs ==> Join(cs)[|Slashed(dir)|..] == Join(cs[|dir|..])
  {
    if dir == [] {
      assert cs[0..] == cs && Join(cs)[0..] == Join(cs);
    } else {
      var d, ds, c, rest := dir[0], dir[1..], cs[0], cs[1..];
      assert IsPlain(d) && IsPlain(c);
      assert dir == [d] + ds && cs == [c] + rest;
      if rest == [] {
        assert Join(cs) == c;
        assert (d + "/" + Slashed(ds))[|d|] == '/';
        assert !(Slashed(dir) <= Join(cs));
        assert !(dir < cs);
      } else {
        PrefixIsPrefix(ds, rest);
        assert dir < cs <==> d == c && ds < rest;
        if Slashed(dir) <= Join(cs) {
          SameFirst(d, c, Slashed(ds), Join(rest));
        }
        if d == c && ds < rest {
          assert Slashed(dir) <= Join(cs);
          assert Join(cs)[|Slashed(dir)|..] == Join(rest)[|Slashed(ds)|..];
          assert cs[|dir|..] == rest[|ds|..];
        }
      }
    }
  }

  /** Below on joined paths is taking away leading components. */
  lemma BelowIsDrop(dir: seq<string>, cs: seq<string>)
    requires Plain(dir) && Plain(cs) && cs != []
    ensures Below(Join(cs), Join(dir)) == if dir < cs then Some(Join(cs[|dir|..])) else None
  {
    PrefixIsPrefix(dir, cs);
    if dir != [] {
      SlashedJoin(dir);
      JoinEnds(dir);
    } else {
      assert cs[0..] == cs;
    }
  }

  // ---- what a directory lists -----------------------------------------------------------------------------------

  type Files = seq<seq<string>>

  /** Every file has a path of plain components. */
  predicate PlainFiles(files: Files) {
    forall i :: 0 <= i < |files| ==> files[i] != [] && Plain(files[i])
  }

  function Paths(files: Files): (paths: seq<string>)
    ensures |paths| == |files|
    ensures forall i :: 0 <= i < |files| ==> paths[i] == Join(files[i])
  {
    seq(|files|, i requires 0 <= i < |files| => Join(files[i]))
  }

  /** The file with exactly this path; of several the last. */
  function FileAt(files: Files, cs: seq<string>): (i: Option<nat>)
    ensures i.Some? ==> i.value < |files| && files[i.value] == cs
    ensures i == None <==> cs !in files
  {
    if files == [] then None
    else if files[|files| - 1] == cs then Some(|files| - 1)
    else FileAt(files[..|files| - 1], cs)
  }

  /** Some file lies strictly below these components. */
  ghost predicate HasBelow(files: Files, cs: seq<string>) {
    exists i :: 0 <= i < |files| && cs < files[i]
  }

  /** What the name means in the directory, read off the files' components. */
  ghost function Meaning(files: Files, cs: seq<string>): Option<Node> {
    if FileAt(files, cs).Some? then Some(FileNode(FileAt(files, cs).value))
    else if HasBelow(files, cs) then Some(DirNode)
    else None
  }

  function Entry(nodes: Nodes, name: string): Option<Node> {
    if name in nodes then Some(nodes[name]) else None
  }

  lemma ChildPrefix(dir: seq<string>, name: string, cs: seq<string>)
    ensures dir + [name] <= cs <==> dir < cs && cs[|dir|] == name
    ensures dir + [name] == cs <==> dir < cs && cs[|dir|] == name && |cs| == |dir| + 1
  {
    if dir + [name] <= cs {
      assert cs[|dir|] == (dir + [name])[|dir|] == name;
      assert cs[..|dir|] == (dir + [name])[..|dir|] == dir;
    }
    if dir < cs && cs[|dir|] == name {
      assert cs[..|dir| + 1] == dir + [name];
    }
  }

  lemma AddFileEntry(nodes: Nodes, dir: seq<string>, cs: seq<string>, index: nat, name: string)
    requires Plain(dir) && Plain(cs) && cs != []
    ensures Entry(AddFile(nodes, Join(cs), index, Join(dir)), name) ==
            if dir + [name] == cs then Some(FileNode(index))
            else if dir + [name] < cs && name !in nodes then Some(DirNode)
            else Entry(nodes, name)
  {
    BelowIsDrop(dir, cs);
    ChildPrefix(dir, name, cs);
    if dir < cs {
      var rest := cs[|dir|..];
      assert Plain(rest) by {
        forall i | 0 <= i < |rest| ensures IsPlain(rest[i]) {
          assert rest[i] == cs[|dir| + i];
        }
      }
      JoinEnds(rest);
    }
  }

  /** ReadDir of a directory lists exactly the next components of the files below it, as a file where
      a path ends there and as a directory otherwise; where both hold the file wins. */
  lemma {:induction false} ListsNextComponents(files: Files, dir: seq<string>, name: string)
    requires PlainFiles(files) && Plain(dir)
    ensures Entry(NodesOf(Paths(files), Join(dir)), name) == Meaning(files, dir + [name])
  {
    var child := dir + [name];
    if files != [] {
      var n := |files| - 1;
      var front, last := files[..n], files[n];
      ListsNextComponents(front, dir, name);
      assert Paths(files)[..n] == Paths(front);
      AddFileEntry(NodesOf(Paths(front), Join(dir)), dir, last, n, name);
      HasBelowGrows(front, last, child);
      assert files == front + [last];
    }
  }

  lemma HasBelowGrows(front: Files, last: seq<string>, cs: seq<string>)
    ensures HasBelow(front + [last], cs) <==> HasBelow(front, cs) || cs < last
  {
    var all := front + [last];
    assert all[|front|] == last;
    if i :| 0 <= i < |front| && cs < front[i] {
      assert all[i] == front[i];
    }
  }

  // ---- which files can be reached ----------------------------------------------------------------------------------

  /** Following components through the tree, described by the files alone. */
  ghost function Follow(files: Files, dir: seq<string>, cs: seq<string>): Opened
    decreases |cs|
  {
    if cs == [] then Directory(dir)
    else
      match Meaning(files, dir + [cs[0]])
      case None => NotExist
      case Some(FileNode(i)) => File(i)
      case Some(DirNode) => Follow(files, dir + [cs[0]], cs[1..])
  }

  lemma {:induction false} WalkFollows(files: Files, dir: seq<string>, cs: seq<string>)
    requires PlainFiles(files) && Plain(dir) && Plain(cs)
    ensures Walk(Paths(files), dir, Join(cs)) == Follow(files, dir, cs)
    decreases |cs|
  {
    if cs != [] {
      JoinEnds(cs);
      ListsNextComponents(files, dir, cs[0]);
      OwnTrimmedJoin(cs);
      WalkFollows(files, dir + [cs[0]], cs[1..]);
    }
  }

  /** The file that a walk along `cs` from `dir` ends at: its own path is the walk or begins the walk,
      lies below `dir`, no directory part of it below `dir` is itself a file, and it is the last file of
      that path. */
  ghost predicate Reached(files: Files, dir: seq<string>, cs: seq<string>, i: nat) {
    && i < |files| && FileAt(files, files[i]) == Some(i)
    && dir < files[i] <= dir + cs
    && forall n :: |dir| < n < |files[i]| ==> files[i][..n] !in files
  }

  lemma ReachedNow(files: Files, dir: seq<string>, cs: seq<string>, i: nat)
    requires cs != [] && dir + [cs[0]] in files
    ensures Reached(files, dir, cs, i) <==> FileAt(files, dir + [cs[0]]) == Some(i)
  {
    var child := dir + [cs[0]];
    assert child + cs[1..] == dir + cs;
    if Reached(files, dir, cs, i) {
      assert files[i][..|child|] == (dir + cs)[..|child|] == child;
      if |files[i]| > |child| {
        assert false;
      }
      assert files[i] == child;
    }
  }

  lemma ReachedLater(files: Files, dir: seq<string>, cs: seq<string>, i: nat)
    requires cs != [] && dir + [cs[0]] !in files
    ensures Reached(files, dir, cs, i) <==> Reached(files, dir + [cs[0]], cs[1..], i)
    ensures Reached(files, dir, cs, i) ==> HasBelow(files, dir + [cs[0]])
  {
    var child := dir + [cs[0]];
    assert child + cs[1..] == dir + cs;
    if Reached(files, dir, cs, i) {
      assert files[i][..|child|] == (dir + cs)[..|child|] == child;
      assert files[i] != child;
      assert child < files[i];
    }
    if Reached(files, child, cs[1..], i) {
      assert dir < child;
      assert files[i][..|child|] == child;
    }
  }

  /** A walk ends at a file exactly if the file is the one reached: there is one walk to each file that
      no other file hides, and whatever is appended to it ends at the same file. */
  lemma {:induction false} FollowReachesIff(files: Files, dir: seq<string>, cs: seq<string>, i: nat)
    ensures Follow(files, dir, cs) == File(i) <==> Reached(files, dir, cs, i)
    decreases |cs|
  {
    if cs == [] {
      assert dir + cs == dir;
    } else {
      var child := dir + [cs[0]];
      if child in files {
        ReachedNow(files, dir, cs, i);
      } else {
        ReachedLater(files, dir, cs, i);
        FollowReachesIff(files, child, cs[1..], i);
      }
    }
  }

  /** What opens under a torrent's title and any components: the last file of a path that is, or
      begins, those components and has no other file among its directory parts. The title may be any
      string. */
  lemma OpensExactly(files: Files, title: string, cs: seq<string>, i: nat)
    requires PlainFiles(files) && Plain(cs) && cs != []
    ensures Open(Paths(files), [], title, title + "/" + Join(cs)) == File(i) <==>
              && i < |files| && FileAt(files, files[i]) == Some(i)
              && files[i] <= cs
              && forall n :: 0 < n < |files[i]| ==> files[i][..n] !in files
  {
    JoinEnds(cs);
    OwnTrimmedSlash(title, Join(cs));
    WalkFollows(files, [], cs);
    FollowReachesIff(files, [], cs, i);
    assert [] + cs == cs;
  }

  /** A slash at the end makes no difference, and the title alone, with a slash or without, is the
      torrent's own directory. */
  lemma TrailingSlash(paths: seq<string>, title: string, cs: seq<string>)
    requires Plain(cs) && cs != []
    ensures Open(paths, [], title, title + "/" + Join(cs) + "/") == Open(paths, [], title, title + "/" + Join(cs))
    ensures Open(paths, [], title, title) == Open(paths, [], title, title + "/") == Directory([])
  {
    JoinEnds(cs);
    OwnTrimmedSlash(title, Join(cs));
    OwnTrimmedTwice(title, Join(cs));
    OwnTrimmedSlash(title, "");
    assert title + "/" + "" == title + "/";
    assert TrimPrefix(title, title) == "";
  }

  lemma OwnTrimmedTwice(name: string, t: string)
    requires t != "" && t[0] != '/' && t[|t| - 1] != '/'
    ensures OwnTrimmed(name, name + "/" + t + "/") == t
  {
    var path := name + "/" + t + "/";
    assert name <= path && path[|name|..] == "/" + t + "/";
    var s := "/" + t + "/";
    assert s[|s| - 1] == '/' && s[..|s| - 1] == "/" + t;
    assert ("/" + t)[1..] == t;
  }

  /** A file opens by its own path exactly when no proper directory part of the path is a file of the
      torrent too. */
  lemma OpenReachesIff(files: Files, title: string, cs: seq<string>, i: nat)
    requires PlainFiles(files) && FileAt(files, cs) == Some(i)
    ensures Open(Paths(files), [], title, title + "/" + Join(cs)) == File(i)
            <==> forall n :: 0 < n < |cs| ==> cs[..n] !in files
  {
    OpensExactly(files, title, cs, i);
  }

  /** A file that opens by its own path opens by that path with any components appended. */
  lemma AppendedPathOpens(files: Files, title: string, cs: seq<string>, more: seq<string>, i: nat)
    requires PlainFiles(files) && Plain(more) && FileAt(files, cs) == Some(i)
    ensures Open(Paths(files), [], title, title + "/" + Join(cs + more)) == File(i)
            <==> Open(Paths(files), [], title, title + "/" + Join(cs)) == File(i)
  {
    OpensExactly(files, title, cs, i);
    OpensExactly(files, title, cs + more, i);
  }

  /** So the path that opens a file need not be the path of any file. */
  lemma NoFileOpens()
    ensures Open(Paths([["a"]]), [], "t", "t" + "/" + Join(["a", "x"])) == File(0)
    ensures ["a", "x"] !in [["a"]]
  {
    var files: Files := [["a"]];
    assert files[..0] == [];
    assert FileAt(files, ["a"]) == Some(0);
    assert Plain(["a"]) && Plain(["x"]);
    OpenReachesIff(files, "t", ["a"], 0);
    AppendedPathOpens(files, "t", ["a"], ["x"], 0);
    assert ["a"] + ["x"] == ["a", "x"];
    assert |["a", "x"]| != |["a"]|;
  }

  /** With distinct paths, none of them a directory part of another, every file of the torrent is
      reached by its path. */
  lemma EveryFileIsReached(files: Files, title: string, i: nat)
    requires PlainFiles(files) && i < |files|
    requires forall j, k :: 0 <= j < |files| && 0 <= k < |files| && files[j] <= files[k] ==> j == k
    ensures Open(Paths(files), [], title, title + "/" + Join(files[i])) == File(i)
  {
    var cs := files[i];
    var at := FileAt(files, cs).value;
    assert files[at] <= files[i];
    OpenReachesIff(files, title, cs, i);
    assert forall j :: 0 <= j < |files| && files[j] <= files[i] ==> files[j] == cs;
    forall n | 0 < n < |cs| ensures cs[..n] !in files {
      assert cs[..n] <= cs && cs[..n] != cs;
    }
  }
}
