/** SSH host discovery: following `Include`s through a file graph that may be cyclic, and
    merging what it finds with `hosts.toml`. */
module HostDiscovery {
  import opened Options
  import opened Text
  import opened SshConfigLine

  datatype Path = Path(text: string)

  /** What the traversal can see of the file system: directories with their entries in
      sorted order, regular files with their canonical paths, the text lines of the readable
      files, and what an include value in a given file expands to (tilde, relative
      directory and glob resolved). */
  datatype Fs = Fs(dirs: map<Path, seq<Path>>, canonical: map<Path, Path>,
                   lines: map<Path, seq<string>>, expansions: map<(Path, string), seq<Path>>)

  datatype Source = KmuxHostsToml | OpenSshConfig(path: Path)

  datatype Host = Host(alias: string, user: Option<string>, hostname: Option<string>, port: Option<nat>,
                       source: Source)

  /** No path is a directory and a regular file at once. */
  predicate Sane(fs: Fs) {
    forall p :: p in fs.dirs ==> p !in fs.canonical
  }

  /** The regular files that visiting `p` looks at: itself, or a directory's own files. */
  function FilesAt(fs: Fs, p: Path): (r: seq<Path>)
    ensures forall f :: f in r ==> f in fs.canonical
  {
    if p in fs.dirs then RegularFiles(fs, fs.dirs[p]) else if p in fs.canonical then [p] else []
  }

  function RegularFiles(fs: Fs, ps: seq<Path>): (r: seq<Path>)
    ensures forall p :: p in r <==> p in ps && p in fs.canonical
  {
    if ps == [] then [] else (if ps[0] in fs.canonical then [ps[0]] else []) + RegularFiles(fs, ps[1..])
  }

  /** The regular files at several paths, in order. */
  function AllFiles(fs: Fs, ps: seq<Path>): (r: seq<Path>)
    ensures forall f :: f in r ==> f in fs.canonical
  {
    if ps == [] then [] else FilesAt(fs, ps[0]) + AllFiles(fs, ps[1..])
  }

  function Lines(fs: Fs, file: Path): seq<string> {
    if file in fs.lines then fs.lines[file] else []
  }

  function ExpandOne(fs: Fs, file: Path, value: string): seq<Path> {
    if (file, value) in fs.expansions then fs.expansions[(file, value)] else []
  }

  function Expand(fs: Fs, file: Path, values: seq<string>): seq<Path> {
    if values == [] then [] else ExpandOne(fs, file, values[0]) + Expand(fs, file, values[1..])
  }

  /** The files that line `i` of `file` includes. */
  function Targets(fs: Fs, file: Path, i: nat): (r: seq<Path>)
    requires i < |Lines(fs, file)|
    ensures forall f :: f in r ==> f in fs.canonical
  {
    var d := Classify(Lines(fs, file)[i]);
    if d.Include? then AllFiles(fs, Expand(fs, file, d.values)) else []
  }

  function Aliases(fs: Fs, file: Path, i: nat): seq<string>
    requires i < |Lines(fs, file)|
  {
    var d := Classify(Lines(fs, file)[i]);
    if d.HostAliases? then d.aliases else []
  }

  function Entry(alias: string, file: Path): Host {
    Host(alias, None, None, None, OpenSshConfig(file))
  }

  function Entries(aliases: seq<string>, file: Path): (r: seq<Host>)
    ensures |r| == |aliases| && forall i :: 0 <= i < |aliases| ==> r[i] == Entry(aliases[i], file)
  {
    seq(|aliases|, i requires 0 <= i < |aliases| => Entry(aliases[i], file))
  }

  // ----- the traversal

  /** How far a traversal has got: canonical paths visited, files read and entries met, in order. */
  datatype Progress = Progress(visited: set<Path>, files: seq<Path>, hosts: seq<Host>)

  predicate Extends(s: Progress, r: Progress) {
    s.visited <= r.visited && s.files <= r.files && s.hosts <= r.hosts
  }

  function Unvisited(fs: Fs, visited: set<Path>): set<Path> {
    (set p | p in fs.canonical :: fs.canonical[p]) - visited
  }

  function Open(fs: Fs, file: Path, s: Progress): (r: Progress)
    requires file in fs.canonical
    ensures Extends(s, r)
    ensures fs.canonical[file] !in s.visited ==> Unvisited(fs, r.visited) < Unvisited(fs, s.visited)
  {
    assert fs.canonical[file] !in s.visited ==> fs.canonical[file] in Unvisited(fs, s.visited);
    Progress(s.visited + {fs.canonical[file]}, s.files + [file], s.hosts)
  }

  predicate Fresh(fs: Fs, file: Path, s: Progress) {
    file in fs.canonical && fs.canonical[file] !in s.visited
  }

  /** Depth first over `todo`, skipping what was visited. */
  function Traverse(fs: Fs, todo: seq<Path>, s: Progress): (r: Progress)
    ensures Extends(s, r)
    decreases Unvisited(fs, s.visited), 0, |todo|
  {
    if todo == [] then s
    else if !Fresh(fs, todo[0], s) then Traverse(fs, todo[1..], s)
    else
      var t := ReadFrom(fs, todo[0], 0, Open(fs, todo[0], s));
      assert Unvisited(fs, t.visited) <= Unvisited(fs, Open(fs, todo[0], s).visited);
      Traverse(fs, todo[1..], t)
  }

  /** The rest of an open file, from line `i`: includes are followed at their line. */
  function ReadFrom(fs: Fs, file: Path, i: nat, s: Progress): (r: Progress)
    requires i <= |Lines(fs, file)|
    ensures Extends(s, r)
    decreases Unvisited(fs, s.visited), 1, |Lines(fs, file)| - i
  {
    if i == |Lines(fs, file)| then s
    else
      var t := Traverse(fs, Targets(fs, file, i), s);
      assert Unvisited(fs, t.visited) <= Unvisited(fs, s.visited);
      ReadFrom(fs, file, i + 1, t.(hosts := t.hosts + Entries(Aliases(fs, file, i), file)))
  }

  const Nothing := Progress({}, [], [])

  /** The traversal of the files `roots`, from nothing. */
  function Whole(fs: Fs, roots: seq<Path>): Progress {
    Traverse(fs, roots, Nothing)
  }

  /** Everything met in the files at `paths`, in the order of the traversal. */
  function Met(fs: Fs, paths: seq<Path>): seq<Host> {
    Whole(fs, AllFiles(fs, paths)).hosts
  }

  lemma {:induction false} TraverseConcat(fs: Fs, a: seq<Path>, b: seq<Path>, s: Progress)
    ensures Traverse(fs, a + b, s) == Traverse(fs, b, Traverse(fs, a, s))
    decreases |a|
  {
    hide ReadFrom;
    if a == [] {
      assert a + b == b;
    } else {
      assert (a + b)[0] == a[0] && (a + b)[1..] == a[1..] + b;
      TraverseConcat(fs, a[1..], b, if !Fresh(fs, a[0], s) then s else ReadFrom(fs, a[0], 0, Open(fs, a[0], s)));
    }
  }

  lemma TraverseOne(fs: Fs, file: Path, s: Progress)
    ensures Traverse(fs, [file], s) == if Fresh(fs, file, s) then ReadFrom(fs, file, 0, Open(fs, file, s)) else s
  {
    hide ReadFrom;
    var r := if Fresh(fs, file, s) then ReadFrom(fs, file, 0, Open(fs, file, s)) else s;
    assert [file][1..] == [];
    assert Traverse(fs, [], r) == r;
  }

  lemma {:induction false} AllFilesConcat(fs: Fs, a: seq<Path>, b: seq<Path>)
    ensures AllFiles(fs, a + b) == AllFiles(fs, a) + AllFiles(fs, b)
  {
    if a == [] {
      assert a + b == b;
    } else {
      assert (a + b)[0] == a[0] && (a + b)[1..] == a[1..] + b;
      AllFilesConcat(fs, a[1..], b);
    }
  }

  lemma AllFilesOne(fs: Fs, p: Path)
    ensures AllFiles(fs, [p]) == FilesAt(fs, p)
  {
    hide FilesAt;
    assert [p][1..] == [];
    assert AllFiles(fs, []) == [];
  }

  /** The regular files of a directory come in the order of its entries. */
  lemma RegularFilesOrder(fs: Fs, p: Path, ps: seq<Path>)
    ensures RegularFiles(fs, [p] + ps) == (if p in fs.canonical then [p] else []) + RegularFiles(fs, ps)
    ensures RegularFiles(fs, []) == []
  {
    assert ([p] + ps)[1..] == ps;
  }

  lemma {:induction false} ExpandConcat(fs: Fs, file: Path, a: seq<string>, b: seq<string>)
    ensures Expand(fs, file, a + b) == Expand(fs, file, a) + Expand(fs, file, b)
  {
    if a == [] {
      assert a + b == b;
    } else {
      assert (a + b)[0] == a[0] && (a + b)[1..] == a[1..] + b;
      ExpandConcat(fs, file, a[1..], b);
    }
  }

  // ----- the code

  class Discovery {
    var visited: set<Path>
    var hosts: seq<Host>
    ghost var files: seq<Path>  // the files read so far, in order

    ghost function State(): Progress
      reads this
    {
      Progress(visited, files, hosts)
    }

    constructor (found: seq<Host>)
      ensures State() == Progress({}, [], found)
    {
      visited, hosts, files := {}, found, [];
    }

    /** `parse_openssh_config`. It ends on every include graph: each file it goes into is
        one whose canonical path was not visited before. */
    method Parse(fs: Fs, path: Path)
      requires Sane(fs)
      modifies this
      ensures State() == Traverse(fs, FilesAt(fs, path), old(State()))
      decreases Unvisited(fs, visited), if path in fs.dirs then 1 else 0
    {
      hide Traverse, ReadFrom, RegularFiles;
      if path in fs.dirs {
        var children := RegularFiles(fs, fs.dirs[path]);
        EmptyTraverse(fs, State());
        for i := 0 to |children|
          invariant State() == Traverse(fs, children[..i], old(State()))
        {
          assert children[i] in children;
          assert children[..i + 1] == children[..i] + [children[i]];
          TraverseConcat(fs, children[..i], [children[i]], old(State()));
          Parse(fs, children[i]);
        }
        assert children[..|children|] == children;
        return;
      }
      if path !in fs.canonical {
        EmptyTraverse(fs, State());
        return;
      }
      TraverseOne(fs, path, State());
      if fs.canonical[path] in visited { return; }
      visited := visited + {fs.canonical[path]};
      files := files + [path];
      ReadLines(fs, path);
    }

    /** The loop over the lines of a file that has just been opened. */
    method ReadLines(fs: Fs, path: Path)
      requires Sane(fs)
      modifies this
      ensures State() == ReadFrom(fs, path, 0, old(State()))
      decreases Unvisited(fs, visited), 4
    {
      hide Traverse, Targets, Aliases;
      var lines := Lines(fs, path);
      for i := 0 to |lines|
        invariant old(visited) <= visited
        invariant ReadFrom(fs, path, i, State()) == ReadFrom(fs, path, 0, old(State()))
      {
        FollowIncludes(fs, path, i);
        hosts := hosts + Entries(Aliases(fs, path, i), path);
      }
    }

    /** The include loops of one line. */
    method FollowIncludes(fs: Fs, path: Path, i: nat)
      requires Sane(fs) && i < |Lines(fs, path)|
      modifies this
      ensures State() == Traverse(fs, Targets(fs, path, i), old(State()))
      decreases Unvisited(fs, visited), 3
    {
      hide Traverse, Classify, FilesAt;
      EmptyTraverse(fs, State());
      var d := Classify(Lines(fs, path)[i]);
      if !d.Include? { return; }
      for j := 0 to |d.values|
        invariant old(visited) <= visited
        invariant State() == Traverse(fs, AllFiles(fs, Expand(fs, path, d.values[..j])), old(State()))
      {
        FollowOne(fs, path, d.values[j]);
        NextValue(fs, path, d.values, j, old(State()));
      }
      assert d.values[..|d.values|] == d.values;
    }

    method FollowOne(fs: Fs, path: Path, value: string)
      requires Sane(fs)
      modifies this
      ensures State() == Traverse(fs, AllFiles(fs, ExpandOne(fs, path, value)), old(State()))
      decreases Unvisited(fs, visited), 2
    {
      hide Traverse, FilesAt, ExpandOne;
      var ts := ExpandOne(fs, path, value);
      EmptyTraverse(fs, State());
      for j := 0 to |ts|
        invariant old(visited) <= visited
        invariant State() == Traverse(fs, AllFiles(fs, ts[..j]), old(State()))
      {
        Parse(fs, ts[j]);
        NextPath(fs, ts, j, old(State()));
      }
      assert ts[..|ts|] == ts;
    }
  }

  lemma EmptyTraverse(fs: Fs, s: Progress)
    ensures Traverse(fs, [], s) == s
  {}

  lemma NextPath(fs: Fs, ts: seq<Path>, j: nat, s: Progress)
    requires j < |ts|
    ensures Traverse(fs, AllFiles(fs, ts[..j + 1]), s)
         == Traverse(fs, FilesAt(fs, ts[j]), Traverse(fs, AllFiles(fs, ts[..j]), s))
  {
    hide Traverse, FilesAt;
    assert ts[..j + 1] == ts[..j] + [ts[j]];
    AllFilesConcat(fs, ts[..j], [ts[j]]);
    AllFilesOne(fs, ts[j]);
    TraverseConcat(fs, AllFiles(fs, ts[..j]), FilesAt(fs, ts[j]), s);
  }

  lemma NextValue(fs: Fs, file: Path, values: seq<string>, j: nat, s: Progress)
    requires j < |values|
    ensures Traverse(fs, AllFiles(fs, Expand(fs, file, values[..j + 1])), s)
         == Traverse(fs, AllFiles(fs, ExpandOne(fs, file, values[j])),
                     Traverse(fs, AllFiles(fs, Expand(fs, file, values[..j])), s))
  {
    hide Traverse, FilesAt, ExpandOne, AllFiles;
    assert values[..j + 1] == values[..j] + [values[j]];
    ExpandConcat(fs, file, values[..j], [values[j]]);
    assert Expand(fs, file, [values[j]]) == ExpandOne(fs, file, values[j]) by { assert [values[j]][1..] == []; }
    AllFilesConcat(fs, Expand(fs, file, values[..j]), ExpandOne(fs, file, values[j]));
    TraverseConcat(fs, AllFiles(fs, Expand(fs, file, values[..j])), AllFiles(fs, ExpandOne(fs, file, values[j])), s);
  }

  // ----- the include graph

  /** Some line of `file` names `a` as an explicit host alias. */
  ghost predicate HasAlias(fs: Fs, file: Path, a: string) {
    exists i :: 0 <= i < |Lines(fs, file)| && a in Aliases(fs, file, i)
  }

  /** Some line of `file` includes the regular file `f`. */
  ghost predicate Includes(fs: Fs, file: Path, f: Path) {
    exists i :: 0 <= i < |Lines(fs, file)| && f in Targets(fs, file, i)
  }

  ghost predicate IncludeChain(fs: Fs, c: seq<Path>) {
    c != [] && forall i :: 0 <= i < |c| - 1 ==> Includes(fs, c[i], c[i + 1])
  }

  ghost predicate ChainFrom(fs: Fs, roots: seq<Path>, c: seq<Path>, f: Path) {
    IncludeChain(fs, c) && c[0] in roots && c[|c| - 1] == f
  }

  /** A chain of includes leads from one of the files `roots` to `f`. */
  ghost predicate Leads(fs: Fs, roots: seq<Path>, f: Path) {
    exists c :: ChainFrom(fs, roots, c, f)
  }

  lemma LeadsStart(fs: Fs, roots: seq<Path>, f: Path)
    requires f in roots
    ensures Leads(fs, roots, f)
  {
    assert ChainFrom(fs, roots, [f], f);
  }

  lemma LeadsMore(fs: Fs, roots: seq<Path>, more: seq<Path>, f: Path)
    requires Leads(fs, roots, f) && forall g :: g in roots ==> g in more
    ensures Leads(fs, more, f)
  {
    hide IncludeChain;
    var c :| ChainFrom(fs, roots, c, f);
    assert ChainFrom(fs, more, c, f);
  }

  lemma LeadsThrough(fs: Fs, file: Path, i: nat, f: Path)
    requires i < |Lines(fs, file)| && Leads(fs, Targets(fs, file, i), f)
    ensures Leads(fs, [file], f)
  {
    hide Targets;
    var c :| ChainFrom(fs, Targets(fs, file, i), c, f);
    var d := [file] + c;
    assert Includes(fs, file, c[0]);
    forall k | 0 <= k < |d| - 1 ensures Includes(fs, d[k], d[k + 1]) {
      if k > 0 { assert d[k] == c[k - 1] && d[k + 1] == c[k - 1 + 1]; }
    }
    assert ChainFrom(fs, [file], d, f);
  }

  // ----- what a traversal has done

  /** All that line `i` of `file` says has been dealt with. */
  ghost predicate LineDone(fs: Fs, r: Progress, file: Path, i: nat)
    requires i < |Lines(fs, file)|
  {
    && (forall a :: a in Aliases(fs, file, i) ==> Entry(a, file) in r.hosts)
    && (forall f :: f in Targets(fs, file, i) ==> fs.canonical[f] in r.visited)
  }

  ghost predicate Done(fs: Fs, r: Progress, file: Path) {
    forall i :: 0 <= i < |Lines(fs, file)| ==> LineDone(fs, r, file, i)
  }

  lemma DoneStays(fs: Fs, s: Progress, r: Progress, file: Path)
    requires Extends(s, r)
    ensures forall i :: 0 <= i < |Lines(fs, file)| && LineDone(fs, s, file, i) ==> LineDone(fs, r, file, i)
    ensures Done(fs, s, file) ==> Done(fs, r, file)
  {
    hide Aliases, Targets;
  }

  /** `h` is an explicit alias of one of `files`, with nothing but its alias and source. */
  ghost predicate FoundIn(fs: Fs, h: Host, files: seq<Path>) {
    && h.source.OpenSshConfig? && h.user.None? && h.hostname.None? && h.port.None?
    && h.source.path in files && HasAlias(fs, h.source.path, h.alias)
  }

  /** Between `s` and `r` only files that `roots` lead to were read, all of what they say was dealt
      with, and only what they say was met. */
  ghost predicate Explored(fs: Fs, roots: seq<Path>, s: Progress, r: Progress) {
    && (forall f :: f in r.files ==> f in s.files || (Leads(fs, roots, f) && Done(fs, r, f)))
    && (forall h :: h in r.hosts ==> h in s.hosts || FoundIn(fs, h, r.files))
  }

  lemma ExploredThen(fs: Fs, a: seq<Path>, b: seq<Path>, roots: seq<Path>, s: Progress, t: Progress, r: Progress)
    requires Extends(s, t) && Extends(t, r) && Explored(fs, a, s, t) && Explored(fs, b, t, r)
    requires forall f :: Leads(fs, a, f) || Leads(fs, b, f) ==> Leads(fs, roots, f)
    ensures Explored(fs, roots, s, r)
  {
    hide Leads, Done, HasAlias;
    forall f | f in t.files && Done(fs, t, f) ensures Done(fs, r, f) { DoneStays(fs, t, r, f); }
  }

  /** The files read are those visited, none of them twice. */
  ghost predicate ReadOnce(fs: Fs, s: Progress) {
    && (forall f :: f in s.files ==> f in fs.canonical && fs.canonical[f] in s.visited)
    && (forall c :: c in s.visited ==> exists f :: f in s.files && f in fs.canonical && fs.canonical[f] == c)
    && DifferentFiles(fs, s.files)
  }

  /** No two paths name the same file. */
  ghost predicate DifferentFiles(fs: Fs, files: seq<Path>) {
    && (forall k :: 0 <= k < |files| ==> files[k] in fs.canonical)
    && (forall j, k :: 0 <= j < k < |files| ==> fs.canonical[files[j]] != fs.canonical[files[k]])
  }

  lemma OpenOnce(fs: Fs, file: Path, s: Progress)
    requires ReadOnce(fs, s) && Fresh(fs, file, s)
    ensures ReadOnce(fs, Open(fs, file, s))
  {
    var r := Open(fs, file, s);
    assert r.files[|s.files|] == file && forall k :: 0 <= k < |s.files| ==> r.files[k] == s.files[k];
    assert forall k :: 0 <= k < |s.files| ==> s.files[k] in s.files;
  }

  lemma {:induction false} TraverseOnce(fs: Fs, todo: seq<Path>, s: Progress)
    requires ReadOnce(fs, s)
    ensures ReadOnce(fs, Traverse(fs, todo, s))
    decreases Unvisited(fs, s.visited), 0, |todo|
  {
    hide ReadFrom, ReadOnce, Open;
    if todo != [] {
      if Fresh(fs, todo[0], s) {
        var t := Open(fs, todo[0], s);
        OpenOnce(fs, todo[0], s);
        ReadFromOnce(fs, todo[0], 0, t);
        var u := ReadFrom(fs, todo[0], 0, t);
        assert Unvisited(fs, u.visited) <= Unvisited(fs, t.visited);
        TraverseOnce(fs, todo[1..], u);
      } else {
        TraverseOnce(fs, todo[1..], s);
      }
    }
  }

  lemma {:induction false} ReadFromOnce(fs: Fs, file: Path, i: nat, s: Progress)
    requires ReadOnce(fs, s) && i <= |Lines(fs, file)|
    ensures ReadOnce(fs, ReadFrom(fs, file, i, s))
    decreases Unvisited(fs, s.visited), 1, |Lines(fs, file)| - i
  {
    hide Traverse, ReadOnce, Targets, Aliases;
    if i < |Lines(fs, file)| {
      TraverseOnce(fs, Targets(fs, file, i), s);
      var t := Traverse(fs, Targets(fs, file, i), s);
      var u := t.(hosts := t.hosts + Entries(Aliases(fs, file, i), file));
      OnceWhateverMet(fs, t, u);
      assert Unvisited(fs, u.visited) <= Unvisited(fs, s.visited);
      ReadFromOnce(fs, file, i + 1, u);
    }
  }

  lemma OnceWhateverMet(fs: Fs, t: Progress, u: Progress)
    requires ReadOnce(fs, t) && u.visited == t.visited && u.files == t.files
    ensures ReadOnce(fs, u)
  {}

  /** A traversal explores its roots, and leaves every one of them visited. */
  lemma {:induction false} TraverseExplores(fs: Fs, todo: seq<Path>, s: Progress)
    ensures Explored(fs, todo, s, Traverse(fs, todo, s))
    ensures forall f :: f in todo && f in fs.canonical ==> fs.canonical[f] in Traverse(fs, todo, s).visited
    decreases Unvisited(fs, s.visited), 0, |todo|
  {
    hide ReadFrom, Explored;
    ExploredSelf(fs, todo, s);
    if todo != [] {
      var file, rest := todo[0], todo[1..];
      assert forall f :: f in todo ==> f == file || f in rest;
      if Fresh(fs, file, s) {
        var t := Open(fs, file, s);
        var u := ReadFrom(fs, file, 0, t);
        ReadFromExplores(fs, file, 0, t);
        OpenExplores(fs, file, s, u);
        assert Unvisited(fs, u.visited) <= Unvisited(fs, t.visited);
        TraverseExplores(fs, rest, u);
        HeadOrRest(fs, todo);
        ExploredThen(fs, [file], rest, todo, s, u, Traverse(fs, todo, s));
      } else {
        TraverseExplores(fs, rest, s);
        HeadOrRest(fs, todo);
        ExploredThen(fs, rest, rest, todo, s, s, Traverse(fs, todo, s)) by { ExploredSelf(fs, rest, s); }
      }
    }
  }

  lemma ExploredSelf(fs: Fs, roots: seq<Path>, s: Progress)
    ensures Explored(fs, roots, s, s)
  {}

  lemma HeadOrRest(fs: Fs, todo: seq<Path>)
    requires todo != []
    ensures forall f :: Leads(fs, [todo[0]], f) || Leads(fs, todo[1..], f) ==> Leads(fs, todo, f)
  {
    hide Leads;
    forall f | Leads(fs, [todo[0]], f) || Leads(fs, todo[1..], f) ensures Leads(fs, todo, f) {
      LeadsMore(fs, if Leads(fs, [todo[0]], f) then [todo[0]] else todo[1..], todo, f);
    }
  }

  lemma OpenExplores(fs: Fs, file: Path, s: Progress, u: Progress)
    requires file in fs.canonical && Extends(Open(fs, file, s), u)
    requires Explored(fs, [file], Open(fs, file, s), u) && Done(fs, u, file)
    ensures Explored(fs, [file], s, u)
  {
    hide Leads, Done, FoundIn;
    LeadsStart(fs, [file], file);
  }

  lemma {:induction false} ReadFromExplores(fs: Fs, file: Path, i: nat, s: Progress)
    requires i <= |Lines(fs, file)| && file in s.files
    ensures Explored(fs, [file], s, ReadFrom(fs, file, i, s))
    ensures forall j :: i <= j < |Lines(fs, file)| ==> LineDone(fs, ReadFrom(fs, file, i, s), file, j)
    decreases Unvisited(fs, s.visited), 1, |Lines(fs, file)| - i
  {
    hide Traverse, Explored, Targets, Aliases;
    if i == |Lines(fs, file)| {
      ExploredSelf(fs, [file], s);
    } else {
      var t := Traverse(fs, Targets(fs, file, i), s);
      var u := t.(hosts := t.hosts + Entries(Aliases(fs, file, i), file));
      var r := ReadFrom(fs, file, i, s);
      TraverseExplores(fs, Targets(fs, file, i), s);
      LineExplores(fs, file, i, s, t);
      assert Unvisited(fs, u.visited) <= Unvisited(fs, s.visited);
      ReadFromExplores(fs, file, i + 1, u);
      DoneStays(fs, u, r, file);
      ExploredThen(fs, [file], [file], [file], s, u, r);
    }
  }

  lemma LineExplores(fs: Fs, file: Path, i: nat, s: Progress, t: Progress)
    requires i < |Lines(fs, file)| && file in s.files && Extends(s, t)
    requires Explored(fs, Targets(fs, file, i), s, t)
    requires forall f :: f in Targets(fs, file, i) && f in fs.canonical ==> fs.canonical[f] in t.visited
    ensures var u := t.(hosts := t.hosts + Entries(Aliases(fs, file, i), file));
      Explored(fs, [file], s, u) && LineDone(fs, u, file, i)
  {
    hide Leads, Done, Targets, Aliases;
    var es := Entries(Aliases(fs, file, i), file);
    var u := t.(hosts := t.hosts + es);
    forall f | f in t.files && f !in s.files ensures Leads(fs, [file], f) && Done(fs, u, f) {
      LeadsThrough(fs, file, i, f);
      DoneStays(fs, t, u, f);
    }
    forall h | h in es ensures FoundIn(fs, h, u.files) {
      assert HasAlias(fs, file, h.alias);
    }
    forall a | a in Aliases(fs, file, i) ensures Entry(a, file) in es {
      var k :| 0 <= k < |Aliases(fs, file, i)| && Aliases(fs, file, i)[k] == a;
      assert es[k] == Entry(a, file);
    }
  }

  /** What was met before a traversal has no influence on it. */
  lemma {:induction false} TraverseFrame(fs: Fs, todo: seq<Path>, s: Progress, pre: seq<Host>)
    ensures var r := Traverse(fs, todo, s);
      Traverse(fs, todo, s.(hosts := pre + s.hosts)) == r.(hosts := pre + r.hosts)
    decreases Unvisited(fs, s.visited), 0, |todo|
  {
    hide ReadFrom;
    if todo != [] {
      if Fresh(fs, todo[0], s) {
        var t := Open(fs, todo[0], s);
        ReadFromFrame(fs, todo[0], 0, t, pre);
        var u := ReadFrom(fs, todo[0], 0, t);
        assert Unvisited(fs, u.visited) <= Unvisited(fs, t.visited);
        TraverseFrame(fs, todo[1..], u, pre);
      } else {
        TraverseFrame(fs, todo[1..], s, pre);
      }
    }
  }

  lemma {:induction false} ReadFromFrame(fs: Fs, file: Path, i: nat, s: Progress, pre: seq<Host>)
    requires i <= |Lines(fs, file)|
    ensures var r := ReadFrom(fs, file, i, s);
      ReadFrom(fs, file, i, s.(hosts := pre + s.hosts)) == r.(hosts := pre + r.hosts)
    decreases Unvisited(fs, s.visited), 1, |Lines(fs, file)| - i
  {
    hide Traverse, Targets, Aliases;
    if i < |Lines(fs, file)| {
      TraverseFrame(fs, Targets(fs, file, i), s, pre);
      var t := Traverse(fs, Targets(fs, file, i), s);
      var es := Entries(Aliases(fs, file, i), file);
      assert pre + t.hosts + es == pre + (t.hosts + es);
      assert Unvisited(fs, t.visited) <= Unvisited(fs, s.visited);
      ReadFromFrame(fs, file, i + 1, t.(hosts := t.hosts + es), pre);
    }
  }

  // ----- completeness

  /** `file` includes `f`, perhaps by another path. */
  ghost predicate IncludesToo(fs: Fs, file: Path, f: Path) {
    exists g :: Includes(fs, file, g) && g in fs.canonical && f in fs.canonical && fs.canonical[g] == fs.canonical[f]
  }

  ghost predicate SameFile(fs: Fs, p: Path, q: Path) {
    p in fs.canonical && q in fs.canonical && fs.canonical[p] == fs.canonical[q]
  }

  /** Among the files that `roots` lead to, paths that name the same file agree on what it says: on
      its aliases, and on which files (up to canonical path) it includes. */
  ghost predicate Consistent(fs: Fs, roots: seq<Path>) {
    forall p, q :: Leads(fs, roots, p) && Leads(fs, roots, q) && SameFile(fs, p, q) ==> Agree(fs, p, q)
  }

  ghost predicate Agree(fs: Fs, p: Path, q: Path) {
    && (forall a :: HasAlias(fs, p, a) ==> HasAlias(fs, q, a))
    && (forall f :: Includes(fs, p, f) ==> IncludesToo(fs, q, f))
  }

  lemma WholeDone(fs: Fs, roots: seq<Path>)
    ensures var r := Whole(fs, roots);
      && ReadOnce(fs, r)
      && (forall f :: f in r.files ==> Leads(fs, roots, f) && Done(fs, r, f))
      && (forall h :: h in r.hosts ==> FoundIn(fs, h, r.files))
      && (forall f :: f in roots && f in fs.canonical ==> fs.canonical[f] in r.visited)
  {
    hide Traverse, Leads, Done, FoundIn;
    TraverseOnce(fs, roots, Nothing);
    TraverseExplores(fs, roots, Nothing);
  }

  /** The path by which a visited file was read. */
  lemma ReadAs(fs: Fs, roots: seq<Path>, f: Path) returns (g: Path)
    requires f in fs.canonical && fs.canonical[f] in Whole(fs, roots).visited
    ensures SameFile(fs, f, g) && Leads(fs, roots, g) && Done(fs, Whole(fs, roots), g)
  {
    hide Whole, Leads, Done, FoundIn;
    WholeDone(fs, roots);
    g :| g in Whole(fs, roots).files && g in fs.canonical && fs.canonical[g] == fs.canonical[f];
  }

  /** What a visited file includes is visited, whichever of its paths we look at. */
  lemma IncludeVisited(fs: Fs, roots: seq<Path>, p: Path, f: Path)
    requires Consistent(fs, roots) && Leads(fs, roots, p) && Includes(fs, p, f)
    requires p in fs.canonical && fs.canonical[p] in Whole(fs, roots).visited
    ensures f in fs.canonical && fs.canonical[f] in Whole(fs, roots).visited
  {
    hide Whole, Leads, HasAlias, Targets, Aliases;
    var q := ReadAs(fs, roots, p);
    assert Agree(fs, p, q);
    assert IncludesToo(fs, q, f);
    var g :| Includes(fs, q, g) && g in fs.canonical && f in fs.canonical && fs.canonical[g] == fs.canonical[f];
    var i :| 0 <= i < |Lines(fs, q)| && g in Targets(fs, q, i);
    assert LineDone(fs, Whole(fs, roots), q, i);
  }

  /** Every file a chain of includes leads to is visited. */
  lemma {:induction false} ChainVisited(fs: Fs, roots: seq<Path>, c: seq<Path>)
    requires Consistent(fs, roots) && IncludeChain(fs, c) && c[0] in roots && c[0] in fs.canonical
    ensures c[|c| - 1] in fs.canonical && fs.canonical[c[|c| - 1]] in Whole(fs, roots).visited
    decreases |c|
  {
    hide Includes, Whole, Consistent;
    if |c| == 1 {
      WholeDone(fs, roots);
    } else {
      var n := |c| - 1;
      var d := c[..n];
      forall i | 0 <= i < |d| - 1 ensures Includes(fs, d[i], d[i + 1]) { assert Includes(fs, c[i], c[i + 1]); }
      ChainVisited(fs, roots, d);
      assert ChainFrom(fs, roots, d, c[n - 1]);
      assert Includes(fs, c[n - 1], c[n - 1 + 1]);
      IncludeVisited(fs, roots, c[n - 1], c[n]);
    }
  }

  /** All aliases of all reachable files are met, provided paths naming the same file agree. */
  lemma AliasesFound(fs: Fs, roots: seq<Path>, f: Path, a: string)
    requires Consistent(fs, roots) && forall g :: g in roots ==> g in fs.canonical
    requires Leads(fs, roots, f) && HasAlias(fs, f, a)
    ensures exists h :: h in Whole(fs, roots).hosts && h.alias == a
  {
    hide Whole, Targets, Aliases, IncludesToo, Includes, IncludeChain;
    var c :| ChainFrom(fs, roots, c, f);
    ChainVisited(fs, roots, c);
    var g := ReadAs(fs, roots, f);
    assert Agree(fs, f, g);
    var i :| 0 <= i < |Lines(fs, g)| && a in Aliases(fs, g, i);
    assert LineDone(fs, Whole(fs, roots), g, i);
    assert Entry(a, g) in Whole(fs, roots).hosts;
  }

  // ----- merging

  predicate Sorted(hosts: seq<Host>) {
    forall i, j :: 0 <= i < j < |hosts| ==> Less(hosts[i].alias, hosts[j].alias)
  }

  function InsertSorted(h: Host, hosts: seq<Host>): (r: seq<Host>)
    requires Sorted(hosts) && forall x :: x in hosts ==> x.alias != h.alias
    ensures Sorted(r) && forall x :: x in r <==> x == h || x in hosts
  {
    if hosts == [] then [h]
    else
      LessTotal(h.alias, hosts[0].alias);
      if Less(h.alias, hosts[0].alias) then
        LessAll(h.alias, hosts);
        [h] + hosts
      else
        var rest := InsertSorted(h, hosts[1..]);
        assert forall x :: x in rest ==> Less(hosts[0].alias, x.alias);
        [hosts[0]] + rest
  }

  lemma LessAll(a: string, hosts: seq<Host>)
    requires Sorted(hosts) && hosts != [] && Less(a, hosts[0].alias)
    ensures forall i :: 0 <= i < |hosts| ==> Less(a, hosts[i].alias)
  {
    forall i | 0 < i < |hosts| ensures Less(a, hosts[i].alias) {
      LessTransitive(a, hosts[0].alias, hosts[i].alias);
    }
  }

  /** `h` is the first of `hosts` with its alias. */
  ghost predicate FirstMet(hosts: seq<Host>, h: Host) {
    exists k :: 0 <= k < |hosts| && hosts[k] == h && forall j :: 0 <= j < k ==> hosts[j].alias != h.alias
  }

  /** `dedupe_hosts`: one entry per alias, the first met, in alias order. */
  method Dedupe(hosts: seq<Host>) returns (out: seq<Host>)
    ensures Sorted(out)
    ensures forall h :: h in out <==> FirstMet(hosts, h)
    ensures forall h :: h in hosts ==> exists o :: o in out && o.alias == h.alias
  {
    hide FirstMet;
    var seen: set<string> := {};
    out := [];
    NoneMet();
    for i := 0 to |hosts|
      invariant Sorted(out)
      invariant forall a :: a in seen <==> exists k :: 0 <= k < i && hosts[k].alias == a
      invariant forall h :: h in out <==> FirstMet(hosts[..i], h)
    {
      var h := hosts[i];
      FirstMetStep(hosts, i);
      forall x | x in out ensures x.alias in seen { FirstMetIn(hosts[..i], x); }
      if h.alias !in seen {
        seen := seen + {h.alias};
        out := InsertSorted(h, out);
      }
    }
    assert hosts[..|hosts|] == hosts;
    forall h | h in hosts ensures exists o :: o in out && o.alias == h.alias {
      var o := FirstOf(hosts, h);
    }
  }

  lemma NoneMet()
    ensures forall h :: !FirstMet([], h)
  {}

  lemma FirstMetIn(hosts: seq<Host>, h: Host)
    requires FirstMet(hosts, h)
    ensures h in hosts
  {}

  lemma FirstOf(hosts: seq<Host>, h: Host) returns (o: Host)
    requires h in hosts
    ensures FirstMet(hosts, o) && o.alias == h.alias
  {
    var k := 0;
    while hosts[k].alias != h.alias
      invariant k < |hosts| && h in hosts[k..] && forall j :: 0 <= j < k ==> hosts[j].alias != h.alias
      decreases |hosts| - k
    {
      k := k + 1;
    }
    o := hosts[k];
  }

  lemma FirstMetStep(hosts: seq<Host>, i: nat)
    requires i < |hosts|
    ensures forall h :: FirstMet(hosts[..i + 1], h) <==>
      FirstMet(hosts[..i], h) || (h == hosts[i] && forall j :: 0 <= j < i ==> hosts[j].alias != h.alias)
  {
    var a, b := hosts[..i], hosts[..i + 1];
    assert b[i] == hosts[i] && forall j :: 0 <= j < i ==> a[j] == b[j] == hosts[j];
  }

  // ----- discovery

  /** An entry of the host table of `hosts.toml`. */
  datatype TomlEntry = TomlEntry(alias: string, user: Option<string>, hostname: Option<string>, sshPort: Option<nat>)

  function FromToml(e: TomlEntry): Host {
    Host(e.alias, e.user, e.hostname, e.sshPort, KmuxHostsToml)
  }

  /** Nothing when the table cannot be loaded. */
  function TomlHosts(config: Option<seq<TomlEntry>>): (r: seq<Host>)
    ensures forall h :: h in r ==> h.source.KmuxHostsToml?
  {
    if config.None? then [] else seq(|config.value|, i requires 0 <= i < |config.value| => FromToml(config.value[i]))
  }

  /** `discover_ssh_hosts_with_config`: of the table's entries and then everything the traversal of
      the paths meets, in its order, the first of each alias. `config` is the host table in any
      order, or `None` when it cannot be loaded. */
  method Discover(config: Option<seq<TomlEntry>>, fs: Fs, paths: seq<Path>) returns (out: seq<Host>)
    requires Sane(fs)
    requires config.Some? ==>
      forall i, j :: 0 <= i < j < |config.value| ==> config.value[i].alias != config.value[j].alias
    ensures Sorted(out)
    ensures forall h :: h in out <==> FirstMet(TomlHosts(config) + Met(fs, paths), h)
    ensures config.Some? ==> forall e :: e in config.value ==>
      Host(e.alias, e.user, e.hostname, e.sshPort, KmuxHostsToml) in out
    ensures forall h :: h in out ==> h in TomlHosts(config) || FoundIn(fs, h, Whole(fs, AllFiles(fs, paths)).files)
    ensures Consistent(fs, AllFiles(fs, paths)) ==>
      forall f, a :: Leads(fs, AllFiles(fs, paths), f) && HasAlias(fs, f, a) ==> exists h :: h in out && h.alias == a
  {
    hide Whole, FirstMet, Sorted, AllFiles, Consistent, Leads, HasAlias, FoundIn;
    var hosts := ExploreAll(fs, TomlHosts(config), paths);
    out := Dedupe(hosts);
    if config.Some? {
      forall e | e in config.value ensures Host(e.alias, e.user, e.hostname, e.sshPort, KmuxHostsToml) in out {
        var k :| 0 <= k < |config.value| && config.value[k] == e;
        assert TomlHosts(config)[k] == FromToml(e);
        TomlWins(config, Met(fs, paths), FromToml(e));
      }
    }
    forall h | h in out ensures h in TomlHosts(config) || FoundIn(fs, h, Whole(fs, AllFiles(fs, paths)).files) {
      ListedIsFound(fs, TomlHosts(config), paths, h);
    }
    if Consistent(fs, AllFiles(fs, paths)) {
      forall f, a | Leads(fs, AllFiles(fs, paths), f) && HasAlias(fs, f, a)
        ensures exists h :: h in out && h.alias == a
      {
        AliasesFound(fs, AllFiles(fs, paths), f, a);
        var h :| h in Met(fs, paths) && h.alias == a;
        assert h in hosts;
      }
    }
  }

  /** The loop over the configuration paths, with one `visited` set for all of them. */
  method ExploreAll(fs: Fs, toml: seq<Host>, paths: seq<Path>) returns (hosts: seq<Host>)
    requires Sane(fs)
    ensures hosts == toml + Met(fs, paths)
  {
    hide Traverse, FilesAt;
    var d := new Discovery(toml);
    ghost var start := d.State();
    EmptyTraverse(fs, start);
    for i := 0 to |paths|
      invariant fresh(d) && d.State() == Traverse(fs, AllFiles(fs, paths[..i]), start)
    {
      d.Parse(fs, paths[i]);
      NextPath(fs, paths, i, start);
    }
    assert paths[..|paths|] == paths;
    assert toml + Nothing.hosts == toml;
    TraverseFrame(fs, AllFiles(fs, paths), Nothing, toml);
    hosts := d.hosts;
  }

  // ----- who wins

  /** A host of the table is always listed. */
  lemma TomlWins(config: Option<seq<TomlEntry>>, met: seq<Host>, h: Host)
    requires config.Some? ==>
      forall i, j :: 0 <= i < j < |config.value| ==> config.value[i].alias != config.value[j].alias
    requires h in TomlHosts(config)
    ensures FirstMet(TomlHosts(config) + met, h)
  {
    var toml := TomlHosts(config);
    var all := toml + met;
    var k :| 0 <= k < |toml| && toml[k] == h;
    assert all[k] == h && forall j :: 0 <= j < k ==> all[j] == toml[j];
  }

  /** Whatever else is listed is an alias of a file that the paths lead to and that was read; no
      file is read twice. */
  lemma ListedIsFound(fs: Fs, toml: seq<Host>, paths: seq<Path>, h: Host)
    requires FirstMet(toml + Met(fs, paths), h)
    ensures DifferentFiles(fs, Whole(fs, AllFiles(fs, paths)).files)
    ensures h in toml ||
      (FoundIn(fs, h, Whole(fs, AllFiles(fs, paths)).files) && Leads(fs, AllFiles(fs, paths), h.source.path))
  {
    hide Traverse, Leads, Done, HasAlias, AllFiles;
    FirstMetIn(toml + Met(fs, paths), h);
    WholeDone(fs, AllFiles(fs, paths));
  }

  /** The earlier path wins: if any of the first `n` paths lead to a file with the alias of a listed
      host, that host comes from the table or from a file the first `n` paths lead to. */
  lemma EarlierPathWins(fs: Fs, toml: seq<Host>, paths: seq<Path>, n: nat, h: Host, f: Path)
    requires FirstMet(toml + Met(fs, paths), h) && n <= |paths|
    requires Leads(fs, AllFiles(fs, paths[..n]), f) && HasAlias(fs, f, h.alias)
    requires Consistent(fs, AllFiles(fs, paths[..n]))
    ensures h in toml ||
      (FoundIn(fs, h, Whole(fs, AllFiles(fs, paths[..n])).files) && Leads(fs, AllFiles(fs, paths[..n]), h.source.path))
  {
    hide Traverse, Leads, Done, HasAlias, AllFiles, Consistent, FirstMet;
    var roots := AllFiles(fs, paths[..n]);
    var early := toml + Whole(fs, roots).hosts;
    AliasesFound(fs, roots, f, h.alias);
    var e :| e in Whole(fs, roots).hosts && e.alias == h.alias;
    PrefixMet(fs, paths, n);
    FirstInPrefix(early, toml + Met(fs, paths), e, h);
    WholeDone(fs, roots);
  }

  /** What the first paths meet comes first. */
  lemma PrefixMet(fs: Fs, paths: seq<Path>, n: nat)
    requires n <= |paths|
    ensures Whole(fs, AllFiles(fs, paths[..n])).hosts <= Met(fs, paths)
  {
    hide Traverse, AllFiles;
    assert paths == paths[..n] + paths[n..];
    AllFilesConcat(fs, paths[..n], paths[n..]);
    TraverseConcat(fs, AllFiles(fs, paths[..n]), AllFiles(fs, paths[n..]), Nothing);
  }

  lemma FirstInPrefix(early: seq<Host>, all: seq<Host>, e: Host, h: Host)
    requires early <= all && e in early && e.alias == h.alias && FirstMet(all, h)
    ensures h in early
  {
    var i :| 0 <= i < |early| && early[i] == e;
    var k :| 0 <= k < |all| && all[k] == h && forall j :: 0 <= j < k ==> all[j].alias != h.alias;
    assert all[i] == e;
    assert early[k] == h;
  }

  /** Lines are read in order, and an include is followed at its line: what the lines before `k` lead
      to is met before anything of line `k` or later. */
  lemma {:induction false} LinesInOrder(fs: Fs, file: Path, k: nat, s: Progress)
    requires k <= |Lines(fs, file)|
    ensures ReadFrom(fs, file, 0, s) == ReadFrom(fs, file, k, ReadBefore(fs, file, k, s))
    ensures Extends(ReadBefore(fs, file, k, s), ReadFrom(fs, file, 0, s))
    decreases k
  {
    hide Traverse, Targets, Aliases;
    if k > 0 { LinesInOrder(fs, file, k - 1, s); }
  }

  function ReadBefore(fs: Fs, file: Path, k: nat, s: Progress): Progress
    requires k <= |Lines(fs, file)|
  {
    if k == 0 then s
    else
      var t := Traverse(fs, Targets(fs, file, k - 1), ReadBefore(fs, file, k - 1, s));
      t.(hosts := t.hosts + Entries(Aliases(fs, file, k - 1), file))
  }

  // ----- a file reached by two paths

  /** A file reached by a second path is not read again. So nothing is added, and an alias that only
      the second path's includes lead to is missed. */
  lemma SecondPathIsSkipped(fs: Fs, first: Path, second: Path, a: string)
    requires first !in fs.dirs && second !in fs.dirs && SameFile(fs, first, second)
    requires forall f :: Leads(fs, [first], f) ==> !HasAlias(fs, f, a)
    ensures Met(fs, [first, second]) == Met(fs, [first])
    ensures forall h :: h in Met(fs, [first, second]) ==> h.alias != a
  {
    hide Traverse, Leads, Done, HasAlias;
    assert FilesAt(fs, first) == [first] && FilesAt(fs, second) == [second];
    assert [first, second] == [first] + [second];
    AllFilesOne(fs, first);
    AllFilesOne(fs, second);
    AllFilesConcat(fs, [first], [second]);
    TraverseConcat(fs, [first], [second], Nothing);
    WholeDone(fs, [first]);
    TraverseOne(fs, second, Whole(fs, [first]));
  }

  /** Two links, `/a/config` and `/b/config`, to one file that says `Include hosts`; only next to the
      second is there a file `hosts`. */
  function TwoLinks(): Fs {
    var a, b, h := Path("/a/config"), Path("/b/config"), Path("/b/hosts");
    Fs(map[], map[a := Path("/config"), b := Path("/config"), h := h],
       map[a := [Quoted(["Include", "hosts"])], b := [Quoted(["Include", "hosts"])], h := [Quoted(["Host", "web"])]],
       map[(b, "hosts") := [h]])
  }

  lemma {:induction false} Classified(key: string, value: string)
    requires key != [] && value != [] && '=' !in key
    ensures var d := Classify(Quoted([key, value]));
      && (EqIgnoreCase(key, "Include") && !EqIgnoreCase(key, "Host") ==> d == Include([value]))
      && (EqIgnoreCase(key, "Host") ==> d == HostAliases(Explicit([value])))
  {
    hide Scan, Quoted, EqIgnoreCase;
    var words := [key, value];
    TokenizeUndoesQuoting(words);
    assert words[1..] == [value];
  }

  /** What the lines of `TwoLinks` say. */
  lemma TwoLinksSay(file: Path)
    ensures var fs, web := TwoLinks(), Path("/b/hosts");
      && (file == Path("/a/config") || file == Path("/b/config") ==>
            && |Lines(fs, file)| == 1 && Aliases(fs, file, 0) == []
            && Targets(fs, file, 0) == if file == Path("/b/config") then [web] else [])
      && (file == web ==> |Lines(fs, file)| == 1 && Aliases(fs, file, 0) == ["web"])
  {
    hide Classify, Quoted;
    var fs, web := TwoLinks(), Path("/b/hosts");
    assert "Include"[0] == 'I' && "Host"[0] == 'H';
    Classified("Include", "hosts");
    Classified("Host", "web");
    assert ["web"][1..] == [] && ["hosts"][1..] == [];
    assert Explicit(["web"]) == ["web"];
    assert Expand(fs, file, []) == [];
    assert Expand(fs, file, ["hosts"]) == ExpandOne(fs, file, "hosts");
    AllFilesOne(fs, web);
  }

  lemma OnlyItself(fs: Fs, file: Path, f: Path)
    requires Leads(fs, [file], f) && forall g :: !Includes(fs, file, g)
    ensures f == file
  {
    hide Includes;
    var c :| ChainFrom(fs, [file], c, f);
    FirstLink(fs, c);
  }

  lemma FirstLink(fs: Fs, c: seq<Path>)
    requires IncludeChain(fs, c)
    ensures |c| > 1 ==> Includes(fs, c[0], c[1])
  {
    if |c| > 1 { assert Includes(fs, c[0], c[0 + 1]); }
  }

  lemma TwoLinksRoots()
    ensures var fs, a, b, h := TwoLinks(), Path("/a/config"), Path("/b/config"), Path("/b/hosts");
      && Sane(fs) && SameFile(fs, a, b) && a !in fs.dirs && b !in fs.dirs
      && Lines(fs, a) == Lines(fs, b) && AllFiles(fs, [a, b]) == [a, b]
  {
    hide Quoted;
    var fs, a, b := TwoLinks(), Path("/a/config"), Path("/b/config");
    assert [a, b] == [a] + [b];
    AllFilesConcat(fs, [a], [b]);
    AllFilesOne(fs, a);
    AllFilesOne(fs, b);
  }

  /** Discovery of those two misses a host that they lead to. */
  lemma HostIsMissed()
    ensures var fs, a, b, h := TwoLinks(), Path("/a/config"), Path("/b/config"), Path("/b/hosts");
      && Sane(fs) && SameFile(fs, a, b) && Lines(fs, a) == Lines(fs, b)
      && Leads(fs, AllFiles(fs, [a, b]), h) && HasAlias(fs, h, "web")
      && (forall e :: e in Met(fs, [a, b]) ==> e.alias != "web")
      && !Consistent(fs, AllFiles(fs, [a, b]))
  {
    hide Met, Whole, Aliases, Targets, Consistent, TwoLinks, AllFiles;
    var fs, a, b, h := TwoLinks(), Path("/a/config"), Path("/b/config"), Path("/b/hosts");
    TwoLinksRoots();
    TwoLinksSay(a);
    TwoLinksSay(b);
    TwoLinksSay(h);
    assert HasAlias(fs, h, "web") by { assert "web" in Aliases(fs, h, 0); }
    forall f | Leads(fs, [a], f) ensures !HasAlias(fs, f, "web") { OnlyItself(fs, a, f); }
    SecondPathIsSkipped(fs, a, b, "web");
    assert Includes(fs, b, h) by { assert h in Targets(fs, b, 0); }
    assert ChainFrom(fs, [a, b], [b, h], h);
    if Consistent(fs, [a, b]) {
      AliasesFound(fs, [a, b], h, "web");
      assert Met(fs, [a, b]) == Whole(fs, [a, b]).hosts by { MetIs(fs, [a, b]); }
    }
  }

  lemma MetIs(fs: Fs, paths: seq<Path>)
    ensures Met(fs, paths) == Whole(fs, AllFiles(fs, paths)).hosts
  {}
}
