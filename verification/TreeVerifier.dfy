/**
 Verification of an installed payload: a worklist walk over its directories, accepting exactly the trees
 that match the inventory. A payload is the map of everything below its root, by path.
 */
module TreeVerifier {
  import Common

  /** The names from the payload root down. */
  type Path = seq<string>

  datatype Kind = Directory | File(size: nat, digest: string, executable: bool, links: nat) | Link | Special

  datatype Identity = Identity(size: nat, digest: string, executable: bool)

  const MAX_TREE_ENTRIES := 8192

  function Parent(p: Path): Path
    requires p != []
  {
    p[..|p| - 1]
  }

  /** Everything below the root hangs off the root or off a directory. */
  ghost predicate FileTree(fs: map<Path, Kind>)
  {
    forall p :: p in fs ==> p != [] && (Parent(p) == [] || (Parent(p) in fs && fs[Parent(p)].Directory?))
  }

  predicate SafeName(name: string)
  {
    name != "" && name != "." && name != ".." && '\\' !in name && '\0' !in name
  }

  predicate Allowed(fs: map<Path, Kind>, p: Path)
    requires p in fs
  {
    p != [] && SafeName(p[|p| - 1]) && (fs[p].Directory? || (fs[p].File? && fs[p].links == 1))
  }

  /** d is a proper ancestor, below the root, of an inventory file. */
  predicate Ancestor(inventory: map<Path, Identity>, d: Path)
  {
    exists f :: f in inventory && 0 < |d| < |f| && d == f[..|d|]
  }

  predicate Matches(kind: Kind, identity: Identity, posix: bool)
  {
    kind.File? && kind.size == identity.size && kind.digest == identity.digest
    && (posix ==> kind.executable == identity.executable)
  }

  ghost predicate Accepted(fs: map<Path, Kind>, inventory: map<Path, Identity>, posix: bool)
  {
    && |fs.Keys| <= MAX_TREE_ENTRIES
    && (forall p :: p in fs ==> Allowed(fs, p))
    && (forall p :: p in fs && fs[p].File? <==> p in inventory)
    && (forall p :: p in inventory ==> Matches(fs[p], inventory[p], posix))
    && (forall d :: d in fs && fs[d].Directory? <==> Ancestor(inventory, d))
  }

  function Children(fs: map<Path, Kind>, dir: Path): set<Path>
  {
    set p | p in fs && p != [] && Parent(p) == dir
  }

  // ---- the walk -------------------------------------------------------------------------------------

  /** Entries already looked at: their directory has been taken off the stack, and they are not among the
      children of the current one still to come. */
  ghost predicate Seen(fs: map<Path, Kind>, todo: set<Path>, left: set<Path>, p: Path)
  {
    p in fs && p != [] && Parent(p) !in todo && p !in left
  }

  ghost predicate Walking(fs: map<Path, Kind>, todo: set<Path>, left: set<Path>, stack: seq<Path>,
                          files: map<Path, Kind>, dirs: set<Path>, seen: set<Path>)
  {
    && [] !in fs
    && (forall p: Path :: p in seen <==> Seen(fs, todo, left, p))
    && (forall p: Path :: p in seen ==> Allowed(fs, p))
    && (forall p: Path :: p in files <==> p in seen && fs[p].File?)
    && (forall p: Path :: p in files ==> files[p] == fs[p])
    && (forall p: Path :: p in dirs <==> p in seen && fs[p].Directory?)
    && (forall i, j :: 0 <= i < j < |stack| ==> stack[i] != stack[j])
    && (forall i :: 0 <= i < |stack| ==> stack[i] in todo && (stack[i] == [] || stack[i] in dirs))
    && (forall d: Path :: d == [] || d in dirs ==> d !in todo || d in stack)
    && (forall d: Path :: d in fs && d !in todo ==> d in dirs)
  }

  /** What the walk reports, once it has gone through. */
  ghost predicate Reported(fs: map<Path, Kind>, files: map<Path, Kind>, dirs: set<Path>)
  {
    && |fs.Keys| <= MAX_TREE_ENTRIES && (forall p :: p in fs ==> Allowed(fs, p))
    && (forall p: Path :: p in files <==> p in fs && fs[p].File?)
    && (forall p: Path :: p in files ==> files[p] == fs[p])
    && (forall p: Path :: p in dirs <==> p in fs && fs[p].Directory?)
  }

  lemma WalkStarts(fs: map<Path, Kind>)
    requires FileTree(fs)
    ensures Walking(fs, fs.Keys + {[]}, {}, [[]], map[], {}, {})
  {
  }

  /** Taking a directory off the stack puts all its children in line. */
  lemma TakesDirectory(fs: map<Path, Kind>, todo: set<Path>, stack: seq<Path>, files: map<Path, Kind>,
                       dirs: set<Path>, seen: set<Path>)
    requires Walking(fs, todo, {}, stack, files, dirs, seen) && stack != []
    ensures var dir := stack[|stack| - 1];
      dir in todo && Walking(fs, todo - {dir}, Children(fs, dir), stack[..|stack| - 1], files, dirs, seen)
  {
    var dir, rest := stack[|stack| - 1], stack[..|stack| - 1];
    assert stack == rest + [dir];
    forall p: Path ensures p in seen <==> Seen(fs, todo - {dir}, Children(fs, dir), p) {
    }
  }

  lemma SeesDirectory(fs: map<Path, Kind>, todo: set<Path>, left: set<Path>, stack: seq<Path>, files: map<Path, Kind>,
                      dirs: set<Path>, seen: set<Path>, child: Path)
    requires Walking(fs, todo, left, stack, files, dirs, seen)
    requires child in left && child in fs && child != [] && Parent(child) !in todo
    requires Allowed(fs, child) && fs[child].Directory?
    ensures Walking(fs, todo, left - {child}, stack + [child], files, dirs + {child}, seen + {child}) && child !in seen
  {
  }

  lemma SeesFile(fs: map<Path, Kind>, todo: set<Path>, left: set<Path>, stack: seq<Path>, files: map<Path, Kind>,
                 dirs: set<Path>, seen: set<Path>, child: Path)
    requires Walking(fs, todo, left, stack, files, dirs, seen)
    requires child in left && child in fs && child != [] && Parent(child) !in todo
    requires Allowed(fs, child) && fs[child].File?
    ensures Walking(fs, todo, left - {child}, stack, files[child := fs[child]], dirs, seen + {child}) && child !in seen
  {
  }

  lemma PathSubset(s: set<Path>, t: set<Path>)
    requires forall p: Path :: p in s ==> p in t
    ensures s <= t
  {
    if !(s <= t) {
      var p := Common.Outside(s, t);
    }
  }

  /** No more entries are seen than there are. */
  lemma SeenAreFew(fs: map<Path, Kind>, todo: set<Path>, left: set<Path>, stack: seq<Path>, files: map<Path, Kind>,
                   dirs: set<Path>, seen: set<Path>, child: Path)
    requires Walking(fs, todo, left, stack, files, dirs, seen) && child in left && child in fs
    ensures |seen + {child}| <= |fs.Keys| && child !in seen
  {
    PathSubset(seen + {child}, fs.Keys);
    Common.SmallerSubset(seen + {child}, fs.Keys);
  }

  /** When the stack is empty every entry has been seen. */
  lemma {:induction false} AllSeen(fs: map<Path, Kind>, todo: set<Path>, files: map<Path, Kind>, dirs: set<Path>,
                                   seen: set<Path>, p: Path)
    requires FileTree(fs) && Walking(fs, todo, {}, [], files, dirs, seen) && p in fs
    ensures p in seen
    decreases |p|
  {
    if Parent(p) != [] {
      AllSeen(fs, todo, files, dirs, seen, Parent(p));
    }
  }

  lemma WalkEnds(fs: map<Path, Kind>, todo: set<Path>, files: map<Path, Kind>, dirs: set<Path>, seen: set<Path>)
    requires FileTree(fs) && Walking(fs, todo, {}, [], files, dirs, seen)
    requires |seen| <= MAX_TREE_ENTRIES
    ensures Reported(fs, files, dirs)
  {
    forall p: Path | p in fs ensures p in seen {
      AllSeen(fs, todo, files, dirs, seen, p);
    }
    PathSubset(fs.Keys, seen);
    PathSubset(seen, fs.Keys);
    assert seen == fs.Keys;
  }

  /** One directory's entries, in whatever order they are listed. */
  method ScanDirectory(fs: map<Path, Kind>, dir: Path, stack0: seq<Path>, files0: map<Path, Kind>, dirs0: set<Path>,
                       count0: nat, ghost todo: set<Path>, ghost seen0: set<Path>)
    returns (ok: bool, stack: seq<Path>, files: map<Path, Kind>, dirs: set<Path>, count: nat, ghost seen: set<Path>)
    requires Walking(fs, todo, Children(fs, dir), stack0, files0, dirs0, seen0) && dir !in todo
    requires count0 == |seen0| <= MAX_TREE_ENTRIES
    ensures !ok ==> |fs.Keys| > MAX_TREE_ENTRIES || exists p: Path :: p in fs && !Allowed(fs, p)
    ensures ok ==> Walking(fs, todo, {}, stack, files, dirs, seen) && count == |seen| <= MAX_TREE_ENTRIES
  {
    stack, files, dirs, count, seen := stack0, files0, dirs0, count0, seen0;
    var left := Children(fs, dir);
    while left != {}
      invariant forall p: Path :: p in left ==> p in fs && p != [] && Parent(p) == dir
      invariant Walking(fs, todo, left, stack, files, dirs, seen)
      invariant count == |seen| <= MAX_TREE_ENTRIES
      decreases |left|
    {
      var child := Common.AnyOf(left);
      SeenAreFew(fs, todo, left, stack, files, dirs, seen, child);
      count := count + 1;
      if count > MAX_TREE_ENTRIES { return false, stack, files, dirs, count, seen; }
      if !Allowed(fs, child) { return false, stack, files, dirs, count, seen; }
      if fs[child].Directory? {
        SeesDirectory(fs, todo, left, stack, files, dirs, seen, child);
        dirs := dirs + {child};
        stack := stack + [child];
      } else {
        SeesFile(fs, todo, left, stack, files, dirs, seen, child);
        files := files[child := fs[child]];
      }
      seen := seen + {child};
      left := left - {child};
    }
    ok := true;
  }

  method Walk(fs: map<Path, Kind>) returns (ok: bool, files: map<Path, Kind>, dirs: set<Path>)
    requires FileTree(fs)
    ensures ok ==> Reported(fs, files, dirs)
    ensures !ok ==> |fs.Keys| > MAX_TREE_ENTRIES || exists p: Path :: p in fs && !Allowed(fs, p)
  {
    files, dirs := map[], {};
    var stack: seq<Path> := [[]];
    var count := 0;
    ghost var todo := fs.Keys + {[]};
    ghost var seen: set<Path> := {};
    WalkStarts(fs);
    while stack != []
      invariant Walking(fs, todo, {}, stack, files, dirs, seen)
      invariant count == |seen| <= MAX_TREE_ENTRIES
      decreases |todo|
    {
      var dir := stack[|stack| - 1];
      TakesDirectory(fs, todo, stack, files, dirs, seen);
      todo := todo - {dir};
      ok, stack, files, dirs, count, seen :=
        ScanDirectory(fs, dir, stack[..|stack| - 1], files, dirs, count, todo, seen);
      if !ok { return; }
    }
    WalkEnds(fs, todo, files, dirs, seen);
    ok := true;
  }

  function Ancestors(inventory: map<Path, Identity>): (r: set<Path>)
    ensures forall d: Path :: d in r <==> Ancestor(inventory, d)
  {
    set f, k | f in inventory && 0 < k < |f| :: f[..k]
  }

  lemma NamesDecide(fs: map<Path, Kind>, files: map<Path, Kind>, dirs: set<Path>, inventory: map<Path, Identity>,
                    posix: bool)
    requires Reported(fs, files, dirs) && Accepted(fs, inventory, posix)
    ensures files.Keys == inventory.Keys && dirs == Ancestors(inventory)
  {
    PathSubset(files.Keys, inventory.Keys);
    PathSubset(inventory.Keys, files.Keys);
    PathSubset(dirs, Ancestors(inventory));
    PathSubset(Ancestors(inventory), dirs);
  }

  lemma ContentsDecide(fs: map<Path, Kind>, files: map<Path, Kind>, dirs: set<Path>, inventory: map<Path, Identity>,
                       posix: bool)
    requires Reported(fs, files, dirs) && files.Keys == inventory.Keys && dirs == Ancestors(inventory)
    ensures Accepted(fs, inventory, posix)
      <==> forall p: Path :: p in inventory ==> Matches(files[p], inventory[p], posix)
  {
    forall p: Path ensures p in inventory <==> p in fs && fs[p].File? {
      assert p in inventory.Keys <==> p in files.Keys;
    }
    forall d: Path ensures d in fs && fs[d].Directory? <==> Ancestor(inventory, d) {
      assert d in dirs <==> d in Ancestors(inventory);
    }
  }

  method CheckFiles(files: map<Path, Kind>, inventory: map<Path, Identity>, posix: bool) returns (ok: bool)
    requires files.Keys == inventory.Keys
    ensures ok <==> forall p: Path :: p in inventory ==> Matches(files[p], inventory[p], posix)
  {
    var left := inventory.Keys;
    while left != {}
      invariant left <= inventory.Keys
      invariant forall p: Path :: p in inventory && p !in left ==> Matches(files[p], inventory[p], posix)
      decreases |left|
    {
      var p := Common.AnyOf(left);
      if !Matches(files[p], inventory[p], posix) { return false; }
      left := left - {p};
    }
    ok := true;
  }

  method Verify(root: Kind, fs: map<Path, Kind>, inventory: map<Path, Identity>, posix: bool) returns (ok: bool)
    requires FileTree(fs) && [] !in inventory
    ensures ok <==> root.Directory? && Accepted(fs, inventory, posix)
  {
    if !root.Directory? { return false; }
    var walked, files, dirs := Walk(fs);
    if !walked { return false; }
    var expectedDirectories := Ancestors(inventory);
    if Accepted(fs, inventory, posix) {
      NamesDecide(fs, files, dirs, inventory, posix);
    }
    if files.Keys != inventory.Keys { return false; }
    if dirs != expectedDirectories { return false; }
    ok := CheckFiles(files, inventory, posix);
    ContentsDecide(fs, files, dirs, inventory, posix);
  }

  /** A tree with anything missing is not the accepted one: a removal cut off part of the way leaves a tree
      that fails verification. */
  lemma PartOfATreeFails(fs: map<Path, Kind>, part: map<Path, Kind>, p: Path, inventory: map<Path, Identity>,
                         posix: bool)
    requires Accepted(fs, inventory, posix) && p in fs && p !in part
    ensures !Accepted(part, inventory, posix)
  {
    assert fs[p].File? ==> p in inventory;
    assert fs[p].Directory? ==> Ancestor(inventory, p);
  }
}
