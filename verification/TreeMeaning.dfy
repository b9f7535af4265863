/** What acceptance of an installed tree says about it, and that the tree an inventory describes is accepted. */
module TreeMeaning {
  import opened TreeVerifier

  // ---- an accepted tree is the one described ------------------------------------------------------------

  /** Two trees accepted for one inventory have the same entries, directories the same, and every file of the
      same size and digest, a single link, and where that counts the same execute permission. */
  lemma AcceptedTreesAgree(a: map<Path, Kind>, b: map<Path, Kind>, inventory: map<Path, Identity>, posix: bool)
    requires Accepted(a, inventory, posix) && Accepted(b, inventory, posix)
    ensures forall p: Path :: p in a <==> p in b
    ensures forall p: Path :: p in a && p in b ==>
      (a[p].Directory? && b[p].Directory?)
      || (a[p].File? && b[p].File? && a[p].size == b[p].size && a[p].digest == b[p].digest
          && a[p].links == 1 && b[p].links == 1 && (posix ==> a[p].executable == b[p].executable))
  {
    forall p: Path ensures p in a <==> p in b {
      EntryIsDescribed(a, inventory, posix, p);
      EntryIsDescribed(b, inventory, posix, p);
    }
    forall p: Path | p in a && p in b ensures a[p].File? <==> b[p].File? {
      EntryIsDescribed(a, inventory, posix, p);
      EntryIsDescribed(b, inventory, posix, p);
    }
  }

  lemma EntryIsDescribed(fs: map<Path, Kind>, inventory: map<Path, Identity>, posix: bool, p: Path)
    requires Accepted(fs, inventory, posix)
    ensures p in fs <==> p in inventory || Ancestor(inventory, p)
    ensures p in fs ==> (fs[p].File? <==> p in inventory) && (fs[p].Directory? <==> Ancestor(inventory, p))
    ensures p in fs ==> (fs[p].File? || fs[p].Directory?)
  {
    if p in fs {
      assert Allowed(fs, p);
    }
  }

  /** Said of the name itself: it is not empty, does not lead elsewhere and holds no separator and no NUL. */
  predicate Plain(name: string)
  {
    name != "" && name != "." && name != ".." && forall i :: 0 <= i < |name| ==> name[i] != '\\' && name[i] != '\0'
  }

  lemma SafeIsPlain(name: string)
    ensures SafeName(name) <==> Plain(name)
  {
  }

  /** No name anywhere in an accepted tree is anything else. */
  lemma {:induction false} NamesArePlain(fs: map<Path, Kind>, inventory: map<Path, Identity>, posix: bool, p: Path,
                                         k: nat)
    requires FileTree(fs) && Accepted(fs, inventory, posix) && p in fs && k < |p|
    ensures Plain(p[k])
    decreases |p|
  {
    assert Allowed(fs, p);
    if k == |p| - 1 {
      SafeIsPlain(p[k]);
    } else {
      assert Parent(p) != [] && Parent(p) in fs;
      NamesArePlain(fs, inventory, posix, Parent(p), k);
      assert Parent(p)[k] == p[k];
    }
  }

  // ---- the described tree is accepted --------------------------------------------------------------------

  /** An inventory that can be laid out: names are safe, no file stands where another needs a directory, and there
      are not too many entries. */
  ghost predicate Sound(inventory: map<Path, Identity>)
  {
    && (forall f, k :: f in inventory && 0 <= k < |f| ==> SafeName(f[k]))
    && [] !in inventory
    && (forall f :: f in inventory ==> !Ancestor(inventory, f))
    && |inventory.Keys + Ancestors(inventory)| <= MAX_TREE_ENTRIES
  }

  /** The inventory's files, each with one link, in their directories. */
  function Laid(inventory: map<Path, Identity>): map<Path, Kind>
  {
    map p | p in inventory.Keys + Ancestors(inventory) ::
      if p in inventory then File(inventory[p].size, inventory[p].digest, inventory[p].executable, 1) else Directory
  }

  lemma AncestorIsSafe(inventory: map<Path, Identity>, d: Path)
    requires Sound(inventory) && Ancestor(inventory, d)
    ensures d != [] && SafeName(d[|d| - 1])
  {
    var f :| f in inventory && 0 < |d| < |f| && d == f[..|d|];
    assert d[|d| - 1] == f[|d| - 1];
  }

  lemma LaidIsAllowed(inventory: map<Path, Identity>, p: Path)
    requires Sound(inventory) && p in Laid(inventory)
    ensures Allowed(Laid(inventory), p)
  {
    if p in inventory {
      assert SafeName(p[|p| - 1]);
    } else {
      AncestorIsSafe(inventory, p);
    }
  }

  lemma LaidKind(inventory: map<Path, Identity>, p: Path)
    requires Sound(inventory)
    ensures p in Laid(inventory) <==> p in inventory || Ancestor(inventory, p)
    ensures p in inventory ==> Laid(inventory)[p].File? && !Ancestor(inventory, p)
    ensures Ancestor(inventory, p) ==> Laid(inventory)[p].Directory?
  {
  }

  lemma FitsTogether(fs: map<Path, Kind>, inventory: map<Path, Identity>, posix: bool)
    requires |fs.Keys| <= MAX_TREE_ENTRIES && forall p :: p in fs ==> Allowed(fs, p)
    requires forall p: Path :: p in fs ==> p in inventory || Ancestor(inventory, p)
    requires forall p: Path :: p in inventory ==> p in fs && Matches(fs[p], inventory[p], posix)
    requires forall p: Path :: Ancestor(inventory, p) ==> p in fs && fs[p].Directory?
    ensures Accepted(fs, inventory, posix)
  {
  }

  lemma LaidFits(inventory: map<Path, Identity>, p: Path, posix: bool)
    requires Sound(inventory)
    ensures p in Laid(inventory) ==> Allowed(Laid(inventory), p) && (p in inventory || Ancestor(inventory, p))
    ensures p in inventory ==> p in Laid(inventory) && Matches(Laid(inventory)[p], inventory[p], posix)
    ensures Ancestor(inventory, p) ==> p in Laid(inventory) && Laid(inventory)[p].Directory?
  {
    LaidKind(inventory, p);
    if p in Laid(inventory) {
      LaidIsAllowed(inventory, p);
    }
  }

  /** So an inventory and its tree fit. */
  lemma LaidIsAccepted(inventory: map<Path, Identity>, posix: bool)
    requires Sound(inventory)
    ensures Accepted(Laid(inventory), inventory, posix)
  {
    var fs := Laid(inventory);
    assert fs.Keys == inventory.Keys + Ancestors(inventory);
    forall p: Path
      ensures p in fs ==> Allowed(fs, p) && (p in inventory || Ancestor(inventory, p))
      ensures p in inventory ==> p in fs && Matches(fs[p], inventory[p], posix)
      ensures Ancestor(inventory, p) ==> p in fs && fs[p].Directory?
    {
      LaidFits(inventory, p, posix);
    }
    FitsTogether(fs, inventory, posix);
  }

  /** Installed with another size, digest, link or, where that counts, execute permission, it is not. */
  lemma ChangedFileFails(inventory: map<Path, Identity>, p: Path, size: nat, digest: string, executable: bool,
                         links: nat, posix: bool)
    requires Sound(inventory) && p in inventory
    requires size != inventory[p].size || digest != inventory[p].digest || links != 1
      || (posix && executable != inventory[p].executable)
    ensures !Accepted(Laid(inventory)[p := File(size, digest, executable, links)], inventory, posix)
  {
    var fs := Laid(inventory)[p := File(size, digest, executable, links)];
    assert fs[p] == File(size, digest, executable, links);
    assert !(Allowed(fs, p) && Matches(fs[p], inventory[p], posix));
  }
}
