/**
 The tree a list of parsed archive members describes.  An item is a member whose name has been
 parsed into a path and whose link target has been normalized; both parsers are pure, so the
 model keeps their results where the source computes them again.
 */
module ArchiveTree {
  import opened Wrappers
  import opened ArchivePaths
  import opened Disks

  datatype ItemKind = Directory | Regular(content: seq<nat>, mode: nat) | Symlink(linkname: string, target: Path)

  datatype Item = Item(path: Path, kind: ItemKind)

  datatype Entry = Entry(path: Path, node: Node)

  // ---------------------------------------------------------------- item lists

  /** What a parsed member of the archive root looks like. */
  ghost predicate Placed(m: Item, root: string) {
    && m.path != [] && m.path[0] == root && ".." !in m.path
    && (m.kind.Symlink? ==> ".." !in m.kind.target)
  }

  ghost predicate AllPlaced(items: seq<Item>, root: string) {
    forall m {:trigger m in items} :: m in items ==> Placed(m, root)
  }

  ghost predicate Distinct(items: seq<Item>) {
    forall i, j :: 0 <= i < j < |items| ==> items[i].path != items[j].path
  }

  ghost predicate NoneBelowLinks(items: seq<Item>) {
    forall m, l :: m in items && l in items && Above(l.path, m.path) ==> !l.kind.Symlink?
  }

  ghost predicate OnlyDirectoriesAbove(items: seq<Item>) {
    forall m, u :: m in items && u in items && Above(u.path, m.path) ==> u.kind.Directory?
  }

  ghost predicate AllStorable(items: seq<Item>) {
    forall m :: m in items && m.kind.Symlink? ==> Storable(m.kind.linkname)
  }

  /** Some item makes the archive root a directory. */
  ghost predicate RootAppears(items: seq<Item>) {
    exists m :: m in items && (|m.path| >= 2 || (|m.path| == 1 && m.kind.Directory?))
  }

  /** A link that stands for the archive root itself does not begin by climbing. */
  ghost predicate RootLinkStartsDown(items: seq<Item>) {
    forall m {:trigger m in items} :: m in items && m.kind.Symlink? && |m.path| == 1 ==>
      Components(m.kind.linkname) != [] && Components(m.kind.linkname)[0] != ".."
  }

  /** What the checks before the first write establish. */
  ghost predicate Checked(items: seq<Item>, root: string) {
    AllPlaced(items, root) && Distinct(items) && NoneBelowLinks(items)
  }

  // ---------------------------------------------------------------- the tree a member list describes

  function Planned(m: Item): Entry {
    Entry(m.path,
          match m.kind
          case Regular(content, mode) => File(content, mode % 512)
          case Symlink(linkname, _) => Link(linkname)
          case _ => Dir)
  }

  function Plans(items: seq<Item>, links: bool): set<Entry> {
    set m | m in items && m.kind.Symlink? == links :: Planned(m)
  }

  /** The tree a whole item list describes. */
  ghost function Whole(items: seq<Item>): set<Entry> {
    Plans(items, false) + Plans(items, true)
  }

  /** Exactly the given entries, with the directories above them. */
  ghost predicate Describes(nodes: Nodes, entries: set<Entry>) {
    && [] in nodes && nodes[[]] == Dir
    && (forall e {:trigger e in entries} :: e in entries ==> e.path in nodes && nodes[e.path] == e.node)
    && (forall e, p {:trigger Above(p, e.path)} :: e in entries && Above(p, e.path) ==> p in nodes && nodes[p] == Dir)
    && (forall p {:trigger Covered(p, entries)} :: p in nodes && p != [] ==> Covered(p, entries))
  }

  ghost predicate Covered(p: Path, entries: set<Entry>) {
    exists e :: e in entries && AtOrAbove(p, e.path)
  }

  /** A member list describes at most one tree. */
  lemma DescribesUnique(a: Nodes, b: Nodes, entries: set<Entry>)
    requires Describes(a, entries) && Describes(b, entries)
    ensures a == b
  {
    DescribesSubset(a, b, entries);
    DescribesSubset(b, a, entries);
  }

  lemma DescribesSubset(a: Nodes, b: Nodes, entries: set<Entry>)
    requires Describes(a, entries) && Describes(b, entries)
    ensures forall p :: p in a ==> p in b && a[p] == b[p]
  {
    forall p | p in a
      ensures p in b && a[p] == b[p]
    {
      if p != [] {
        assert Covered(p, entries);
        var e :| e in entries && AtOrAbove(p, e.path);
        assert p == e.path || Above(p, e.path);
      }
    }
  }

  lemma AddDir(nodes: Nodes, entries: set<Entry>, path: Path)
    requires Describes(nodes, entries) && DirsFit(nodes, path)
    ensures Describes(WithDirs(nodes, path), entries + {Entry(path, Dir)})
  {
    var made := WithDirs(nodes, path);
    var all := entries + {Entry(path, Dir)};
    assert AtOrAbove([], path) && AtOrAbove(path, path);
    forall p | p in made && p != []
      ensures Covered(p, all)
    {
      assert p in nodes ==> Covered(p, entries);
      assert Entry(path, Dir) in all;
    }
    forall p | Above(p, path)
      ensures AtOrAbove(p, path)
    {
    }
  }

  /** A leaf can be put into a described directory. */
  lemma PutLeaf(nodes: Nodes, entries: set<Entry>, directory: Entry, leaf: Entry)
    requires Describes(nodes, entries) && directory in entries && directory.node == Dir
    requires leaf.path != [] && directory.path == leaf.path[..|leaf.path| - 1]
    requires leaf.path !in nodes
    ensures Describes(nodes[leaf.path := leaf.node], entries + {leaf})
  {
    AboveLast(leaf.path);
    forall p {:trigger Above(p, leaf.path)} | Above(p, leaf.path)
      ensures p in nodes && nodes[p] == Dir
    {
      assert p == directory.path || Above(p, directory.path);
    }
    assert AtOrAbove(leaf.path, leaf.path) && leaf in entries + {leaf};
    forall p | p in nodes && p != []
      ensures Covered(p, entries + {leaf})
    {
      assert Covered(p, entries);
    }
  }

  /** A directory above another entry need not be listed. */
  lemma Redundant(nodes: Nodes, entries: set<Entry>, directory: Entry, leaf: Entry)
    requires Describes(nodes, entries + {directory})
    requires leaf in entries && Above(directory.path, leaf.path)
    ensures Describes(nodes, entries)
  {
    var all := entries + {directory};
    forall p | p in nodes && p != []
      ensures Covered(p, entries)
    {
      assert Covered(p, all);
      var e :| e in all && AtOrAbove(p, e.path);
      assert e == directory ==> AtOrAbove(p, leaf.path);
    }
  }

  /** Only a described file or link can stop mkdir. */
  lemma Blocked(nodes: Nodes, entries: set<Entry>, path: Path) returns (e: Entry)
    requires Describes(nodes, entries) && !DirsFit(nodes, path)
    ensures e in entries && e.node != Dir && AtOrAbove(e.path, path)
  {
    var p :| p in nodes && AtOrAbove(p, path) && nodes[p] != Dir;
    e := Entry(p, nodes[p]);
    NodeHasEntry(nodes, entries, p);
  }

  lemma NodeHasEntry(nodes: Nodes, entries: set<Entry>, path: Path)
    requires Describes(nodes, entries) && path in nodes && nodes[path] != Dir
    ensures Entry(path, nodes[path]) in entries
  {
    assert Covered(path, entries);
    var e :| e in entries && AtOrAbove(path, e.path);
    assert e.path == path || Above(path, e.path);
  }

  ghost predicate NoLinksIn(entries: set<Entry>) {
    forall e :: e in entries ==> !e.node.Link?
  }

  /** Two entries that no tree can hold together. */
  ghost predicate Clash(e: Entry, added: Entry) {
    (e.node != Dir && AtOrAbove(e.path, added.path)) || (added.node != Dir && AtOrAbove(added.path, e.path))
  }

  ghost predicate Clashes(entries: set<Entry>, added: Entry) {
    exists e :: e in entries && Clash(e, added)
  }

  ghost predicate Within(nodes: Nodes, entries: set<Entry>) {
    forall p {:trigger Covered(p, entries)} :: p in nodes && p != [] ==> Covered(p, entries)
  }

  lemma NoLinkMet(nodes: Nodes, entries: set<Entry>, path: Path)
    requires Describes(nodes, entries)
    requires forall e :: e in entries && e.node.Link? ==> !AtOrAbove(e.path, path)
    ensures NoLinkOn(nodes, path)
  {
    forall p | p in nodes && AtOrAbove(p, path)
      ensures !nodes[p].Link?
    {
      if nodes[p].Link? {
        NodeHasEntry(nodes, entries, p);
      }
    }
  }

  /** Away from links, a directory is made unless it clashes with what is there. */
  lemma DirectoryOutcome(nodes: Nodes, entries: set<Entry>, path: Path, hops: nat)
    requires Describes(nodes, entries) && NoLinkOn(nodes, path) && ".." !in path
    ensures MakeDirs(nodes, path, hops) == if DirsFit(nodes, path) then Some(WithDirs(nodes, path)) else None
    ensures DirsFit(nodes, path) ==> Describes(WithDirs(nodes, path), entries + {Entry(path, Dir)})
    ensures !DirsFit(nodes, path) ==> Clashes(entries, Entry(path, Dir))
    ensures Resolve(nodes, [], path, hops) == Some(path)
  {
    MakeDirsPlain(nodes, path, hops);
    assert [] + path == path;
    ResolvePlain(nodes, [], path, hops);
    if DirsFit(nodes, path) {
      AddDir(nodes, entries, path);
    } else {
      var e := Blocked(nodes, entries, path);
      assert Clash(e, Entry(path, Dir));
    }
  }

  lemma WithinAll(nodes: Nodes, entries: set<Entry>, all: set<Entry>)
    requires Describes(nodes, entries)
    requires forall e :: e in entries ==> e in all || exists f :: f in all && AtOrAbove(e.path, f.path)
    ensures Within(nodes, all)
  {
    forall p | p in nodes && p != []
      ensures Covered(p, all)
    {
      assert Covered(p, entries);
      var e :| e in entries && AtOrAbove(p, e.path);
      if e !in all {
        var f :| f in all && AtOrAbove(e.path, f.path);
        assert AtOrAbove(p, f.path);
      }
    }
  }

  ghost predicate FreshPath(entries: set<Entry>, path: Path) {
    forall e :: e in entries ==> e.path != path
  }

  /** A leaf's parent can be made unless something above it is no directory. */
  lemma ParentOutcome(nodes: Nodes, entries: set<Entry>, leaf: Entry, hops: nat)
    requires leaf.path != [] && ".." !in leaf.path && leaf.node != Dir
    requires Describes(nodes, entries) && NoLinkOn(nodes, leaf.path)
    ensures var parent := leaf.path[..|leaf.path| - 1];
            && MakeDirs(nodes, parent, hops) ==
               (if DirsFit(nodes, parent) then Some(WithDirs(nodes, parent)) else None)
            && (!DirsFit(nodes, parent) ==> Clashes(entries, leaf))
            && (DirsFit(nodes, parent) ==> Describes(WithDirs(nodes, parent), entries + {Entry(parent, Dir)}))
    ensures Resolve(nodes, [], leaf.path, hops) == Some(leaf.path)
  {
    var parent := leaf.path[..|leaf.path| - 1];
    AboveLast(leaf.path);
    assert [] + leaf.path == leaf.path;
    ResolvePlain(nodes, [], leaf.path, hops);
    DirectoryOutcome(nodes, entries, parent, hops);
    if !DirsFit(nodes, parent) {
      var e :| e in entries && Clash(e, Entry(parent, Dir));
      assert Clash(e, leaf);
    }
  }

  /** Once its parent is there, a leaf fits unless a directory stands in its place. */
  lemma LeafOutcome(nodes: Nodes, entries: set<Entry>, leaf: Entry, hops: nat)
    requires leaf.path != [] && ".." !in leaf.path && leaf.node != Dir && FreshPath(entries, leaf.path)
    requires Describes(nodes, entries) && NoLinkOn(nodes, leaf.path)
    requires DirsFit(nodes, leaf.path[..|leaf.path| - 1])
    ensures var parent := leaf.path[..|leaf.path| - 1];
            var made := WithDirs(nodes, parent);
            && Resolve(made, [], leaf.path, hops) == Some(leaf.path)
            && Resolve(made, [], parent, hops) == Some(parent)
            && parent in made && made[parent] == Dir && Within(made, entries + {leaf})
            && (leaf.path in made ==> made[leaf.path] == Dir && Clashes(entries, leaf))
            && (leaf.path !in made ==> Describes(made[leaf.path := leaf.node], entries + {leaf}))
  {
    var parent := Entry(leaf.path[..|leaf.path| - 1], Dir);
    var made := WithDirs(nodes, parent.path);
    AddDir(nodes, entries, parent.path);
    NoLinkOnWithDirs(nodes, leaf.path);
    assert [] + leaf.path == leaf.path && [] + parent.path == parent.path;
    assert forall part :: part in parent.path ==> part in leaf.path;
    ResolvePlain(made, [], leaf.path, hops);
    ResolvePlain(made, [], parent.path, hops);
    assert AtOrAbove(parent.path, leaf.path) && leaf in entries + {leaf} && parent in entries + {parent};
    WithinAll(made, entries + {parent}, entries + {leaf});
    if leaf.path in made {
      WithDirsStep(nodes, leaf.path);
      OccupiedLeaf(nodes, entries, leaf);
    } else {
      PutLeaf(made, entries + {parent}, parent, leaf);
      assert entries + {parent} + {leaf} == entries + {leaf} + {parent};
      assert Above(parent.path, leaf.path);
      Redundant(made[leaf.path := leaf.node], entries + {leaf}, parent, leaf);
    }
  }

  lemma OccupiedLeaf(nodes: Nodes, entries: set<Entry>, leaf: Entry)
    requires leaf.path != [] && leaf.node != Dir && FreshPath(entries, leaf.path)
    requires Describes(nodes, entries) && leaf.path in nodes
    ensures nodes[leaf.path] == Dir && Clashes(entries, leaf)
  {
    assert Covered(leaf.path, entries);
    var e :| e in entries && AtOrAbove(leaf.path, e.path);
    assert Clash(e, leaf);
    if nodes[leaf.path] != Dir {
      NodeHasEntry(nodes, entries, leaf.path);
    }
  }

  lemma PlansStep(items: seq<Item>, i: nat, links: bool)
    requires i < |items|
    ensures Plans(items[..i + 1], links) ==
            if items[i].kind.Symlink? == links then Plans(items[..i], links) + {Planned(items[i])}
            else Plans(items[..i], links)
  {
  }

  lemma PlanSource(items: seq<Item>, n: nat, links: bool, e: Entry) returns (j: nat)
    requires n <= |items| && e in Plans(items[..n], links)
    ensures j < n && Planned(items[j]) == e && e.path == items[j].path
    ensures items[j] in items && items[j].kind.Symlink? == links
  {
    var m :| m in items[..n] && m.kind.Symlink? == links && Planned(m) == e;
    j :| 0 <= j < n && items[j] == m;
  }

  /** A member's path is not among those planned for other items. */
  lemma FreshAmong(items: seq<Item>, i: nat, n: nat, links: bool)
    requires i < |items| && n <= |items| && Distinct(items)
    requires n <= i || items[i].kind.Symlink? != links
    ensures FreshPath(Plans(items[..n], links), items[i].path)
  {
  }

  /** A clash with a planned entry is a member above another that is no directory. */
  lemma ClashMeansFileAbove(items: seq<Item>, i: nat, n: nat, links: bool)
    requires i < |items| && n <= |items|
    requires FreshPath(Plans(items[..n], links), items[i].path)
    requires Clashes(Plans(items[..n], links), Planned(items[i]))
    ensures !OnlyDirectoriesAbove(items)
  {
  }

  lemma NoLinksPlanned(items: seq<Item>)
    ensures NoLinksIn(Plans(items, false))
  {
  }

  lemma WithinMore(nodes: Nodes, entries: set<Entry>, all: set<Entry>)
    requires Within(nodes, entries) && entries <= all
    ensures Within(nodes, all)
  {
    forall p | p in nodes && p != []
      ensures Covered(p, all)
    {
      assert Covered(p, entries);
    }
  }
}
