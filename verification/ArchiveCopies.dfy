/**
 The second write phase of extract_tar_archive (tools/prepare_piper_inputs.py) when links are
 materialized: each link's path receives a copy of the file at its normalized target.
 */
module ArchiveCopies {
  import opened Wrappers
  import opened ArchivePaths
  import opened Disks
  import opened ArchiveTree
  import opened ArchiveChecks
  import opened ArchiveWrites

  function FilePaths(items: seq<Item>): set<Path> {
    set m | m in items && m.kind.Regular? :: m.path
  }

  /** The paths of the files that can be read back once they are written. */
  function ReadablePaths(items: seq<Item>, privileged: bool): set<Path> {
    set m | m in items && m.kind.Regular? && Readable(m.kind.mode, privileged) :: m.path
  }

  /** A readable file stands at the link's target by the time the link is copied. */
  ghost predicate Available(items: seq<Item>, i: nat, privileged: bool)
    requires i < |items| && items[i].kind.Symlink?
  {
    items[i].kind.target in ReadablePaths(items, privileged) + LinkPaths(items[..i])
  }

  ghost predicate AvailableUpTo(items: seq<Item>, n: nat, privileged: bool)
    requires n <= |items|
  {
    forall i {:trigger Available(items, i, privileged)} :: 0 <= i < n && items[i].kind.Symlink? ==>
      Available(items, i, privileged)
  }

  /** What stands at the paths of links already copied. */
  ghost function Copies(nodes: Nodes, links: seq<Item>): set<Entry> {
    set m | m in links && m.kind.Symlink? && m.path in nodes :: Entry(m.path, nodes[m.path])
  }

  ghost predicate SameAt(a: Nodes, p: Path, b: Nodes, q: Path) {
    p in a && q in b && a[p] == b[q]
  }

  /** The link's path holds the file that its target holds. */
  ghost predicate Copied(nodes: Nodes, m: Item)
    requires m.kind.Symlink?
  {
    SameAt(nodes, m.path, nodes, m.kind.target) && nodes[m.path].File?
  }

  ghost predicate AllCopied(nodes: Nodes, links: seq<Item>) {
    forall m {:trigger m in links} :: m in links && m.kind.Symlink? ==> Copied(nodes, m)
  }

  /** Every copy can be read in its turn. */
  ghost predicate CopiesReadable(nodes: Nodes, links: seq<Item>, privileged: bool) {
    forall m {:trigger m in links} :: m in links && m.kind.Symlink? ==> ReadableFile(nodes, m.path, privileged)
  }

  ghost predicate ReadableFile(nodes: Nodes, path: Path, privileged: bool) {
    path in nodes && nodes[path].File? && Readable(nodes[path].mode, privileged)
  }

  /** What the disk holds when the first `n` items have been passed. */
  ghost function CopiesUpTo(nodes: Nodes, items: seq<Item>, n: nat): set<Entry>
    requires n <= |items|
  {
    Plans(items, false) + Copies(nodes, items[..n])
  }

  /** The described files and directories, and at each link's path a copy of what its target holds. */
  ghost predicate Materialized(nodes: Nodes, items: seq<Item>) {
    Describes(nodes, Plans(items, false) + Copies(nodes, items)) && AllCopied(nodes, items)
  }

  /** The state after the first `n` turns of the copying loop. */
  ghost predicate CopiedInOrder(nodes: Nodes, items: seq<Item>, n: nat, privileged: bool)
    requires n <= |items|
  {
    && Describes(nodes, CopiesUpTo(nodes, items, n))
    && AllCopied(nodes, items[..n]) && CopiesReadable(nodes, items[..n], privileged)
    && AvailableUpTo(items, n, privileged)
  }

  /** Every path on the disk lies at or above some item's path. */
  ghost predicate Inside(nodes: Nodes, items: seq<Item>) {
    forall p {:trigger UnderSome(p, items)} :: p in nodes && p != [] ==> UnderSome(p, items)
  }

  ghost predicate UnderSome(p: Path, items: seq<Item>) {
    exists m :: m in items && AtOrAbove(p, m.path)
  }

  /** All these entries lie at paths of the items. */
  ghost predicate FromItems(entries: set<Entry>, items: seq<Item>) {
    forall e {:trigger e in entries} :: e in entries ==> AtSomeItem(e, items)
  }

  ghost predicate AtSomeItem(e: Entry, items: seq<Item>) {
    exists m :: m in items && m.path == e.path
  }

  lemma WithinIsInside(nodes: Nodes, items: seq<Item>, entries: set<Entry>)
    requires Within(nodes, entries) && FromItems(entries, items)
    ensures Inside(nodes, items)
  {
    forall p | p in nodes && p != []
      ensures UnderSome(p, items)
    {
      assert Covered(p, entries);
      var e :| e in entries && AtOrAbove(p, e.path);
      assert AtSomeItem(e, items);
    }
  }

  lemma PlansFromItems(items: seq<Item>, links: bool)
    ensures FromItems(Plans(items, links), items)
  {
    forall e | e in Plans(items, links)
      ensures AtSomeItem(e, items)
    {
      var m :| m in items && Planned(m) == e;
    }
  }

  lemma CopySource(nodes: Nodes, items: seq<Item>, n: nat, e: Entry) returns (j: nat)
    requires n <= |items| && e in Copies(nodes, items[..n])
    ensures j < n && items[j].kind.Symlink? && e.path == items[j].path && items[j] in items[..n]
  {
    var m :| m in items[..n] && m.kind.Symlink? && m.path == e.path;
    j :| 0 <= j < n && items[..n][j] == m;
  }

  lemma CopiesFromItems(nodes: Nodes, items: seq<Item>, i: nat, leaf: Entry)
    requires i < |items| && leaf.path == items[i].path
    ensures FromItems(CopiesUpTo(nodes, items, i) + {leaf}, items)
  {
    PlansFromItems(items, false);
    forall e | e in Copies(nodes, items[..i])
      ensures AtSomeItem(e, items)
    {
      var j := CopySource(nodes, items, i, e);
    }
    assert items[i] in items;
    assert AtSomeItem(leaf, items);
  }

  /** The next link's path is fresh, and no link stands on the disk. */
  lemma NextCopy(nodes: Nodes, items: seq<Item>, i: nat, privileged: bool)
    requires i < |items| && items[i].kind.Symlink? && Distinct(items)
    requires CopiedInOrder(nodes, items, i, privileged)
    ensures NoLinksIn(CopiesUpTo(nodes, items, i)) && FreshPath(CopiesUpTo(nodes, items, i), items[i].path)
  {
    assert items[..|items|] == items;
    FreshAmong(items, i, |items|, false);
    NoLinksPlanned(items);
    forall e | e in Copies(nodes, items[..i])
      ensures e.path != items[i].path && !e.node.Link?
    {
      var j := CopySource(nodes, items, i, e);
      assert Copied(nodes, items[j]);
    }
  }

  lemma CopyClash(nodes: Nodes, items: seq<Item>, i: nat, privileged: bool)
    requires i < |items| && items[i].kind.Symlink? && Distinct(items) && CopiedInOrder(nodes, items, i, privileged)
    requires Clashes(CopiesUpTo(nodes, items, i), Entry(items[i].path, File([], 0)))
    ensures !OnlyDirectoriesAbove(items)
  {
    NextCopy(nodes, items, i, privileged);
    assert items[..|items|] == items;
    var m := items[i];
    var e :| e in CopiesUpTo(nodes, items, i) && Clash(e, Entry(m.path, File([], 0)));
    var j: nat;
    if e in Plans(items, false) {
      j := PlanSource(items, |items|, false, e);
    } else {
      j := CopySource(nodes, items, i, e);
    }
    var u := items[j];
    assert u in items && m in items && u.path != m.path;
    assert AtOrAbove(u.path, m.path) ==> Above(u.path, m.path);
    assert AtOrAbove(m.path, u.path) ==> Above(m.path, u.path);
  }

  /** A readable file stands at the target exactly when the target is one of the items or an earlier link. */
  lemma SourceExact(nodes: Nodes, items: seq<Item>, i: nat, privileged: bool)
    requires i < |items| && items[i].kind.Symlink? && CopiedInOrder(nodes, items, i, privileged)
    ensures ReadableFile(nodes, items[i].kind.target, privileged) <==> Available(items, i, privileged)
  {
    var source := items[i].kind.target;
    assert items[..|items|] == items;
    if ReadableFile(nodes, source, privileged) {
      NodeHasEntry(nodes, CopiesUpTo(nodes, items, i), source);
      var e := Entry(source, nodes[source]);
      if e in Plans(items, false) {
        var j := PlanSource(items, |items|, false, e);
        SameReadable(items[j].kind.mode, privileged);
      } else {
        var j := CopySource(nodes, items, i, e);
      }
    }
    if source in ReadablePaths(items, privileged) {
      var m :| m in items && m.kind.Regular? && Readable(m.kind.mode, privileged) && m.path == source;
      assert Planned(m) in Plans(items, false);
      SameReadable(m.kind.mode, privileged);
    }
    if source in LinkPaths(items[..i]) {
      var m :| m in items[..i] && m.kind.Symlink? && m.path == source;
      assert Copied(nodes, m);
    }
  }

  /** Reducing a mode to its permission bits keeps the owner's read bit. */
  lemma SameReadable(mode: nat, privileged: bool)
    ensures Readable(mode % 512, privileged) <==> Readable(mode, privileged)
  {
    var high, low := mode / 512, mode % 512;
    assert mode == 256 * (2 * high + low / 256) + low % 256;
    assert mode / 256 == 2 * high + low / 256;
  }

  ghost predicate Extends(before: Nodes, after: Nodes) {
    forall p :: p in before ==> p in after && after[p] == before[p]
  }

  lemma CopiesStep(before: Nodes, after: Nodes, items: seq<Item>, i: nat, privileged: bool)
    requires i < |items| && items[i].kind.Symlink?
    requires Extends(before, after) && AllCopied(before, items[..i]) && Copied(after, items[i])
    requires CopiesReadable(before, items[..i], privileged) && ReadableFile(after, items[i].path, privileged)
    ensures AllCopied(after, items[..i + 1]) && CopiesReadable(after, items[..i + 1], privileged)
    ensures CopiesUpTo(after, items, i + 1) ==
            CopiesUpTo(before, items, i) + {Entry(items[i].path, after[items[i].path])}
  {
    assert items[..i + 1] == items[..i] + [items[i]];
    forall m | m in items[..i] && m.kind.Symlink?
      ensures Copied(after, m) && SameAt(before, m.path, after, m.path)
    {
      assert Copied(before, m);
    }
    assert Copies(after, items[..i + 1]) == Copies(before, items[..i]) + {Entry(items[i].path, after[items[i].path])};
  }

  lemma NotALink(nodes: Nodes, items: seq<Item>, i: nat, privileged: bool)
    requires i < |items| && !items[i].kind.Symlink? && CopiedInOrder(nodes, items, i, privileged)
    ensures CopiedInOrder(nodes, items, i + 1, privileged)
  {
    assert items[..i + 1] == items[..i] + [items[i]];
    assert Copies(nodes, items[..i + 1]) == Copies(nodes, items[..i]);
  }

  lemma KeepsNodes(nodes: Nodes, parent: Path)
    requires DirsFit(nodes, parent)
    ensures Extends(nodes, WithDirs(nodes, parent))
    ensures forall p :: p in WithDirs(nodes, parent) && p !in nodes ==> WithDirs(nodes, parent)[p] == Dir
  {
  }

  lemma SourceResolves(nodes: Nodes, parent: Path, source: Path, hops: nat)
    requires NoLinkOn(nodes, source) && ".." !in source
    ensures Resolve(WithDirs(nodes, parent), [], source, hops) == Some(source)
  {
    assert [] + source == source;
    ResolvePlain(WithDirs(nodes, parent), [], source, hops);
  }

  /** What writing the copy does, whatever its content. */
  lemma CopyOutcome(before: Nodes, entries: set<Entry>, parts: Path, file: Node, hops: nat)
    requires parts != [] && ".." !in parts && FreshPath(entries, parts) && file.File?
    requires Describes(before, entries) && NoLinkOn(before, parts) && DirsFit(before, parts[..|parts| - 1])
    ensures var (made, leaf) := (WithDirs(before, parts[..|parts| - 1]), Entry(parts, File([], 0)));
            && Resolve(made, [], parts, hops) == Some(parts)
            && parts[..|parts| - 1] in made && made[parts[..|parts| - 1]] == Dir
            && (parts in made ==> made[parts] == Dir && Clashes(entries, leaf))
            && (parts !in made ==>
                  && Describes(made[parts := file], entries + {Entry(parts, file)})
                  && Within(made[parts := file], entries + {leaf}))
  {
    var made, leaf := WithDirs(before, parts[..|parts| - 1]), Entry(parts, File([], 0));
    LeafOutcome(before, entries, leaf, hops);
    LeafOutcome(before, entries, Entry(parts, file), hops);
    if parts !in made {
      WithinAll(made[parts := file], entries + {Entry(parts, file)}, entries + {leaf}) by {
        assert AtOrAbove(parts, leaf.path) && leaf in entries + {leaf};
      }
    }
  }

  /** Copies the file at `source` to the link's path. */
  method CopyLink(disk: Disk, parts: Path, source: Path, ghost entries: set<Entry>) returns (failed: Option<Error>)
    requires parts != [] && ".." !in parts && ".." !in source
    requires Describes(disk.nodes, entries) && NoLinksIn(entries) && FreshPath(entries, parts)
    modifies disk
    ensures failed.None? ==>
              && SameAt(old(disk.nodes), source, disk.nodes, parts) && ReadableFile(disk.nodes, parts, disk.privileged)
              && Describes(disk.nodes, entries + {Entry(parts, disk.nodes[parts])})
              && Extends(old(disk.nodes), disk.nodes)
    ensures failed.Some? ==>
              || (failed.value == OsError && Clashes(entries, Entry(parts, File([], 0))))
              || (&& failed.value in {CannotMaterialize, OsError}
                  && !ReadableFile(old(disk.nodes), source, disk.privileged))
    ensures Within(disk.nodes, entries + {Entry(parts, File([], 0))})
  {
    ghost var before, leaf := disk.nodes, Entry(parts, File([], 0));
    NoLinkMet(before, entries, parts);
    NoLinkMet(before, entries, source);
    ParentOutcome(before, entries, leaf, disk.hops);
    WithinAll(before, entries, entries + {leaf});
    var target := ExtractionTarget(disk.nodes, disk.hops, parts);
    if target.Failure? { return Some(LeavesDestination); }
    var ok := disk.Mkdir(parts[..|parts| - 1]);
    if !ok { return Some(OsError); }
    hide MakeDirs;
    LeafOutcome(before, entries, leaf, disk.hops);
    KeepsNodes(before, parts[..|parts| - 1]);
    SourceResolves(before, parts[..|parts| - 1], source, disk.hops);
    var from := ExtractionTarget(disk.nodes, disk.hops, source);
    if from.Failure? { return Some(LeavesDestination); }
    var place := Resolve(disk.nodes, [], source, disk.hops).value;
    if place !in disk.nodes || !disk.nodes[place].File? { return Some(CannotMaterialize); }
    var file := disk.nodes[place];
    if !Readable(file.mode, disk.privileged) { return Some(OsError); }
    CopyOutcome(before, entries, parts, file, disk.hops);
    ok := disk.Write(parts, file.content, file.mode);
    return if ok then None else Some(OsError);
  }

  /** The body of the second write loop when links become copies: other items are passed over. */
  method MaterializeLink(disk: Disk, items: seq<Item>, i: nat) returns (failed: Option<Error>)
    requires i < |items| && Distinct(items) && items[i].path != [] && ".." !in items[i].path
    requires items[i].kind.Symlink? ==> ".." !in items[i].kind.target
    requires CopiedInOrder(disk.nodes, items, i, disk.privileged) && Inside(disk.nodes, items)
    modifies disk
    ensures failed.None? ==> CopiedInOrder(disk.nodes, items, i + 1, disk.privileged)
    ensures failed.Some? ==>
              && failed.value in {OsError, CannotMaterialize}
              && (!OnlyDirectoriesAbove(items) || !AvailableUpTo(items, |items|, disk.privileged))
    ensures Inside(disk.nodes, items)
  {
    var member := items[i];
    if !member.kind.Symlink? {
      NotALink(disk.nodes, items, i, disk.privileged);
      return None;
    }
    ghost var before, entries := disk.nodes, CopiesUpTo(disk.nodes, items, i);
    NextCopy(before, items, i, disk.privileged);
    SourceExact(before, items, i, disk.privileged);
    failed := CopyLink(disk, member.path, member.kind.target, entries);
    CopiesFromItems(before, items, i, Entry(member.path, File([], 0)));
    WithinIsInside(disk.nodes, items, entries + {Entry(member.path, File([], 0))});
    if failed.None? {
      CopiesStep(before, disk.nodes, items, i, disk.privileged);
    } else if Available(items, i, disk.privileged) {
      CopyClash(before, items, i, disk.privileged);
    }
  }

  method MaterializeLinks(disk: Disk, items: seq<Item>, ghost archiveRoot: string) returns (failed: Option<Error>)
    requires Checked(items, archiveRoot)
    requires Describes(disk.nodes, Plans(items, false)) && Inside(disk.nodes, items)
    modifies disk
    ensures failed.None? ==> AvailableUpTo(items, |items|, disk.privileged) && Materialized(disk.nodes, items)
    ensures failed.Some? ==>
              && failed.value in {OsError, CannotMaterialize}
              && (!OnlyDirectoriesAbove(items) || !AvailableUpTo(items, |items|, disk.privileged))
    ensures Inside(disk.nodes, items)
  {
    assert CopiesUpTo(disk.nodes, items, 0) == Plans(items, false);
    for i := 0 to |items|
      invariant CopiedInOrder(disk.nodes, items, i, disk.privileged) && Inside(disk.nodes, items)
    {
      assert items[i] in items;
      failed := MaterializeLink(disk, items, i);
      if failed.Some? { return; }
    }
    assert items[..|items|] == items;
    return None;
  }
}
