/**
 The two write phases of extract_tar_archive (tools/prepare_piper_inputs.py) with links kept as
 links: directories and files first, links last.
 */
module ArchiveWrites {
  import opened Wrappers
  import opened ArchivePaths
  import opened Disks
  import opened ArchiveTree

  function ExtractionTarget(nodes: Nodes, hops: nat, parts: Path): Result<Path, Error> {
    if Resolve(nodes, [], parts, hops).Some? then Success(parts) else Failure(LeavesDestination)
  }

  /** Makes the parent directories, then creates the file. */
  method WriteRegular(disk: Disk, parts: Path, content: seq<nat>, mode: nat, ghost entries: set<Entry>)
    returns (ok: bool)
    requires parts != [] && ".." !in parts && FreshPath(entries, parts)
    requires Describes(disk.nodes, entries) && NoLinkOn(disk.nodes, parts)
    modifies disk
    ensures ok ==> Describes(disk.nodes, entries + {Entry(parts, File(content, mode))})
    ensures !ok ==> Clashes(entries, Entry(parts, File(content, mode)))
    ensures Within(disk.nodes, entries + {Entry(parts, File(content, mode))})
  {
    ghost var leaf := Entry(parts, File(content, mode));
    ghost var before := disk.nodes;
    ParentOutcome(before, entries, leaf, disk.hops);
    WithinAll(before, entries, entries + {leaf});
    ok := disk.Mkdir(parts[..|parts| - 1]);
    if ok {
      LeafOutcome(before, entries, leaf, disk.hops);
      ok := disk.Write(parts, content, mode);
      if ok { WithinAll(disk.nodes, entries + {leaf}, entries + {leaf}); }
    }
  }

  /** The body of the first write loop: the place is checked, but nothing is written for a link. */
  method WriteMember(disk: Disk, member: Item, ghost entries: set<Entry>) returns (failed: Option<Error>)
    requires member.path != [] && ".." !in member.path
    requires Describes(disk.nodes, entries) && NoLinksIn(entries) && FreshPath(entries, member.path)
    modifies disk
    ensures member.kind.Symlink? ==> failed.None? && disk.nodes == old(disk.nodes)
    ensures !member.kind.Symlink? && failed.None? ==> Describes(disk.nodes, entries + {Planned(member)})
    ensures failed.Some? ==> failed.value == OsError && Clashes(entries, Planned(member))
    ensures Within(disk.nodes, entries + {Planned(member)})
  {
    ghost var all := entries + {Planned(member)};
    var parts := member.path;
    NoLinkMet(disk.nodes, entries, parts);
    WithinAll(disk.nodes, entries, all);
    assert [] + parts == parts;
    ResolvePlain(disk.nodes, [], parts, disk.hops);
    var target := ExtractionTarget(disk.nodes, disk.hops, parts);
    if target.Failure? { return Some(LeavesDestination); }
    var ok := true;
    if member.kind.Directory? {
      DirectoryOutcome(disk.nodes, entries, parts, disk.hops);
      ok := disk.Mkdir(parts);
      if ok { WithinAll(disk.nodes, all, all); }
    } else if member.kind.Regular? {
      ok := WriteRegular(disk, parts, member.kind.content, member.kind.mode % 512, entries);
    }
    return if ok then None else Some(OsError);
  }

  method WriteMembers(disk: Disk, items: seq<Item>, ghost archiveRoot: string) returns (failed: Option<Error>)
    requires Checked(items, archiveRoot) && disk.nodes == EMPTY_DIRECTORY
    modifies disk
    ensures failed.None? ==> Describes(disk.nodes, Plans(items, false))
    ensures failed.Some? ==> failed.value == OsError && !OnlyDirectoriesAbove(items)
    ensures Within(disk.nodes, Plans(items, false))
  {
    for i := 0 to |items|
      invariant Describes(disk.nodes, Plans(items[..i], false))
    {
      var member := items[i];
      assert member in items;
      ghost var planned := Plans(items[..i], false);
      FreshAmong(items, i, i, false);
      NoLinksPlanned(items[..i]);
      failed := WriteMember(disk, member, planned);
      if failed.Some? {
        ClashMeansFileAbove(items, i, i, false);
        WithinMore(disk.nodes, planned + {Planned(member)}, Plans(items, false));
        return;
      }
      PlansStep(items, i, false);
    }
    assert items[..|items|] == items;
    WithinAll(disk.nodes, Plans(items, false), Plans(items, false));
    return None;
  }

  /** The body of the second write loop when links stay links. */
  method WriteLink(disk: Disk, member: Item, ghost entries: set<Entry>) returns (failed: Option<Error>)
    requires member.path != [] && ".." !in member.path && member.kind.Symlink?
    requires Describes(disk.nodes, entries) && NoLinkOn(disk.nodes, member.path)
    requires FreshPath(entries, member.path)
    modifies disk
    ensures failed.None? ==> Storable(member.kind.linkname) && Describes(disk.nodes, entries + {Planned(member)})
    ensures failed.Some? ==>
              failed.value == OsError && (Clashes(entries, Planned(member)) || !Storable(member.kind.linkname))
    ensures Within(disk.nodes, entries + {Planned(member)})
  {
    ghost var leaf, before := Planned(member), disk.nodes;
    var parts := member.path;
    ParentOutcome(before, entries, leaf, disk.hops);
    WithinAll(before, entries, entries + {leaf});
    var target := ExtractionTarget(disk.nodes, disk.hops, parts);
    if target.Failure? { return Some(LeavesDestination); }
    var ok := disk.Mkdir(parts[..|parts| - 1]);
    if ok {
      LeafOutcome(before, entries, leaf, disk.hops);
      assert parts[..|parts| - 1] + parts[|parts| - 1..] == parts;
      ok := disk.SymlinkTo(parts, member.kind.linkname);
      if ok { WithinAll(disk.nodes, entries + {leaf}, entries + {leaf}); }
    }
    return if ok then None else Some(OsError);
  }

  /** What the disk holds when the first `n` items' links have been made. */
  ghost function LinkedUpTo(items: seq<Item>, n: nat): set<Entry>
    requires n <= |items|
  {
    Plans(items, false) + Plans(items[..n], true)
  }

  lemma NextLink(nodes: Nodes, items: seq<Item>, i: nat, root: string)
    requires i < |items| && items[i].kind.Symlink? && Checked(items, root)
    requires Describes(nodes, LinkedUpTo(items, i))
    ensures NoLinkOn(nodes, items[i].path) && FreshPath(LinkedUpTo(items, i), items[i].path)
  {
    var path := items[i].path;
    assert items[..|items|] == items;
    FreshAmong(items, i, |items|, false);
    FreshAmong(items, i, i, true);
    forall e | e in LinkedUpTo(items, i) && e.node.Link?
      ensures !AtOrAbove(e.path, path)
    {
      NoLinksPlanned(items);
      var j := PlanSource(items, i, true, e);
      assert items[i] in items && !Above(items[j].path, path);
      assert AtOrAbove(e.path, path) ==> e.path == path || Above(e.path, path);
    }
    NoLinkMet(nodes, LinkedUpTo(items, i), path);
  }

  lemma LinkClash(items: seq<Item>, i: nat, root: string)
    requires i < |items| && items[i].kind.Symlink? && Checked(items, root)
    requires Clashes(LinkedUpTo(items, i), Planned(items[i]))
    ensures !OnlyDirectoriesAbove(items)
  {
  }

  lemma LinkedStep(items: seq<Item>, i: nat)
    requires i < |items|
    ensures LinkedUpTo(items, i + 1) ==
            if items[i].kind.Symlink? then LinkedUpTo(items, i) + {Planned(items[i])} else LinkedUpTo(items, i)
    ensures LinkedUpTo(items, i + 1) <= LinkedUpTo(items, |items|)
  {
  }

  method WriteLinks(disk: Disk, items: seq<Item>, ghost archiveRoot: string) returns (failed: Option<Error>)
    requires Checked(items, archiveRoot) && Describes(disk.nodes, Plans(items, false))
    modifies disk
    ensures failed.None? ==> AllStorable(items) && Describes(disk.nodes, LinkedUpTo(items, |items|))
    ensures failed.Some? ==>
              failed.value == OsError && (!OnlyDirectoriesAbove(items) || !AllStorable(items))
    ensures Within(disk.nodes, LinkedUpTo(items, |items|))
  {
    ghost var all := LinkedUpTo(items, |items|);
    assert LinkedUpTo(items, 0) == Plans(items, false);
    for i := 0 to |items|
      invariant Describes(disk.nodes, LinkedUpTo(items, i))
      invariant AllStorable(items[..i])
    {
      var member := items[i];
      assert member in items;
      LinkedStep(items, i);
      if member.kind.Symlink? {
        NextLink(disk.nodes, items, i, archiveRoot);
        failed := WriteLink(disk, member, LinkedUpTo(items, i));
        if failed.Some? {
          if Clashes(LinkedUpTo(items, i), Planned(member)) {
            LinkClash(items, i, archiveRoot);
          }
          WithinMore(disk.nodes, LinkedUpTo(items, i + 1), all);
          return;
        }
      }
      assert items[..i + 1] == items[..i] + [member];
    }
    assert items[..|items|] == items;
    WithinAll(disk.nodes, all, all);
    return None;
  }
}
