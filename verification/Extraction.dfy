/** extract_tar_archive of tools/prepare_piper_inputs.py as a whole. */
module Extraction {
  import opened Wrappers
  import opened ArchivePaths
  import opened Disks
  import opened ArchiveTree
  import opened ArchiveChecks
  import opened ArchiveWrites
  import opened ArchiveCopies
  import opened Extracted

  /** The conditions on a member list that both modes share. */
  ghost predicate Acceptable(members: seq<Member>, root: string) {
    && Admitted(members)
    && AllSound(members, root)
    && Distinct(Items(members, root))
    && OnlyDirectoriesAbove(Items(members, root))
    && RootAppears(Items(members, root))
  }

  /** The member lists that extract with links kept as links. */
  ghost predicate Extractable(members: seq<Member>, root: string) {
    Acceptable(members, root) && AllStorable(Items(members, root))
  }

  /** The member lists that extract with links replaced by copies. */
  ghost predicate Materializable(members: seq<Member>, root: string, privileged: bool) {
    Acceptable(members, root) && AvailableUpTo(Items(members, root), |members|, privileged)
  }

  /** The entries an item list accounts for, whichever way its links were written. */
  ghost predicate Accounts(entries: set<Entry>, items: seq<Item>) {
    && FromItems(entries, items)
    && forall m {:trigger m in items} :: m in items ==> HasEntry(m, entries)
  }

  ghost predicate HasEntry(m: Item, entries: set<Entry>) {
    exists e :: e in entries && e.path == m.path && (e.node == Dir <==> m.kind.Directory?)
  }

  lemma WholeAccounts(items: seq<Item>)
    ensures Accounts(Whole(items), items)
  {
  }

  lemma CopiesAccount(nodes: Nodes, items: seq<Item>)
    requires Materialized(nodes, items)
    ensures Accounts(Plans(items, false) + Copies(nodes, items), items)
  {
    var entries := Plans(items, false) + Copies(nodes, items);
    PlansFromItems(items, false);
    forall m | m in items
      ensures HasEntry(m, entries)
    {
      if m.kind.Symlink? {
        assert Copied(nodes, m);
        assert Entry(m.path, nodes[m.path]) in entries;
      } else {
        assert Planned(m) in entries;
      }
    }
    forall e | e in Copies(nodes, items)
      ensures AtSomeItem(e, items)
    {
      var m :| m in items && m.kind.Symlink? && m.path == e.path;
    }
  }

  /** A tree cannot hold an item below a file or a link. */
  lemma DescribedMeansOnlyDirectoriesAbove(nodes: Nodes, entries: set<Entry>, items: seq<Item>)
    requires Describes(nodes, entries) && Accounts(entries, items)
    ensures OnlyDirectoriesAbove(items)
  {
  }

  /** A link that stands where the archive root should be only leads back to itself. */
  lemma {:induction false} RootLinkLoops(nodes: Nodes, root: string, target: string, todo: Path, hops: nat)
    requires [root] in nodes && nodes[[root]] == Link(target)
    requires forall p :: p in nodes ==> p == [] || p == [root]
    requires Components(target) != [] && Components(target)[0] != ".."
    requires todo != [] && todo[0] != ".."
    ensures !LeadsToDir(nodes, [], todo, hops)
    decreases hops
  {
    assert [] + [todo[0]] == [todo[0]];
    if todo[0] == root && hops > 0 {
      RootLinkLoops(nodes, root, target, Components(target) + todo[1..], hops - 1);
    }
  }

  lemma LeadsToRoot(nodes: Nodes, root: string, hops: nat)
    requires [] in nodes && nodes[[]] == Dir && root != ".."
    requires [root] in nodes ==> !nodes[[root]].Link?
    ensures LeadsToDir(nodes, [], [root], hops) <==> [root] in nodes && nodes[[root]] == Dir
  {
    assert [] + [root] == [root];
  }

  /** The archive root stands as a directory exactly when some item puts it there. */
  lemma RootStands(nodes: Nodes, entries: set<Entry>, items: seq<Item>, root: string)
    requires Describes(nodes, entries) && Accounts(entries, items) && AllPlaced(items, root) && Distinct(items)
    ensures [root] in nodes && nodes[[root]] == Dir <==> RootAppears(items)
  {
    if m :| m in items && (|m.path| >= 2 || (|m.path| == 1 && m.kind.Directory?)) {
      assert HasEntry(m, entries) && Placed(m, root);
      var e :| e in entries && e.path == m.path && (e.node == Dir <==> m.kind.Directory?);
      if |m.path| >= 2 {
        assert Above([root], e.path);
      } else {
        assert m.path == [root];
      }
    }
    if [root] in nodes && nodes[[root]] == Dir {
      assert Covered([root], entries);
      var e :| e in entries && AtOrAbove([root], e.path);
      assert AtSomeItem(e, items);
      var m :| m in items && m.path == e.path;
      assert Placed(m, root) && HasEntry(m, entries);
      if |m.path| == 1 {
        assert m.path == [root];
      }
    }
  }

  /** Where no item makes the archive root a directory, all items stand at the root itself. */
  lemma OnlyRootNodes(nodes: Nodes, items: seq<Item>, root: string)
    requires Describes(nodes, Whole(items)) && AllPlaced(items, root) && !RootAppears(items)
    ensures forall p :: p in nodes ==> p == [] || p == [root]
  {
    WholeAccounts(items);
    forall p | p in nodes && p != []
      ensures p == [root]
    {
      assert Covered(p, Whole(items));
      var e :| e in Whole(items) && AtOrAbove(p, e.path);
      assert AtSomeItem(e, items);
      var u :| u in items && u.path == e.path;
      assert Placed(u, root) && |u.path| == 1;
    }
  }

  /** With nothing but a link at the archive root, the root is not a directory. */
  lemma OnlyRootLink(nodes: Nodes, items: seq<Item>, root: string, hops: nat)
    requires Describes(nodes, Whole(items)) && AllPlaced(items, root) && RootLinkStartsDown(items)
    requires [root] in nodes && nodes[[root]].Link? && !RootAppears(items)
    ensures !LeadsToDir(nodes, [], [root], hops)
  {
    NodeHasEntry(nodes, Whole(items), [root]);
    var m :| m in items && Planned(m) == Entry([root], nodes[[root]]);
    OnlyRootNodes(nodes, items, root);
    assert Placed(m, root) && root in m.path;
    hide Describes, LeadsToDir, Components;
    RootLinkLoops(nodes, root, m.kind.linkname, [root], hops);
  }

  lemma NeverTheParent(items: seq<Item>, root: string)
    requires AllPlaced(items, root)
    ensures root == ".." ==> !RootAppears(items)
  {
  }

  lemma LinkedRoot(nodes: Nodes, items: seq<Item>, root: string, hops: nat)
    requires Describes(nodes, Whole(items)) && Checked(items, root) && RootLinkStartsDown(items)
    ensures LeadsToDir(nodes, [], [root], hops) <==> RootAppears(items)
  {
    WholeAccounts(items);
    RootStands(nodes, Whole(items), items, root);
    NeverTheParent(items, root);
    if root != ".." {
      if [root] in nodes && nodes[[root]].Link? {
        OnlyRootLink(nodes, items, root, hops);
      } else {
        LeadsToRoot(nodes, root, hops);
      }
    }
  }

  lemma CopiedRoot(nodes: Nodes, items: seq<Item>, root: string, hops: nat)
    requires Materialized(nodes, items) && Checked(items, root)
    ensures LeadsToDir(nodes, [], [root], hops) <==> RootAppears(items)
  {
    var entries := Plans(items, false) + Copies(nodes, items);
    CopiesAccount(nodes, items);
    RootStands(nodes, entries, items, root);
    NeverTheParent(items, root);
    if root != ".." {
      if [root] in nodes && nodes[[root]] != Dir {
        NodeHasEntry(nodes, entries, [root]);
        NoLinksPlanned(items);
        NoLinksCopied(nodes, items);
      }
      LeadsToRoot(nodes, root, hops);
    }
  }

  lemma NoLinksCopied(nodes: Nodes, items: seq<Item>)
    requires Materialized(nodes, items)
    ensures NoLinksIn(Copies(nodes, items))
  {
  }

  lemma BelowLinksIsBelowFiles(items: seq<Item>)
    requires OnlyDirectoriesAbove(items)
    ensures NoneBelowLinks(items)
  {
  }

  /**
   Extraction into a fresh directory.  It succeeds for exactly the member lists stated, with
   exactly the tree they describe; whatever happens, no check ever finds a write leaving the
   directory, and nothing appears outside the members' paths and the directories above them.
   */
  method ExtractTarArchive(disk: Disk, bundle: seq<Member>, archiveRoot: string, materializeSymlinks: bool)
    returns (r: Result<Path, Error>)
    requires disk.nodes == EMPTY_DIRECTORY && Portable(archiveRoot)
    modifies disk
    ensures r.Success? <==>
            if materializeSymlinks then Materializable(bundle, archiveRoot, disk.privileged)
            else Extractable(bundle, archiveRoot)
    ensures r.Success? ==>
              && r.value == [archiveRoot]
              && if materializeSymlinks then Materialized(disk.nodes, Items(bundle, archiveRoot))
                 else Describes(disk.nodes, Whole(Items(bundle, archiveRoot)))
    ensures r.Success? ==> FilesStand(disk.nodes, bundle)
    ensures r.Success? && !materializeSymlinks ==> LinksStand(disk.nodes, bundle)
    ensures r.Success? && materializeSymlinks ==> CopiesStand(disk.nodes, bundle, archiveRoot)
    ensures r != Failure(LeavesDestination)
    ensures Inside(disk.nodes, Items(bundle, archiveRoot)) && OnlyMemberPaths(disk.nodes, bundle)
  {
    hide FilesStand, LinksStand, CopiesStand, OnlyMemberPaths;
    NothingStands(disk.nodes, bundle);
    var admitted := Admit(bundle);
    if admitted.Failure? { return Failure(admitted.error); }
    ghost var parsed := Items(bundle, archiveRoot);
    var checked := CheckMembers(admitted.value, archiveRoot);
    if checked.Failure? {
      if OnlyDirectoriesAbove(parsed) { BelowLinksIsBelowFiles(parsed); }
      return Failure(checked.error);
    }
    var items := checked.value;
    assert items[..|items|] == items;
    WholeAccounts(items);
    PlansFromItems(items, false);
    var failed := WriteMembers(disk, items, archiveRoot);
    WithinIsInside(disk.nodes, items, Plans(items, false));
    InsideMembers(disk.nodes, bundle, archiveRoot);
    if failed.Some? { return Failure(failed.value); }
    if materializeSymlinks {
      failed := MaterializeLinks(disk, items, archiveRoot);
      InsideMembers(disk.nodes, bundle, archiveRoot);
      if failed.Some? { return Failure(failed.value); }
      MembersCopied(disk.nodes, bundle, archiveRoot, disk.privileged);
      CopiesAccount(disk.nodes, items);
      DescribedMeansOnlyDirectoriesAbove(disk.nodes, Plans(items, false) + Copies(disk.nodes, items), items);
      CopiedRoot(disk.nodes, items, archiveRoot, disk.hops);
    } else {
      failed := WriteLinks(disk, items, archiveRoot);
      WithinIsInside(disk.nodes, items, Whole(items));
      InsideMembers(disk.nodes, bundle, archiveRoot);
      if failed.Some? { return Failure(failed.value); }
      MembersStand(disk.nodes, bundle, archiveRoot);
      DescribedMeansOnlyDirectoriesAbove(disk.nodes, Whole(items), items);
      LinkedRoot(disk.nodes, items, archiveRoot, disk.hops);
    }
    if !LeadsToDir(disk.nodes, [], [archiveRoot], disk.hops) { return Failure(RootMissing); }
    return Success([archiveRoot]);
  }

  // ---------------------------------------------------------------- the conditions on the members themselves

  /** The conditions of both modes, member by member. */
  lemma AcceptableExact(members: seq<Member>, root: string)
    ensures Acceptable(members, root) <==>
            && |members| <= 100_000 && TotalBytes(members) <= 4_294_967_296
            && (forall m :: m in members ==>
                  SafeParts(m.name).Success? && SafeParts(m.name).value[0] == root && !m.kind.OtherType?)
            && (forall m :: m in members && m.kind.LinkType? ==>
                  SymlinkTarget(SafeParts(m.name).value, m.kind.linkname, root).Success?)
            && (forall i, j :: 0 <= i < j < |members| ==> SafeParts(members[i].name) != SafeParts(members[j].name))
            && (forall m, u :: m in members && u in members && SafeParts(u.name).value < SafeParts(m.name).value ==>
                  u.kind.DirType?)
            && exists m :: m in members && (|SafeParts(m.name).value| >= 2 || m.kind.DirType?)
  {
    hide SafeParts, SymlinkTarget, OnlyDirectoriesAbove, RootAppears, Distinct, Items, AllSound, TotalBytes;
    SoundExact(members, root);
    if AllSound(members, root) {
      DirectoriesExact(members, root);
      RootExact(members, root);
      DistinctExact(members, root);
    }
  }

  /** Only the bytes of files count. */
  lemma BytesCounted(members: seq<Member>, m: Member)
    ensures TotalBytes([]) == 0
    ensures TotalBytes(members + [m]) == TotalBytes(members) + if m.kind.FileType? then |m.kind.content| else 0
  {
    assert (members + [m])[..|members|] == members;
  }

  lemma SoundExact(members: seq<Member>, root: string)
    ensures AllSound(members, root) <==>
            && (forall m :: m in members ==>
                  SafeParts(m.name).Success? && SafeParts(m.name).value[0] == root && !m.kind.OtherType?)
            && forall m :: m in members && m.kind.LinkType? ==>
                 SymlinkTarget(SafeParts(m.name).value, m.kind.linkname, root).Success?
  {
    hide SafeParts, SymlinkTarget;
  }

  lemma DistinctExact(members: seq<Member>, root: string)
    requires AllSound(members, root)
    ensures Distinct(Items(members, root)) <==>
            forall i, j :: 0 <= i < j < |members| ==> SafeParts(members[i].name) != SafeParts(members[j].name)
  {
    forall i | 0 <= i < |members|
      ensures SafeParts(members[i].name) == Success(Items(members, root)[i].path)
    {
      KindKept(members, root, i);
    }
    hide SafeParts, Items, AllSound;
  }

  lemma DirectoriesExact(members: seq<Member>, root: string)
    requires AllSound(members, root)
    ensures OnlyDirectoriesAbove(Items(members, root)) <==>
            forall m, u :: m in members && u in members && SafeParts(u.name).value < SafeParts(m.name).value ==>
              u.kind.DirType?
  {
    hide SafeParts, SymlinkTarget;
    var items := Items(members, root);
    forall m | m in members
      ensures Parsed(m, root) in items && Sound(m, root)
    {
      ItemOf(members, root, m);
    }
    if OnlyDirectoriesAbove(items) {
      forall m, u | m in members && u in members && SafeParts(u.name).value < SafeParts(m.name).value
        ensures u.kind.DirType?
      {
        assert Above(Parsed(u, root).path, Parsed(m, root).path);
      }
    }
    if forall m, u :: m in members && u in members && SafeParts(u.name).value < SafeParts(m.name).value ==>
         u.kind.DirType? {
      forall m, u | m in items && u in items && Above(u.path, m.path)
        ensures u.kind.Directory?
      {
        var below := MemberOf(members, root, m);
        var above := MemberOf(members, root, u);
        assert SafeParts(above.name).value < SafeParts(below.name).value;
      }
    }
  }

  lemma RootExact(members: seq<Member>, root: string)
    requires AllSound(members, root)
    ensures RootAppears(Items(members, root)) <==>
            exists m :: m in members && (|SafeParts(m.name).value| >= 2 || m.kind.DirType?)
  {
    hide SafeParts, SymlinkTarget;
    var items := Items(members, root);
    if m :| m in members && (|SafeParts(m.name).value| >= 2 || m.kind.DirType?) {
      ItemOf(members, root, m);
      assert Sound(m, root) && Parsed(m, root) in items;
      SoundIsPlaced(m, root);
    }
    if item :| item in items && (|item.path| >= 2 || (|item.path| == 1 && item.kind.Directory?)) {
      var m := MemberOf(members, root, item);
      assert Sound(m, root);
    }
  }

  /** Links kept: every link's text must be one the operating system takes. */
  lemma ExtractableExact(members: seq<Member>, root: string)
    ensures Extractable(members, root) <==>
            && Acceptable(members, root)
            && forall m :: m in members && m.kind.LinkType? ==> m.kind.linkname != "" && '\0' !in m.kind.linkname
  {
    hide SafeParts, SymlinkTarget;
    if Acceptable(members, root) {
      forall m | m in members
        ensures Parsed(m, root) in Items(members, root) && Sound(m, root)
      {
        ItemOf(members, root, m);
      }
      forall item | item in Items(members, root)
        ensures exists m :: m in members && Parsed(m, root) == item
      {
        var m := MemberOf(members, root, item);
      }
    }
  }

  /** Member `k` is what link `i` points to: a file its reader may open, or an earlier link. */
  ghost predicate Serves(members: seq<Member>, root: string, i: nat, k: nat, privileged: bool)
    requires i < |members| && k < |members|
  {
    && members[i].kind.LinkType? && SafeParts(members[i].name).Success? && Target(members[i], members[k], root)
    && if members[k].kind.LinkType? then k < i
       else members[k].kind.FileType? && (privileged || members[k].kind.mode / 256 % 2 == 1)
  }

  /** Links copied: every link must point to a file its reader may open, or to an earlier link. */
  lemma MaterializableExact(members: seq<Member>, root: string, privileged: bool)
    ensures Materializable(members, root, privileged) <==>
            && Acceptable(members, root)
            && forall i :: 0 <= i < |members| && members[i].kind.LinkType? ==>
                 exists k :: 0 <= k < |members| && Serves(members, root, i, k, privileged)
  {
    hide SafeParts, SymlinkTarget, Serves, Available, Admitted, OnlyDirectoriesAbove, RootAppears, Distinct, Sound;
    if AllSound(members, root) {
      forall i | 0 <= i < |members|
        ensures Items(members, root)[i].kind.Symlink? <==> members[i].kind.LinkType?
        ensures members[i].kind.LinkType? ==>
                  (Available(Items(members, root), i, privileged) <==>
                   exists k :: 0 <= k < |members| && Serves(members, root, i, k, privileged))
      {
        KindKept(members, root, i);
        if members[i].kind.LinkType? {
          if Available(Items(members, root), i, privileged) { var k := ServedBy(members, root, i, privileged); }
          if k :| 0 <= k < |members| && Serves(members, root, i, k, privileged) {
            ServedIsAvailable(members, root, i, k, privileged);
          }
        }
      }
    }
  }

  lemma KindKept(members: seq<Member>, root: string, i: nat)
    requires AllSound(members, root) && i < |members|
    ensures Items(members, root)[i].kind.Symlink? <==> members[i].kind.LinkType?
    ensures Items(members, root)[i].kind.Regular? <==> members[i].kind.FileType?
    ensures SafeParts(members[i].name) == Success(Items(members, root)[i].path)
    ensures members[i].kind.LinkType? ==>
              SymlinkTarget(SafeParts(members[i].name).value, members[i].kind.linkname, root)
              == Success(Items(members, root)[i].kind.target)
    ensures members[i].kind.FileType? ==> Items(members, root)[i].kind.mode == members[i].kind.mode
  {
    hide SafeParts, SymlinkTarget;
    assert members[i] in members && Sound(members[i], root) && Items(members, root)[i] == Parsed(members[i], root);
  }

  lemma ServedBy(members: seq<Member>, root: string, i: nat, privileged: bool) returns (k: nat)
    requires AllSound(members, root) && i < |members| && members[i].kind.LinkType?
    requires Items(members, root)[i].kind.Symlink? && Available(Items(members, root), i, privileged)
    ensures k < |members| && Serves(members, root, i, k, privileged)
  {
    hide SafeParts, SymlinkTarget, Sound, Items, Parsed;
    var items := Items(members, root);
    assert items[..|items|] == items;
    KindKept(members, root, i);
    var target := items[i].kind.target;
    if target in ReadablePaths(items, privileged) {
      var item :| item in items && item.kind.Regular? && Readable(item.kind.mode, privileged) && item.path == target;
      k :| 0 <= k < |items| && items[k] == item;
    } else {
      var item :| item in items[..i] && item.kind.Symlink? && item.path == target;
      k :| 0 <= k < i && items[..i][k] == item;
    }
    KindKept(members, root, k);
  }

  lemma ServedIsAvailable(members: seq<Member>, root: string, i: nat, k: nat, privileged: bool)
    requires AllSound(members, root) && i < |members| && k < |members| && Serves(members, root, i, k, privileged)
    ensures Items(members, root)[i].kind.Symlink? && Available(Items(members, root), i, privileged)
  {
    hide SafeParts, SymlinkTarget, Sound, Items, Parsed;
    var items := Items(members, root);
    KindKept(members, root, i);
    KindKept(members, root, k);
    assert items[k] in items && items[k].path == items[i].kind.target;
    if members[k].kind.LinkType? {
      assert items[..i][k] == items[k];
      assert items[k].path in LinkPaths(items[..i]);
    }
  }
}
