/**
 What extract_tar_archive of tools/prepare_piper_inputs.py does with the members as the archive holds them:
 the lists it extracts, and what then stands at the path of each member.
 */
module Extracted {
  import opened Wrappers
  import opened ArchivePaths
  import opened Disks
  import opened ArchiveTree
  import opened ArchiveChecks
  import opened ArchiveWrites
  import opened ArchiveCopies

  /** What stands at the path a member's name gives. */
  function StandsAt(nodes: Nodes, m: Member): Option<Node> {
    match SafeParts(m.name)
    case Success(path) => if path in nodes then Some(nodes[path]) else None
    case Failure(_) => None
  }

  /** Where a link member leads: the members along the chain of its targets, a file at the end of them. */
  ghost predicate LeadsTo(members: seq<Member>, root: string, m: Member, file: Member, steps: nat)
    decreases steps
  {
    && m in members && file.kind.FileType?
    && if steps == 0 then m == file
       else
         && m.kind.LinkType? && SafeParts(m.name).Success?
         && exists next :: Target(m, next, root) && LeadsTo(members, root, next, file, steps - 1)
  }

  ghost predicate Target(m: Member, next: Member, root: string)
    requires m.kind.LinkType? && SafeParts(m.name).Success?
  {
    && SafeParts(next.name).Success?
    && SymlinkTarget(SafeParts(m.name).value, m.kind.linkname, root) == SafeParts(next.name)
  }

  lemma ItemOf(members: seq<Member>, root: string, m: Member)
    requires m in members
    ensures Parsed(m, root) in Items(members, root)
  {
    var i :| 0 <= i < |members| && members[i] == m;
    assert Items(members, root)[i] == Parsed(m, root);
  }

  lemma MemberOf(members: seq<Member>, root: string, item: Item) returns (m: Member)
    requires item in Items(members, root)
    ensures m in members && Parsed(m, root) == item
  {
    var i :| 0 <= i < |members| && Items(members, root)[i] == item;
    m := members[i];
  }

  /** Every file member holds its content and its permission bits, and every directory member stands. */
  ghost predicate FilesStand(nodes: Nodes, members: seq<Member>) {
    && (forall m :: m in members && m.kind.FileType? ==>
          StandsAt(nodes, m) == Some(File(m.kind.content, m.kind.mode % 512)))
    && (forall m :: m in members && m.kind.DirType? ==> StandsAt(nodes, m) == Some(Dir))
  }

  /** Every link member is a link with its own text. */
  ghost predicate LinksStand(nodes: Nodes, members: seq<Member>) {
    forall m :: m in members && m.kind.LinkType? ==> StandsAt(nodes, m) == Some(Link(m.kind.linkname))
  }

  /** Every link member leads to a file member, and holds its content and permission bits. */
  ghost predicate CopiesStand(nodes: Nodes, members: seq<Member>, root: string) {
    forall m :: m in members && m.kind.LinkType? ==>
      && (exists file, steps :: LeadsTo(members, root, m, file, steps))
      && forall file, steps :: LeadsTo(members, root, m, file, steps) ==>
           StandsAt(nodes, m) == Some(File(file.kind.content, file.kind.mode % 512))
  }

  /** Everything on the disk is a member's path or a directory above one. */
  ghost predicate OnlyMemberPaths(nodes: Nodes, members: seq<Member>) {
    forall p :: p in nodes && p != [] ==> AboveMember(p, members)
  }

  ghost predicate AboveMember(p: Path, members: seq<Member>) {
    exists m :: m in members && SafeParts(m.name).Success? && p <= SafeParts(m.name).value
  }

  lemma NothingStands(nodes: Nodes, members: seq<Member>)
    requires nodes == EMPTY_DIRECTORY
    ensures OnlyMemberPaths(nodes, members)
  {
  }

  lemma InsideMembers(nodes: Nodes, members: seq<Member>, root: string)
    requires Inside(nodes, Items(members, root))
    ensures OnlyMemberPaths(nodes, members)
  {
    hide SafeParts, SymlinkTarget;
    forall p | p in nodes && p != []
      ensures AboveMember(p, members)
    {
      assert UnderSome(p, Items(members, root));
      var item :| item in Items(members, root) && AtOrAbove(p, item.path);
      var m := MemberOf(members, root, item);
      assert SafeParts(m.name).Success?;
    }
  }

  /** Extraction with links kept leaves every member as the archive holds it. */
  lemma MembersStand(nodes: Nodes, members: seq<Member>, root: string)
    requires AllSound(members, root) && Describes(nodes, Whole(Items(members, root)))
    ensures FilesStand(nodes, members) && LinksStand(nodes, members)
  {
    hide SafeParts, SymlinkTarget;
    forall m | m in members
      ensures SafeParts(m.name).Success? && Planned(Parsed(m, root)) in Whole(Items(members, root))
    {
      ItemOf(members, root, m);
      assert Sound(m, root);
    }
  }

  lemma OthersStand(nodes: Nodes, members: seq<Member>, root: string)
    requires AllSound(members, root) && Materialized(nodes, Items(members, root))
    ensures FilesStand(nodes, members)
  {
    hide SafeParts, SymlinkTarget;
    forall m | m in members && !m.kind.LinkType?
      ensures SafeParts(m.name).Success? && Planned(Parsed(m, root)) in Plans(Items(members, root), false)
    {
      ItemOf(members, root, m);
      assert Sound(m, root);
    }
  }

  /** A link's path holds what the end of its chain holds. */
  lemma {:induction false} ChainCopied(nodes: Nodes, members: seq<Member>, root: string, m: Member, file: Member,
                                       steps: nat)
    requires AllSound(members, root) && Materialized(nodes, Items(members, root))
    requires LeadsTo(members, root, m, file, steps)
    ensures file.kind.FileType?
    ensures StandsAt(nodes, m) == Some(File(file.kind.content, file.kind.mode % 512))
    decreases steps
  {
    hide SafeParts, SymlinkTarget;
    if steps == 0 {
      OthersStand(nodes, members, root);
    } else {
      var next :| Target(m, next, root) && LeadsTo(members, root, next, file, steps - 1);
      ChainCopied(nodes, members, root, next, file, steps - 1);
      ItemOf(members, root, m);
      assert Copied(nodes, Parsed(m, root));
    }
  }

  /** Every link that is copied leads to a file. */
  lemma {:induction false} ChainEnds(members: seq<Member>, root: string, i: nat, privileged: bool)
    returns (file: Member, steps: nat)
    requires AllSound(members, root) && i < |members| && members[i].kind.LinkType?
    requires AvailableUpTo(Items(members, root), |members|, privileged)
    ensures LeadsTo(members, root, members[i], file, steps)
  {
    hide SafeParts, SymlinkTarget;
    var items, m := Items(members, root), members[i];
    assert items[..|items|] == items;
    assert m in members && Sound(m, root) && items[i] in items && items[i] == Parsed(m, root);
    assert Available(items, i, privileged);
    var target := items[i].kind.target;
    if target in ReadablePaths(items, privileged) {
      var item :| item in items && item.kind.Regular? && item.path == target;
      file := MemberOf(members, root, item);
      assert Sound(file, root);
      assert Target(m, file, root) && LeadsTo(members, root, file, file, 0);
      return file, 1;
    } else {
      var item :| item in items[..i] && item.kind.Symlink? && item.path == target;
      var j :| 0 <= j < i && items[..i][j] == item;
      assert members[j] in members && items[j] == Parsed(members[j], root) && Sound(members[j], root);
      file, steps := ChainEnds(members, root, j, privileged);
      assert Target(m, members[j], root);
      return file, steps + 1;
    }
  }

  /** Extraction with links copied leaves at every link the file that its chain of targets leads to. */
  lemma MembersCopied(nodes: Nodes, members: seq<Member>, root: string, privileged: bool)
    requires AllSound(members, root) && Materialized(nodes, Items(members, root))
    requires AvailableUpTo(Items(members, root), |members|, privileged)
    ensures FilesStand(nodes, members) && CopiesStand(nodes, members, root)
  {
    OthersStand(nodes, members, root);
    hide *;
    forall m | m in members && m.kind.LinkType?
      ensures exists file, steps :: LeadsTo(members, root, m, file, steps)
      ensures forall file, steps :: LeadsTo(members, root, m, file, steps) ==>
                && file.kind.FileType?
                && StandsAt(nodes, m) == Some(File(file.kind.content, file.kind.mode % 512))
    {
      var i :| 0 <= i < |members| && members[i] == m;
      var end, length := ChainEnds(members, root, i, privileged);
      forall file, steps | LeadsTo(members, root, m, file, steps)
        ensures file.kind.FileType? && StandsAt(nodes, m) == Some(File(file.kind.content, file.kind.mode % 512))
      {
        ChainCopied(nodes, members, root, m, file, steps);
      }
    }
  }
}
