/**
 The checks extract_tar_archive of tools/prepare_piper_inputs.py makes before it writes anything:
 the counting loop over the archive, the loop over the members, and the loop over their paths.
 */
module ArchiveChecks {
  import opened Wrappers
  import opened ArchivePaths
  import opened Disks
  import opened ArchiveTree

  const MAX_MEMBERS := 100_000
  const MAX_BYTES := 4 * 1024 * 1024 * 1024

  datatype MemberType = DirType | FileType(content: seq<nat>, mode: nat) | LinkType(linkname: string) | OtherType

  /** A member as the archive reader yields it. */
  datatype Member = Member(name: string, kind: MemberType)

  function SizeOf(m: Member): nat {
    if m.kind.FileType? then |m.kind.content| else 0
  }

  function TotalBytes(members: seq<Member>): nat {
    if members == [] then 0 else TotalBytes(members[..|members| - 1]) + SizeOf(members[|members| - 1])
  }

  ghost predicate Admitted(members: seq<Member>) {
    |members| <= MAX_MEMBERS && TotalBytes(members) <= MAX_BYTES
  }

  lemma {:induction false} TotalOfPrefix(members: seq<Member>, i: nat)
    requires i <= |members|
    ensures TotalBytes(members[..i]) <= TotalBytes(members)
  {
    if i < |members| {
      var front := members[..|members| - 1];
      assert front[..i] == members[..i];
      TotalOfPrefix(front, i);
    } else {
      assert members[..i] == members;
    }
  }

  method Admit(bundle: seq<Member>) returns (r: Result<seq<Member>, Error>)
    ensures r.Success? <==> Admitted(bundle)
    ensures r.Success? ==> r.value == bundle
    ensures r.Failure? ==> r.error == MemberLimit || r.error == ByteLimit
  {
    var members, total := [], 0;
    for i := 0 to |bundle|
      invariant members == bundle[..i]
      invariant total == TotalBytes(bundle[..i]) <= MAX_BYTES
      invariant i <= MAX_MEMBERS
    {
      assert bundle[..i + 1] == bundle[..i] + [bundle[i]] && bundle[..i + 1][..i] == bundle[..i];
      TotalOfPrefix(bundle, i + 1);
      if i + 1 > MAX_MEMBERS { return Failure(MemberLimit); }
      if bundle[i].kind.FileType? {
        total := total + |bundle[i].kind.content|;
        if total > MAX_BYTES { return Failure(ByteLimit); }
      }
      members := members + [bundle[i]];
    }
    assert bundle[..|bundle|] == bundle;
    return Success(members);
  }

  // ---------------------------------------------------------------- one member

  /** A member whose own name, type and link target are acceptable. */
  ghost predicate Sound(m: Member, root: string) {
    && SafeParts(m.name).Success?
    && SafeParts(m.name).value[0] == root
    && !m.kind.OtherType?
    && (m.kind.LinkType? ==> SymlinkTarget(SafeParts(m.name).value, m.kind.linkname, root).Success?)
  }

  /** The parsed form of a member. */
  function Parsed(m: Member, root: string): Item {
    var parts := SafeParts(m.name);
    if parts.Failure? then Item([], Directory)
    else
      Item(parts.value,
           match m.kind
           case FileType(content, mode) => Regular(content, mode)
           case LinkType(linkname) =>
             var target := SymlinkTarget(parts.value, linkname, root);
             Symlink(linkname, if target.Success? then target.value else [])
           case _ => Directory)
  }

  function Items(members: seq<Member>, root: string): (items: seq<Item>)
    ensures |items| == |members|
    ensures forall i :: 0 <= i < |members| ==> items[i] == Parsed(members[i], root)
  {
    seq(|members|, i requires 0 <= i < |members| => Parsed(members[i], root))
  }

  ghost predicate AllSound(members: seq<Member>, root: string) {
    forall m {:trigger m in members} :: m in members ==> Sound(m, root)
  }

  lemma SoundIsPlaced(m: Member, root: string)
    requires Sound(m, root)
    ensures Placed(Parsed(m, root), root)
    ensures m.kind.LinkType? && |Parsed(m, root).path| == 1 ==>
              Components(m.kind.linkname) != [] && Components(m.kind.linkname)[0] != ".."
  {
    hide Components, Portable;
    var path := Parsed(m, root).path;
    if m.kind.LinkType? && |path| == 1 {
      RootTargetStartsDown(path, m.kind.linkname, root);
    }
  }

  lemma RootTargetStartsDown(path: Path, linkname: string, root: string)
    requires |path| == 1 && SymlinkTarget(path, linkname, root).Success?
    ensures Components(linkname) != [] && Components(linkname)[0] != ".."
  {
    var parts := Components(linkname);
    assert path[..0] + parts == parts;
    SafePartsOfPathString([]);
    if parts != [] && parts[0] == ".." {
      SplitPieces(linkname);
      KeptMembers(Split(linkname));
      NormalizeIsClimb([], parts);
      SafePartsOfPathString(Normalize([], parts));
    }
  }

  /** What the member loop has gathered: member paths, link paths, and the parsed members. */
  datatype Ledger = Ledger(memberPaths: set<Path>, linkPaths: set<Path>, items: seq<Item>)

  function Paths(items: seq<Item>): set<Path> {
    set m | m in items :: m.path
  }

  function LinkPaths(items: seq<Item>): set<Path> {
    set m | m in items && m.kind.Symlink? :: m.path
  }

  ghost predicate Tallies(ledger: Ledger) {
    && ledger.memberPaths == Paths(ledger.items)
    && ledger.linkPaths == LinkPaths(ledger.items)
    && Distinct(ledger.items)
  }

  /** The body of the member loop. */
  method RecordMember(ledger: Ledger, member: Member, archiveRoot: string) returns (r: Result<Ledger, Error>)
    requires Tallies(ledger)
    ensures r.Success? <==> Sound(member, archiveRoot) && Parsed(member, archiveRoot).path !in ledger.memberPaths
    ensures r.Success? ==> Tallies(r.value) && r.value.items == ledger.items + [Parsed(member, archiveRoot)]
    ensures r.Failure? ==> r.error != LeavesDestination
  {
    var parts := SafeParts(member.name);
    if parts.Failure? { return Failure(parts.error); }
    if parts.value[0] != archiveRoot { return Failure(WrongRoot); }
    if parts.value in ledger.memberPaths { return Failure(Duplicate); }
    var memberPaths := ledger.memberPaths + {parts.value};
    if member.kind.OtherType? { return Failure(Unsupported); }
    var linkPaths, kind := ledger.linkPaths, Directory;
    if member.kind.FileType? {
      kind := Regular(member.kind.content, member.kind.mode);
    } else if member.kind.LinkType? {
      var target := SymlinkTarget(parts.value, member.kind.linkname, archiveRoot);
      if target.Failure? { return Failure(target.error); }
      kind := Symlink(member.kind.linkname, target.value);
      linkPaths := linkPaths + {parts.value};
    }
    var item := Item(parts.value, kind);
    TalliesStep(ledger, item);
    return Success(Ledger(memberPaths, linkPaths, ledger.items + [item]));
  }

  lemma TalliesStep(ledger: Ledger, item: Item)
    requires Tallies(ledger) && item.path !in ledger.memberPaths
    ensures Paths(ledger.items + [item]) == ledger.memberPaths + {item.path}
    ensures LinkPaths(ledger.items + [item]) == ledger.linkPaths + if item.kind.Symlink? then {item.path} else {}
    ensures Distinct(ledger.items + [item])
  {
  }

  /** Distinctness fails for good once a path repeats. */
  lemma RepeatedPath(items: seq<Item>, i: nat)
    requires i < |items| && items[i].path in Paths(items[..i])
    ensures !Distinct(items)
  {
  }

  method RecordMembers(members: seq<Member>, archiveRoot: string) returns (r: Result<Ledger, Error>)
    ensures r.Success? <==> AllSound(members, archiveRoot) && Distinct(Items(members, archiveRoot))
    ensures r.Success? ==> Tallies(r.value) && r.value.items == Items(members, archiveRoot)
    ensures r.Failure? ==> r.error != LeavesDestination
  {
    ghost var items := Items(members, archiveRoot);
    var ledger := Ledger({}, {}, []);
    for i := 0 to |members|
      invariant Tallies(ledger) && ledger.items == items[..i]
      invariant AllSound(members[..i], archiveRoot)
    {
      assert members[i] in members && members[..i + 1] == members[..i] + [members[i]];
      r := RecordMember(ledger, members[i], archiveRoot);
      if r.Failure? {
        if items[i].path in Paths(items[..i]) { RepeatedPath(items, i); }
        return;
      }
      ledger := r.value;
    }
    assert members[..|members|] == members && items[..|members|] == items;
    return Success(ledger);
  }

  // ---------------------------------------------------------------- no member below a link

  method CheckTraversal(memberPaths: set<Path>, linkPaths: set<Path>) returns (clear: bool)
    ensures clear <==> forall p, l :: p in memberPaths && l in linkPaths ==> !Above(l, p)
  {
    var remaining := memberPaths;
    while remaining != {}
      invariant remaining <= memberPaths
      invariant forall p, l :: p in memberPaths - remaining && l in linkPaths ==> !Above(l, p)
    {
      var path :| path in remaining;
      if exists k :: 0 <= k < |path| && path[..k] in linkPaths {
        ghost var k :| 0 <= k < |path| && path[..k] in linkPaths;
        assert Above(path[..k], path);
        return false;
      }
      forall l | l in linkPaths
        ensures !Above(l, path)
      {
        if |l| < |path| {
          assert path[..|l|] !in linkPaths;
          assert l == path[..|l|] <==> Above(l, path);
        }
      }
      remaining := remaining - {path};
    }
    return true;
  }

  lemma ClearMeansNoneBelowLinks(items: seq<Item>)
    ensures (forall p, l :: p in Paths(items) && l in LinkPaths(items) ==> !Above(l, p)) <==> NoneBelowLinks(items)
  {
  }

  lemma SoundListIsPlaced(members: seq<Member>, root: string)
    requires AllSound(members, root)
    ensures AllPlaced(Items(members, root), root) && RootLinkStartsDown(Items(members, root))
  {
    forall m | m in Items(members, root)
      ensures Placed(m, root)
      ensures m.kind.Symlink? && |m.path| == 1 ==>
                Components(m.kind.linkname) != [] && Components(m.kind.linkname)[0] != ".."
    {
      var i :| 0 <= i < |members| && Items(members, root)[i] == m;
      assert members[i] in members;
      SoundIsPlaced(members[i], root);
    }
  }

  method CheckMembers(members: seq<Member>, archiveRoot: string) returns (r: Result<seq<Item>, Error>)
    ensures r.Success? <==> AllSound(members, archiveRoot) && Distinct(Items(members, archiveRoot))
                            && NoneBelowLinks(Items(members, archiveRoot))
    ensures r.Success? ==> r.value == Items(members, archiveRoot) && Checked(r.value, archiveRoot)
    ensures r.Success? ==> RootLinkStartsDown(r.value)
    ensures r.Failure? ==> r.error != LeavesDestination
  {
    var recorded := RecordMembers(members, archiveRoot);
    if recorded.Failure? { return Failure(recorded.error); }
    var ledger := recorded.value;
    var clear := CheckTraversal(ledger.memberPaths, ledger.linkPaths);
    ClearMeansNoneBelowLinks(ledger.items);
    if !clear { return Failure(TraversesLink); }
    SoundListIsPlaced(members, archiveRoot);
    return Success(ledger.items);
  }
}
