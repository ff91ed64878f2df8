/**
 What the order of the archive members can change: nothing when links stay links, and only
 success, never the tree, when links become copies.
 */
module ExtractionOrder {
  import opened Sequences
  import opened Wrappers
  import opened ArchivePaths
  import opened Disks
  import opened ArchiveTree
  import opened ArchiveChecks
  import opened ArchiveCopies
  import opened Extraction

  function Without<T>(s: seq<T>, k: nat): seq<T>
    requires k < |s|
  {
    s[..k] + s[k + 1..]
  }

  lemma {:induction false} TotalWithout(members: seq<Member>, k: nat)
    requires k < |members|
    ensures TotalBytes(members) == TotalBytes(Without(members, k)) + SizeOf(members[k])
  {
    var front := members[..|members| - 1];
    if k == |front| {
      assert Without(members, k) == front;
    } else {
      TotalWithout(front, k);
      var rest := Without(members, k);
      assert rest[..|rest| - 1] == Without(front, k);
      assert rest[|rest| - 1] == members[|members| - 1];
    }
  }

  lemma DistinctWithout(items: seq<Item>, k: nat)
    requires k < |items| && Distinct(items)
    ensures Distinct(Without(items, k))
    ensures forall m :: m in Without(items, k) ==> m.path != items[k].path
  {
  }

  /** The last element of a shuffled list, found in the original. */
  lemma ShuffledLast<T>(a: seq<T>, b: seq<T>) returns (k: nat)
    requires b != [] && multiset(a) == multiset(b)
    ensures k < |a| && a[k] == b[|b| - 1]
    ensures multiset(Without(a, k)) == multiset(b[..|b| - 1])
  {
    var last := b[|b| - 1];
    assert b == b[..|b| - 1] + [last];
    assert last in multiset(b) && last in a;
    k :| 0 <= k < |a| && a[k] == last;
    OneTaken(a, k);
    hide Without;
    assert multiset(b) == multiset(b[..|b| - 1]) + multiset{last};
    SameRest(multiset(Without(a, k)), multiset(b[..|b| - 1]), last);
  }

  lemma OneTaken<T>(a: seq<T>, k: nat)
    requires k < |a|
    ensures multiset(a) == multiset(Without(a, k)) + multiset{a[k]}
  {
    assert a == a[..k] + ([a[k]] + a[k + 1..]);
    assert multiset(a) == multiset(a[..k]) + multiset([a[k]] + a[k + 1..]);
  }

  lemma SameRest<T>(x: multiset<T>, y: multiset<T>, one: T)
    requires x + multiset{one} == y + multiset{one}
    ensures x == y
  {
    assert x == x + multiset{one} - multiset{one} && y == y + multiset{one} - multiset{one};
  }

  lemma SameElements<T>(a: seq<T>, b: seq<T>)
    requires multiset(a) == multiset(b)
    ensures |a| == |b| && forall m :: m in a <==> m in b
  {
    assert forall m :: m in a <==> m in multiset(a);
    assert forall m :: m in b <==> m in multiset(b);
    assert |multiset(a)| == |a| && |multiset(b)| == |b|;
  }

  /** Totals do not see the order. */
  lemma {:induction false} TotalShuffled(a: seq<Member>, b: seq<Member>)
    requires multiset(a) == multiset(b)
    ensures TotalBytes(a) == TotalBytes(b)
    decreases |b|
  {
    SameElements(a, b);
    if b != [] {
      var k := ShuffledLast(a, b);
      TotalShuffled(Without(a, k), b[..|b| - 1]);
      TotalWithout(a, k);
    }
  }

  lemma DistinctWithLast(items: seq<Item>)
    requires items != [] && Distinct(items[..|items| - 1])
    requires forall m :: m in items[..|items| - 1] ==> m.path != items[|items| - 1].path
    ensures Distinct(items)
  {
  }

  /** Nor does distinctness. */
  lemma {:induction false} DistinctShuffled(a: seq<Item>, b: seq<Item>)
    requires multiset(a) == multiset(b) && Distinct(a)
    ensures Distinct(b)
    decreases |b|
  {
    if b != [] {
      var k := ShuffledLast(a, b);
      DistinctWithout(a, k);
      DistinctShuffled(Without(a, k), b[..|b| - 1]);
      SameElements(Without(a, k), b[..|b| - 1]);
      DistinctWithLast(b);
    }
  }

  lemma MapParts<T, U>(f: T -> U, s: seq<T>, k: nat)
    requires k < |s|
    ensures multiset(Map(f, s)) == multiset(Map(f, Without(s, k))) + multiset{f(s[k])}
  {
    assert Map(f, s) == Map(f, s[..k]) + [f(s[k])] + Map(f, s[k + 1..]);
    assert Map(f, Without(s, k)) == Map(f, s[..k]) + Map(f, s[k + 1..]);
  }

  /** Mapping commutes with shuffling. */
  lemma {:induction false} MapShuffled<T, U>(f: T -> U, a: seq<T>, b: seq<T>)
    requires multiset(a) == multiset(b)
    ensures multiset(Map(f, a)) == multiset(Map(f, b))
    decreases |b|
  {
    SameElements(a, b);
    if b != [] {
      var k := ShuffledLast(a, b);
      MapShuffled(f, Without(a, k), b[..|b| - 1]);
      MapParts(f, a, k);
      MapParts(f, b, |b| - 1);
      assert Without(b, |b| - 1) == b[..|b| - 1];
    }
  }

  lemma ItemsShuffled(a: seq<Member>, b: seq<Member>, root: string)
    requires multiset(a) == multiset(b)
    ensures multiset(Items(a, root)) == multiset(Items(b, root))
  {
    var f := m => Parsed(m, root);
    MapShuffled(f, a, b);
    assert Items(a, root) == Map(f, a) && Items(b, root) == Map(f, b);
  }

  lemma AcceptableShuffled(a: seq<Member>, b: seq<Member>, root: string)
    requires multiset(a) == multiset(b) && Acceptable(a, root)
    ensures Acceptable(b, root)
  {
    SameElements(a, b);
    TotalShuffled(a, b);
    ItemsShuffled(a, b, root);
    SameElements(Items(a, root), Items(b, root));
    DistinctShuffled(Items(a, root), Items(b, root));
  }

  /** Links kept as links: every order of the members gives the same verdict and the same tree. */
  lemma OrderIrrelevant(a: seq<Member>, b: seq<Member>, root: string, treeA: Nodes, treeB: Nodes)
    requires multiset(a) == multiset(b)
    ensures Extractable(a, root) <==> Extractable(b, root)
    ensures Describes(treeA, Whole(Items(a, root))) && Describes(treeB, Whole(Items(b, root))) ==> treeA == treeB
  {
    ItemsShuffled(a, b, root);
    SameElements(Items(a, root), Items(b, root));
    if Extractable(a, root) { AcceptableShuffled(a, b, root); }
    if Extractable(b, root) { AcceptableShuffled(b, a, root); }
    assert Whole(Items(a, root)) == Whole(Items(b, root));
    if Describes(treeA, Whole(Items(a, root))) && Describes(treeB, Whole(Items(b, root))) {
      DescribesUnique(treeA, treeB, Whole(Items(a, root)));
    }
  }

  // ---------------------------------------------------------------- links copied

  ghost predicate SameLinks(a: Nodes, b: Nodes, links: seq<Item>) {
    forall m {:trigger m in links} :: m in links && m.kind.Symlink? ==> SameAt(a, m.path, b, m.path)
  }

  ghost predicate SameFiles(a: Nodes, b: Nodes, items: seq<Item>) {
    forall p :: p in FilePaths(items) ==> SameAt(a, p, b, p)
  }

  lemma SameNext(items: seq<Item>, i: nat, privileged: bool, treeA: Nodes, treeB: Nodes)
    requires i < |items| && items[i].kind.Symlink? && Available(items, i, privileged)
    requires Copied(treeA, items[i]) && Copied(treeB, items[i])
    requires SameFiles(treeA, treeB, items) && SameLinks(treeA, treeB, items[..i])
    ensures SameAt(treeA, items[i].path, treeB, items[i].path)
  {
    var target := items[i].kind.target;
    if target in LinkPaths(items[..i]) {
      var m :| m in items[..i] && m.kind.Symlink? && m.path == target;
    } else {
      assert target in FilePaths(items);
    }
    assert SameAt(treeA, target, treeB, target);
  }

  /** The two trees hold the same file at each link's path, followed in the order of the list. */
  lemma {:induction false} SameCopies(items: seq<Item>, n: nat, privileged: bool, treeA: Nodes, treeB: Nodes)
    requires n <= |items| && AvailableUpTo(items, n, privileged)
    requires AllCopied(treeA, items) && AllCopied(treeB, items)
    requires SameFiles(treeA, treeB, items)
    ensures SameLinks(treeA, treeB, items[..n])
  {
    if n > 0 {
      SameCopies(items, n - 1, privileged, treeA, treeB);
      assert items[..n] == items[..n - 1] + [items[n - 1]];
      if items[n - 1].kind.Symlink? {
        assert items[n - 1] in items;
        assert Available(items, n - 1, privileged);
        SameNext(items, n - 1, privileged, treeA, treeB);
      }
    }
  }

  lemma MaterializedFiles(treeA: Nodes, treeB: Nodes, items: seq<Item>)
    requires Materialized(treeA, items) && Materialized(treeB, items)
    ensures SameFiles(treeA, treeB, items)
  {
    forall p | p in FilePaths(items)
      ensures SameAt(treeA, p, treeB, p)
    {
      var m :| m in items && m.kind.Regular? && m.path == p;
      assert Planned(m) in Plans(items, false);
    }
  }

  lemma MaterializedOnce(items: seq<Item>, privileged: bool, treeA: Nodes, treeB: Nodes)
    requires AvailableUpTo(items, |items|, privileged)
    requires Materialized(treeA, items) && Materialized(treeB, items)
    ensures treeA == treeB
  {
    MaterializedFiles(treeA, treeB, items);
    SameCopies(items, |items|, privileged, treeA, treeB);
    assert items[..|items|] == items;
    assert Copies(treeA, items) == Copies(treeB, items);
    DescribesUnique(treeA, treeB, Plans(items, false) + Copies(treeA, items));
  }

  /** Links copied: any two orders that succeed give the same tree. */
  lemma CopiesAgree(a: seq<Member>, b: seq<Member>, root: string, privileged: bool, treeA: Nodes, treeB: Nodes)
    requires multiset(a) == multiset(b) && Materializable(a, root, privileged)
    requires Materialized(treeA, Items(a, root)) && Materialized(treeB, Items(b, root))
    ensures treeA == treeB
  {
    var itemsA, itemsB := Items(a, root), Items(b, root);
    ItemsShuffled(a, b, root);
    SameElements(itemsA, itemsB);
    assert Plans(itemsA, false) == Plans(itemsB, false) && Copies(treeB, itemsA) == Copies(treeB, itemsB);
    MaterializedOnce(itemsA, privileged, treeA, treeB);
  }

  // ---------------------------------------------------------------- an order that fails

  lemma InRoot(name: string)
    requires Portable(name)
    ensures SafeParts("r/" + name) == Success(["r", name])
  {
    var path := ["r", name];
    assert Portable("r");
    assert Join(path[1..]) == name;
    SafePartsOfPathString(path);
    assert PathString(path) == "r/" + name;
  }

  lemma LinkInRoot(name: string, target: string)
    requires Portable(name) && Portable(target)
    ensures SymlinkTarget(["r", name], target, "r") == Success(["r", target])
  {
    var path := ["r", target];
    SplitPiece(target);
    KeptAll([target]);
    assert ["r", name][..1] + [target] == path;
    LinkTargetExact(["r", name], target, "r") by { assert Portable("r"); }
    assert Climb([], path) == Climb(["r"], [target]) by {
      assert path[1..] == [target] && [] + ["r"] == ["r"];
    }
    assert target != ".." by { assert EndsAmbiguously(".."); }
    assert Climb(["r"], [target]) == Climb(path, []) by {
      assert [target][1..] == [] && ["r"] + [target] == path;
    }
    assert Portable("r");
  }

  const OWNER_READS := 256

  /** An empty file. */
  function FileNamed(name: string, mode: nat): Member {
    Member("r/" + name, FileType([], mode))
  }

  function LinkNamed(name: string, target: string): Member {
    Member("r/" + name, LinkType(target))
  }

  lemma FileParsed(name: string, mode: nat)
    requires Portable(name)
    ensures Sound(FileNamed(name, mode), "r")
    ensures Parsed(FileNamed(name, mode), "r") == Item(["r", name], Regular([], mode))
  {
    hide SafeParts, Portable;
    InRoot(name);
  }

  lemma LinkParsed(name: string, target: string)
    requires Portable(name) && Portable(target)
    ensures Sound(LinkNamed(name, target), "r")
    ensures Parsed(LinkNamed(name, target), "r") == Item(["r", name], Symlink(target, ["r", target]))
  {
    hide SafeParts, SymlinkTarget, Portable;
    InRoot(name);
    LinkInRoot(name, target);
  }

  lemma CopyOrder(file: Item, near: Item, far: Item, privileged: bool)
    requires file.kind.Regular? && Readable(file.kind.mode, privileged) && near.kind.Symlink? && far.kind.Symlink?
    requires file.path != near.path && file.path != far.path && near.path != far.path
    requires near.kind.target == file.path && far.kind.target == near.path
    ensures AvailableUpTo([file, near, far], 3, privileged) && !AvailableUpTo([file, far, near], 3, privileged)
  {
    var good, bad := [file, near, far], [file, far, near];
    assert good[..1] == [file] && good[..2] == [file, near] && bad[..1] == [file];
    assert file in good && near in good[..2];
    assert Available(good, 1, privileged) && Available(good, 2, privileged);
    assert !Available(bad, 1, privileged);
  }

  lemma ZeroTotal(members: seq<Member>)
    requires |members| <= MAX_MEMBERS && forall m :: m in members ==> SizeOf(m) == 0
    ensures Admitted(members)
  {
    NoBytes(members);
  }

  lemma {:induction false} NoBytes(members: seq<Member>)
    requires forall m :: m in members ==> SizeOf(m) == 0
    ensures TotalBytes(members) == 0
  {
    if members != [] {
      assert forall m :: m in members[..|members| - 1] ==> m in members;
      NoBytes(members[..|members| - 1]);
    }
  }

  lemma ThreeItems(x: Item, y: Item, z: Item)
    requires |x.path| == |y.path| == |z.path| == 2
    requires x.path != y.path && x.path != z.path && y.path != z.path
    ensures var items := [x, y, z]; Distinct(items) && OnlyDirectoriesAbove(items) && RootAppears(items)
  {
  }

  lemma ThreeMembers(x: Member, y: Member, z: Member, root: string)
    requires Sound(x, root) && Sound(y, root) && Sound(z, root)
    requires SizeOf(x) == SizeOf(y) == SizeOf(z) == 0
    requires var items := [Parsed(x, root), Parsed(y, root), Parsed(z, root)];
             Distinct(items) && OnlyDirectoriesAbove(items) && RootAppears(items)
    ensures Acceptable([x, y, z], root) && Items([x, y, z], root) == [Parsed(x, root), Parsed(y, root), Parsed(z, root)]
  {
    hide Sound, OnlyDirectoriesAbove, Parsed;
    ZeroTotal([x, y, z]);
    assert Items([x, y, z], root) == [Parsed(x, root), Parsed(y, root), Parsed(z, root)];
  }

  lemma CopyOrderOf(f: string, near: string, far: string, privileged: bool)
    requires Portable(f) && Portable(near) && Portable(far)
    requires f != near && f != far && near != far
    ensures Materializable([FileNamed(f, OWNER_READS), LinkNamed(near, f), LinkNamed(far, near)], "r", privileged)
    ensures !Materializable([FileNamed(f, OWNER_READS), LinkNamed(far, near), LinkNamed(near, f)], "r", privileged)
  {
    hide Parsed, Sound, Portable, Acceptable, AvailableUpTo, Distinct, OnlyDirectoriesAbove, RootAppears;
    var x, y, z := FileNamed(f, OWNER_READS), LinkNamed(near, f), LinkNamed(far, near);
    FileParsed(f, OWNER_READS);
    LinkParsed(near, f);
    LinkParsed(far, near);
    assert ["r", f][1] == f && ["r", near][1] == near && ["r", far][1] == far;
    ThreeItems(Parsed(x, "r"), Parsed(y, "r"), Parsed(z, "r"));
    ThreeItems(Parsed(x, "r"), Parsed(z, "r"), Parsed(y, "r"));
    ThreeMembers(x, y, z, "r");
    ThreeMembers(x, z, y, "r");
    CopyOrder(Parsed(x, "r"), Parsed(y, "r"), Parsed(z, "r"), privileged);
  }

  /**
   Links copied: with a file "r/f", a link "r/b" to it and a link "r/a" to "r/b", the list
   extracts when "r/b" comes first, and not the other way round.
   */
  lemma CopyOrderMatters(privileged: bool)
    ensures Materializable([FileNamed("f", OWNER_READS), LinkNamed("b", "f"), LinkNamed("a", "b")], "r", privileged)
    ensures !Materializable([FileNamed("f", OWNER_READS), LinkNamed("a", "b"), LinkNamed("b", "f")], "r", privileged)
  {
    hide Materializable;
    assert "f"[0] == 'f' && "b"[0] == 'b' && "a"[0] == 'a';
    CopyOrderOf("f", "b", "a", privileged);
  }

  // ---------------------------------------------------------------- lists that pass the checks and fail

  /** The checks made before anything is written. */
  ghost predicate PassesChecks(members: seq<Member>, root: string) {
    && Admitted(members) && AllSound(members, root)
    && Distinct(Items(members, root)) && NoneBelowLinks(Items(members, root))
  }

  lemma DeepFileParsed(name: string)
    requires Portable(name)
    ensures var deep := FileNamed(name + "/" + name, OWNER_READS);
            Sound(deep, "r") && Parsed(deep, "r") == Item(["r", name, name], Regular([], OWNER_READS))
  {
    var path := ["r", name, name];
    DeepName(name);
    hide SafeParts;
    assert FileNamed(name + "/" + name, OWNER_READS).name == "r/" + (name + "/" + name);
  }

  lemma DeepName(name: string)
    requires Portable(name)
    ensures SafeParts("r/" + (name + "/" + name)) == Success(["r", name, name])
  {
    var path := ["r", name, name];
    assert Portable("r");
    assert path[1..] == [name, name] && [name, name][1..] == [name];
    assert Join([name, name]) == name + "/" + name;
    assert "r" + "/" + (name + "/" + name) == "r/" + (name + "/" + name);
    SafePartsOfPathString(path);
  }

  lemma TwoMembers(x: Member, y: Member, root: string)
    requires Sound(x, root) && Sound(y, root) && SizeOf(x) == SizeOf(y) == 0
    requires Parsed(x, root).path != Parsed(y, root).path && !Parsed(x, root).kind.Symlink?
    requires !Above(Parsed(y, root).path, Parsed(x, root).path)
    ensures PassesChecks([x, y], root) && Items([x, y], root) == [Parsed(x, root), Parsed(y, root)]
  {
    hide Sound, Parsed;
    ZeroTotal([x, y]);
    assert Items([x, y], root) == [Parsed(x, root), Parsed(y, root)];
  }

  /** A file below a file passes every check and cannot be written. */
  lemma FileBelowFile(name: string)
    requires Portable(name)
    ensures var members := [FileNamed(name, OWNER_READS), FileNamed(name + "/" + name, OWNER_READS)];
            PassesChecks(members, "r") && !Extractable(members, "r")
  {
    hide Sound, Parsed, Portable, PassesChecks;
    var x, y := FileNamed(name, OWNER_READS), FileNamed(name + "/" + name, OWNER_READS);
    FileParsed(name, OWNER_READS);
    DeepFileParsed(name);
    assert ["r", name] == ["r", name, name][..2];
    TwoMembers(x, y, "r");
    assert Parsed(x, "r") in Items([x, y], "r") && Parsed(y, "r") in Items([x, y], "r");
    assert Above(Parsed(x, "r").path, Parsed(y, "r").path);
  }

  /** So does a link with an empty target: the checks read it as a link to its own directory. */
  lemma EmptyLink(name: string)
    requires Portable(name)
    ensures PassesChecks([LinkNamed(name, "")], "r") && !Extractable([LinkNamed(name, "")], "r")
  {
    var members := [LinkNamed(name, "")];
    hide SafeParts, SymlinkTarget, Portable;
    InRoot(name);
    EmptyTarget(name);
    ZeroTotal(members);
    var items := Items(members, "r");
    assert items == [Item(["r", name], Symlink("", ["r"]))] && items[0] in items;
  }

  lemma EmptyTarget(name: string)
    requires Portable(name)
    ensures SymlinkTarget(["r", name], "", "r") == Success(["r"])
  {
    assert Portable("r") && Components("") == [];
    assert ["r", name][..1] + [] == ["r"];
    LinkTargetExact(["r", name], "", "r");
    assert Climb([], ["r"]) == Climb(["r"], []) by { assert ["r"][1..] == [] && [] + ["r"] == ["r"]; }
  }

  /** And, links copied, a link to a file its owner may not read. */
  lemma UnreadableFile(f: string, link: string)
    requires Portable(f) && Portable(link) && f != link
    ensures var members := [FileNamed(f, 0), LinkNamed(link, f)];
            PassesChecks(members, "r") && Materializable(members, "r", true) && !Materializable(members, "r", false)
  {
    hide Sound, Parsed, Portable;
    var x, y := FileNamed(f, 0), LinkNamed(link, f);
    FileParsed(f, 0);
    LinkParsed(link, f);
    assert ["r", f][1] == f && ["r", link][1] == link;
    TwoMembers(x, y, "r");
    var items := Items([x, y], "r");
    assert items[0] in items && items[..1] == [items[0]];
    assert Available(items, 1, true) && !Available(items, 1, false);
  }
}
