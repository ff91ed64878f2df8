/**
 The part of a POSIX filesystem below one extraction directory, as the extraction code of
 tools/prepare_piper_inputs.py uses it.  Paths are relative to that directory.
 */
module Disks {
  import opened Wrappers
  import opened ArchivePaths

  datatype Node = Dir | File(content: seq<nat>, mode: nat) | Link(target: string)

  type Nodes = map<Path, Node>

  const EMPTY_DIRECTORY: Nodes := map[[] := Dir]

  /**
   Where a path really leads, following links: `done` is the part already resolved, `todo`
   what is left.  None when it leaves the directory, or follows more than `hops` links
   (a link cycle never stops following).
   */
  function Resolve(nodes: Nodes, done: Path, todo: Path, hops: nat): Option<Path>
    decreases hops, |todo|
  {
    if todo == [] then Some(done)
    else if todo[0] == ".." then
      if done == [] then None else Resolve(nodes, done[..|done| - 1], todo[1..], hops)
    else
      var here := done + [todo[0]];
      if here in nodes && nodes[here].Link? then
        if hops == 0 || Absolute(nodes[here].target) then None
        else Resolve(nodes, done, Components(nodes[here].target) + todo[1..], hops - 1)
      else Resolve(nodes, here, todo[1..], hops)
  }

  /** Path.is_dir: every step exists and the last one is a directory. */
  predicate LeadsToDir(nodes: Nodes, done: Path, todo: Path, hops: nat)
    decreases hops, |todo|
  {
    if done !in nodes || nodes[done] != Dir then false
    else if todo == [] then true
    else if todo[0] == ".." then
      done != [] && LeadsToDir(nodes, done[..|done| - 1], todo[1..], hops)
    else
      var here := done + [todo[0]];
      if here in nodes && nodes[here].Link? then
        hops > 0 && !Absolute(nodes[here].target)
        && LeadsToDir(nodes, done, Components(nodes[here].target) + todo[1..], hops - 1)
      else LeadsToDir(nodes, here, todo[1..], hops)
  }

  /** Path.mkdir(parents=True, exist_ok=True). */
  function MakeDirs(nodes: Nodes, path: Path, hops: nat): Option<Nodes>
    decreases |path|
  {
    if path == [] then (if [] in nodes && nodes[[]] == Dir then Some(nodes) else None)
    else
      var parent := path[..|path| - 1];
      match MakeDirs(nodes, parent, hops)
      case None => None
      case Some(made) => MakeLast(made, path, hops)
  }

  /** The last directory of a path whose parent has been made. */
  function MakeLast(made: Nodes, path: Path, hops: nat): Option<Nodes>
    requires path != []
  {
    match (Resolve(made, [], path[..|path| - 1], hops), Resolve(made, [], path, hops))
    case (Some(inside), Some(place)) =>
      if place in made then (if made[place] == Dir then Some(made) else None)
      else if place == inside + path[|path| - 1..] then Some(made[place := Dir])
      else None // a dangling link is in the way
    case _ => None
  }

  /** Path.open("wb") followed by the copy and chmod: the file a link leads to is the one written. */
  function WriteFile(nodes: Nodes, path: Path, content: seq<nat>, mode: nat, hops: nat): Option<Nodes>
  {
    match Resolve(nodes, [], path, hops)
    case None => None
    case Some(place) =>
      if place == [] || place[..|place| - 1] !in nodes || nodes[place[..|place| - 1]] != Dir then None
      else if place in nodes && nodes[place] == Dir then None
      else Some(nodes[place := File(content, mode)])
  }

  /** The operating system refuses an empty link target and one holding a NUL character. */
  predicate Storable(target: string) {
    target != "" && '\0' !in target
  }

  /** Path.symlink_to: nothing may exist yet under the new name, which is not itself followed. */
  function MakeLink(nodes: Nodes, path: Path, target: string, hops: nat): Option<Nodes>
    requires path != []
  {
    match Resolve(nodes, [], path[..|path| - 1], hops)
    case None => None
    case Some(parent) =>
      var place := parent + path[|path| - 1..];
      if !Storable(target) || parent !in nodes || nodes[parent] != Dir || place in nodes then None
      else Some(nodes[place := Link(target)])
  }

  /** A file may be opened for reading by its owner when the owner's read bit is set. */
  predicate Readable(mode: nat, privileged: bool) {
    privileged || mode / 256 % 2 == 1
  }

  class Disk {
    var nodes: Nodes
    const hops: nat
    const privileged: bool

    /**
     A new empty extraction directory on a system that follows at most `hops` links, used by the owner of
     the files or, when privileged, by a process that may read any file.
     */
    constructor (hops: nat, privileged: bool)
      ensures nodes == EMPTY_DIRECTORY && this.hops == hops && this.privileged == privileged
    {
      nodes := EMPTY_DIRECTORY;
      this.hops, this.privileged := hops, privileged;
    }

    method Mkdir(path: Path) returns (ok: bool)
      modifies this
      ensures var made := MakeDirs(old(nodes), path, hops);
              ok == made.Some? && nodes == if ok then made.value else old(nodes)
    {
      var made := MakeDirs(nodes, path, hops);
      ok := made.Some?;
      if ok { nodes := made.value; }
    }

    method Write(path: Path, content: seq<nat>, mode: nat) returns (ok: bool)
      modifies this
      ensures var written := WriteFile(old(nodes), path, content, mode, hops);
              ok == written.Some? && nodes == if ok then written.value else old(nodes)
    {
      var written := WriteFile(nodes, path, content, mode, hops);
      ok := written.Some?;
      if ok { nodes := written.value; }
    }

    method SymlinkTo(path: Path, target: string) returns (ok: bool)
      requires path != []
      modifies this
      ensures var linked := MakeLink(old(nodes), path, target, hops);
              ok == linked.Some? && nodes == if ok then linked.value else old(nodes)
    {
      var linked := MakeLink(nodes, path, target, hops);
      ok := linked.Some?;
      if ok { nodes := linked.value; }
    }
  }

  // ---------------------------------------------------------------- paths that meet no link

  ghost predicate Above(upper: Path, lower: Path) {
    upper < lower
  }

  ghost predicate AtOrAbove(upper: Path, lower: Path) {
    upper <= lower
  }

  /** Neither `path` nor a directory on the way to it is a link. */
  ghost predicate NoLinkOn(nodes: Nodes, path: Path) {
    forall p :: p in nodes && AtOrAbove(p, path) ==> !nodes[p].Link?
  }

  /** A path whose components meet no link leads to itself. */
  lemma {:induction false} ResolvePlain(nodes: Nodes, done: Path, todo: Path, hops: nat)
    requires NoLinkOn(nodes, done + todo)
    requires ".." !in todo
    ensures Resolve(nodes, done, todo, hops) == Some(done + todo)
    decreases |todo|
  {
    if todo == [] {
      assert done + todo == done;
    } else {
      assert todo[0] in todo;
      var here := done + [todo[0]];
      assert here + todo[1..] == done + todo;
      assert AtOrAbove(here, done + todo);
      ResolvePlain(nodes, here, todo[1..], hops);
    }
  }

  lemma AboveLast(path: Path)
    requires path != []
    ensures forall p :: AtOrAbove(p, path) <==> p == path || AtOrAbove(p, path[..|path| - 1])
    ensures !AtOrAbove(path, path[..|path| - 1])
    ensures forall p :: Above(p, path) <==> AtOrAbove(p, path[..|path| - 1])
  {
    forall p
      ensures AtOrAbove(p, path) <==> p == path || AtOrAbove(p, path[..|path| - 1])
    {
      if AtOrAbove(p, path) && |p| == |path| {
        assert p == path;
      }
    }
  }

  /** The directories mkdir makes on the way to `path`, with `path` itself. */
  function Ancestors(path: Path): (all: set<Path>)
    ensures forall p :: p in all <==> AtOrAbove(p, path)
    decreases |path|
  {
    if path == [] then {[]}
    else
      AboveLast(path);
      Ancestors(path[..|path| - 1]) + {path}
  }

  function WithDirs(nodes: Nodes, path: Path): Nodes {
    nodes + map p | p in Ancestors(path) :: Dir
  }

  ghost predicate DirsFit(nodes: Nodes, path: Path) {
    forall p :: p in nodes && AtOrAbove(p, path) ==> nodes[p] == Dir
  }

  lemma WithDirsStep(nodes: Nodes, path: Path)
    requires path != []
    ensures WithDirs(nodes, path) == WithDirs(nodes, path[..|path| - 1])[path := Dir]
    ensures path in WithDirs(nodes, path[..|path| - 1]) <==> path in nodes
    ensures path in nodes ==> WithDirs(nodes, path[..|path| - 1])[path] == nodes[path]
  {
  }

  lemma NoLinkOnWithDirs(nodes: Nodes, path: Path)
    requires path != [] && NoLinkOn(nodes, path)
    ensures NoLinkOn(WithDirs(nodes, path[..|path| - 1]), path)
    ensures NoLinkOn(WithDirs(nodes, path[..|path| - 1]), path[..|path| - 1])
  {
  }

  lemma MakeDirsLastStep(nodes: Nodes, path: Path, hops: nat)
    requires path != [] && ".." !in path
    requires NoLinkOn(nodes, path)
    ensures MakeLast(WithDirs(nodes, path[..|path| - 1]), path, hops) ==
            if path in nodes && nodes[path] != Dir then None else Some(WithDirs(nodes, path))
  {
    var parent := path[..|path| - 1];
    var made := WithDirs(nodes, parent);
    hide WithDirs, Resolve, NoLinkOn;
    WithDirsStep(nodes, path);
    assert [] + path == path && [] + parent == parent && parent + path[|parent|..] == path;
    assert Resolve(made, [], parent, hops) == Some(parent) && Resolve(made, [], path, hops) == Some(path) by {
      NoLinkOnWithDirs(nodes, path);
      ResolvePlain(made, [], parent, hops);
      ResolvePlain(made, [], path, hops);
    }
    assert path in nodes && nodes[path] == Dir ==> made[path := Dir] == made;
  }

  /** Away from links, mkdir makes exactly the missing ancestors, and fails only on a file in the way. */
  lemma {:induction false} MakeDirsPlain(nodes: Nodes, path: Path, hops: nat)
    requires [] in nodes && nodes[[]] == Dir
    requires NoLinkOn(nodes, path)
    requires ".." !in path
    ensures MakeDirs(nodes, path, hops) ==
            if DirsFit(nodes, path) then Some(WithDirs(nodes, path)) else None
    decreases |path|
  {
    if path == [] {
      assert Ancestors(path) == {[]};
      assert WithDirs(nodes, path) == nodes;
    } else {
      AboveLast(path);
      MakeDirsPlain(nodes, path[..|path| - 1], hops);
      if DirsFit(nodes, path[..|path| - 1]) {
        MakeDirsLastStep(nodes, path, hops);
      }
    }
  }
}
