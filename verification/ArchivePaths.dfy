/**
 Member-name validation (tools/archive_paths.py) and the lexical link check of
 tools/prepare_piper_inputs.py.  A path is the list of its components; a relative
 POSIX path string is split on '/', and empty and "." components are dropped.
 */
module ArchivePaths {
  import opened Wrappers

  type Path = seq<string>

  datatype Error =
    | UnsafeName(name: string)
    | AmbiguousName(name: string)
    | WrongRoot
    | Duplicate
    | Unsupported
    | AbsoluteLink
    | LinkLeavesRoot
    | TraversesLink
    | LeavesDestination
    | OsError
    | CannotMaterialize
    | RootMissing
    | MemberLimit
    | ByteLimit

  predicate Absolute(name: string) {
    name != "" && name[0] == '/'
  }

  /** The pieces of a string between slashes. */
  function Split(name: string): (pieces: seq<string>)
    ensures pieces != []
  {
    if name == "" then [""]
    else
      var rest := Split(name[1..]);
      if name[0] == '/' then [""] + rest
      else [[name[0]] + rest[0]] + rest[1..]
  }

  /** What pathlib keeps of the pieces. */
  function Kept(pieces: seq<string>): Path {
    if pieces == [] then []
    else (if pieces[0] == "" || pieces[0] == "." then [] else [pieces[0]]) + Kept(pieces[1..])
  }

  function Components(name: string): Path {
    Kept(Split(name))
  }

  function Join(parts: Path): string {
    if parts == [] then ""
    else if |parts| == 1 then parts[0]
    else parts[0] + "/" + Join(parts[1..])
  }

  /** The text pathlib prints for a relative path. */
  function PathString(parts: Path): string {
    if parts == [] then "." else Join(parts)
  }

  predicate Forbidden(c: char) {
    c == '\\' || c == ':' || c == '\0'
  }

  predicate EndsAmbiguously(part: string) {
    part != "" && (part[|part| - 1] == '.' || part[|part| - 1] == ' ')
  }

  predicate SomeAmbiguous(parts: Path) {
    parts != [] && (EndsAmbiguously(parts[0]) || SomeAmbiguous(parts[1..]))
  }

  function SafeParts(name: string): (r: Result<Path, Error>)
    ensures r.Failure? ==> r.error == UnsafeName(name) || r.error == AmbiguousName(name)
    ensures r.Success? ==> r.value != [] && ".." !in r.value
  {
    if '\\' in name || ':' in name || '\0' in name then Failure(UnsafeName(name))
    else
      var parts := Components(name);
      if Absolute(name) || parts == [] || ".." in parts then Failure(UnsafeName(name))
      else if SomeAmbiguous(parts) then Failure(AmbiguousName(name))
      else Success(parts)
  }

  /** A component that every host reads as one plain file name. */
  predicate Portable(part: string) {
    && part != ""
    && !EndsAmbiguously(part)
    && forall c :: c in part ==> c != '/' && !Forbidden(c)
  }

  predicate PortablePath(parts: Path) {
    parts != [] && forall part :: part in parts ==> Portable(part)
  }

  lemma {:induction false} SplitPieces(name: string)
    ensures forall p :: p in Split(name) ==> '/' !in p && forall c :: c in p ==> c in name
  {
    if name != "" {
      SplitPieces(name[1..]);
    }
  }

  lemma {:induction false} KeptMembers(pieces: seq<string>)
    ensures forall p :: p in Kept(pieces) <==> p in pieces && p != "" && p != "."
  {
    if pieces != [] {
      KeptMembers(pieces[1..]);
    }
  }

  lemma {:induction false} SomeAmbiguousMeans(parts: Path)
    ensures SomeAmbiguous(parts) <==> exists part :: part in parts && EndsAmbiguously(part)
  {
    if parts != [] {
      SomeAmbiguousMeans(parts[1..]);
      assert parts[0] in parts && forall part :: part in parts[1..] ==> part in parts;
    }
  }

  /** The component lists SafeParts can return are portable paths. */
  lemma SafePartsArePortable(name: string)
    ensures SafeParts(name).Success? ==> PortablePath(SafeParts(name).value)
  {
    hide Split, Kept, SomeAmbiguous;
    SplitPieces(name);
    KeptMembers(Split(name));
    SomeAmbiguousMeans(Components(name));
  }

  /** A component as it appears in a parsed path: no slash, not empty, not ".". */
  predicate Component(part: string) {
    part != "" && part != "." && '/' !in part
  }

  lemma {:induction false} SplitPiece(piece: string)
    requires '/' !in piece
    ensures Split(piece) == [piece]
  {
    if piece != "" {
      assert piece[0] in piece;
      SplitPiece(piece[1..]);
      assert piece == [piece[0]] + piece[1..];
    }
  }

  lemma {:induction false} SplitAtSlash(piece: string, rest: string)
    requires '/' !in piece
    ensures Split(piece + "/" + rest) == [piece] + Split(rest)
  {
    var text := piece + "/" + rest;
    if piece == "" {
      assert text[1..] == rest;
    } else {
      assert piece[0] in piece;
      SplitAtSlash(piece[1..], rest);
      assert text[1..] == piece[1..] + "/" + rest;
      assert piece == [piece[0]] + piece[1..];
    }
  }

  lemma {:induction false} KeptAll(parts: Path)
    requires forall p :: p in parts ==> p != "" && p != "."
    ensures Kept(parts) == parts
  {
    if parts != [] {
      assert parts[0] in parts && forall p :: p in parts[1..] ==> p in parts;
      KeptAll(parts[1..]);
      assert parts == [parts[0]] + parts[1..];
    }
  }

  lemma {:induction false} SplitJoin(parts: Path)
    requires parts != [] && forall p :: p in parts ==> Component(p)
    ensures Split(Join(parts)) == parts
    ensures forall c :: c in Join(parts) ==> c == '/' || exists p :: p in parts && c in p
    ensures forall p, c :: p in parts && c in p ==> c in Join(parts)
    ensures !Absolute(Join(parts))
  {
    assert parts[0] in parts && forall p :: p in parts[1..] ==> p in parts;
    if |parts| == 1 {
      SplitPiece(parts[0]);
    } else {
      SplitJoin(parts[1..]);
      SplitAtSlash(parts[0], Join(parts[1..]));
      assert parts == [parts[0]] + parts[1..];
    }
  }

  /** Validating the text of a parsed path accepts it exactly when the path is portable. */
  lemma SafePartsOfPathString(parts: Path)
    requires forall p :: p in parts ==> Component(p)
    ensures SafeParts(PathString(parts)).Success? <==> PortablePath(parts)
    ensures PortablePath(parts) ==> SafeParts(PathString(parts)).value == parts
  {
    hide Split, Join, SomeAmbiguous;
    if parts == [] {
      SplitPiece(".");
      assert Components(".") == [];
    } else {
      var text := PathString(parts);
      SplitJoin(parts);
      KeptAll(parts);
      SomeAmbiguousMeans(parts);
      assert Components(text) == parts;
    }
  }

  /** A path's text is read piece by piece: empty pieces and "." go, all others stay. */
  lemma PiecesKept(piece: string, rest: string)
    requires '/' !in piece
    ensures Components(piece) == if piece == "" || piece == "." then [] else [piece]
    ensures Components(piece + "/" + rest) == Components(piece) + Components(rest)
  {
    SplitPiece(piece);
    SplitAtSlash(piece, rest);
    assert ([piece] + Split(rest))[1..] == Split(rest);
    var own := [piece];
    assert own[1..] == [] && Kept(own) == (if own[0] == "" || own[0] == "." then [] else [own[0]]) + Kept(own[1..]);
  }

  /**
   A member's name is accepted exactly when it is relative, holds no forbidden character, names
   something, and no part of it climbs or ends in a dot or a space.
   */
  lemma SafePartsExact(name: string)
    ensures SafeParts(name).Success? <==>
            && '\\' !in name && ':' !in name && '\0' !in name && (name != "" ==> name[0] != '/')
            && Components(name) != []
            && forall part :: part in Components(name) ==>
                 part != ".." && part != "" && part[|part| - 1] != '.' && part[|part| - 1] != ' '
    ensures SafeParts(name).Success? ==> SafeParts(name).value == Components(name)
  {
    hide Split, Kept;
    SplitPieces(name);
    KeptMembers(Split(name));
    SomeAmbiguousMeans(Components(name));
  }

  // ---------------------------------------------------------------- link targets

  /** posixpath.normpath on the components of a relative path. */
  function Normalize(stack: Path, parts: Path): Path
    decreases |parts|
  {
    if parts == [] then stack
    else if parts[0] != ".." || stack == [] || stack[|stack| - 1] == ".." then
      Normalize(stack + [parts[0]], parts[1..])
    else
      Normalize(stack[..|stack| - 1], parts[1..])
  }

  function SymlinkTarget(member: Path, linkname: string, root: string): (r: Result<Path, Error>)
    requires member != []
    ensures r.Failure? ==> r.error != LeavesDestination && r.error != OsError
    ensures r.Success? ==> ".." !in r.value
  {
    if Absolute(linkname) then Failure(AbsoluteLink)
    else
      var normalized := Normalize([], member[..|member| - 1] + Components(linkname));
      match SafeParts(PathString(normalized))
      case Failure(error) => Failure(error)
      case Success(parts) => if parts[0] == root then Success(parts) else Failure(LinkLeavesRoot)
  }

  /** Walks components one by one and gives up at the first ".." above the starting point. */
  function Climb(stack: Path, parts: Path): Option<Path>
    decreases |parts|
  {
    if parts == [] then Some(stack)
    else if parts[0] != ".." then Climb(stack + [parts[0]], parts[1..])
    else if stack == [] then None
    else Climb(stack[..|stack| - 1], parts[1..])
  }

  /** Normalisation keeps a leading ".." for ever, so it agrees with the strict walk. */
  lemma {:induction false} NormalizeIsClimb(stack: Path, parts: Path)
    requires forall p :: p in stack + parts ==> Component(p)
    ensures forall p :: p in Normalize(stack, parts) ==> Component(p)
    ensures ".." in stack ==> ".." in Normalize(stack, parts)
    ensures ".." !in stack ==>
              match Climb(stack, parts)
              case Some(end) => Normalize(stack, parts) == end
              case None => ".." in Normalize(stack, parts)
    decreases |parts|
  {
    if parts != [] {
      if parts[0] != ".." || stack == [] || stack[|stack| - 1] == ".." {
        NormalizeIsClimb(stack + [parts[0]], parts[1..]);
      } else {
        assert ".." in stack ==> ".." in stack[..|stack| - 1];
        NormalizeIsClimb(stack[..|stack| - 1], parts[1..]);
      }
    }
  }

  /**
   A link is accepted exactly when it is relative and walking its components from the
   member's parent never climbs above the destination and ends at a portable path in the
   archive root; the recorded target is where that walk ends.
   */
  lemma LinkTargetExact(member: Path, linkname: string, root: string)
    requires PortablePath(member)
    ensures var walk := Climb([], member[..|member| - 1] + Components(linkname));
            var target := SymlinkTarget(member, linkname, root);
            && (target.Success? <==>
                  !Absolute(linkname) && walk.Some? && PortablePath(walk.value) && walk.value[0] == root)
            && (target.Success? ==> target.value == walk.value)
  {
    var parts := member[..|member| - 1] + Components(linkname);
    SplitPieces(linkname);
    KeptMembers(Split(linkname));
    forall p | p in parts
      ensures Component(p)
    {
      if p in member {
        assert Portable(p);
      }
    }
    NormalizeIsClimb([], parts);
    SafePartsOfPathString(Normalize([], parts));
    if ".." in Normalize([], parts) {
      assert !Portable("..");
    }
  }
}
