/**
 The byte stream tree_digest of tools/prepare_piper_inputs.py feeds to its hash, and which trees
 share one stream.  Characters stand for the bytes of the UTF-8 encoding; a file's own hash is an
 opaque word of 64 characters.
 */
module TreeDigest {
  import opened Sequences
  import opened Wrappers
  import opened ArchivePaths

  /** A path of the tree that is not a directory, as the loop classifies it. */
  datatype TreeEntry =
    | LinkEntry(name: string, target: string)
    | FileEntry(name: string, hash: string)
    | SpecialEntry(name: string)

  /** What the filesystem and the hash function guarantee of an entry. */
  ghost predicate Genuine(e: TreeEntry) {
    && e.name != "" && '\0' !in e.name
    && !e.SpecialEntry?
    && (e.LinkEntry? ==> e.target != "" && '\0' !in e.target)
    && (e.FileEntry? ==> |e.hash| == 64)
  }

  ghost predicate AllGenuine(entries: seq<TreeEntry>) {
    forall e :: e in entries ==> Genuine(e)
  }

  function Tag(e: TreeEntry): string {
    if e.LinkEntry? then "symlink" else "file"
  }

  function Payload(e: TreeEntry): string {
    match e
    case LinkEntry(_, target) => target
    case FileEntry(_, hash) => hash
    case SpecialEntry(_) => ""
  }

  function Record(e: TreeEntry): string {
    e.name + ("\0" + (Tag(e) + ("\0" + (Payload(e) + "\n"))))
  }

  function Stream(entries: seq<TreeEntry>): string {
    FlatMap(Record, entries)
  }

  /** What one turn of the loop appends, piece by piece, is one record. */
  lemma Pieces(before: string, name: string, tag: string, payload: string)
    ensures before + name + "\0" + (tag + "\0") + payload + "\n"
         == before + (name + ("\0" + (tag + ("\0" + (payload + "\n")))))
  {
  }

  /** The digest loop, with what it feeds to the hash kept as text. */
  method FeedTree(entries: seq<TreeEntry>) returns (fed: Option<string>)
    ensures fed.Some? <==> forall e :: e in entries ==> !e.SpecialEntry?
    ensures fed.Some? ==> fed.value == Stream(entries)
  {
    var digest := "";
    for i := 0 to |entries|
      invariant digest == Stream(entries[..i])
      invariant forall e :: e in entries[..i] ==> !e.SpecialEntry?
    {
      var path := entries[i];
      assert entries[..i + 1] == entries[..i] + [path] && path in entries;
      ghost var before := digest;
      digest := digest + path.name;
      digest := digest + "\0";
      if path.LinkEntry? {
        digest := digest + "symlink\0";
        digest := digest + path.target;
      } else if path.FileEntry? {
        digest := digest + "file\0";
        digest := digest + path.hash;
      } else {
        return None;
      }
      digest := digest + "\n";
      assert "symlink" + "\0" == "symlink\0" && "file" + "\0" == "file\0";
      Pieces(before, path.name, Tag(path), Payload(path));
      FlatMapAppend(Record, entries[..i], [path]);
      FlatMapOne(Record, path);
    }
    assert entries[..|entries|] == entries;
    return Some(digest);
  }

  lemma StreamStep(t: seq<TreeEntry>, e: TreeEntry)
    ensures Stream([]) == "" && Stream(t + [e]) == Stream(t) + Record(e)
  {
    FlatMapAppend(Record, t, [e]);
    FlatMapOne(Record, e);
  }

  /** A link adds its name, NUL, "symlink", NUL, its target and a newline. */
  lemma LinkText(t: seq<TreeEntry>, name: string, target: string)
    ensures Stream(t + [LinkEntry(name, target)]) == Stream(t) + name + "\0" + ("symlink" + "\0") + target + "\n"
  {
    StreamStep(t, LinkEntry(name, target));
    hide Stream;
    Pieces(Stream(t), name, "symlink", target);
  }

  /** A file adds its name, NUL, "file", NUL, its own hash and a newline. */
  lemma FileText(t: seq<TreeEntry>, name: string, hash: string)
    ensures Stream(t + [FileEntry(name, hash)]) == Stream(t) + name + "\0" + ("file" + "\0") + hash + "\n"
  {
    StreamStep(t, FileEntry(name, hash));
    hide Stream;
    Pieces(Stream(t), name, "file", hash);
  }

  // ---------------------------------------------------------------- reading the stream back

  lemma NulAt(a: string, x: string)
    requires '\0' !in a
    ensures var s := a + ("\0" + x); s[|a|] == '\0' && forall k :: 0 <= k < |a| ==> s[k] != '\0'
  {
  }

  /** Text up to the first NUL is determined. */
  lemma FirstNul(a: string, x: string, b: string, y: string)
    requires '\0' !in a && '\0' !in b
    requires a + ("\0" + x) == b + ("\0" + y)
    ensures a == b && x == y
  {
    var s := a + ("\0" + x);
    NulAt(a, x);
    NulAt(b, y);
    assert |a| == |b|;
    assert s[..|a|] == a && s[..|b|] == b;
    assert s[|a| + 1..] == x && s[|b| + 1..] == y;
  }

  /** The stretch between a link's tag and the NUL after the next name. */
  function Between(target: string, name: string): string {
    target + "\n" + name
  }

  /** The only newline that can end the target is the one that does. */
  ghost predicate OnlySplit(target: string, name: string) {
    var s := Between(target, name);
    forall p :: 0 < p < |s| - 1 && s[p] == '\n' ==> p == |target|
  }

  /** No link of the tree has a newline to spare between its target and the next name. */
  ghost predicate Unambiguous(entries: seq<TreeEntry>) {
    forall i :: 0 <= i < |entries| - 1 && entries[i].LinkEntry? ==>
      OnlySplit(entries[i].target, entries[i + 1].name)
  }

  /** Everything the stream holds after the first name and its NUL. */
  function AfterName(entries: seq<TreeEntry>): string
    requires entries != []
  {
    Tag(entries[0]) + ("\0" + (Payload(entries[0]) + ("\n" + Stream(entries[1..]))))
  }

  lemma Regroup(name: string, tag: string, payload: string, rest: string)
    ensures (name + ("\0" + (tag + ("\0" + (payload + "\n"))))) + rest
         == name + ("\0" + (tag + ("\0" + (payload + ("\n" + rest)))))
  {
  }

  lemma StreamHasNul(entries: seq<TreeEntry>)
    requires entries != []
    ensures Stream(entries) == entries[0].name + ("\0" + AfterName(entries))
    ensures '\0' in Stream(entries)
  {
  }

  lemma SamePayload(t: seq<TreeEntry>, u: seq<TreeEntry>)
    requires t != [] && u != [] && AllGenuine(t) && AllGenuine(u)
    requires Stream(t) == Stream(u)
    ensures t[0].name == u[0].name && t[0].LinkEntry? == u[0].LinkEntry?
    ensures Payload(t[0]) + ("\n" + Stream(t[1..])) == Payload(u[0]) + ("\n" + Stream(u[1..]))
  {
    hide Payload;
    assert t[0] in t && u[0] in u;
    StreamHasNul(t);
    StreamHasNul(u);
    FirstNul(t[0].name, AfterName(t), u[0].name, AfterName(u));
    assert '\0' !in "symlink" && '\0' !in "file";
    FirstNul(Tag(t[0]), Payload(t[0]) + ("\n" + Stream(t[1..])), Tag(u[0]), Payload(u[0]) + ("\n" + Stream(u[1..])));
    assert |"symlink"| == 7 && |"file"| == 4;
  }

  lemma InTail(a: string, x: string)
    ensures forall c :: c in x ==> c in a + ("\n" + x)
  {
  }

  /** A link target followed by nothing is determined; nothing genuine can follow in its place. */
  lemma LastTarget(target: string, other: string, rest: seq<TreeEntry>)
    requires '\0' !in target
    requires target + ("\n" + "") == other + ("\n" + Stream(rest))
    ensures rest == [] && target == other
  {
    var s := target + ("\n" + "");
    assert '\0' !in s;
    InTail(other, Stream(rest));
    if rest != [] {
      StreamHasNul(rest);
    }
    assert s == other + ("\n" + "");
    assert s[..|s| - 1] == target && s[..|s| - 1] == other;
  }

  lemma NextTarget(target: string, t: seq<TreeEntry>, other: string, u: seq<TreeEntry>)
    requires t != [] && u != [] && AllGenuine(t) && AllGenuine(u)
    requires '\0' !in target && '\0' !in other && other != ""
    requires OnlySplit(target, t[0].name)
    requires target + ("\n" + Stream(t)) == other + ("\n" + Stream(u))
    ensures target == other && Stream(t) == Stream(u)
  {
    assert t[0] in t && u[0] in u;
    var s, r := Between(target, t[0].name), Between(other, u[0].name);
    BetweenThenNul(target, t);
    BetweenThenNul(other, u);
    FirstNul(s, AfterName(t), r, AfterName(u));
    assert r[|other|] == '\n' && 0 < |other| < |r| - 1;
    SameTail(target, Stream(t), other, Stream(u));
  }

  lemma BetweenThenNul(target: string, t: seq<TreeEntry>)
    requires t != []
    ensures target + ("\n" + Stream(t)) == Between(target, t[0].name) + ("\0" + AfterName(t))
  {
    StreamHasNul(t);
    Assoc("\n", t[0].name, "\0" + AfterName(t));
    Assoc(target, "\n" + t[0].name, "\0" + AfterName(t));
    Assoc(target, "\n", t[0].name);
  }

  lemma SameTail(a: string, x: string, b: string, y: string)
    requires |a| == |b| && a + ("\n" + x) == b + ("\n" + y)
    ensures a == b && x == y
  {
    var s := a + ("\n" + x);
    assert s[..|a|] == a && s[..|b|] == b;
    assert s[|a| + 1..] == x && s[|b| + 1..] == y;
  }

  /** No other genuine tree shares the stream of an unambiguous one. */
  lemma {:induction false} StreamDetermines(t: seq<TreeEntry>, u: seq<TreeEntry>)
    requires AllGenuine(t) && AllGenuine(u) && Unambiguous(t)
    requires Stream(t) == Stream(u)
    ensures t == u
    decreases |t|
  {
    if t == [] || u == [] {
      if t != [] { StreamHasNul(t); }
      if u != [] { StreamHasNul(u); }
    } else {
      SamePayload(t, u);
      assert t[0] in t && u[0] in u;
      assert Unambiguous(t[1..]) by {
        forall i | 0 <= i < |t[1..]| - 1 && t[1..][i].LinkEntry?
          ensures OnlySplit(t[1..][i].target, t[1..][i + 1].name)
        {
          assert t[1..][i] == t[i + 1] && t[1..][i + 1] == t[i + 2];
        }
      }
      if t[0].FileEntry? {
        SameTail(t[0].hash, Stream(t[1..]), u[0].hash, Stream(u[1..]));
      } else if t[1..] == [] {
        LastTarget(t[0].target, u[0].target, u[1..]);
      } else if u[1..] == [] {
        LastTarget(u[0].target, t[0].target, t[1..]);
      } else {
        assert t[1..][0] == t[1];
        NextTarget(t[0].target, t[1..], u[0].target, u[1..]);
      }
      StreamDetermines(t[1..], u[1..]);
      assert t == [t[0]] + t[1..] && u == [u[0]] + u[1..];
    }
  }

  // ---------------------------------------------------------------- where the stream is ambiguous

  function Renamed(e: TreeEntry, name: string): TreeEntry {
    match e
    case LinkEntry(_, target) => LinkEntry(name, target)
    case FileEntry(_, hash) => FileEntry(name, hash)
    case SpecialEntry(_) => SpecialEntry(name)
  }

  /** The pair of entries read with the newline at `p` as the end of the target. */
  function Resplit(link: TreeEntry, next: TreeEntry, p: nat): (TreeEntry, TreeEntry)
    requires link.LinkEntry? && p < |Between(link.target, next.name)|
  {
    var s := Between(link.target, next.name);
    (LinkEntry(link.name, s[..p]), Renamed(next, s[p + 1..]))
  }

  /** Two records side by side, around the stretch between the first tag and the second name's NUL. */
  lemma AroundBetween(link: TreeEntry, next: TreeEntry)
    requires link.LinkEntry?
    ensures Record(link) + Record(next)
         == (link.name + ("\0" + ("symlink" + "\0")))
            + (Between(link.target, next.name) + ("\0" + (Tag(next) + ("\0" + (Payload(next) + "\n")))))
  {
  }

  lemma ResplitSameRecords(link: TreeEntry, next: TreeEntry, p: nat)
    requires link.LinkEntry? && p < |Between(link.target, next.name)|
    requires Between(link.target, next.name)[p] == '\n'
    ensures var (a, b) := Resplit(link, next, p); Record(a) + Record(b) == Record(link) + Record(next)
  {
    var (a, b) := Resplit(link, next, p);
    var s := Between(link.target, next.name);
    assert s == s[..p] + "\n" + s[p + 1..];
    AroundBetween(link, next);
    AroundBetween(a, b);
    assert Tag(next) == Tag(b) && Payload(next) == Payload(b);
  }

  lemma ResplitGenuine(link: TreeEntry, next: TreeEntry, p: nat)
    requires Genuine(link) && Genuine(next) && link.LinkEntry?
    requires 0 < p < |Between(link.target, next.name)| - 1
    ensures var (a, b) := Resplit(link, next, p); Genuine(a) && Genuine(b)
  {
    var s := Between(link.target, next.name);
    assert forall c :: c in s ==> c == '\n' || c in link.target || c in next.name;
  }

  lemma OtherTree(t: seq<TreeEntry>, i: nat, p: nat) returns (u: seq<TreeEntry>)
    requires AllGenuine(t) && i + 1 < |t| && t[i].LinkEntry?
    requires 0 < p < |Between(t[i].target, t[i + 1].name)| - 1
    requires Between(t[i].target, t[i + 1].name)[p] == '\n' && p != |t[i].target|
    ensures AllGenuine(u) && Stream(u) == Stream(t) && u != t
  {
    var (a, b) := Resplit(t[i], t[i + 1], p);
    u := t[..i] + [a, b] + t[i + 2..];
    assert t[i] in t && t[i + 1] in t;
    ResplitGenuine(t[i], t[i + 1], p);
    hide Record, Genuine, Between;
    assert t == t[..i] + [t[i], t[i + 1]] + t[i + 2..];
    TwoRecords(a, b);
    TwoRecords(t[i], t[i + 1]);
    ResplitSameRecords(t[i], t[i + 1], p);
    FlatMapAppend(Record, t[..i] + [a, b], t[i + 2..]);
    FlatMapAppend(Record, t[..i], [a, b]);
    FlatMapAppend(Record, t[..i] + [t[i], t[i + 1]], t[i + 2..]);
    FlatMapAppend(Record, t[..i], [t[i], t[i + 1]]);
    assert u[i] == a && |a.target| == p;
  }

  lemma TwoRecords(a: TreeEntry, b: TreeEntry)
    ensures Stream([a, b]) == Record(a) + Record(b)
  {
    assert [a, b] == [a] + [b];
    FlatMapAppend(Record, [a], [b]);
    FlatMapOne(Record, a);
    FlatMapOne(Record, b);
  }

  /**
   Among all genuine lists, sorted or not, the stream identifies one exactly when no link in it could hand
   a newline to the name after it.
   */
  lemma StreamIdentifies(t: seq<TreeEntry>)
    requires AllGenuine(t)
    ensures (forall u :: AllGenuine(u) && Stream(u) == Stream(t) ==> u == t) <==> Unambiguous(t)
  {
    if Unambiguous(t) {
      forall u | AllGenuine(u) && Stream(u) == Stream(t)
        ensures u == t
      {
        StreamDetermines(t, u);
      }
    } else {
      var i :| 0 <= i < |t| - 1 && t[i].LinkEntry? && !OnlySplit(t[i].target, t[i + 1].name);
      var p :| 0 < p < |Between(t[i].target, t[i + 1].name)| - 1
               && Between(t[i].target, t[i + 1].name)[p] == '\n' && p != |t[i].target|;
      var u := OtherTree(t, i, p);
    }
  }

  /** Without newlines in names and targets there is nothing to hand over. */
  lemma NoNewlines(t: seq<TreeEntry>)
    requires forall e :: e in t ==> '\n' !in e.name && (e.LinkEntry? ==> '\n' !in e.target)
    ensures Unambiguous(t)
  {
    forall i | 0 <= i < |t| - 1 && t[i].LinkEntry?
      ensures OnlySplit(t[i].target, t[i + 1].name)
    {
      assert t[i] in t && t[i + 1] in t;
      var s := Between(t[i].target, t[i + 1].name);
      forall p | 0 < p < |s| - 1 && p != |t[i].target|
        ensures s[p] != '\n'
      {
        assert s[p] == if p < |t[i].target| then t[i].target[p] else t[i + 1].name[p - |t[i].target| - 1];
      }
    }
  }

  // ---------------------------------------------------------------- all lists with one stream

  /** The list left after its first entry, once that entry is read with the cut `p`. */
  function AfterCut(t: seq<TreeEntry>, p: nat): seq<TreeEntry>
    requires |t| >= 2 && (t[0].LinkEntry? ==> p < |Between(t[0].target, t[1].name)|)
  {
    if t[0].LinkEntry? then [Resplit(t[0], t[1], p).1] + t[2..] else t[1..]
  }

  /** A newline for every link before another entry, where its target is to end. */
  predicate ValidCuts(t: seq<TreeEntry>, cuts: seq<nat>)
    decreases |t|
  {
    && |cuts| == |t|
    && (|t| >= 2 ==>
          && (t[0].LinkEntry? ==>
                var s := Between(t[0].target, t[1].name); cuts[0] < |s| && s[cuts[0]] == '\n')
          && ValidCuts(AfterCut(t, cuts[0]), cuts[1..]))
  }

  /** The list read with other newlines as the ends of its links' targets. */
  function Recut(t: seq<TreeEntry>, cuts: seq<nat>): seq<TreeEntry>
    requires ValidCuts(t, cuts)
    decreases |t|
  {
    if |t| < 2 then t
    else if t[0].LinkEntry? then
      [Resplit(t[0], t[1], cuts[0]).0] + Recut(AfterCut(t, cuts[0]), cuts[1..])
    else [t[0]] + Recut(AfterCut(t, cuts[0]), cuts[1..])
  }

  lemma StreamFirst(e: TreeEntry, rest: seq<TreeEntry>)
    ensures Stream([e] + rest) == Record(e) + Stream(rest)
  {
    assert ([e] + rest)[1..] == rest;
  }

  /** Cutting at one newline keeps the stream. */
  lemma CutSameStream(t: seq<TreeEntry>, p: nat)
    requires |t| >= 2 && t[0].LinkEntry? && p < |Between(t[0].target, t[1].name)|
    requires Between(t[0].target, t[1].name)[p] == '\n'
    ensures Record(Resplit(t[0], t[1], p).0) + Stream(AfterCut(t, p)) == Stream(t)
  {
    var (a, b) := Resplit(t[0], t[1], p);
    var rest := Stream(t[2..]);
    assert t == [t[0]] + t[1..] && t[1..] == [t[1]] + t[2..];
    StreamFirst(t[0], t[1..]);
    StreamFirst(t[1], t[2..]);
    StreamFirst(b, t[2..]);
    ResplitSameRecords(t[0], t[1], p);
    Assoc(Record(a), Record(b), rest);
    Assoc(Record(t[0]), Record(t[1]), rest);
  }

  lemma {:induction false} RecutSameStream(t: seq<TreeEntry>, cuts: seq<nat>)
    requires ValidCuts(t, cuts)
    ensures Stream(Recut(t, cuts)) == Stream(t)
    decreases |t|
  {
    if |t| >= 2 {
      var rest := AfterCut(t, cuts[0]);
      RecutSameStream(rest, cuts[1..]);
      if t[0].LinkEntry? {
        CutSameStream(t, cuts[0]);
        StreamFirst(Resplit(t[0], t[1], cuts[0]).0, Recut(rest, cuts[1..]));
      } else {
        StreamFirst(t[0], Recut(rest, cuts[1..]));
        assert t == [t[0]] + t[1..];
        StreamFirst(t[0], t[1..]);
      }
    }
  }

  /** With one stream, the second list's first target ends at a newline of the first list's. */
  lemma SameBetween(t: seq<TreeEntry>, u: seq<TreeEntry>)
    requires AllGenuine(t) && AllGenuine(u) && Stream(t) == Stream(u) && |t| >= 2 && |u| >= 2
    requires t[0].LinkEntry?
    ensures u[0].LinkEntry? && u[0].name == t[0].name
    ensures Between(t[0].target, t[1].name) == Between(u[0].target, u[1].name)
    ensures AfterName(t[1..]) == AfterName(u[1..])
  {
    SamePayload(t, u);
    assert t[0] in t && u[0] in u && t[1] in t && u[1] in u;
    assert t[1..][0] == t[1] && u[1..][0] == u[1];
    BetweenThenNul(t[0].target, t[1..]);
    BetweenThenNul(u[0].target, u[1..]);
    FirstNul(Between(t[0].target, t[1].name), AfterName(t[1..]), Between(u[0].target, u[1].name), AfterName(u[1..]));
  }

  /** So cutting there leaves two lists with one stream again. */
  lemma CutLikeOther(t: seq<TreeEntry>, u: seq<TreeEntry>)
    requires AllGenuine(t) && AllGenuine(u) && Stream(t) == Stream(u) && |t| >= 2 && |u| >= 2
    requires t[0].LinkEntry?
    ensures u[0].LinkEntry?
    ensures var s, c := Between(t[0].target, t[1].name), |u[0].target|;
            && c < |s| && s[c] == '\n' && Resplit(t[0], t[1], c).0 == u[0]
            && AllGenuine(AfterCut(t, c)) && Stream(AfterCut(t, c)) == Stream(u[1..])
  {
    SameBetween(t, u);
    var c := |u[0].target|;
    var s := Between(u[0].target, u[1].name);
    assert s[c] == '\n' && s[..c] == u[0].target && s[c + 1..] == u[1].name;
    var b, rest := Resplit(t[0], t[1], c).1, AfterCut(t, c);
    assert t[1] in t && u[1] in u && b.name == u[1].name;
    assert rest[1..] == t[1..][1..];
    StreamHasNul(rest);
    StreamHasNul(u[1..]);
    forall e | e in rest
      ensures Genuine(e)
    {
      assert e == b || e in t;
    }
  }

  /** A link that ends one of the lists is all that is left of both. */
  lemma OnlyTarget(t: seq<TreeEntry>, u: seq<TreeEntry>)
    requires AllGenuine(t) && AllGenuine(u) && Stream(t) == Stream(u) && t != [] && u != []
    requires t[0].LinkEntry? && (|t| == 1 || |u| == 1)
    ensures |t| == 1 && t == u
  {
    SamePayload(t, u);
    assert t[0] in t && u[0] in u;
    if |t| == 1 {
      LastTarget(t[0].target, u[0].target, u[1..]);
    } else {
      LastTarget(u[0].target, t[0].target, t[1..]);
    }
  }

  /** A file's record is the same in both lists. */
  lemma SameFile(t: seq<TreeEntry>, u: seq<TreeEntry>)
    requires AllGenuine(t) && AllGenuine(u) && Stream(t) == Stream(u) && t != [] && u != [] && t[0].FileEntry?
    ensures t[0] == u[0] && Stream(t[1..]) == Stream(u[1..])
  {
    SamePayload(t, u);
    assert t[0] in t && u[0] in u;
    SameTail(t[0].hash, Stream(t[1..]), u[0].hash, Stream(u[1..]));
  }

  /** Every genuine list with the stream of `t` is `t` read with other cuts. */
  lemma {:induction false} CutsOf(t: seq<TreeEntry>, u: seq<TreeEntry>) returns (cuts: seq<nat>)
    requires AllGenuine(t) && AllGenuine(u) && Stream(t) == Stream(u)
    ensures ValidCuts(t, cuts) && Recut(t, cuts) == u
    decreases |t|
  {
    if t == [] || u == [] {
      if t != [] { StreamHasNul(t); }
      if u != [] { StreamHasNul(u); }
      return [];
    }
    assert t[0] in t && u == [u[0]] + u[1..] && t == [t[0]] + t[1..];
    var c, rest := 0, [];
    if t[0].FileEntry? {
      SameFile(t, u);
      rest := CutsOf(t[1..], u[1..]);
    } else if |t| == 1 || |u| == 1 {
      OnlyTarget(t, u);
    } else {
      CutLikeOther(t, u);
      c := |u[0].target|;
      rest := CutsOf(AfterCut(t, c), u[1..]);
    }
    cuts := [c] + rest;
    assert cuts[1..] == rest;
  }

  /** Two genuine lists have one stream exactly when one is the other read with other cuts. */
  lemma SameStreamExact(t: seq<TreeEntry>, u: seq<TreeEntry>)
    requires AllGenuine(t) && AllGenuine(u)
    ensures Stream(t) == Stream(u) <==> exists cuts :: ValidCuts(t, cuts) && Recut(t, cuts) == u
  {
    if Stream(t) == Stream(u) {
      var cuts := CutsOf(t, u);
    }
    if cuts :| ValidCuts(t, cuts) && Recut(t, cuts) == u {
      RecutSameStream(t, cuts);
    }
  }

  // ---------------------------------------------------------------- the lists the tool makes

  /** The order of the sorted listing. */
  ghost predicate Before(a: string, b: string) {
    b != "" && (a == "" || a[0] < b[0] || (a[0] == b[0] && Before(a[1..], b[1..])))
  }

  /** A name that a walk below a directory can give. */
  ghost predicate WalkName(name: string) {
    forall part :: part in Split(name) ==> Component(part) && part != ".."
  }

  /** A sorted listing: genuine entries of a tree in strictly rising order, none of them below another. */
  ghost predicate Listing(t: seq<TreeEntry>) {
    && AllGenuine(t)
    && (forall e :: e in t ==> WalkName(e.name))
    && (forall i, j :: 0 <= i < j < |t| ==> Before(t[i].name, t[j].name))
    && (forall a, b :: a in t && b in t ==> !(a.name + "/" <= b.name))
  }

  /** No other list of the kind has the stream of `t`. */
  ghost predicate Identified(t: seq<TreeEntry>, listed: seq<TreeEntry> -> bool) {
    forall u :: listed(u) && Stream(u) == Stream(t) ==> u == t
  }

  /** No other cuts of `t` give a list of the kind. */
  ghost predicate OneWayToCut(t: seq<TreeEntry>, listed: seq<TreeEntry> -> bool) {
    forall cuts {:trigger ValidCuts(t, cuts)} :: ValidCuts(t, cuts) && listed(Recut(t, cuts)) ==> Recut(t, cuts) == t
  }

  lemma ExactAmong(t: seq<TreeEntry>, listed: seq<TreeEntry> -> bool)
    requires listed(t) && forall u :: listed(u) ==> AllGenuine(u)
    ensures Identified(t, listed) <==> OneWayToCut(t, listed)
  {
    if OneWayToCut(t, listed) {
      forall u | listed(u) && Stream(u) == Stream(t)
        ensures u == t
      {
        var cuts := CutsOf(t, u);
      }
    }
    if Identified(t, listed) {
      forall cuts | ValidCuts(t, cuts) && listed(Recut(t, cuts))
        ensures Recut(t, cuts) == t
      {
        RecutSameStream(t, cuts);
      }
    }
  }

  /**
   A sorted listing is identified by its stream exactly when none of the other ways to cut it, at the
   newlines between a link's target and the next name, is a sorted listing.
   */
  lemma DigestStreamExact(t: seq<TreeEntry>)
    requires Listing(t)
    ensures Identified(t, u => Listing(u)) <==> OneWayToCut(t, u => Listing(u))
  {
    ExactAmong(t, u => Listing(u));
  }

  /** A listing of one-part names in rising order. */
  lemma TwoEntries(a: TreeEntry, b: TreeEntry)
    requires Genuine(a) && Genuine(b) && Before(a.name, b.name)
    requires '/' !in a.name + b.name && a.name != "." && a.name != ".." && b.name != "." && b.name != ".."
    ensures Listing([a, b])
  {
    SplitPiece(a.name);
    SplitPiece(b.name);
    forall x, y | x in [a, b] && y in [a, b]
      ensures !(x.name + "/" <= y.name)
    {
      NotBelow(x.name, y.name);
    }
  }

  lemma NotBelow(x: string, y: string)
    requires '/' !in y
    ensures !(x + "/" <= y)
  {
    if |x| < |y| {
      assert y[|x|] in y && (x + "/")[|x|] == '/';
    }
  }

  /** Two different listings with one stream. */
  lemma SortedCollision() returns (t: seq<TreeEntry>, u: seq<TreeEntry>)
    ensures t == [LinkEntry("a", "x"), LinkEntry("b\nc", "y")]
    ensures u == [LinkEntry("a", "x\nb"), LinkEntry("c", "y")]
    ensures Listing(t) && Listing(u) && t != u && Stream(t) == Stream(u)
  {
    t := [LinkEntry("a", "x"), LinkEntry("b\nc", "y")];
    u := [LinkEntry("a", "x\nb"), LinkEntry("c", "y")];
    var s := Between("x", "b\nc");
    assert s == "x\nb\nc" && s[..3] == "x\nb" && s[4..] == "c";
    assert Resplit(t[0], t[1], 3) == (u[0], u[1]);
    ResplitSameRecords(t[0], t[1], 3);
    TwoRecords(t[0], t[1]);
    TwoRecords(u[0], u[1]);
    assert |t[0].target| == 1 && |u[0].target| == 3;
    TwoEntries(t[0], t[1]);
    TwoEntries(u[0], u[1]);
  }

  /** Two entries with a single newline in the second name can be cut in two ways. */
  lemma TwoWays(t: seq<TreeEntry>, u: seq<TreeEntry>, h: string)
    requires AllGenuine(t) && AllGenuine(u) && Stream(u) == Stream(t)
    requires t == [LinkEntry("b", "x"), FileEntry("c\na", h)]
    ensures u == t || u == [LinkEntry("b", "x\nc"), FileEntry("a", h)]
  {
    var s := Between("x", "c\na");
    assert s == "x\nc\na" && s[..1] == "x" && s[2..] == "c\na" && s[..3] == "x\nc" && s[4..] == "a";
    var cuts := CutsOf(t, u);
    assert t[2..] == [] && cuts[0] < 5 && s[cuts[0]] == '\n';
  }

  /** The order helps: a listing with a newline to spare that is identified all the same. */
  lemma OrderIdentifies(h: string) returns (t: seq<TreeEntry>)
    requires |h| == 64
    ensures t == [LinkEntry("b", "x"), FileEntry("c\na", h)]
    ensures Listing(t) && !Unambiguous(t) && forall u :: Listing(u) && Stream(u) == Stream(t) ==> u == t
  {
    t := [LinkEntry("b", "x"), FileEntry("c\na", h)];
    TwoEntries(t[0], t[1]);
    assert Between("x", "c\na")[3] == '\n';
    assert !OnlySplit(t[0].target, t[1].name);
    var v := [LinkEntry("b", "x\nc"), FileEntry("a", h)];
    assert !Before(v[0].name, v[1].name);
    forall u: seq<TreeEntry> | Listing(u) && Stream(u) == Stream(t)
      ensures u == t
    {
      TwoWays(t, u, h);
    }
  }
}
