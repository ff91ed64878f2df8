/**
 The two readers of the Piper lock files: locked_archives of tools/package_piper_source.py and
 locked_input_digests of tools/verify_piper_source.py, over decoded JSON. The members of an object are
 visited in any order: the packager sorts them, the verifier takes them as the file has them.
 */
module Locks {
  import opened Sets
  import opened Wrappers

  const EXPECTED_TARGETS :=
    {"aarch64-apple-darwin", "x86_64-apple-darwin", "x86_64-pc-windows-msvc", "x86_64-unknown-linux-gnu"}
  const EXPECTED_COMPONENTS := {"espeak_ng", "onnxruntime", "sonic"}
  const PIPER_VERSION := "1.7.0"
  const ONNXRUNTIME_VERSION := "1.22.0"

  /** A member that may be missing, or its value as text. */
  datatype Field = Absent | Present(text: string)

  /** `reviewed` says whether the URL parses as HTTPS at github.com. */
  datatype Entry = Entry(archive: Field, url: string, reviewed: bool, digest: string)

  /** None stands for a value that is not an object. */
  type Components = map<string, Option<Entry>>

  datatype Native = Native(schemaVersion: int, piperVersion: string, targets: Option<map<string, Option<Components>>>)

  datatype Onnx = Onnx(entry: Entry, version: string, license: string, commit: string, size: Option<int>)

  datatype Source = Source(schemaVersion: int, sources: Option<map<string, Option<Onnx>>>)

  datatype Reader = Packager | Verifier

  // ---------------------------------------------------------------- what a reader accepts

  predicate IsHex(s: string, n: nat) {
    |s| == n && forall i :: 0 <= i < n ==> '0' <= s[i] <= '9' || 'a' <= s[i] <= 'f'
  }

  /** The text is the last component of itself as a path. */
  predicate IsPlainName(name: string) {
    name != "." && '/' !in name
  }

  /** A missing name reads as the text of null to the packager, and as the empty name to the verifier. */
  function NameFor(reader: Reader, e: Entry): string {
    match e.archive
    case Present(text) => text
    case Absent => if reader == Packager then "None" else ""
  }

  predicate ValidEntry(reader: Reader, e: Entry) {
    && IsPlainName(NameFor(reader, e)) && IsHex(e.digest, 64)
    && (reader == Packager ==> NameFor(reader, e) != "" && NameFor(reader, e) != ".." && e.reviewed)
  }

  predicate ValidNativeHeader(reader: Reader, native: Native) {
    native.schemaVersion == 1 && (reader == Packager ==> native.piperVersion == PIPER_VERSION)
  }

  /** A target and a component. */
  datatype Use = Use(component: string, target: string)

  /** The lock has every expected entry and nothing else. */
  ghost predicate Shaped(native: Native) {
    && native.targets.Some? && native.targets.value.Keys == EXPECTED_TARGETS
    && forall t :: t in EXPECTED_TARGETS ==> ShapedTarget(native.targets.value[t])
  }

  ghost predicate ShapedTarget(components: Option<Components>) {
    && components.Some? && components.value.Keys == EXPECTED_COMPONENTS
    && forall c :: c in EXPECTED_COMPONENTS ==> components.value[c].Some?
  }

  ghost predicate Expected(use: Use) {
    use.target in EXPECTED_TARGETS && use.component in EXPECTED_COMPONENTS
  }

  ghost function EntryOf(native: Native, use: Use): Entry
    requires Shaped(native) && Expected(use)
  {
    assert ShapedTarget(native.targets.value[use.target]);
    native.targets.value[use.target].value[use.component].value
  }

  /** Entries with the same name are for the same file. */
  ghost predicate Compatible(reader: Reader, a: Entry, b: Entry) {
    NameFor(reader, a) == NameFor(reader, b) ==> a.digest == b.digest && (reader == Packager ==> a.url == b.url)
  }

  ghost predicate AcceptsNative(reader: Reader, native: Native) {
    && ValidNativeHeader(reader, native) && Shaped(native)
    && (forall u :: Expected(u) ==> ValidEntry(reader, EntryOf(native, u)))
    && (forall u, v :: Expected(u) && Expected(v) ==> Compatible(reader, EntryOf(native, u), EntryOf(native, v)))
  }

  predicate ValidOnnx(reader: Reader, source: Source) {
    && source.schemaVersion == 1 && source.sources.Some? && source.sources.value.Keys == {"onnxruntime"}
    && source.sources.value["onnxruntime"].Some?
    && var onnx := source.sources.value["onnxruntime"].value;
       && onnx.version == ONNXRUNTIME_VERSION && onnx.license == "MIT" && IsHex(onnx.commit, 40)
       && ValidEntry(reader, onnx.entry)
       && (reader == Packager ==> onnx.size.Some? && onnx.size.value > 0)
  }

  function OnnxOf(source: Source): Entry
    requires source.sources.Some? && "onnxruntime" in source.sources.value && source.sources.value["onnxruntime"].Some?
  {
    source.sources.value["onnxruntime"].value.entry
  }

  ghost predicate Accepts(reader: Reader, native: Native, source: Source) {
    && AcceptsNative(reader, native) && ValidOnnx(reader, source)
    && forall u :: Expected(u) ==> NameFor(reader, EntryOf(native, u)) != NameFor(reader, OnnxOf(source))
  }

  /** The digests a reader derives: one for every entry under its name, and nothing else. */
  ghost predicate Digests(m: map<string, string>, reader: Reader, native: Native, source: Source)
    requires Accepts(reader, native, source)
  {
    && (forall u :: Expected(u) ==>
          && NameFor(reader, EntryOf(native, u)) in m
          && m[NameFor(reader, EntryOf(native, u))] == EntryOf(native, u).digest)
    && NameFor(reader, OnnxOf(source)) in m && m[NameFor(reader, OnnxOf(source))] == OnnxOf(source).digest
    && forall name :: name in m ==>
         || name == NameFor(reader, OnnxOf(source))
         || exists u :: Expected(u) && name == NameFor(reader, EntryOf(native, u))
  }

  /** The digests of the native entries alone. */
  ghost predicate NativeDigests(m: map<string, string>, reader: Reader, native: Native)
    requires Shaped(native)
  {
    && (forall name :: name in m ==> exists u :: Expected(u) && NameFor(reader, EntryOf(native, u)) == name)
    && forall u :: Expected(u) ==>
         NameFor(reader, EntryOf(native, u)) in m && m[NameFor(reader, EntryOf(native, u))] == EntryOf(native, u).digest
  }

  lemma OnnxDigest(m: map<string, string>, reader: Reader, native: Native, source: Source)
    requires AcceptsNative(reader, native) && ValidOnnx(reader, source) && NativeDigests(m, reader, native)
    ensures Accepts(reader, native, source) <==> NameFor(reader, OnnxOf(source)) !in m
    ensures Accepts(reader, native, source) ==>
              Digests(m[NameFor(reader, OnnxOf(source)) := OnnxOf(source).digest], reader, native, source)
  {
    hide NameFor, EntryOf, OnnxOf, ValidOnnx, AcceptsNative;
  }

  // ---------------------------------------------------------------- acceptance, field by field

  /** An entry is accepted by its digest, its URL and the last path component its archive's name must be. */
  lemma EntryExact(reader: Reader, e: Entry)
    ensures ValidEntry(reader, e) <==>
            && |e.digest| == 64 && (forall c :: c in e.digest ==> '0' <= c <= '9' || 'a' <= c <= 'f')
            && (reader == Packager ==> e.reviewed)
            && (e.archive.Present? ==>
                  && '/' !in e.archive.text && e.archive.text != "."
                  && (reader == Packager ==> e.archive.text != "" && e.archive.text != ".."))
    ensures e.archive.Present? ==> NameFor(reader, e) == e.archive.text
    ensures e.archive.Absent? ==> NameFor(Packager, e) == "None" && NameFor(Verifier, e) == ""
  {
    assert "None"[0] == 'N' && |"None"| == 4;
    assert forall i :: 0 <= i < |e.digest| ==> e.digest[i] in e.digest;
  }

  /** The entry of a target and a component, if the lock has one there. */
  function At(native: Native, target: string, component: string): Option<Entry> {
    if native.targets.None? || target !in native.targets.value || native.targets.value[target].None?
       || component !in native.targets.value[target].value then None
    else native.targets.value[target].value[component]
  }

  /** The lock has an entry for every component of every target, and nothing else. */
  lemma ShapeExact(native: Native)
    ensures Shaped(native) <==>
            && native.targets.Some?
            && native.targets.value.Keys == {"aarch64-apple-darwin", "x86_64-apple-darwin", "x86_64-pc-windows-msvc",
                                             "x86_64-unknown-linux-gnu"}
            && forall t :: t in native.targets.value ==>
                 && native.targets.value[t].Some?
                 && native.targets.value[t].value.Keys == {"espeak_ng", "onnxruntime", "sonic"}
                 && forall c :: c in native.targets.value[t].value ==> At(native, t, c).Some?
  {
    if native.targets.Some? && native.targets.value.Keys == EXPECTED_TARGETS {
      forall t | t in EXPECTED_TARGETS
        ensures ShapedTarget(native.targets.value[t]) <==>
                && native.targets.value[t].Some?
                && native.targets.value[t].value.Keys == EXPECTED_COMPONENTS
                && forall c :: c in native.targets.value[t].value ==> At(native, t, c).Some?
      {
        assert t in native.targets.value;
      }
    }
  }

  /** Its entries are accepted when each is valid and those for the same archive agree. */
  lemma NativeExact(reader: Reader, native: Native)
    requires Shaped(native)
    ensures AcceptsNative(reader, native) <==>
            && native.schemaVersion == 1 && (reader == Packager ==> native.piperVersion == "1.7.0")
            && (forall t, c :: At(native, t, c).Some? ==> ValidEntry(reader, At(native, t, c).value))
            && forall t, c, t', c' :: At(native, t, c).Some? && At(native, t', c').Some? ==>
                 Agree(reader, At(native, t, c).value, At(native, t', c').value)
  {
    assert ValidNativeHeader(reader, native) <==>
           native.schemaVersion == 1 && (reader == Packager ==> native.piperVersion == "1.7.0");
    forall u | Expected(u)
      ensures At(native, u.target, u.component) == Some(EntryOf(native, u))
    {
      assert ShapedTarget(native.targets.value[u.target]);
    }
    forall t, c | At(native, t, c).Some?
      ensures Expected(Use(c, t)) && At(native, t, c).value == EntryOf(native, Use(c, t))
    {
      assert ShapedTarget(native.targets.value[t]);
    }
    hide NameFor, ValidEntry, At, EntryOf, Expected, Shaped, ValidNativeHeader;
    forall a, b
      ensures Compatible(reader, a, b) <==> Agree(reader, a, b)
    {
    }
  }

  /** Two entries for one archive have the same digest, and for the packager the same URL. */
  predicate Agree(reader: Reader, a: Entry, b: Entry) {
    NameFor(reader, a) != NameFor(reader, b) || (a.digest == b.digest && (reader == Verifier || a.url == b.url))
  }

  /** The corresponding source a reader accepts. */
  lemma SourceExact(reader: Reader, source: Source)
    ensures ValidOnnx(reader, source) <==>
            && source.schemaVersion == 1 && source.sources.Some? && source.sources.value.Keys == {"onnxruntime"}
            && source.sources.value["onnxruntime"].Some?
            && var onnx := source.sources.value["onnxruntime"].value;
               && onnx.version == "1.22.0" && onnx.license == "MIT" && |onnx.commit| == 40
               && (forall c :: c in onnx.commit ==> '0' <= c <= '9' || 'a' <= c <= 'f')
               && ValidEntry(reader, onnx.entry)
               && (reader == Packager ==> onnx.size.Some? && onnx.size.value > 0)
  {
    hide ValidEntry;
    if source.sources.Some? && source.sources.value.Keys == {"onnxruntime"}
       && source.sources.value["onnxruntime"].Some? {
      var commit := source.sources.value["onnxruntime"].value.commit;
      assert forall i :: 0 <= i < |commit| ==> commit[i] in commit;
    }
  }

  // ---------------------------------------------------------------- the readers agree

  /** Every entry names its archive. */
  ghost predicate AllNamed(native: Native, source: Source)
    requires Accepts(Packager, native, source)
  {
    && (forall u :: Expected(u) ==> EntryOf(native, u).archive.Present?)
    && OnnxOf(source).archive.Present?
  }

  /** When every entry names its archive, the verifier accepts what the packager accepts, with the same digests. */
  lemma NamedReadersAgree(native: Native, source: Source)
    requires Accepts(Packager, native, source) && AllNamed(native, source)
    ensures Accepts(Verifier, native, source)
    ensures forall m :: Digests(m, Packager, native, source) <==> Digests(m, Verifier, native, source)
  {
  }

  /** The packager never records an empty name. */
  lemma PackagerNamesAll(m: map<string, string>, native: Native, source: Source)
    requires Accepts(Packager, native, source) && Digests(m, Packager, native, source)
    ensures "" !in m
  {
  }

  /** The verifier records one when a name is missing. */
  lemma VerifierNamesEmpty(m: map<string, string>, native: Native, source: Source)
    requires Accepts(Packager, native, source) && !AllNamed(native, source)
    requires Accepts(Verifier, native, source) && Digests(m, Verifier, native, source)
    ensures "" in m
  {
  }

  /** Exactly when every entry names its archive do the two readers derive the same digests. */
  lemma ReadersAgree(native: Native, source: Source, m: map<string, string>)
    requires Accepts(Packager, native, source) && Digests(m, Packager, native, source)
    ensures Accepts(Verifier, native, source) && Digests(m, Verifier, native, source) <==> AllNamed(native, source)
  {
    if AllNamed(native, source) {
      NamedReadersAgree(native, source);
    } else if Accepts(Verifier, native, source) && Digests(m, Verifier, native, source) {
      VerifierNamesEmpty(m, native, source);
      PackagerNamesAll(m, native, source);
    }
  }

  /** A lock whose native entries are all the same. */
  function Uniform(e: Entry): Native {
    var components: Components := map c | c in EXPECTED_COMPONENTS :: Some(e);
    Native(1, PIPER_VERSION, Some(map t | t in EXPECTED_TARGETS :: Some(components)))
  }

  lemma UniformAccepted(reader: Reader, e: Entry)
    requires ValidEntry(reader, e)
    ensures AcceptsNative(reader, Uniform(e)) && forall u :: Expected(u) ==> EntryOf(Uniform(e), u) == e
  {
  }

  /** A lock with missing names that both accept: the condition is needed. */
  lemma MissingNames(e: Entry, onnx: Onnx) returns (native: Native, source: Source)
    requires e.archive == Absent && ValidEntry(Packager, e)
    requires onnx.entry == e.(archive := Present("onnx.tar.gz"))
    requires onnx.version == ONNXRUNTIME_VERSION && onnx.license == "MIT"
    requires IsHex(onnx.commit, 40) && onnx.size == Some(1)
    ensures Accepts(Packager, native, source) && Accepts(Verifier, native, source) && !AllNamed(native, source)
  {
    native, source := Uniform(e), Source(1, Some(map["onnxruntime" := Some(onnx)]));
    UniformAccepted(Packager, e);
    UniformAccepted(Verifier, e);
    var u := Use("sonic", "x86_64-apple-darwin");
    assert Expected(u) && EntryOf(native, u) == e;
  }

  // ---------------------------------------------------------------- the packager's loops

  datatype Kind = NativeBuildInput | CorrespondingSource(size: int)

  datatype Archive = Archive(kind: Kind, digest: string, url: string, uses: seq<Use>)

  /** The entries visited so far, by use. */
  type Visited = map<Use, Entry>

  ghost predicate Visits(done: Visited, native: Native) {
    forall u :: u in done ==> Expected(u) && (Shaped(native) ==> done[u] == EntryOf(native, u))
  }

  /** The archives are those of the visited entries, each with all its uses. */
  ghost predicate Built(archives: map<string, Archive>, done: Visited) {
    && (forall u :: u in done ==> ValidEntry(Packager, done[u]) && RecordedFor(archives, u, done[u]))
    && (forall name, u :: name in archives && u in archives[name].uses ==>
          u in done && NameFor(Packager, done[u]) == name)
    && (forall name :: name in archives ==> archives[name].kind == NativeBuildInput && archives[name].uses != [])
    && (forall name :: name in archives ==> Once(archives[name].uses))
  }

  ghost predicate Once(uses: seq<Use>) {
    forall i, j :: 0 <= i < j < |uses| ==> uses[i] != uses[j]
  }

  ghost predicate RecordedFor(archives: map<string, Archive>, u: Use, e: Entry) {
    && NameFor(Packager, e) in archives
    && var a := archives[NameFor(Packager, e)];
       a.digest == e.digest && a.url == e.url && u in a.uses
  }

  predicate Conflicts(archives: map<string, Archive>, e: Entry) {
    var name := NameFor(Packager, e);
    name in archives && (archives[name].digest != e.digest || archives[name].url != e.url)
  }

  method AddArchive(archives: map<string, Archive>, e: Entry, use: Use, ghost done: Visited)
    returns (r: Option<map<string, Archive>>)
    requires Built(archives, done) && use !in done
    ensures r.None? <==> !ValidEntry(Packager, e) || Conflicts(archives, e)
    ensures r.Some? ==> Built(r.value, done[use := e])
  {
    var name := NameFor(Packager, e);
    if name == "" || name == ".." || !IsPlainName(name) { return None; }
    if !e.reviewed || !IsHex(e.digest, 64) { return None; }
    var locked := if name in archives then archives[name] else Archive(NativeBuildInput, e.digest, e.url, []);
    if locked.digest != e.digest || locked.url != e.url { return None; }
    r := Some(archives[name := locked.(uses := locked.uses + [use])]);
    UseAdded(archives, done, e, use, r.value);
  }

  lemma OnceMore(uses: seq<Use>, use: Use)
    requires use !in uses
    ensures Once([]) && (Once(uses) ==> Once(uses + [use]))
  {
  }

  lemma UseAdded(archives: map<string, Archive>, done: Visited, e: Entry, use: Use, after: map<string, Archive>)
    requires Built(archives, done) && use !in done && ValidEntry(Packager, e) && !Conflicts(archives, e)
    requires var name := NameFor(Packager, e);
             after == archives[name := Archive(NativeBuildInput, e.digest, e.url,
                                               (if name in archives then archives[name].uses else []) + [use])]
    ensures Built(after, done[use := e])
  {
    hide ValidEntry, NameFor, Once;
    assert forall name :: name in archives ==> use !in archives[name].uses;
    if NameFor(Packager, e) in archives {
      OnceMore(archives[NameFor(Packager, e)].uses, use);
    } else {
      OnceMore([], use);
    }
  }

  /** A conflict with what is recorded is a conflict between two entries. */
  lemma ConflictRejected(archives: map<string, Archive>, done: Visited, native: Native, use: Use)
    requires Built(archives, done) && Visits(done, native) && Shaped(native) && Expected(use)
    requires Conflicts(archives, EntryOf(native, use))
    ensures !AcceptsNative(Packager, native)
  {
    var name := NameFor(Packager, EntryOf(native, use));
    var u := archives[name].uses[0];
    assert u in archives[name].uses && u in done;
    assert RecordedFor(archives, u, done[u]);
    assert !Compatible(Packager, EntryOf(native, u), EntryOf(native, use));
  }

  lemma EntryRejected(archives: map<string, Archive>, done: Visited, native: Native, use: Use, e: Entry)
    requires Built(archives, done) && Visits(done, native) && Expected(use)
    requires Shaped(native) ==> e == EntryOf(native, use)
    requires !ValidEntry(Packager, e) || Conflicts(archives, e)
    ensures !AcceptsNative(Packager, native)
  {
    if Shaped(native) && Conflicts(archives, e) {
      ConflictRejected(archives, done, native, use);
    }
  }

  /** The components of one target. */
  method LockTarget(archives: map<string, Archive>, target: string, components: Option<Components>,
                    ghost native: Native, ghost done: Visited)
    returns (r: Option<map<string, Archive>>, ghost after: Visited)
    requires Built(archives, done) && Visits(done, native) && forall u :: u in done ==> u.target != target
    requires native.targets.Some? && target in native.targets.value && native.targets.value[target] == components
    requires target in EXPECTED_TARGETS
    ensures r.Some? ==> Built(r.value, after) && Visits(after, native)
    ensures r.Some? ==> ShapedTarget(components)
    ensures r.Some? ==>
              forall u :: u in after <==> u in done || (u.target == target && u.component in EXPECTED_COMPONENTS)
    ensures r.None? ==> !AcceptsNative(Packager, native)
  {
    after := done;
    if components.None? || components.value.Keys != EXPECTED_COMPONENTS {
      assert !ShapedTarget(components);
      return None, after;
    }
    var locked, remaining := archives, components.value.Keys;
    while remaining != {}
      invariant remaining <= EXPECTED_COMPONENTS && Built(locked, after) && Visits(after, native)
      invariant forall u :: u in after <==>
                  u in done || (u.target == target && u.component in EXPECTED_COMPONENTS - remaining)
      invariant forall c :: c in EXPECTED_COMPONENTS - remaining ==> components.value[c].Some?
      decreases remaining
    {
      var component := Pick(remaining);
      var specification := components.value[component];
      if specification.None? {
        assert !ShapedTarget(components);
        return None, after;
      }
      var use := Use(component, target);
      var next := AddArchive(locked, specification.value, use, after);
      if next.None? {
        EntryRejected(locked, after, native, use, specification.value);
        return None, after;
      }
      locked, after := next.value, after[use := specification.value];
      remaining := remaining - {component};
    }
    return Some(locked), after;
  }

  /** The loop over the targets. */
  method LockTargets(native: Native) returns (r: Option<map<string, Archive>>, ghost done: Visited)
    ensures r.Some? <==> AcceptsNative(Packager, native)
    ensures r.Some? ==> Built(r.value, done) && Visits(done, native) && forall u :: u in done <==> Expected(u)
  {
    done := map[];
    if native.schemaVersion != 1 || native.piperVersion != PIPER_VERSION { return None, done; }
    if native.targets.None? || native.targets.value.Keys != EXPECTED_TARGETS { return None, done; }
    var archives: map<string, Archive>, remaining := map[], native.targets.value.Keys;
    while remaining != {}
      invariant remaining <= EXPECTED_TARGETS && Built(archives, done) && Visits(done, native)
      invariant forall u :: u in done <==> Expected(u) && u.target !in remaining
      invariant forall t :: t in EXPECTED_TARGETS - remaining ==> ShapedTarget(native.targets.value[t])
      decreases remaining
    {
      var target := Pick(remaining);
      var next;
      next, done := LockTarget(archives, target, native.targets.value[target], native, done);
      if next.None? { return None, done; }
      archives := next.value;
      remaining := remaining - {target};
    }
    BuiltAccepts(archives, done, native);
    return Some(archives), done;
  }

  lemma BuiltAccepts(archives: map<string, Archive>, done: Visited, native: Native)
    requires Built(archives, done) && Visits(done, native) && Shaped(native) && ValidNativeHeader(Packager, native)
    requires forall u :: u in done <==> Expected(u)
    ensures AcceptsNative(Packager, native)
  {
  }

  ghost function DigestsOf(archives: map<string, Archive>): map<string, string> {
    map name | name in archives :: archives[name].digest
  }

  /** Every archive lists the uses of its entries, each once. */
  ghost predicate ListsUses(archives: map<string, Archive>, native: Native)
    requires Shaped(native)
  {
    && (forall name, u :: name in archives && Expected(u) ==>
          (u in archives[name].uses <==> NameFor(Packager, EntryOf(native, u)) == name))
    && forall name :: name in archives ==> Once(archives[name].uses)
  }

  /** Every native entry's archive keeps its URL; the corresponding source keeps its URL and size. */
  ghost predicate DescribesSources(archives: map<string, Archive>, native: Native, source: Source)
    requires Shaped(native) && ValidOnnx(Packager, source)
  {
    && (forall u :: Expected(u) ==> DescribesEntry(archives, EntryOf(native, u), NativeBuildInput))
    && var onnx := source.sources.value["onnxruntime"].value;
       DescribesEntry(archives, onnx.entry, CorrespondingSource(onnx.size.value))
  }

  ghost predicate DescribesEntry(archives: map<string, Archive>, e: Entry, kind: Kind) {
    && NameFor(Packager, e) in archives
    && archives[NameFor(Packager, e)].url == e.url && archives[NameFor(Packager, e)].kind == kind
  }

  lemma BuiltSources(archives: map<string, Archive>, done: Visited, native: Native, name: string, archive: Archive,
                     source: Source)
    requires Built(archives, done) && Visits(done, native) && Shaped(native) && ValidOnnx(Packager, source)
    requires (forall u :: u in done <==> Expected(u)) && name == NameFor(Packager, OnnxOf(source)) && name !in archives
    requires archive.url == OnnxOf(source).url
    requires archive.kind == CorrespondingSource(source.sources.value["onnxruntime"].value.size.value)
    ensures DescribesSources(archives[name := archive], native, source)
  {
    forall u | Expected(u)
      ensures DescribesEntry(archives[name := archive], EntryOf(native, u), NativeBuildInput)
    {
      assert RecordedFor(archives, u, done[u]);
    }
  }

  /** The packager's reader: the archives of an accepted lock, each with its digest and all its uses. */
  method LockedArchives(native: Native, source: Source) returns (r: Option<map<string, Archive>>)
    ensures r.Some? <==> Accepts(Packager, native, source)
    ensures r.Some? ==> Digests(DigestsOf(r.value), Packager, native, source) && ListsUses(r.value, native)
    ensures r.Some? ==> DescribesSources(r.value, native, source)
  {
    ghost var done;
    r, done := LockTargets(native);
    if r.None? { return None; }
    if !ValidOnnx(Packager, source) { return None; }
    var onnx := source.sources.value["onnxruntime"].value;
    var name := NameFor(Packager, onnx.entry);
    BuiltNames(r.value, done, native);
    OnnxDigest(DigestsOf(r.value), Packager, native, source);
    if name in r.value { return None; }
    var archive := Archive(CorrespondingSource(onnx.size.value), onnx.entry.digest, onnx.entry.url,
                           [Use("onnxruntime-source", "")]);
    OnnxUses(r.value, name, archive, native);
    BuiltSources(r.value, done, native, name, archive, source);
    return Some(r.value[name := archive]);
  }

  lemma BuiltFor(archives: map<string, Archive>, done: Visited, native: Native, name: string) returns (u: Use)
    requires Built(archives, done) && Visits(done, native) && Shaped(native) && name in archives
    ensures Expected(u) && NameFor(Packager, EntryOf(native, u)) == name
  {
    hide NameFor, EntryOf, ValidEntry, RecordedFor, Expected, Shaped;
    u := archives[name].uses[0];
    assert u in archives[name].uses && u in done;
  }

  lemma BuiltAnswers(archives: map<string, Archive>, done: Visited, native: Native)
    requires Built(archives, done) && Visits(done, native) && Shaped(native)
    requires forall u :: u in done <==> Expected(u)
    ensures NativeDigests(DigestsOf(archives), Packager, native)
  {
    hide NameFor, EntryOf, ValidEntry, Expected, Shaped;
    forall name | name in archives
      ensures exists u :: Expected(u) && NameFor(Packager, EntryOf(native, u)) == name
    {
      var u := BuiltFor(archives, done, native, name);
    }
    forall u | Expected(u)
      ensures NameFor(Packager, EntryOf(native, u)) in archives
      ensures archives[NameFor(Packager, EntryOf(native, u))].digest == EntryOf(native, u).digest
    {
      assert RecordedFor(archives, u, done[u]);
    }
  }

  lemma BuiltUses(archives: map<string, Archive>, done: Visited, native: Native)
    requires Built(archives, done) && Visits(done, native) && Shaped(native)
    requires forall u :: u in done <==> Expected(u)
    ensures ListsUses(archives, native)
  {
    hide NameFor, EntryOf, ValidEntry, Expected, Shaped;
    forall name, u | name in archives && Expected(u)
      ensures u in archives[name].uses <==> NameFor(Packager, EntryOf(native, u)) == name
    {
      assert RecordedFor(archives, u, done[u]) && EntryOf(native, u) == done[u];
    }
  }

  lemma BuiltNames(archives: map<string, Archive>, done: Visited, native: Native)
    requires Built(archives, done) && Visits(done, native) && AcceptsNative(Packager, native)
    requires forall u :: u in done <==> Expected(u)
    ensures NativeDigests(DigestsOf(archives), Packager, native) && ListsUses(archives, native)
  {
    BuiltAnswers(archives, done, native);
    BuiltUses(archives, done, native);
  }

  lemma OnnxUses(archives: map<string, Archive>, name: string, archive: Archive, native: Native)
    requires Shaped(native) && ListsUses(archives, native) && name !in archives
    requires forall u :: Expected(u) ==> NameFor(Packager, EntryOf(native, u)) != name
    requires archive.uses == [Use("onnxruntime-source", "")]
    ensures ListsUses(archives[name := archive], native)
    ensures DigestsOf(archives[name := archive]) == DigestsOf(archives)[name := archive.digest]
  {
    assert Once(archive.uses);
    hide NameFor, EntryOf, Expected, Shaped, Once;
  }

  // ---------------------------------------------------------------- the verifier's loops

  /** The digests of the visited entries. */
  ghost predicate Derived(m: map<string, string>, done: Visited) {
    && (forall u :: u in done ==> ValidEntry(Verifier, done[u]) && DerivedFor(m, done[u]))
    && forall name :: name in m ==> NamedBy(done, name)
  }

  ghost predicate NamedBy(done: Visited, name: string) {
    exists u :: u in done && NameFor(Verifier, done[u]) == name
  }

  ghost predicate DerivedFor(m: map<string, string>, e: Entry) {
    NameFor(Verifier, e) in m && m[NameFor(Verifier, e)] == e.digest
  }

  lemma DigestAdded(m: map<string, string>, done: Visited, native: Native, use: Use, e: Entry)
    requires Derived(m, done) && Visits(done, native) && Expected(use) && use !in done
    requires Shaped(native) ==> e == EntryOf(native, use)
    ensures var name := NameFor(Verifier, e);
            if ValidEntry(Verifier, e) && (name in m ==> m[name] == e.digest)
            then Derived(m[name := e.digest], done[use := e])
            else !AcceptsNative(Verifier, native)
  {
    var name := NameFor(Verifier, e);
    if !ValidEntry(Verifier, e) {
    } else if name in m && m[name] != e.digest {
      assert NamedBy(done, name);
      var u :| u in done && NameFor(Verifier, done[u]) == name;
      assert DerivedFor(m, done[u]);
      assert Shaped(native) ==> !Compatible(Verifier, EntryOf(native, u), EntryOf(native, use));
    } else {
      var after, all := m[name := e.digest], done[use := e];
      forall u | u in all
        ensures ValidEntry(Verifier, all[u]) && DerivedFor(after, all[u])
      {
        if u != use { assert DerivedFor(m, done[u]); }
      }
      forall n | n in after
        ensures NamedBy(all, n)
      {
        if n == name {
          assert use in all && NameFor(Verifier, all[use]) == n;
        } else {
          assert NamedBy(done, n);
          var u :| u in done && NameFor(Verifier, done[u]) == n;
          assert u in all && all[u] == done[u];
        }
      }
    }
  }

  method AddDigest(derived: map<string, string>, e: Entry, ghost use: Use, ghost native: Native, ghost done: Visited)
    returns (r: Option<map<string, string>>)
    requires Derived(derived, done) && Visits(done, native) && Expected(use) && use !in done
    requires Shaped(native) ==> e == EntryOf(native, use)
    ensures r.Some? ==> Derived(r.value, done[use := e])
    ensures r.None? ==> !AcceptsNative(Verifier, native)
  {
    var name := NameFor(Verifier, e);
    DigestAdded(derived, done, native, use, e);
    if !IsPlainName(name) || !IsHex(e.digest, 64) { return None; }
    if name in derived && derived[name] != e.digest { return None; }
    return Some(derived[name := e.digest]);
  }

  method DeriveTarget(archives: map<string, string>, target: string, components: Option<Components>,
                      ghost native: Native, ghost done: Visited)
    returns (r: Option<map<string, string>>, ghost after: Visited)
    requires Derived(archives, done) && Visits(done, native) && forall u :: u in done ==> u.target != target
    requires native.targets.Some? && target in native.targets.value && native.targets.value[target] == components
    requires target in EXPECTED_TARGETS
    ensures r.Some? ==> Derived(r.value, after) && Visits(after, native)
    ensures r.Some? ==> ShapedTarget(components)
    ensures r.Some? ==>
              forall u :: u in after <==> u in done || (u.target == target && u.component in EXPECTED_COMPONENTS)
    ensures r.None? ==> !AcceptsNative(Verifier, native)
  {
    after := done;
    if components.None? || components.value.Keys != EXPECTED_COMPONENTS {
      assert !ShapedTarget(components);
      return None, after;
    }
    var derived, remaining := archives, components.value.Keys;
    while remaining != {}
      invariant remaining <= EXPECTED_COMPONENTS && Derived(derived, after) && Visits(after, native)
      invariant forall u :: u in after <==>
                  u in done || (u.target == target && u.component in EXPECTED_COMPONENTS - remaining)
      invariant forall c :: c in EXPECTED_COMPONENTS - remaining ==> components.value[c].Some?
      decreases remaining
    {
      var component := Pick(remaining);
      var value := components.value[component];
      if value.None? {
        assert !ShapedTarget(components);
        return None, after;
      }
      var use := Use(component, target);
      var next := AddDigest(derived, value.value, use, native, after);
      if next.None? { return None, after; }
      derived, after := next.value, after[use := value.value];
      remaining := remaining - {component};
    }
    return Some(derived), after;
  }

  method DeriveTargets(native: Native) returns (r: Option<map<string, string>>)
    ensures r.Some? <==> AcceptsNative(Verifier, native)
    ensures r.Some? ==> NativeDigests(r.value, Verifier, native)
  {
    if native.schemaVersion != 1 { return None; }
    if native.targets.None? || native.targets.value.Keys != EXPECTED_TARGETS { return None; }
    var archives: map<string, string>, remaining := map[], native.targets.value.Keys;
    ghost var done: Visited := map[];
    while remaining != {}
      invariant remaining <= EXPECTED_TARGETS && Derived(archives, done) && Visits(done, native)
      invariant forall u :: u in done <==> Expected(u) && u.target !in remaining
      invariant forall t :: t in EXPECTED_TARGETS - remaining ==> ShapedTarget(native.targets.value[t])
      decreases remaining
    {
      var target := Pick(remaining);
      var next;
      next, done := DeriveTarget(archives, target, native.targets.value[target], native, done);
      if next.None? { return None; }
      archives := next.value;
      remaining := remaining - {target};
    }
    DerivedAccepts(archives, done, native);
    return Some(archives);
  }

  lemma DerivedAccepts(m: map<string, string>, done: Visited, native: Native)
    requires Derived(m, done) && Visits(done, native) && Shaped(native) && ValidNativeHeader(Verifier, native)
    requires forall u :: u in done <==> Expected(u)
    ensures AcceptsNative(Verifier, native) && NativeDigests(m, Verifier, native)
  {
    hide NameFor, EntryOf, ValidEntry, Expected, Shaped, ValidNativeHeader;
  }

  /** The verifier's reader: the digests of an accepted lock. */
  method LockedInputDigests(native: Native, source: Source) returns (r: Option<map<string, string>>)
    ensures r.Some? <==> Accepts(Verifier, native, source)
    ensures r.Some? ==> Digests(r.value, Verifier, native, source)
  {
    r := DeriveTargets(native);
    if r.None? { return None; }
    if !ValidOnnx(Verifier, source) { return None; }
    var onnx := source.sources.value["onnxruntime"].value;
    var name := NameFor(Verifier, onnx.entry);
    OnnxDigest(r.value, Verifier, native, source);
    if name in r.value { return None; }
    return Some(r.value[name := onnx.entry.digest]);
  }
}
