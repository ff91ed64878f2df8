/**
 The import table reader of tools/verify_piper_release.py (pe_imports) over the bytes of a PE32+ image, and
 the layout of such an image according to the Microsoft PE Format ("Import Directory Table").
 */
module PeImports {
  import opened Binary
  import opened Sequences
  import opened Wrappers

  datatype Error =
    | Truncated | NotPe | MissingHeader | Not64Bit | OutsideSections | UnterminatedName | NotAscii | Unbounded

  /** `size` is the larger of the virtual and the raw size. */
  datatype Section = Section(virtualAddress: nat, size: nat, rawOffset: nat)

  const MAX_DESCRIPTORS := 4096
  const MAX_NAME := 1023
  const PE_MAGIC: Bytes := [0x50, 0x45, 0, 0]

  // ---------------------------------------------------------------- reading integers

  /** Never reads outside the data. */
  function Unsigned(data: Bytes, offset: nat, size: nat): Option<nat> {
    if offset + size <= |data| then Some(LittleEndian(data[offset..offset + size])) else None
  }

  // ---------------------------------------------------------------- what an image says

  predicate Contains(s: Section, rva: nat) {
    s.virtualAddress <= rva < s.virtualAddress + s.size
  }

  /** The file offset of an address, by the first section that holds it. */
  function FileOffset(sections: seq<Section>, rva: nat): Option<nat> {
    if sections == [] then None
    else if Contains(sections[0], rva) then Some(sections[0].rawOffset + rva - sections[0].virtualAddress)
    else FileOffset(sections[1..], rva)
  }

  ghost predicate SectionAt(data: Bytes, at: nat, s: Section) {
    && at + 24 <= |data|
    && var (virtual, raw) := (LittleEndian(data[at + 8..at + 12]), LittleEndian(data[at + 16..at + 20]));
       && s.size == (if virtual < raw then raw else virtual)
       && s.virtualAddress == LittleEndian(data[at + 12..at + 16])
       && s.rawOffset == LittleEndian(data[at + 20..at + 24])
  }

  ghost predicate SectionsAt(data: Bytes, at: nat, sections: seq<Section>) {
    forall i :: 0 <= i < |sections| ==> SectionAt(data, at + i * 40, sections[i])
  }

  /** The optional header of a PE32+ image. */
  ghost predicate OptionalHeader(data: Bytes, at: nat, importRva: nat) {
    Unsigned(data, at, 2) == Some(0x20B) && Unsigned(data, at + 120, 4) == Some(importRva)
  }

  /** The headers, found from the offset at 0x3C. */
  ghost predicate HeaderAt(data: Bytes, pe: nat, sections: seq<Section>, importRva: nat) {
    && |data| >= 64 && data[0] == 0x4D && data[1] == 0x5A && Unsigned(data, 0x3C, 4) == Some(pe)
    && pe + 4 <= |data| && data[pe..pe + 4] == PE_MAGIC
    && Unsigned(data, pe + 6, 2) == Some(|sections|)
    && OptionalHeader(data, pe + 24, importRva)
    && Unsigned(data, pe + 20, 2).Some?
    && SectionsAt(data, pe + 24 + Unsigned(data, pe + 20, 2).value, sections)
  }

  ghost predicate HasHeader(data: Bytes, sections: seq<Section>, importRva: nat) {
    exists pe :: HeaderAt(data, pe, sections, importRva)
  }

  /** An ASCII name of at most 1023 bytes, then NUL. */
  ghost predicate NameAt(data: Bytes, at: nat, name: Bytes) {
    && |name| <= MAX_NAME && at + |name| < |data| && data[at..at + |name|] == name && data[at + |name|] == 0
    && forall i :: 0 <= i < |name| ==> 0 < name[i] < 128
  }

  const ZEROS: Bytes := [0, 0, 0, 0, 0, 0, 0, 0, 0, 0, 0, 0, 0, 0, 0, 0, 0, 0, 0, 0]

  /** A descriptor that is not the terminator, and the name it points to. */
  ghost predicate EntryAt(data: Bytes, sections: seq<Section>, at: nat, name: Bytes) {
    && at + 20 <= |data| && data[at..at + 20] != ZEROS
    && var offset := FileOffset(sections, LittleEndian(data[at + 12..at + 16]));
       offset.Some? && NameAt(data, offset.value, name)
  }

  ghost predicate TerminatorAt(data: Bytes, at: nat) {
    at + 20 <= |data| && data[at..at + 20] == ZEROS
  }

  ghost predicate TableAt(data: Bytes, sections: seq<Section>, at: nat, names: seq<Bytes>) {
    && (forall k :: 0 <= k < |names| ==> EntryAt(data, sections, at + 20 * k, names[k]))
    && TerminatorAt(data, at + 20 * |names|)
  }

  /** The imports of an image with the given sections, in table order. */
  ghost predicate Imports(data: Bytes, sections: seq<Section>, importRva: nat, names: seq<Bytes>) {
    if importRva == 0 then names == []
    else
      && |names| < MAX_DESCRIPTORS
      && FileOffset(sections, importRva).Some?
      && TableAt(data, sections, FileOffset(sections, importRva).value, names)
  }

  ghost predicate ImportsOf(data: Bytes, names: seq<Bytes>) {
    exists sections, importRva :: HasHeader(data, sections, importRva) && Imports(data, sections, importRva, names)
  }

  function LowerByte(b: Byte): char
    requires b < 128
  {
    (if 0x41 <= b <= 0x5A then b + 0x20 else b) as char
  }

  predicate Ascii(name: Bytes) {
    forall i :: 0 <= i < |name| ==> name[i] < 128
  }

  function Lower(name: Bytes): string
    requires Ascii(name)
  {
    seq(|name|, i requires 0 <= i < |name| => LowerByte(name[i]))
  }

  ghost function Lowered(names: seq<Bytes>): set<string>
    requires forall n :: n in names ==> Ascii(n)
  {
    set n | n in names :: Lower(n)
  }

  /** The name is the text with any of its letters in capitals; the text has no capital itself. */
  ghost predicate Spells(name: Bytes, text: string) {
    && |name| == |text|
    && forall i :: 0 <= i < |text| ==>
         && !('A' <= text[i] <= 'Z')
         && (name[i] == text[i] as int || ('a' <= text[i] <= 'z' && name[i] == text[i] as int - 32))
  }

  /** An ASCII name spells just one text, the one it is lowered to. */
  lemma LowerExact(name: Bytes, text: string)
    requires Ascii(name)
    ensures Spells(name, text) <==> text == Lower(name)
  {
    if Spells(name, text) {
      forall i | 0 <= i < |text|
        ensures text[i] == Lower(name)[i]
      {
        assert text[i] as int == if 0x41 <= name[i] <= 0x5A then name[i] + 0x20 else name[i];
      }
    }
  }

  /** A set of texts holds just what the names spell. */
  ghost predicate AllSpelled(texts: set<string>, names: seq<Bytes>) {
    forall text :: text in texts <==> SpelledBy(text, names)
  }

  ghost predicate SpelledBy(text: string, names: seq<Bytes>) {
    exists n :: n in names && Spells(n, text)
  }

  lemma LoweredExact(names: seq<Bytes>)
    requires forall n :: n in names ==> Ascii(n)
    ensures AllSpelled(Lowered(names), names)
  {
    forall text
      ensures text in Lowered(names) <==> SpelledBy(text, names)
    {
      forall n | n in names
        ensures Spells(n, text) <==> text == Lower(n)
      {
        LowerExact(n, text);
      }
    }
  }

  lemma NoCapitals(texts: set<string>, names: seq<Bytes>)
    requires AllSpelled(texts, names)
    ensures forall text, c :: text in texts && c in text ==> !('A' <= c <= 'Z')
  {
    forall text, c | text in texts && c in text
      ensures !('A' <= c <= 'Z')
    {
      assert SpelledBy(text, names);
    }
  }

  /** Names that differ only in their capitals are read as the same text. */
  lemma SpellingsAgree(names: seq<Bytes>, others: seq<Bytes>, texts: set<string>)
    requires |names| == |others| && AllSpelled(texts, names)
    requires forall i :: 0 <= i < |names| ==> exists text :: Spells(names[i], text) && Spells(others[i], text)
    ensures AllSpelled(texts, others)
  {
    forall i | 0 <= i < |names|
      ensures forall text :: Spells(names[i], text) <==> Spells(others[i], text)
    {
      var shared :| Spells(names[i], shared) && Spells(others[i], shared);
      OneText(names[i], shared);
      OneText(others[i], shared);
    }
    forall text
      ensures SpelledBy(text, names) <==> SpelledBy(text, others)
    {
      if n :| n in names && Spells(n, text) {
        var i :| 0 <= i < |names| && names[i] == n;
        assert others[i] in others && Spells(others[i], text);
      }
      if n :| n in others && Spells(n, text) {
        var i :| 0 <= i < |others| && others[i] == n;
        assert names[i] in names && Spells(names[i], text);
      }
    }
  }

  lemma OneText(name: Bytes, text: string)
    requires Spells(name, text)
    ensures forall other :: Spells(name, other) ==> other == text
  {
    forall other | Spells(name, other)
      ensures other == text
    {
      forall i | 0 <= i < |text|
        ensures other[i] as int == text[i] as int
      {
      }
    }
  }

  // ---------------------------------------------------------------- an image has one import list

  lemma NameUnique(data: Bytes, at: nat, a: Bytes, b: Bytes)
    requires NameAt(data, at, a) && NameAt(data, at, b)
    ensures a == b
  {
  }

  /** A table agrees with the descriptors read so far, and ends where they do only at a terminator. */
  lemma TableGoesOn(data: Bytes, sections: seq<Section>, start: nat, table: seq<Bytes>, names: seq<Bytes>)
    requires TableAt(data, sections, start, table)
    requires forall k :: 0 <= k < |names| ==> EntryAt(data, sections, start + 20 * k, names[k])
    ensures |table| >= |names|
    ensures |table| == |names| ==> TerminatorAt(data, start + 20 * |names|)
    ensures |table| > |names| ==> EntryAt(data, sections, start + 20 * |names|, table[|names|])
  {
    forall k | 0 <= k < |names|
      ensures !TerminatorAt(data, start + 20 * k)
    {
      assert EntryAt(data, sections, start + 20 * k, names[k]);
    }
  }

  lemma TableUnique(data: Bytes, sections: seq<Section>, at: nat, a: seq<Bytes>, b: seq<Bytes>)
    requires TableAt(data, sections, at, a) && TableAt(data, sections, at, b)
    ensures a == b
  {
    TableGoesOn(data, sections, at, a, b);
    TableGoesOn(data, sections, at, b, a);
    forall k | 0 <= k < |a|
      ensures a[k] == b[k]
    {
      assert EntryAt(data, sections, at + 20 * k, a[k]) && EntryAt(data, sections, at + 20 * k, b[k]);
      NameUnique(data, FileOffset(sections, LittleEndian(data[at + 20 * k + 12..at + 20 * k + 16])).value, a[k], b[k]);
    }
  }

  lemma HasHeaderUnique(data: Bytes, s: seq<Section>, r: nat, s': seq<Section>, r': nat)
    requires HasHeader(data, s, r) && HasHeader(data, s', r')
    ensures s == s' && r == r'
  {
  }

  /** No image has two import lists. */
  lemma ImportsUnique(data: Bytes, a: seq<Bytes>, b: seq<Bytes>)
    requires ImportsOf(data, a) && ImportsOf(data, b)
    ensures a == b
  {
    var s, r :| HasHeader(data, s, r) && Imports(data, s, r, a);
    var s', r' :| HasHeader(data, s', r') && Imports(data, s', r', b);
    HasHeaderUnique(data, s, r, s', r');
    if r != 0 {
      TableUnique(data, s, FileOffset(s, r).value, a, b);
    }
  }

  // ---------------------------------------------------------------- the parser

  method FindOffset(sections: seq<Section>, rva: nat) returns (offset: Result<nat, Error>)
    ensures offset == match FileOffset(sections, rva) case Some(o) => Success(o) case None => Failure(OutsideSections)
  {
    for i := 0 to |sections|
      invariant FileOffset(sections, rva) == FileOffset(sections[i..], rva)
    {
      var s := sections[i];
      assert sections[i..][1..] == sections[i + 1..];
      if Contains(s, rva) { return Success(s.rawOffset + rva - s.virtualAddress); }
    }
    return Failure(OutsideSections);
  }

  method ReadSections(data: Bytes, at: nat, count: nat) returns (sections: Result<seq<Section>, Error>)
    ensures sections.Success? ==> |sections.value| == count && SectionsAt(data, at, sections.value)
    ensures sections.Failure? ==> forall s :: SectionsAt(data, at, s) ==> |s| != count
  {
    var found: seq<Section> := [];
    for i := 0 to count
      invariant |found| == i && SectionsAt(data, at, found)
    {
      var start := at + i * 40;
      var virtual := Unsigned(data, start + 8, 4);
      var address := Unsigned(data, start + 12, 4);
      var raw := Unsigned(data, start + 16, 4);
      var offset := Unsigned(data, start + 20, 4);
      if virtual.None? || address.None? || raw.None? || offset.None? {
        forall s | SectionsAt(data, at, s)
          ensures |s| != count
        {
          assert |s| > i ==> SectionAt(data, start, s[i]);
        }
        return Failure(Truncated);
      }
      var larger := if virtual.value < raw.value then raw.value else virtual.value;
      found := found + [Section(address.value, larger, offset.value)];
    }
    return Success(found);
  }

  /** A name is the bytes before the first NUL. */
  lemma NameBeforeNul(data: Bytes, at: nat, end: nat, name: Bytes)
    requires at <= end <= |data| && forall i :: at <= i < end ==> data[i] != 0
    ensures NameAt(data, at, name) ==> end <= at + |name| && (end < |data| && data[end] == 0 ==> name == data[at..end])
  {
    if NameAt(data, at, name) {
      forall i | at <= i < at + |name|
        ensures data[i] != 0
      {
        assert data[i] == data[at..at + |name|][i - at];
      }
    }
  }

  /** The bytes up to the first NUL within the bound, which must be ASCII. */
  method ReadName(data: Bytes, at: nat) returns (name: Result<Bytes, Error>)
    ensures name.Success? ==> NameAt(data, at, name.value)
    ensures name.Failure? ==> forall n :: !NameAt(data, at, n)
  {
    var limit := if |data| < at + MAX_NAME + 1 then |data| else at + MAX_NAME + 1;
    if limit <= at { return Failure(UnterminatedName); }
    var end := at;
    while end < limit && data[end] != 0
      invariant at <= end <= limit && forall i :: at <= i < end ==> data[i] != 0
    {
      end := end + 1;
    }
    forall n: Bytes { NameBeforeNul(data, at, end, n); }
    if end == limit { return Failure(UnterminatedName); }
    var raw := data[at..end];
    assert forall i :: 0 <= i < |raw| ==> raw[i] == data[at + i];
    if !Ascii(raw) { return Failure(NotAscii); }
    return Success(raw);
  }

  /** The loop over the descriptors, bounded by 4096. */
  method ReadTable(data: Bytes, sections: seq<Section>, start: nat)
    returns (imports: Result<set<string>, Error>, ghost names: seq<Bytes>)
    ensures imports.Success? ==>
              && |names| < MAX_DESCRIPTORS && TableAt(data, sections, start, names)
              && imports.value == Lowered(names) && AllSpelled(imports.value, names)
    ensures imports.Failure? ==> forall n :: TableAt(data, sections, start, n) ==> |n| >= MAX_DESCRIPTORS
  {
    var found: set<string>, descriptor := {}, start;
    names := [];
    for i := 0 to MAX_DESCRIPTORS
      invariant |names| == i && descriptor == start + 20 * i
      invariant forall k :: 0 <= k < i ==> EntryAt(data, sections, start + 20 * k, names[k])
      invariant found == Lowered(names)
    {
      var entry := ReadEntry(data, sections, descriptor);
      if entry.Failure? {
        TableStuck(data, sections, start, names, descriptor);
        return Failure(entry.error), [];
      }
      if entry.value.None? {
        LoweredExact(names);
        return Success(found), names;
      }
      LoweredStep(names, entry.value.value);
      found := found + {Lower(entry.value.value)};
      names := names + [entry.value.value];
      descriptor := descriptor + 20;
    }
    forall n | TableAt(data, sections, start, n)
      ensures |n| >= MAX_DESCRIPTORS
    {
      TableGoesOn(data, sections, start, n, names);
    }
    return Failure(Unbounded), [];
  }

  /** One descriptor: None for the terminator. */
  method ReadEntry(data: Bytes, sections: seq<Section>, at: nat) returns (r: Result<Option<Bytes>, Error>)
    ensures r.Success? && r.value.None? ==> TerminatorAt(data, at)
    ensures r.Success? && r.value.Some? ==> EntryAt(data, sections, at, r.value.value)
    ensures r.Failure? ==> !TerminatorAt(data, at) && forall n :: !EntryAt(data, sections, at, n)
  {
    if at + 20 > |data| { return Failure(Truncated); }
    if data[at..at + 20] == ZEROS { return Success(None); }
    var offset := FindOffset(sections, LittleEndian(data[at + 12..at + 16]));
    if offset.Failure? { return Failure(offset.error); }
    var name := ReadName(data, offset.value);
    if name.Failure? { return Failure(name.error); }
    return Success(Some(name.value));
  }

  lemma LoweredStep(names: seq<Bytes>, name: Bytes)
    requires Ascii(name) && forall n :: n in names ==> Ascii(n)
    ensures Lowered(names + [name]) == Lowered(names) + {Lower(name)}
  {
  }

  lemma TableStuck(data: Bytes, sections: seq<Section>, start: nat, names: seq<Bytes>, at: nat)
    requires forall k :: 0 <= k < |names| ==> EntryAt(data, sections, start + 20 * k, names[k])
    requires at == start + 20 * |names| && !TerminatorAt(data, at)
    requires forall n :: !EntryAt(data, sections, at, n)
    ensures forall table :: !TableAt(data, sections, start, table)
  {
    forall table: seq<Bytes>
      ensures !TableAt(data, sections, start, table)
    {
      if TableAt(data, sections, start, table) {
        TableGoesOn(data, sections, start, table, names);
      }
    }
  }

  method ReadHeader(data: Bytes) returns (header: Result<(seq<Section>, nat), Error>)
    ensures header.Success? ==> HasHeader(data, header.value.0, header.value.1)
    ensures header.Failure? ==> forall s, r :: !HasHeader(data, s, r)
  {
    if |data| < 64 || data[0] != 0x4D || data[1] != 0x5A { return Failure(NotPe); }
    header := ReadHeaderAt(data, Unsigned(data, 0x3C, 4).value);
  }

  method ReadHeaderAt(data: Bytes, pe: nat) returns (header: Result<(seq<Section>, nat), Error>)
    requires |data| >= 64 && data[0] == 0x4D && data[1] == 0x5A && Unsigned(data, 0x3C, 4) == Some(pe)
    ensures header.Success? ==> HeaderAt(data, pe, header.value.0, header.value.1)
    ensures header.Failure? ==> forall s, r :: !HeaderAt(data, pe, s, r)
  {
    if pe + 4 > |data| || data[pe..pe + 4] != PE_MAGIC { return Failure(MissingHeader); }
    var count := Unsigned(data, pe + 6, 2);
    var optionalSize := Unsigned(data, pe + 20, 2);
    if count.None? || optionalSize.None? { return Failure(Truncated); }
    var optional := pe + 24;
    var magic := Unsigned(data, optional, 2);
    if magic.None? { return Failure(Truncated); }
    if magic.value != 0x20B { return Failure(Not64Bit); }
    var importRva := Unsigned(data, optional + 120, 4);
    if importRva.None? { return Failure(Truncated); }
    var sections := ReadSections(data, optional + optionalSize.value, count.value);
    if sections.Failure? { return Failure(sections.error); }
    return Success((sections.value, importRva.value));
  }

  /** The names the image imports, in lower case; it fails exactly on the images that have no import list. */
  method PeImports(data: Bytes) returns (imports: Result<set<string>, Error>, ghost names: seq<Bytes>)
    ensures imports.Success? ==>
              && ImportsOf(data, names) && (forall n :: n in names ==> Ascii(n)) && imports.value == Lowered(names)
              && AllSpelled(imports.value, names)
    ensures imports.Success? ==> forall text, c :: text in imports.value && c in text ==> !('A' <= c <= 'Z')
    ensures imports.Failure? ==> forall n :: !ImportsOf(data, n)
  {
    names := [];
    var header := ReadHeader(data);
    if header.Failure? { return Failure(header.error), []; }
    var (sections, importRva) := header.value;
    forall s, r | HasHeader(data, s, r)
      ensures s == sections && r == importRva
    {
      HasHeaderUnique(data, s, r, sections, importRva);
    }
    if importRva == 0 {
      assert Imports(data, sections, importRva, []);
      LoweredExact([]);
      return Success({}), [];
    }
    var descriptor := FindOffset(sections, importRva);
    if descriptor.Failure? { return Failure(descriptor.error), []; }
    imports, names := ReadTable(data, sections, descriptor.value);
    if imports.Success? {
      assert Imports(data, sections, importRva, names);
      NoCapitals(imports.value, names);
    }
  }

  // ---------------------------------------------------------------- images as the loader sees them

  /** A descriptor's five fields, of which only the name's address matters here, and the name itself. */
  datatype Import = Import(lookup: nat, stamp: nat, forwarder: nat, nameRva: nat, thunk: nat, name: Bytes)

  ghost predicate Fits(i: Import) {
    && i.lookup < 0x1_0000_0000 && i.stamp < 0x1_0000_0000 && i.forwarder < 0x1_0000_0000
    && 0 < i.nameRva < 0x1_0000_0000 && i.thunk < 0x1_0000_0000
    && |i.name| <= MAX_NAME && forall k :: 0 <= k < |i.name| ==> 0 < i.name[k] < 128
  }

  function Descriptor(i: Import): (r: Bytes)
    ensures |r| == 20
  {
    Packed(i.lookup, 4) + Packed(i.stamp, 4) + Packed(i.forwarder, 4) + Packed(i.nameRva, 4) + Packed(i.thunk, 4)
  }

  /** The descriptors and the zero descriptor that ends them. */
  function Table(imports: seq<Import>): Bytes {
    if imports == [] then ZEROS else Descriptor(imports[0]) + Table(imports[1..])
  }

  /** Some section maps these bytes at this address, wholly from the file. */
  ghost predicate Mapped(data: Bytes, sections: seq<Section>, rva: nat, bytes: Bytes) {
    exists i :: 0 <= i < |sections| && MappedBy(data, sections[i], rva, bytes)
  }

  ghost predicate MappedBy(data: Bytes, s: Section, rva: nat, bytes: Bytes) {
    && s.virtualAddress <= rva && rva + |bytes| <= s.virtualAddress + s.size
    && var at := s.rawOffset + rva - s.virtualAddress;
       at + |bytes| <= |data| && data[at..at + |bytes|] == bytes
  }

  ghost predicate Disjoint(sections: seq<Section>) {
    forall i, j, rva ::
      0 <= i < |sections| && 0 <= j < |sections| && Contains(sections[i], rva) && Contains(sections[j], rva) ==> i == j
  }

  /** A PE32+ image of disjoint sections whose import table and names the loader finds at their addresses. */
  ghost predicate LaidOut(data: Bytes, sections: seq<Section>, importRva: nat, imports: seq<Import>) {
    && HasHeader(data, sections, importRva) && Disjoint(sections) && importRva > 0
    && Mapped(data, sections, importRva, Table(imports))
    && forall k :: 0 <= k < |imports| ==>
         Fits(imports[k]) && Mapped(data, sections, imports[k].nameRva, imports[k].name + [0])
  }

  ghost function Names(imports: seq<Import>): (names: seq<Bytes>)
    ensures |names| == |imports|
  {
    seq(|imports|, k requires 0 <= k < |imports| => imports[k].name)
  }

  lemma {:induction false} FirstSection(sections: seq<Section>, rva: nat, i: nat)
    requires i < |sections| && Contains(sections[i], rva)
    requires forall j :: 0 <= j < i ==> !Contains(sections[j], rva)
    ensures FileOffset(sections, rva) == Some(sections[i].rawOffset + rva - sections[i].virtualAddress)
  {
    if i > 0 {
      assert !Contains(sections[0], rva);
      FirstSection(sections[1..], rva, i - 1);
    }
  }

  /** With disjoint sections, mapped bytes are read from the offset of their address. */
  lemma {:induction false} MappedAtOffset(data: Bytes, sections: seq<Section>, rva: nat, bytes: Bytes)
    requires Disjoint(sections) && bytes != [] && Mapped(data, sections, rva, bytes)
    ensures FileOffset(sections, rva).Some?
    ensures var at := FileOffset(sections, rva).value; at + |bytes| <= |data| && data[at..at + |bytes|] == bytes
  {
    var i :| 0 <= i < |sections| && MappedBy(data, sections[i], rva, bytes);
    assert Contains(sections[i], rva);
    FirstSection(sections, rva, i);
  }

  lemma {:induction false} TableParts(imports: seq<Import>, k: nat)
    requires k <= |imports|
    ensures |Table(imports)| == 20 * |imports| + 20
    ensures Table(imports)[20 * k..20 * k + 20] == if k < |imports| then Descriptor(imports[k]) else ZEROS
    decreases |imports|
  {
    hide Descriptor;
    if imports != [] {
      TableParts(imports[1..], if k == 0 then 0 else k - 1);
      var head, tail := Descriptor(imports[0]), Table(imports[1..]);
      assert Table(imports) == head + tail;
      hide Table;
      if k > 0 {
        assert (head + tail)[20 * k..20 * k + 20] == tail[20 * (k - 1)..20 * (k - 1) + 20];
      }
    }
  }

  lemma DescriptorName(i: Import)
    requires Fits(i)
    ensures LittleEndian(Descriptor(i)[12..16]) == i.nameRva && Descriptor(i) != ZEROS
  {
    PackedWord(i.nameRva);
    assert Descriptor(i)[12..16] == Packed(i.nameRva, 4);
    PackedWord(0);
    assert ZEROS[12..16] == Packed(0, 4);
  }

  lemma EntryRead(data: Bytes, sections: seq<Section>, at: nat, i: Import)
    requires Disjoint(sections) && Fits(i) && Mapped(data, sections, i.nameRva, i.name + [0])
    requires at + 20 <= |data| && data[at..at + 20] == Descriptor(i)
    ensures EntryAt(data, sections, at, i.name)
  {
    hide Descriptor, FileOffset, Packed, LittleEndian;
    DescriptorName(i);
    SliceOfSlice(data, at, 20, 12, 16);
    MappedAtOffset(data, sections, i.nameRva, i.name + [0]);
    NameStands(data, FileOffset(sections, i.nameRva).value, i.name);
  }

  lemma NameStands(data: Bytes, at: nat, name: Bytes)
    requires Stands(data, at, name + [0]) && |name| <= MAX_NAME && forall i :: 0 <= i < |name| ==> 0 < name[i] < 128
    ensures NameAt(data, at, name)
  {
    StandsInside(data, at, name + [0], 0, |name|);
    assert (name + [0])[0..|name|] == name;
    StandsInside(data, at, name + [0], |name|, |name| + 1);
    assert data[at + |name|..at + |name| + 1][0] == 0;
  }

  /**
   The import list of such an image is the list of its names, when there are at most 4095 of them; a
   larger table has none.
   */
  lemma LaidOutImports(data: Bytes, sections: seq<Section>, importRva: nat, imports: seq<Import>)
    requires LaidOut(data, sections, importRva, imports)
    ensures |imports| < MAX_DESCRIPTORS ==> forall names :: ImportsOf(data, names) <==> names == Names(imports)
    ensures |imports| >= MAX_DESCRIPTORS ==> forall names :: !ImportsOf(data, names)
  {
    TableParts(imports, |imports|);
    MappedAtOffset(data, sections, importRva, Table(imports));
    TableRead(data, sections, FileOffset(sections, importRva).value, imports);
    OnlyTable(data, sections, importRva, Names(imports));
  }

  lemma TableRead(data: Bytes, sections: seq<Section>, at: nat, imports: seq<Import>)
    requires Disjoint(sections)
    requires forall k :: 0 <= k < |imports| ==>
               Fits(imports[k]) && Mapped(data, sections, imports[k].nameRva, imports[k].name + [0])
    requires at + |Table(imports)| <= |data| && data[at..at + |Table(imports)|] == Table(imports)
    ensures TableAt(data, sections, at, Names(imports))
  {
    hide Table, Descriptor, Mapped, Fits, EntryAt, FileOffset, Disjoint;
    forall k | 0 <= k < |imports|
      ensures EntryAt(data, sections, at + 20 * k, Names(imports)[k])
    {
      RowRead(data, at, imports, k);
      EntryRead(data, sections, at + 20 * k, imports[k]);
    }
    RowRead(data, at, imports, |imports|);
  }

  lemma RowRead(data: Bytes, at: nat, imports: seq<Import>, k: nat)
    requires at + |Table(imports)| <= |data| && data[at..at + |Table(imports)|] == Table(imports) && k <= |imports|
    ensures at + 20 * k + 20 <= |data|
    ensures data[at + 20 * k..at + 20 * k + 20] == if k < |imports| then Descriptor(imports[k]) else ZEROS
  {
    hide Descriptor;
    TableParts(imports, k);
    hide Table;
    SliceOfSlice(data, at, |Table(imports)|, 20 * k, 20 * k + 20);
  }

  lemma OnlyTable(data: Bytes, sections: seq<Section>, importRva: nat, names: seq<Bytes>)
    requires HasHeader(data, sections, importRva) && importRva > 0 && FileOffset(sections, importRva).Some?
    requires TableAt(data, sections, FileOffset(sections, importRva).value, names)
    ensures forall n :: ImportsOf(data, n) <==> |names| < MAX_DESCRIPTORS && n == names
  {
    if |names| < MAX_DESCRIPTORS {
      assert Imports(data, sections, importRva, names);
    }
    forall n | ImportsOf(data, n)
      ensures |names| < MAX_DESCRIPTORS && n == names
    {
      var s, r :| HasHeader(data, s, r) && Imports(data, s, r, n);
      HasHeaderUnique(data, s, r, sections, importRva);
      TableUnique(data, sections, FileOffset(sections, importRva).value, n, names);
    }
  }

  /** Reading a laid-out image returns exactly its names in lower case. */
  method ReadLaidOut(data: Bytes, ghost sections: seq<Section>, ghost importRva: nat, ghost imports: seq<Import>)
    returns (found: Result<set<string>, Error>)
    requires LaidOut(data, sections, importRva, imports)
    ensures found.Success? <==> |imports| < MAX_DESCRIPTORS
    ensures found.Success? ==>
              && (forall i :: i in imports ==> Ascii(i.name))
              && found.value == set i | i in imports :: Lower(i.name)
    ensures found.Success? ==> AllSpelled(found.value, Names(imports))
  {
    LaidOutImports(data, sections, importRva, imports);
    assert |imports| < MAX_DESCRIPTORS ==> ImportsOf(data, Names(imports));
    ghost var names;
    found, names := PeImports(data);
    if found.Success? {
      forall i | i in imports
        ensures Ascii(i.name)
      {
        var k :| 0 <= k < |imports| && imports[k] == i;
        assert Fits(imports[k]);
      }
      LoweredNames(imports);
    }
  }

  lemma LoweredNames(imports: seq<Import>)
    requires forall i :: i in imports ==> Ascii(i.name)
    ensures forall n :: n in Names(imports) ==> Ascii(n)
    ensures Lowered(Names(imports)) == set i | i in imports :: Lower(i.name)
  {
    var names := Names(imports);
    forall i | i in imports
      ensures i.name in names
    {
      var k :| 0 <= k < |imports| && imports[k] == i;
      assert names[k] == i.name;
    }
    forall n | n in names
      ensures exists i :: i in imports && i.name == n
    {
      var k :| 0 <= k < |names| && names[k] == n;
      assert imports[k] in imports && imports[k].name == n;
    }
  }
}
