/**
 A writer of PE32+ images, as the Microsoft PE Format lays them out ("MS-DOS Stub", "COFF File Header",
 "Optional Header", "Section Table", "Import Directory Table"): headers for any sections, and whole images
 of one section that imports any names.
 */
module PeImage {
  import opened Binary
  import opened Sequences
  import opened Wrappers
  import opened PeImports

  /** A section header's own fields. */
  datatype SectionHeader = SectionHeader(virtualSize: nat, virtualAddress: nat, rawSize: nat, rawOffset: nat)

  predicate Word(value: nat) {
    value < 0x1_0000_0000
  }

  predicate Writable(s: SectionHeader) {
    Word(s.virtualSize) && Word(s.virtualAddress) && Word(s.rawSize) && Word(s.rawOffset)
  }

  function Zeros(n: nat): (r: Bytes)
    ensures |r| == n
  {
    seq(n, _ => 0)
  }

  function SectionBytes(s: SectionHeader): (r: Bytes)
    ensures |r| == 40
  {
    Zeros(8) + Packed(s.virtualSize, 4) + Packed(s.virtualAddress, 4) + Packed(s.rawSize, 4) + Packed(s.rawOffset, 4)
    + Zeros(16)
  }

  function Dos(): (r: Bytes)
    ensures |r| == 64
  {
    [0x4D, 0x5A] + Zeros(58) + Packed(64, 4)
  }

  function Coff(sectionCount: nat): (r: Bytes)
    ensures |r| == 20
  {
    Zeros(2) + Packed(sectionCount, 2) + Zeros(12) + Packed(240, 2) + Zeros(2)
  }

  function Optional(importRva: nat): (r: Bytes)
    ensures |r| == 240
  {
    Packed(0x20B, 2) + Zeros(118) + Packed(importRva, 4) + Zeros(116)
  }

  function Header(sections: seq<SectionHeader>, importRva: nat): Bytes {
    Dos() + PE_MAGIC + Coff(|sections|) + Optional(importRva) + FlatMap(SectionBytes, sections)
  }

  /** What the loader makes of a section header. */
  function Loaded(s: SectionHeader): Section {
    Section(s.virtualAddress, if s.virtualSize < s.rawSize then s.rawSize else s.virtualSize, s.rawOffset)
  }

  lemma {:induction false} SectionsStand(data: Bytes, at: nat, sections: seq<SectionHeader>)
    requires Stands(data, at, FlatMap(SectionBytes, sections)) && forall s :: s in sections ==> Writable(s)
    ensures SectionsAt(data, at, Map(Loaded, sections))
    decreases |sections|
  {
    if sections != [] {
      StandsFirst(data, at, SectionBytes, sections);
      SectionStands(data, at, sections[0]);
      SectionsStand(data, at + 40, sections[1..]);
      forall i | 0 <= i < |sections|
        ensures SectionAt(data, at + i * 40, Map(Loaded, sections)[i])
      {
        if i > 0 {
          assert Map(Loaded, sections)[i] == Map(Loaded, sections[1..])[i - 1];
          assert SectionAt(data, at + 40 + (i - 1) * 40, Map(Loaded, sections[1..])[i - 1]);
        }
      }
    }
  }

  lemma SectionStands(data: Bytes, at: nat, s: SectionHeader)
    requires Stands(data, at, SectionBytes(s)) && Writable(s)
    ensures SectionAt(data, at, Loaded(s))
  {
    var b := SectionBytes(s);
    StandsInside(data, at, b, 8, 12);
    StandsInside(data, at, b, 12, 16);
    StandsInside(data, at, b, 16, 20);
    StandsInside(data, at, b, 20, 24);
    assert b[8..12] == Packed(s.virtualSize, 4) && b[12..16] == Packed(s.virtualAddress, 4);
    assert b[16..20] == Packed(s.rawSize, 4) && b[20..24] == Packed(s.rawOffset, 4);
    PackedWord(s.virtualSize);
    PackedWord(s.virtualAddress);
    PackedWord(s.rawSize);
    PackedWord(s.rawOffset);
  }

  lemma PartsStand(a: Bytes, b: Bytes, c: Bytes, d: Bytes, e: Bytes, rest: Bytes)
    ensures var data := a + b + c + d + e + rest;
            && a <= data && Stands(data, |a|, b) && Stands(data, |a| + |b|, c) && Stands(data, |a| + |b| + |c|, d)
            && Stands(data, |a| + |b| + |c| + |d|, e)
  {
  }

  /** The reader finds in a written header the sections and the import address it was written for. */
  lemma HeaderRead(sections: seq<SectionHeader>, importRva: nat, rest: Bytes)
    requires |sections| < 0x1_0000 && Word(importRva) && forall s :: s in sections ==> Writable(s)
    ensures HasHeader(Header(sections, importRva) + rest, Map(Loaded, sections), importRva)
  {
    hide Dos, Coff, Optional, SectionBytes, OptionalHeader, FlatMap, SectionsAt;
    var data := Header(sections, importRva) + rest;
    PartsStand(Dos(), PE_MAGIC, Coff(|sections|), Optional(importRva), FlatMap(SectionBytes, sections), rest);
    DosRead(data);
    CoffRead(data, 68, |sections|);
    OptionalRead(data, 88, importRva);
    SectionsStand(data, 328, sections);
    assert HeaderAt(data, 64, Map(Loaded, sections), importRva);
  }

  lemma DosRead(data: Bytes)
    requires Dos() <= data
    ensures data[0] == 0x4D && data[1] == 0x5A && Unsigned(data, 0x3C, 4) == Some(64)
  {
    assert Dos()[0] == 0x4D && Dos()[1] == 0x5A;
    assert data[60..64] == Dos()[60..64] == Packed(64, 4);
    PackedWord(64);
  }

  lemma CoffRead(data: Bytes, at: nat, count: nat)
    requires Stands(data, at, Coff(count)) && count < 0x1_0000
    ensures Unsigned(data, at + 2, 2) == Some(count) && Unsigned(data, at + 16, 2) == Some(240)
  {
    StandsInside(data, at, Coff(count), 2, 4);
    StandsInside(data, at, Coff(count), 16, 18);
    assert Coff(count)[2..4] == Packed(count, 2) && Coff(count)[16..18] == Packed(240, 2);
    PackedHalf(count);
    PackedHalf(240);
  }

  lemma OptionalRead(data: Bytes, at: nat, importRva: nat)
    requires Stands(data, at, Optional(importRva)) && Word(importRva)
    ensures OptionalHeader(data, at, importRva)
  {
    StandsInside(data, at, Optional(importRva), 0, 2);
    StandsInside(data, at, Optional(importRva), 120, 124);
    assert Optional(importRva)[0..2] == Packed(0x20B, 2) && Optional(importRva)[120..124] == Packed(importRva, 4);
    PackedHalf(0x20B);
    PackedWord(importRva);
  }

  // ---------------------------------------------------------------- whole images

  const IMAGE_ADDRESS := 0x1000
  const IMAGE_OFFSET := 368

  predicate Importable(name: Bytes) {
    |name| <= 1023 && forall i :: 0 <= i < |name| ==> 0 < name[i] < 128
  }

  function Terminated(name: Bytes): Bytes {
    name + [0]
  }

  /** The names, each with its NUL, one after the other. */
  function NameBytes(names: seq<Bytes>): Bytes {
    FlatMap(Terminated, names)
  }

  /** The section's only contents: the import table, then the names. */
  function Content(names: seq<Bytes>): Bytes {
    Table(ImportsFor(names)) + NameBytes(names)
  }

  function NameAddress(names: seq<Bytes>, k: nat): nat
    requires k < |names|
  {
    IMAGE_ADDRESS + 20 * |names| + 20 + |NameBytes(names[..k])|
  }

  function ImportsFor(names: seq<Bytes>): (imports: seq<Import>)
    ensures |imports| == |names|
  {
    seq(|names|, k requires 0 <= k < |names| => Import(0, 0, 0, NameAddress(names, k), 0, names[k]))
  }

  function ImageSection(names: seq<Bytes>): SectionHeader {
    SectionHeader(|Content(names)|, IMAGE_ADDRESS, |Content(names)|, IMAGE_OFFSET)
  }

  /** An image with one section that imports the names. */
  function Image(names: seq<Bytes>): Bytes {
    Header([ImageSection(names)], IMAGE_ADDRESS) + Content(names)
  }

  lemma HeaderLength(section: SectionHeader)
    ensures |Header([section], IMAGE_ADDRESS)| == IMAGE_OFFSET
  {
    FlatMapOne(SectionBytes, section);
  }

  lemma {:induction false} TableLength(imports: seq<Import>)
    ensures |Table(imports)| == 20 * |imports| + 20
  {
    if imports != [] {
      TableLength(imports[1..]);
    }
  }

  lemma NamePlace(names: seq<Bytes>, k: nat)
    requires k < |names|
    ensures Stands(NameBytes(names), |NameBytes(names[..k])|, Terminated(names[k]))
  {
    var before, after := names[..k], names[k + 1..];
    assert names == before + [names[k]] + after;
    FlatMapAppend(Terminated, before + [names[k]], after);
    FlatMapAppend(Terminated, before, [names[k]]);
    FlatMapOne(Terminated, names[k]);
    StandsAfter(NameBytes(before), Terminated(names[k]), NameBytes(after));
  }

  lemma ContentPlaces(names: seq<Bytes>, k: nat)
    requires k < |names|
    ensures NameAddress(names, k) >= IMAGE_ADDRESS
    ensures Stands(Content(names), NameAddress(names, k) - IMAGE_ADDRESS, Terminated(names[k]))
  {
    hide Table, NameBytes, ImportsFor;
    var table, bytes := Table(ImportsFor(names)), NameBytes(names);
    TableLength(ImportsFor(names));
    NamePlace(names, k);
    assert Content(names) == table + bytes + [];
    StandsAfter(table, bytes, []);
    StandsWithin(Content(names), |table|, bytes, |NameBytes(names[..k])|, Terminated(names[k]));
  }

  /** What stands in the section's contents is mapped at its address. */
  lemma ContentMapped(names: seq<Bytes>, offset: nat, part: Bytes)
    requires Stands(Content(names), offset, part)
    ensures Mapped(Image(names), [Loaded(ImageSection(names))], IMAGE_ADDRESS + offset, part)
  {
    hide Content, Header;
    var header, section := Header([ImageSection(names)], IMAGE_ADDRESS), Loaded(ImageSection(names));
    HeaderLength(ImageSection(names));
    assert Image(names) == header + Content(names) + [];
    StandsAfter(header, Content(names), []);
    StandsWithin(Image(names), IMAGE_OFFSET, Content(names), offset, part);
    assert [section][0] == section && MappedBy(Image(names), section, IMAGE_ADDRESS + offset, part);
  }

  /** Every list of names short enough for the widths of the header is laid out by some image. */
  lemma ImageLaidOut(names: seq<Bytes>)
    requires IMAGE_ADDRESS + |Content(names)| < 0x1_0000_0000 && forall n :: n in names ==> Importable(n)
    ensures LaidOut(Image(names), [Loaded(ImageSection(names))], IMAGE_ADDRESS, ImportsFor(names))
  {
    hide Content, Header, HasHeader, Mapped, Table;
    var sections, imports := [ImageSection(names)], ImportsFor(names);
    HeaderRead(sections, IMAGE_ADDRESS, Content(names));
    assert Map(Loaded, sections) == [Loaded(sections[0])];
    TablePlace(names);
    ContentMapped(names, 0, Table(imports));
    forall k | 0 <= k < |imports|
      ensures Fits(imports[k])
      ensures Mapped(Image(names), [Loaded(sections[0])], imports[k].nameRva, imports[k].name + [0])
    {
      assert names[k] in names;
      ContentPlaces(names, k);
      ContentMapped(names, NameAddress(names, k) - IMAGE_ADDRESS, Terminated(names[k]));
    }
  }

  lemma TablePlace(names: seq<Bytes>)
    ensures Stands(Content(names), 0, Table(ImportsFor(names)))
  {
    var table := Table(ImportsFor(names));
    assert Content(names)[0..|table|] == table;
  }

  /** Reading a written image gives back exactly its names in lower case, up to the bound of the table. */
  method ReadWritten(names: seq<Bytes>) returns (found: Result<set<string>, Error>)
    requires IMAGE_ADDRESS + |Content(names)| < 0x1_0000_0000 && forall n :: n in names ==> Importable(n)
    ensures found.Success? <==> |names| < 4096
    ensures found.Success? ==> AllSpelled(found.value, names)
    ensures found.Success? ==>
              (forall n :: n in names ==> Ascii(n)) && found.value == set n | n in names :: Lower(n)
  {
    hide Image, LaidOut, Content;
    ImageLaidOut(names);
    found := ReadLaidOut(Image(names), [Loaded(ImageSection(names))], IMAGE_ADDRESS, ImportsFor(names));
    if found.Success? {
      SameLowered(names);
      assert Names(ImportsFor(names)) == names;
    }
  }

  lemma SameLowered(names: seq<Bytes>)
    requires forall n :: n in names ==> Ascii(n)
    ensures forall i :: i in ImportsFor(names) ==> Ascii(i.name)
    ensures (set i | i in ImportsFor(names) :: Lower(i.name)) == set n | n in names :: Lower(n)
  {
    var imports := ImportsFor(names);
    forall n | n in names
      ensures exists i :: i in imports && i.name == n
    {
      var k :| 0 <= k < |names| && names[k] == n;
      assert imports[k] in imports && imports[k].name == n;
    }
  }
}
