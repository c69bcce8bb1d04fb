/**
 * Section and segment layout of the emitted ELF file ("Sections" in chapter 4 and "Program Header" in
 * chapter 5 of the System V gABI): separate cursors for file offsets and addresses.
 */
module ElfLayout {
  import opened Arith
  import opened Words
  import opened SafeMap

  // ---------------------------------------------------------------- sections

  datatype Section = Section(name: string, nobits: bool, alloc: bool, align: nat, size: nat)

  /** `sh_offset` and `sh_addr`; each stays 0 for a section without file content or without memory. */
  datatype Header = Header(offset: nat, addr: nat)

  datatype Cursor = Cursor(file: nat, load: nat, headers: seq<Header>)

  function Alignment(s: Section): (n: nat)
    ensures n > 0
  {
    if s.align > 0 then s.align else 1
  }

  function Place(c: Cursor, s: Section): Cursor {
    var offset := if s.nobits then 0 else RoundUp(c.file, Alignment(s));
    var addr := if s.alloc then RoundUp(c.load, Alignment(s)) else 0;
    Cursor(if s.nobits then c.file else offset + s.size, if s.alloc then addr + s.size else c.load,
           c.headers + [Header(offset, addr)])
  }

  function LayoutUpTo(start: nat, sections: seq<Section>, k: nat): (c: Cursor)
    requires k <= |sections|
    ensures |c.headers| == k
  {
    if k == 0 then Cursor(start, start, []) else Place(LayoutUpTo(start, sections, k - 1), sections[k - 1])
  }

  /** The layout loop, with its two running offsets. */
  method LayOut(start: nat, sections: seq<Section>) returns (headers: seq<Header>, fileEnd: nat)
    ensures Cursor(fileEnd, LayoutUpTo(start, sections, |sections|).load, headers) ==
              LayoutUpTo(start, sections, |sections|)
  {
    hide RoundUp;
    var fileOffset: nat, loadAddress: nat := start, start;
    headers := [];
    for i := 0 to |sections|
      invariant Cursor(fileOffset, loadAddress, headers) == LayoutUpTo(start, sections, i)
    {
      var section := sections[i];
      var alignment := if section.align > 0 then section.align else 1;
      var offset, addr := 0, 0;
      if !section.nobits {
        offset := RoundUp(fileOffset, alignment);
        fileOffset := offset + section.size;
      }
      if section.alloc {
        addr := RoundUp(loadAddress, alignment);
        loadAddress := addr + section.size;
      }
      headers := headers + [Header(offset, addr)];
    }
    fileEnd := fileOffset;
  }

  /** The header of section `i`, whatever follows it. */
  function HeaderOf(start: nat, sections: seq<Section>, i: nat): Header
    requires i < |sections|
  {
    LayoutUpTo(start, sections, i + 1).headers[i]
  }

  lemma {:induction false} HeadersStay(start: nat, sections: seq<Section>, k: nat, i: nat)
    requires i < k <= |sections|
    ensures LayoutUpTo(start, sections, k).headers[i] == HeaderOf(start, sections, i)
    decreases k
  {
    hide RoundUp;
    if i + 1 < k {
      HeadersStay(start, sections, k - 1, i);
    }
  }

  /** What placing one section does to both cursors. */
  lemma PlacedAt(start: nat, sections: seq<Section>, i: nat)
    requires i < |sections|
    ensures var s, hdr := sections[i], HeaderOf(start, sections, i);
            var c, d := LayoutUpTo(start, sections, i), LayoutUpTo(start, sections, i + 1);
            (if s.nobits then hdr.offset == 0 && d.file == c.file
             else hdr.offset == RoundUp(c.file, Alignment(s)) && d.file == hdr.offset + s.size) &&
            (if s.alloc then hdr.addr == RoundUp(c.load, Alignment(s)) && d.load == hdr.addr + s.size
             else hdr.addr == 0 && d.load == c.load)
  {
    hide RoundUp;
  }

  lemma {:induction false} CursorsAdvance(start: nat, sections: seq<Section>, i: nat, j: nat)
    requires i <= j <= |sections|
    ensures LayoutUpTo(start, sections, i).file <= LayoutUpTo(start, sections, j).file
    ensures LayoutUpTo(start, sections, i).load <= LayoutUpTo(start, sections, j).load
    decreases j
  {
    hide RoundUp, LayoutUpTo;
    if i < j {
      CursorsAdvance(start, sections, i, j - 1);
      PlacedAt(start, sections, j - 1);
      RoundUpIsLeast(LayoutUpTo(start, sections, j - 1).file, Alignment(sections[j - 1]));
      RoundUpIsLeast(LayoutUpTo(start, sections, j - 1).load, Alignment(sections[j - 1]));
    }
  }

  /** Most room the first `k` sections can take. */
  function Room(sections: seq<Section>, k: nat): nat
    requires k <= |sections|
  {
    if k == 0 then 0 else Room(sections, k - 1) + Alignment(sections[k - 1]) + sections[k - 1].size
  }

  lemma {:induction false} LoadAtMost(start: nat, sections: seq<Section>, k: nat)
    requires k <= |sections|
    ensures LayoutUpTo(start, sections, k).load <= start + Room(sections, k)
  {
    hide RoundUp, LayoutUpTo, HeaderOf;
    if k == 0 {
      StartOf(start, sections);
    } else {
      LoadAtMost(start, sections, k - 1);
      PlacedAt(start, sections, k - 1);
      RoundUpIsLeast(LayoutUpTo(start, sections, k - 1).load, Alignment(sections[k - 1]));
    }
  }

  /** File ranges are aligned, lie after the reserved headers and ascend without overlap. */
  lemma FileRange(start: nat, sections: seq<Section>, i: nat, j: nat)
    requires i < j <= |sections| && !sections[i].nobits
    ensures var hdr := HeaderOf(start, sections, i);
            start <= hdr.offset && hdr.offset % Alignment(sections[i]) == 0 &&
            LayoutUpTo(start, sections, i).file <= hdr.offset &&
            hdr.offset + sections[i].size <= LayoutUpTo(start, sections, j).file &&
            (j < |sections| && !sections[j].nobits ==>
               hdr.offset + sections[i].size <= HeaderOf(start, sections, j).offset)
  {
    hide RoundUp, LayoutUpTo, HeaderOf;
    PlacedAt(start, sections, i);
    CursorsAdvance(start, sections, 0, i);
    CursorsAdvance(start, sections, i + 1, j);
    StartOf(start, sections);
    RoundUpIsLeast(LayoutUpTo(start, sections, i).file, Alignment(sections[i]));
    if j < |sections| {
      PlacedAt(start, sections, j);
      RoundUpIsLeast(LayoutUpTo(start, sections, j).file, Alignment(sections[j]));
    }
  }

  /** The same for memory. */
  lemma LoadRange(start: nat, sections: seq<Section>, i: nat, j: nat)
    requires i < j <= |sections| && sections[i].alloc
    ensures var hdr := HeaderOf(start, sections, i);
            start <= hdr.addr && hdr.addr % Alignment(sections[i]) == 0 &&
            LayoutUpTo(start, sections, i).load <= hdr.addr &&
            hdr.addr + sections[i].size <= LayoutUpTo(start, sections, j).load &&
            (j < |sections| && sections[j].alloc ==> hdr.addr + sections[i].size <= HeaderOf(start, sections, j).addr)
  {
    hide RoundUp, LayoutUpTo, HeaderOf;
    PlacedAt(start, sections, i);
    CursorsAdvance(start, sections, 0, i);
    CursorsAdvance(start, sections, i + 1, j);
    StartOf(start, sections);
    RoundUpIsLeast(LayoutUpTo(start, sections, i).load, Alignment(sections[i]));
    if j < |sections| {
      PlacedAt(start, sections, j);
      RoundUpIsLeast(LayoutUpTo(start, sections, j).load, Alignment(sections[j]));
    }
  }

  lemma StartOf(start: nat, sections: seq<Section>)
    ensures LayoutUpTo(start, sections, 0) == Cursor(start, start, [])
  {
  }

  /** While every section takes both file and memory, addresses equal file offsets. */
  lemma {:induction false} AddressesAreOffsets(start: nat, sections: seq<Section>, k: nat)
    requires k <= |sections| && forall i :: 0 <= i < k ==> sections[i].alloc && !sections[i].nobits
    ensures LayoutUpTo(start, sections, k).file == LayoutUpTo(start, sections, k).load
    ensures forall i :: 0 <= i < k ==> HeaderOf(start, sections, i).addr == HeaderOf(start, sections, i).offset
  {
    hide RoundUp, LayoutUpTo, HeaderOf;
    if k == 0 {
      StartOf(start, sections);
    } else {
      AddressesAreOffsets(start, sections, k - 1);
      PlacedAt(start, sections, k - 1);
    }
  }

  // ---------------------------------------------------------------- writing

  /** Writes at the cursor; a seek past the end leaves a hole of zeros. */
  function SeekAndWrite(file: seq<uint8>, offset: nat, data: seq<uint8>): seq<uint8>
    requires |file| <= offset
  {
    file + Zeros(offset - |file|) + data
  }

  /** Section contents are as long as their sections say. */
  predicate Sized(sections: seq<Section>, contents: seq<seq<uint8>>) {
    |contents| == |sections| && forall i :: 0 <= i < |sections| ==> |contents[i]| == sections[i].size
  }

  /** Every section with file content can be read back at its offset. */
  predicate ReadsBack(file: seq<uint8>, start: nat, sections: seq<Section>, contents: seq<seq<uint8>>, k: nat)
    requires k <= |sections| && Sized(sections, contents)
  {
    forall i :: 0 <= i < k && !sections[i].nobits ==> ReadsAs(file, HeaderOf(start, sections, i).offset, contents[i])
  }

  /** Where the section header table goes: behind all sections, aligned to a word of `align` bytes. */
  function HeadersAt(start: nat, sections: seq<Section>, align: nat): (offset: nat)
    requires align > 0
  {
    RoundUp(LayoutUpTo(start, sections, |sections|).file, align)
  }

  /**
   * Writes the sections in order, then the section header table; every seek goes forward and no byte
   * is written twice.
   */
  method WriteSections(prefix: seq<uint8>, start: nat, sections: seq<Section>, contents: seq<seq<uint8>>, align: nat,
                       headers: seq<uint8>) returns (file: seq<uint8>)
    requires Sized(sections, contents) && |prefix| <= start && align > 0
    ensures prefix <= file && |file| == HeadersAt(start, sections, align) + |headers|
    ensures ReadsBack(file, start, sections, contents, |sections|)
    ensures ReadsAs(file, HeadersAt(start, sections, align), headers)
  {
    hide LayoutUpTo, HeaderOf, ReadsAs, SeekAndWrite, RoundUp;
    file := prefix;
    StartOf(start, sections);
    for i := 0 to |sections|
      invariant prefix <= file && |file| <= LayoutUpTo(start, sections, i).file
      invariant ReadsBack(file, start, sections, contents, i)
    {
      PlacedAt(start, sections, i);
      if !sections[i].nobits {
        var offset := HeaderOf(start, sections, i).offset;
        FileRange(start, sections, i, i + 1);
        assert |file| <= offset;
        AppendKeeps(file, offset, contents[i]);
        file := SeekAndWrite(file, offset, contents[i]);
      }
    }
    var offset := HeadersAt(start, sections, align);
    RoundUpIsLeast(LayoutUpTo(start, sections, |sections|).file, align);
    assert |file| <= offset;
    AppendKeeps(file, offset, headers);
    file := SeekAndWrite(file, offset, headers);
  }

  lemma AppendKeeps(file: seq<uint8>, offset: nat, data: seq<uint8>)
    requires |file| <= offset
    ensures var r := SeekAndWrite(file, offset, data);
            file <= r && |r| == offset + |data| && ReadsAs(r, offset, data) &&
            forall at: nat, d: seq<uint8> :: ReadsAs(file, at, d) ==> ReadsAs(r, at, d)
  {
    hide ReadsAs;
    var r := SeekAndWrite(file, offset, data);
    forall at: nat, d: seq<uint8> | ReadsAs(file, at, d) ensures ReadsAs(r, at, d) {
      ReadsAsAfterAppend(file, Zeros(offset - |file|), at, d);
      ReadsAsAfterAppend(file + Zeros(offset - |file|), data, at, d);
    }
    ReadsAsAtEnd(file + Zeros(offset - |file|), data);
  }

  // ---------------------------------------------------------------- the oat file's sections

  const MAX_PROGRAM_HEADERS: nat := 8
  const RODATA: nat := 3
  const TEXT: nat := 4

  datatype Builder = Builder(is64: bool, dynsymSize: nat, dynstrSize: nat, hashSize: nat, rodataSize: nat,
                             textSize: nat, bssSize: nat, dynamicSize: nat, hasSymtab: bool, symtabSize: nat,
                             strtabSize: nat, others: seq<Section>, shstrtabSize: nat)

  function EhdrSize(b: Builder): nat { if b.is64 then 64 else 52 }
  function PhdrSize(b: Builder): nat { if b.is64 then 56 else 32 }
  function OffSize(b: Builder): nat { if b.is64 then 8 else 4 }

  /** Room for the ELF header and the most program headers there can be. */
  function Start(b: Builder): nat {
    EhdrSize(b) + PhdrSize(b) * MAX_PROGRAM_HEADERS
  }

  function Main(b: Builder): (ss: seq<Section>)
    ensures |ss| == 5
  {
    [Section(".dynsym", false, true, OffSize(b), b.dynsymSize),
     Section(".dynstr", false, true, 1, b.dynstrSize),
     Section(".hash", false, true, 4, b.hashSize),
     Section(".rodata", false, true, PAGE_SIZE, b.rodataSize),
     Section(".text", false, true, PAGE_SIZE, b.textSize)]
  }

  function Bss(b: Builder): seq<Section> {
    if b.bssSize != 0 then [Section(".bss", true, true, PAGE_SIZE, b.bssSize)] else []
  }

  function Symbols(b: Builder): seq<Section> {
    if b.hasSymtab then
      [Section(".symtab", false, false, OffSize(b), b.symtabSize), Section(".strtab", false, false, 1, b.strtabSize)]
    else []
  }

  function Sections(b: Builder): seq<Section> {
    Main(b) + Bss(b) + [Section(".dynamic", false, true, PAGE_SIZE, b.dynamicSize)] + Symbols(b) + b.others +
    [Section(".shstrtab", false, false, 1, b.shstrtabSize)]
  }

  function DynamicIndex(b: Builder): nat { 5 + |Bss(b)| }
  function OthersIndex(b: Builder): nat { 6 + |Bss(b)| + |Symbols(b)| }

  lemma SectionAtIndex(b: Builder)
    ensures var ss := Sections(b);
            |ss| == OthersIndex(b) + |b.others| + 1 &&
            (forall i :: 0 <= i < 5 ==> ss[i] == Main(b)[i]) &&
            (b.bssSize != 0 ==> ss[5] == Section(".bss", true, true, PAGE_SIZE, b.bssSize)) &&
            ss[DynamicIndex(b)] == Section(".dynamic", false, true, PAGE_SIZE, b.dynamicSize) &&
            (forall i :: DynamicIndex(b) < i < OthersIndex(b) ==> !ss[i].alloc) &&
            (forall i :: 0 <= i < |b.others| ==> ss[OthersIndex(b) + i] == b.others[i]) &&
            !ss[|ss| - 1].alloc
  {
    hide Main;
  }

  function At(b: Builder, i: nat): Header
    requires i < |Sections(b)|
  {
    HeaderOf(Start(b), Sections(b), i)
  }

  /** Through `.text`, the address of a section is its file offset. */
  lemma SameOffsetsThroughText(b: Builder, i: nat)
    requires i <= TEXT
    ensures i < |Sections(b)| && At(b, i).addr == At(b, i).offset
  {
    hide HeaderOf, LayoutUpTo;
    SectionAtIndex(b);
    hide Sections;
    AddressesAreOffsets(Start(b), Sections(b), 5);
  }

  /** `.text` directly follows `.rodata` exactly when the executable offset is a multiple of the page size. */
  lemma TextFollowsRodataIff(b: Builder)
    ensures |Sections(b)| > TEXT
    ensures At(b, TEXT).offset == At(b, RODATA).offset + b.rodataSize <==> b.rodataSize % PAGE_SIZE == 0
  {
    hide HeaderOf, LayoutUpTo, RoundUp;
    SectionAtIndex(b);
    hide Sections;
    var st, ss := Start(b), Sections(b);
    PlacedAt(st, ss, RODATA);
    PlacedAt(st, ss, TEXT);
    RoundUpIsLeast(LayoutUpTo(st, ss, RODATA).file, PAGE_SIZE);
    RoundUpIsLeast(LayoutUpTo(st, ss, TEXT).file, PAGE_SIZE);
    PageSum(At(b, RODATA).offset, b.rodataSize);
  }

  lemma PageSum(x: nat, y: nat)
    requires x % PAGE_SIZE == 0
    ensures (x + y) % PAGE_SIZE == 0 <==> y % PAGE_SIZE == 0
  {
  }

  /** One space of offsets covers both sections: an offset past the executable offset stays valid in `.text`. */
  lemma OneOffsetSpace(b: Builder, offset: nat)
    requires b.rodataSize % PAGE_SIZE == 0 && b.rodataSize <= offset
    ensures |Sections(b)| > TEXT
    ensures At(b, RODATA).addr + offset == At(b, TEXT).addr + (offset - b.rodataSize)
    ensures At(b, RODATA).offset + offset == At(b, TEXT).offset + (offset - b.rodataSize)
  {
    hide At, Sections;
    TextFollowsRodataIff(b);
    SameOffsetsThroughText(b, RODATA);
    SameOffsetsThroughText(b, TEXT);
  }

  // ---------------------------------------------------------------- program headers

  datatype SegmentKind = PHDR | LOAD | DYNAMIC | EH_FRAME

  datatype Segment = Segment(kind: SegmentKind, write: bool, exec: bool, offset: nat, vaddr: nat, filesz: nat,
                             memsz: nat, align: nat)

  function FromRange(kind: SegmentKind, offset: nat, size: nat, align: nat): Segment {
    Segment(kind, false, false, offset, offset, size, size, align)
  }

  function FromSection(kind: SegmentKind, write: bool, exec: bool, s: Section, hdr: Header): Segment {
    Segment(kind, write, exec, hdr.offset, hdr.addr, if s.nobits then 0 else s.size, s.size, s.align)
  }

  /** The first registered section of that name. */
  function FirstNamed(others: seq<Section>, name: string): (r: Option<nat>)
    ensures r.Some? ==> r.value < |others| && others[r.value].name == name
    ensures r.Some? ==> forall i :: 0 <= i < r.value ==> others[i].name != name
    ensures r.None? ==> forall i :: 0 <= i < |others| ==> others[i].name != name
  {
    if others == [] then None
    else if others[0].name == name then Some(0)
    else match FirstNamed(others[1..], name) case None => None case Some(i) => Some(i + 1)
  }

  method FindSection(others: seq<Section>, name: string) returns (r: Option<nat>)
    ensures r == FirstNamed(others, name)
  {
    var i := 0;
    while i < |others|
      invariant i <= |others|
      invariant FirstNamed(others, name) ==
                  match FirstNamed(others[i..], name) case None => None case Some(k) => Some(i + k)
    {
      if others[i].name == name {
        return Some(i);
      }
      assert others[i..][1..] == others[i + 1..];
      i := i + 1;
    }
    assert others[i..] == [];
    r := None;
  }

  function SegmentOf(b: Builder, kind: SegmentKind, write: bool, exec: bool, i: nat): Segment
    requires i < |Sections(b)|
  {
    FromSection(kind, write, exec, Sections(b)[i], At(b, i))
  }

  /** The unwinding sections share one segment; the header's contents follow the frames. */
  function FrameSegments(b: Builder): seq<Segment> {
    match FirstNamed(b.others, ".eh_frame")
    case None => []
    case Some(i) =>
      SectionAtIndex(b);
      var frames := SegmentOf(b, LOAD, false, false, OthersIndex(b) + i);
      match FirstNamed(b.others, ".eh_frame_hdr")
      case None => [frames]
      case Some(j) =>
        var size := b.others[j].size;
        [frames.(filesz := frames.filesz + size, memsz := frames.memsz + size),
         SegmentOf(b, EH_FRAME, false, false, OthersIndex(b) + j)]
  }

  function BssSegments(b: Builder): seq<Segment> {
    SectionAtIndex(b);
    if b.bssSize != 0 then [SegmentOf(b, LOAD, true, false, 5)] else []
  }

  function ReadOnly(b: Builder): Segment {
    SectionAtIndex(b);
    FromRange(LOAD, 0, At(b, RODATA).offset + b.rodataSize, PAGE_SIZE)
  }

  function Text(b: Builder): Segment {
    SectionAtIndex(b);
    SegmentOf(b, LOAD, false, true, TEXT)
  }

  function Dynamic(b: Builder, kind: SegmentKind): Segment {
    SectionAtIndex(b);
    SegmentOf(b, kind, true, false, DynamicIndex(b))
  }

  /** All program headers after the one that describes the headers themselves. */
  function Described(b: Builder): seq<Segment> {
    [ReadOnly(b), Text(b)] + BssSegments(b) + [Dynamic(b, LOAD), Dynamic(b, DYNAMIC)] + FrameSegments(b)
  }

  function ProgramHeaders(b: Builder): seq<Segment> {
    [FromRange(PHDR, EhdrSize(b), (1 + |Described(b)|) * PhdrSize(b), OffSize(b))] + Described(b)
  }

  /** The headers fit the space reserved for them, whatever was registered. */
  lemma AtMostEightHeaders(b: Builder)
    ensures |ProgramHeaders(b)| <= MAX_PROGRAM_HEADERS
    ensures EhdrSize(b) + |ProgramHeaders(b)| * PhdrSize(b) <= Start(b)
  {
    hide Sections, At, SegmentOf, Main;
    MulLe(|ProgramHeaders(b)|, MAX_PROGRAM_HEADERS, PhdrSize(b));
  }

  function IfLoad(segment: Segment): seq<Segment> {
    if segment.kind.LOAD? then [segment] else []
  }

  /** The loadable segments, in order. */
  function LoadsIn(segments: seq<Segment>): seq<Segment> {
    if segments == [] then [] else IfLoad(segments[0]) + LoadsIn(segments[1..])
  }

  lemma {:induction false} LoadsInConcat(x: seq<Segment>, y: seq<Segment>)
    ensures LoadsIn(x + y) == LoadsIn(x) + LoadsIn(y)
  {
    hide IfLoad;
    if x == [] {
      assert x + y == y;
    } else {
      LoadsInConcat(x[1..], y);
      assert (x + y)[1..] == x[1..] + y;
      Associative(IfLoad(x[0]), LoadsIn(x[1..]), LoadsIn(y));
    }
  }

  lemma Associative(x: seq<Segment>, y: seq<Segment>, z: seq<Segment>)
    ensures x + (y + z) == x + y + z
  {
  }

  lemma LoadsInOne(x: Segment)
    ensures LoadsIn([x]) == IfLoad(x)
  {
    hide IfLoad;
    assert LoadsIn([x]) == IfLoad(x) + LoadsIn([x][1..]);
  }

  lemma LoadsInTwo(x: Segment, y: Segment)
    ensures LoadsIn([x, y]) == IfLoad(x) + IfLoad(y)
  {
    hide LoadsIn, IfLoad;
    assert [x, y] == [x] + [y];
    LoadsInConcat([x], [y]);
    LoadsInOne(x);
    LoadsInOne(y);
  }

  // ---------------------------------------------------------------- what is registered

  /** Either nothing registered takes memory, or the unwinding sections come first and only they do. */
  predicate Registered(others: seq<Section>) {
    if FirstNamed(others, ".eh_frame").None? then forall i :: 0 <= i < |others| ==> !others[i].alloc
    else
      |others| >= 2 && others[0].name == ".eh_frame" && others[1].name == ".eh_frame_hdr" &&
      others[0].align == PAGE_SIZE && others[1].align == 4 &&
      (forall i :: 0 <= i < 2 ==> others[i].alloc && !others[i].nobits) &&
      (forall i :: 2 <= i < |others| ==> !others[i].alloc)
  }

  predicate HasFrames(b: Builder) {
    FirstNamed(b.others, ".eh_frame").Some?
  }

  lemma FramesFound(b: Builder)
    requires Registered(b.others) && HasFrames(b)
    ensures FirstNamed(b.others, ".eh_frame") == Some(0) && FirstNamed(b.others, ".eh_frame_hdr") == Some(1)
  {
    assert b.others[0].name != ".eh_frame_hdr";
    assert b.others[1..][0] == b.others[1];
  }

  function Frames(b: Builder): Header
    requires Registered(b.others) && HasFrames(b)
  {
    SectionAtIndex(b);
    At(b, OthersIndex(b))
  }

  function FrameTable(b: Builder): Header
    requires Registered(b.others) && HasFrames(b)
  {
    SectionAtIndex(b);
    At(b, OthersIndex(b) + 1)
  }

  /** The check that the frame table follows the frames without a gap passes exactly for frames of whole words. */
  lemma FramesContiguousIff(b: Builder)
    requires Registered(b.others) && HasFrames(b)
    ensures FrameTable(b).offset == Frames(b).offset + b.others[0].size <==> b.others[0].size % 4 == 0
    ensures FrameTable(b).addr == Frames(b).addr + b.others[0].size <==> b.others[0].size % 4 == 0
    ensures Frames(b).offset % PAGE_SIZE == 0 && Frames(b).addr % PAGE_SIZE == 0
  {
    SectionAtIndex(b);
    hide HeaderOf, LayoutUpTo, RoundUp, Sections, OthersIndex, FirstNamed;
    var st, ss, k := Start(b), Sections(b), OthersIndex(b);
    assert ss[k] == b.others[0];
    assert ss[k + 1] == b.others[1];
    PlacedAt(st, ss, k);
    PlacedAt(st, ss, k + 1);
    WordAlign(LayoutUpTo(st, ss, k).file, b.others[0].size);
    WordAlign(LayoutUpTo(st, ss, k).load, b.others[0].size);
  }

  lemma WordAlign(x: nat, size: nat)
    ensures RoundUp(x, PAGE_SIZE) % PAGE_SIZE == 0
    ensures RoundUp(RoundUp(x, PAGE_SIZE) + size, 4) == RoundUp(x, PAGE_SIZE) + size <==> size % 4 == 0
  {
    hide RoundUp;
    RoundUpIsLeast(x, PAGE_SIZE);
    var page := RoundUp(x, PAGE_SIZE);
    RoundUpIsLeast(page + size, 4);
    WordSum(page, size);
  }

  lemma WordSum(x: nat, y: nat)
    requires x % PAGE_SIZE == 0
    ensures (x + y) % 4 == 0 <==> y % 4 == 0
  {
    var k, q, r := x / PAGE_SIZE, y / 4, y % 4;
    assert x + y == (1024 * k + q) * 4 + r;
    DivModUnique(x + y, 4, 1024 * k + q, r);
  }

  // ---------------------------------------------------------------- the loadable segments

  function Loads(b: Builder): seq<Segment>
    requires Registered(b.others)
  {
    [ReadOnly(b), Text(b)] + BssSegments(b) + [Dynamic(b, LOAD)] + (if HasFrames(b) then [FrameSegments(b)[0]] else [])
  }

  lemma LoadsAre(b: Builder)
    requires Registered(b.others)
    ensures LoadsIn(ProgramHeaders(b)) == Loads(b)
  {
    hide *;
    FrameLoads(b);
    BssLoads(b);
    LoadsOfRest(b, LoadsIn(FrameSegments(b)));
  }

  lemma FrameLoads(b: Builder)
    requires Registered(b.others)
    ensures LoadsIn(FrameSegments(b)) == if HasFrames(b) then [FrameSegments(b)[0]] else []
  {
    if HasFrames(b) {
      FramesFound(b);
      var fs := FrameSegments(b);
      hide Sections, At, Main, Registered, FirstNamed, LoadsIn;
      LoadsInTwo(fs[0], fs[1]);
    }
  }

  lemma BssLoads(b: Builder)
    ensures LoadsIn(BssSegments(b)) == BssSegments(b)
  {
    hide Sections, At, Main, LoadsIn;
    if b.bssSize != 0 {
      LoadsInOne(BssSegments(b)[0]);
    } else {
      LoadsInNone();
    }
  }

  lemma LoadsInNone()
    ensures LoadsIn([]) == []
  {
  }

  lemma LoadsOfRest(b: Builder, frames: seq<Segment>)
    requires Registered(b.others) && frames == LoadsIn(FrameSegments(b)) && LoadsIn(BssSegments(b)) == BssSegments(b)
    requires frames == if HasFrames(b) then [FrameSegments(b)[0]] else []
    ensures LoadsIn(ProgramHeaders(b)) == Loads(b)
  {
    hide Sections, At, Main, Registered, FirstNamed, LoadsIn, BssSegments, FrameSegments, HasFrames;
    var d := [Dynamic(b, LOAD), Dynamic(b, DYNAMIC)];
    var first := ProgramHeaders(b)[0];
    LoadsInConcat([first], Described(b));
    LoadsInConcat([ReadOnly(b), Text(b)] + BssSegments(b) + d, FrameSegments(b));
    LoadsInConcat([ReadOnly(b), Text(b)] + BssSegments(b), d);
    LoadsInConcat([ReadOnly(b), Text(b)], BssSegments(b));
    LoadsInOne(first);
    LoadsInTwo(ReadOnly(b), Text(b));
    LoadsInTwo(Dynamic(b, LOAD), Dynamic(b, DYNAMIC));
  }

  function End(s: Segment): nat {
    s.vaddr + s.memsz
  }

  /** Offsets and addresses of the sections that segments are made of. */
  lemma SectionFacts(b: Builder)
    ensures |Sections(b)| > DynamicIndex(b) && DynamicIndex(b) > TEXT
    ensures var r, t, d := At(b, RODATA), At(b, TEXT), At(b, DynamicIndex(b));
            r.offset % PAGE_SIZE == 0 && r.offset + b.rodataSize <= t.addr == t.offset && t.addr % PAGE_SIZE == 0 &&
            d.offset % PAGE_SIZE == 0 && d.addr % PAGE_SIZE == 0 && t.addr + b.textSize <= d.addr &&
            (b.bssSize != 0 ==>
              At(b, 5).offset == 0 && At(b, 5).addr % PAGE_SIZE == 0 &&
              t.addr + b.textSize <= At(b, 5).addr && At(b, 5).addr + b.bssSize <= d.addr)
  {
    SectionAtIndex(b);
    hide HeaderOf, LayoutUpTo, RoundUp, Sections;
    var st, ss, k := Start(b), Sections(b), DynamicIndex(b);
    SameOffsetsThroughText(b, RODATA);
    SameOffsetsThroughText(b, TEXT);
    FileRange(st, ss, RODATA, TEXT);
    LoadRange(st, ss, TEXT, k);
    FileRange(st, ss, k, k + 1);
    LoadRange(st, ss, k, k + 1);
    if b.bssSize != 0 {
      LoadRange(st, ss, TEXT, 5);
      LoadRange(st, ss, 5, k);
      PlacedAt(st, ss, 5);
    }
  }

  lemma FrameFacts(b: Builder)
    requires Registered(b.others) && HasFrames(b)
    ensures |Sections(b)| > DynamicIndex(b) && |FrameSegments(b)| > 0
    ensures At(b, DynamicIndex(b)).addr + b.dynamicSize <= Frames(b).addr
    ensures FrameSegments(b)[0].vaddr == Frames(b).addr && FrameSegments(b)[0].offset == Frames(b).offset
    ensures FrameSegments(b)[0].memsz == FrameSegments(b)[0].filesz == b.others[0].size + b.others[1].size
    ensures FrameSegments(b)[0].kind == LOAD && FrameSegments(b)[0].align == PAGE_SIZE
  {
    SectionAtIndex(b);
    FramesFound(b);
    hide HeaderOf, LayoutUpTo, RoundUp, Sections, FirstNamed;
    assert Sections(b)[OthersIndex(b)] == b.others[0];
    LoadRange(Start(b), Sections(b), DynamicIndex(b), OthersIndex(b));
  }

  predicate OnPages(s: Segment) {
    s.kind == LOAD && s.align == PAGE_SIZE && s.vaddr % PAGE_SIZE == 0 && s.offset % PAGE_SIZE == 0
  }

  lemma PiecesOnPages(b: Builder)
    ensures OnPages(ReadOnly(b)) && OnPages(Text(b)) && OnPages(Dynamic(b, LOAD))
    ensures b.bssSize != 0 ==> |BssSegments(b)| == 1 && OnPages(BssSegments(b)[0])
  {
    SectionFacts(b);
    SectionAtIndex(b);
    hide Sections, At;
  }

  lemma FramesOnPages(b: Builder)
    requires Registered(b.others) && HasFrames(b)
    ensures |FrameSegments(b)| > 0 && OnPages(FrameSegments(b)[0])
  {
    FrameFacts(b);
    FramesContiguousIff(b);
    hide Sections, At, Registered, FirstNamed, FrameSegments, Frames, FrameTable;
  }

  lemma LoadsOnPages(b: Builder, i: nat)
    requires Registered(b.others) && i < |Loads(b)|
    ensures OnPages(Loads(b)[i])
  {
    PiecesOnPages(b);
    if HasFrames(b) {
      FramesOnPages(b);
    }
    hide ReadOnly, Text, Dynamic, Registered, FrameSegments, OnPages, HasFrames;
  }

  /** Loadable segments start on a page, at a file offset congruent to their address. */
  lemma LoadsAligned(b: Builder, i: nat)
    requires Registered(b.others) && i < |Loads(b)|
    ensures var s := Loads(b)[i];
            s.kind == LOAD && s.align == PAGE_SIZE && s.vaddr % PAGE_SIZE == 0 &&
            s.offset % s.align == s.vaddr % s.align
  {
    hide Loads, Registered;
    LoadsOnPages(b, i);
  }

  lemma PiecesAdjacent(b: Builder)
    ensures End(ReadOnly(b)) <= Text(b).vaddr && End(Text(b)) <= Dynamic(b, LOAD).vaddr
    ensures b.bssSize != 0 ==>
      |BssSegments(b)| == 1 && End(Text(b)) <= BssSegments(b)[0].vaddr &&
      End(BssSegments(b)[0]) <= Dynamic(b, LOAD).vaddr
  {
    SectionFacts(b);
    SectionAtIndex(b);
    hide Sections, At;
  }

  lemma FramesAdjacent(b: Builder)
    requires Registered(b.others) && HasFrames(b)
    ensures |FrameSegments(b)| > 0 && End(Dynamic(b, LOAD)) <= FrameSegments(b)[0].vaddr
  {
    FrameFacts(b);
    SectionAtIndex(b);
    hide Sections, At, Registered, FirstNamed, Frames, FrameTable, FrameSegments;
  }

  lemma LoadsAdjacent(b: Builder, i: nat)
    requires Registered(b.others) && i + 1 < |Loads(b)|
    ensures End(Loads(b)[i]) <= Loads(b)[i + 1].vaddr
  {
    PiecesAdjacent(b);
    if HasFrames(b) {
      FramesAdjacent(b);
    }
    hide ReadOnly, Text, Dynamic, Registered, FrameSegments, HasFrames, End, SegmentOf;
  }

  /** Loadable segments ascend and never share a page. */
  lemma {:induction false} LoadsApart(b: Builder, i: nat, j: nat)
    requires Registered(b.others) && i < j < |Loads(b)|
    ensures End(Loads(b)[i]) <= Loads(b)[j].vaddr && RoundUp(End(Loads(b)[i]), PAGE_SIZE) <= Loads(b)[j].vaddr
    decreases j
  {
    hide Loads, RoundUp, Registered;
    LoadsAdjacent(b, j - 1);
    if i + 1 < j {
      LoadsApart(b, i, j - 1);
    }
    LoadsAligned(b, j);
    RoundUpIsLeast(End(Loads(b)[i]), PAGE_SIZE);
  }

  /** The segment maps all of a section, and file content to the right address. */
  predicate Maps(g: Segment, s: Section, hdr: Header) {
    g.vaddr <= hdr.addr && hdr.addr + s.size <= End(g) &&
    (!s.nobits ==>
       g.offset <= hdr.offset && hdr.offset - g.offset == hdr.addr - g.vaddr &&
       hdr.offset + s.size <= g.offset + g.filesz)
  }

  /** Which segment maps a section that takes memory. */
  function MappedBy(b: Builder, k: nat): nat {
    if k <= RODATA then 0 else if k == TEXT then 1
    else if k < DynamicIndex(b) then 2
    else if k == DynamicIndex(b) then 2 + |Bss(b)|
    else 3 + |Bss(b)|
  }

  /** Every section that takes memory is mapped by a loadable segment. */
  lemma LoadsCover(b: Builder, k: nat)
    requires Registered(b.others) && k < |Sections(b)| && Sections(b)[k].alloc
    requires HasFrames(b) ==> b.others[0].size % 4 == 0
    ensures MappedBy(b, k) < |Loads(b)| && Maps(Loads(b)[MappedBy(b, k)], Sections(b)[k], At(b, k))
  {
    hide *;
    if k <= RODATA {
      ReadOnlyCovers(b, k);
    } else if k <= DynamicIndex(b) {
      OwnSegmentCovers(b, k);
    } else {
      FramesCover(b, k);
    }
  }

  lemma ReadOnlyCovers(b: Builder, k: nat)
    requires Registered(b.others) && k <= RODATA
    ensures k < |Sections(b)| && MappedBy(b, k) < |Loads(b)| && Maps(Loads(b)[MappedBy(b, k)], Sections(b)[k], At(b, k))
  {
    SameOffsetsThroughText(b, k);
    InReadOnly(b, k);
    hide At, Sections, FrameSegments, BssSegments, Registered;
  }

  lemma OwnSegmentCovers(b: Builder, k: nat)
    requires Registered(b.others) && RODATA < k <= DynamicIndex(b)
    ensures k < |Sections(b)| && MappedBy(b, k) < |Loads(b)| && Maps(Loads(b)[MappedBy(b, k)], Sections(b)[k], At(b, k))
  {
    SectionAtIndex(b);
    hide At, Sections, FrameSegments, Registered;
  }

  lemma FramesCover(b: Builder, k: nat)
    requires Registered(b.others) && DynamicIndex(b) < k < |Sections(b)| && Sections(b)[k].alloc
    requires HasFrames(b) ==> b.others[0].size % 4 == 0
    ensures MappedBy(b, k) < |Loads(b)| && Maps(Loads(b)[MappedBy(b, k)], Sections(b)[k], At(b, k))
  {
    SectionAtIndex(b);
    var i := k - OthersIndex(b);
    assert 0 <= i < |b.others| && Sections(b)[k] == b.others[i] && HasFrames(b) && i < 2;
    FrameMapped(b, i);
    hide At, Sections, FrameSegments, Registered, FirstNamed, HasFrames, Maps, ReadOnly, Text, Dynamic;
  }

  lemma FrameMapped(b: Builder, i: nat)
    requires Registered(b.others) && HasFrames(b) && b.others[0].size % 4 == 0 && i < 2
    ensures OthersIndex(b) + i < |Sections(b)| && |FrameSegments(b)| > 0
    ensures Maps(FrameSegments(b)[0], b.others[i], At(b, OthersIndex(b) + i))
  {
    hide *;
    FrameFacts(b);
    FramesContiguousIff(b);
    FrameHeaders(b);
    var g := FrameSegments(b)[0];
    if i == 0 {
      MapsPart(g, b.others[0], Frames(b), 0);
    } else {
      MapsPart(g, b.others[1], FrameTable(b), b.others[0].size);
    }
  }

  lemma MapsPart(g: Segment, s: Section, hdr: Header, from: nat)
    requires hdr.addr == g.vaddr + from && hdr.offset == g.offset + from
    requires from + s.size <= g.memsz && from + s.size <= g.filesz
    ensures Maps(g, s, hdr)
  {
  }

  lemma FrameHeaders(b: Builder)
    requires Registered(b.others) && HasFrames(b)
    ensures OthersIndex(b) + 1 < |Sections(b)|
    ensures Frames(b) == At(b, OthersIndex(b)) && FrameTable(b) == At(b, OthersIndex(b) + 1) && |b.others| >= 2
  {
    SectionAtIndex(b);
    hide At, Sections, FirstNamed, OthersIndex;
  }

  lemma InReadOnly(b: Builder, k: nat)
    requires k <= RODATA
    ensures k < |Sections(b)| && RODATA < |Sections(b)|
    ensures At(b, k).offset + Sections(b)[k].size <= At(b, RODATA).offset + b.rodataSize
  {
    SectionAtIndex(b);
    hide HeaderOf, LayoutUpTo, Sections;
    if k < RODATA {
      FileRange(Start(b), Sections(b), k, RODATA);
    }
  }
}
