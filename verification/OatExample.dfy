/**
 * Two methods that share code but not all that describes it: where the deduplication key is too
 * coarse, and where the search table is too far away.
 */
module OatExample {
  import opened Arith
  import opened Words
  import opened CompiledMethods
  import opened OatTypes
  import opened OatMaps
  import opened OatCode
  import opened OatFile
  import opened SafeMap
  import opened OatElf
  import E = ElfLayout
  import U = Unwind
  import opened UnwindLookup

  const CODE: seq<uint8> := [0xc0, 0x03, 0x5f, 0xd6]
  const TABLES: seq<uint8> := [0, 0, 0, 0]

  /** A frame size, and call frame information that sets the offset of the frame address. */
  function Method(frameSize: uint8, offset: uint8): CompiledMethod {
    CompiledMethod(1, 0, 0, 0, [], frameSize, 0, 0, Some([0x0e, offset]))
  }

  function SharingLinker(): Linker {
    Linker(Arm64, false, true, map[1 := CODE], [], _ => false, 0, _ => 0, _ => 0, (_, _, _, _) => 0)
  }

  /** One code array; the second method's frame size and call frame information may be different. */
  function Pair(frameSize: uint8, offset: uint8): (vs: seq<Visited>)
    ensures |vs| == 2
  {
    [Visited(MethodRef(0, 0), Method(16, 16)), Visited(MethodRef(0, 1), Method(frameSize, offset))]
  }

  lemma {:induction false} NoTables(l: Linker, kind: TableKind, start: nat, vs: seq<Visited>, k: nat)
    requires k <= |vs| && forall i :: 0 <= i < |vs| ==> TableBytes(l, kind, vs[i].compiled) == []
    ensures MapPlanAt(l, kind, start, vs, k).offset == start
  {
    if k > 0 {
      NoTables(l, kind, start, vs, k - 1);
    }
  }

  lemma ExampleLayout(frameSize: uint8, offset: uint8)
    ensures LayoutOf(SharingLinker(), |TABLES|, Pair(frameSize, offset), []).code == 4096
    ensures LayoutOf(SharingLinker(), |TABLES|, Pair(frameSize, offset), []).exec == 4096
  {
    var l, vs := SharingLinker(), Pair(frameSize, offset);
    hide MapPlanAt, RoundUp, TrampolinesEnd;
    NoTables(l, GcMap, |TABLES|, vs, 2);
    NoTables(l, MappingTable, |TABLES|, vs, 2);
    NoTables(l, VmapTable, |TABLES|, vs, 2);
    FirstPage();
    NoTrampolines(l, 4096);
  }

  lemma FirstPage()
    ensures PageUp(4) == 4096
  {
  }

  lemma NoTrampolines(l: Linker, offset: nat)
    ensures TrampolinesEnd(l, offset, []) == offset
  {
  }

  lemma ExampleCompiles(frameSize: uint8, offset: uint8)
    ensures SharingLinker().AllCompilable(Pair(frameSize, offset))
  {
  }

  function AfterFirst(v: Visited): Plan {
    Plan(4128, map[KeyOf(v.compiled) := 4124], [], 1, map[v.ref := 4124])
  }

  lemma ExampleVisits(frameSize: uint8, offset: uint8)
    ensures var l, vs := SharingLinker(), Pair(frameSize, offset);
            Visit(l, Start(4096), vs[0]) == AfterFirst(vs[0]) && IsDuplicate(l, AfterFirst(vs[0]), vs[1].compiled) &&
            Visit(l, AfterFirst(vs[0]), vs[1]).offset == 4128
  {
    hide Linker.Align;
    FirstCode(SharingLinker());
    assert SharingLinker().Code(Pair(frameSize, offset)[0].compiled) == CODE;
  }

  lemma ExamplePlan(frameSize: uint8, offset: uint8)
    ensures var l, vs := SharingLinker(), Pair(frameSize, offset);
            PlanAt(l, 4096, vs, 0) == Start(4096) && PlanAt(l, 4096, vs, 1) == AfterFirst(vs[0]) &&
            PlanEnd(l, 4096, vs, true).offset == 4128
  {
    hide Visit;
    var l, vs := SharingLinker(), Pair(frameSize, offset);
    PlanStep(l, 4096, vs, 0);
    PlanStep(l, 4096, vs, 1);
    ExampleVisits(frameSize, offset);
    hide PlanAt;
  }

  lemma PlanStep(l: Linker, start: nat, vs: seq<Visited>, k: nat)
    requires k < |vs|
    ensures PlanAt(l, start, vs, k + 1) == Visit(l, PlanAt(l, start, vs, k), vs[k])
    ensures PlanAt(l, start, vs, 0) == Start(start)
  {
    hide Visit;
  }

  lemma FirstCode(l: Linker)
    requires l.isa == Arm64
    ensures l.Align(4096) == 4096
  {
  }

  /**
   * The finished file gives the second method the frame of the first. All assumptions of the theorems
   * about reading files back hold for it.
   */
  lemma SharedFrameIsWrong()
    ensures var l, vs := SharingLinker(), Pair(32, 16);
            var lay := LayoutOf(l, |TABLES|, vs, []);
            var k := PlannedBy(l, lay, vs, true);
            var file := FileBytes(l, TABLES, vs, [], true, k);
            !l.debuggable && l.AllCompilable(vs) && Finished(l, lay, vs, true, k) &&
            PlanEnd(l, lay.code, vs, true).offset < WORD &&
            KeyOf(vs[0].compiled) == KeyOf(vs[1].compiled) &&
            FrameReadsBack(l, file, vs[0].compiled, k.offsets[0]) &&
            !FrameReadsBack(l, file, vs[1].compiled, k.offsets[1])
  {
    hide PlanEnd, LayoutOf, FileBytes, OffsetOf, DecodeHeader, PlanAt, Duplicate, Linker.AllCompilable, TablesHeader,
         CodeHeader;
    var l, vs := SharingLinker(), Pair(32, 16);
    ExampleLayout(32, 16);
    ExamplePlan(32, 16);
    ExampleCompiles(32, 16);
    var lay := LayoutOf(l, |TABLES|, vs, []);
    var k := PlannedBy(l, lay, vs, true);
    PlannedIsFinished(l, lay, vs, true);
    var j := HeaderIsOfServer(l, TABLES, vs, [], true, k, 0);
    SameKeySameOffset(l, lay.code, vs, 0, 1);
  }

  // ---------------------------------------------------------------- call frame information

  function ExampleInfo(): U.Info {
    U.Info(false, 28, 32, Some([0x0e, 16]))
  }

  lemma ExampleKept(frameSize: uint8, offset: uint8)
    ensures var l, vs := SharingLinker(), Pair(frameSize, offset);
            KeptInfos(l, LayoutOf(l, |TABLES|, vs, []), vs) == [ExampleInfo()]
  {
    hide Linker.Align, PlanAt, LayoutOf, U.Kept, Visit;
    var l, vs := SharingLinker(), Pair(frameSize, offset);
    ExampleLayout(frameSize, offset);
    ExampleVisits(frameSize, offset);
    ExamplePlan(frameSize, offset);
    FirstCode(l);
    var infos := U.MethodInfos(l, 4096, 4096, vs);
    assert infos[0] == ExampleInfo();
    assert infos[1].deduped;
    KeptOfTwo(infos);
  }

  lemma KeptOfTwo(infos: seq<U.Info>)
    requires |infos| == 2 && U.IsKept(infos[0]) && !U.IsKept(infos[1])
    ensures U.Kept(infos, 2) == [infos[0]]
  {
    assert U.Kept(infos, 1) == [infos[0]];
  }

  /** The common entry for arm64, byte by byte: 0x1c stands for `DW_EH_PE_pcrel | DW_EH_PE_sdata8`. */
  function Arm64Cie(): (s: seq<uint8>)
    ensures |s| == 144
  {
    [140, 0, 0, 0, 0, 0, 0, 0, 1, 'z' as int, 'R' as int, 0, 1, 0x7c, 30, 1, 0x1c] +
    [0x0c, 31, 0] +
    seq(60, i requires 0 <= i < 60 => Rule(i, i / 2, i / 2 < 8 || i / 2 == 16 || i / 2 == 17)) +
    seq(64, i requires 0 <= i < 64 => Rule(i, 64 + i / 2, i / 2 < 8 || i / 2 >= 16))
  }

  /** Of each pair of bytes, the first says whether a register is undefined, the second which one it is. */
  function Rule(i: nat, register: nat, undefined: bool): uint8
    requires register < 128
  {
    if i % 2 == 1 then register else if undefined then 0x07 else 0x08
  }

  lemma ExampleFrames()
    ensures |U.FramesOf(true, Arm64Cie(), [ExampleInfo()]).bytes| == 176
  {
    hide U.Fde, Arm64Cie;
    var kept := [ExampleInfo()];
    assert kept[..0] == [];
    U.FramesStep(true, Arm64Cie(), kept);
    assert RoundUp(171, 8) == 176;
  }

  function Debug(name: string, size: nat): E.Section {
    E.Section(name, false, false, 1, size)
  }

  /** A file with debug information, one frame of 32 bytes behind the common entry, and one table entry. */
  function ExampleElf(bss: nat): E.Builder {
    E.Builder(true, 144, 59, 40, 4096, 32, bss, 112, true, 48, 16,
              [E.Section(".eh_frame", false, true, PAGE_SIZE, 176), E.Section(".eh_frame_hdr", false, true, 4, 20),
               Debug(".debug_info", 64), Debug(".debug_info.oat_patches", 4), Debug(".debug_abbrev", 32),
               Debug(".debug_str", 40), Debug(".debug_line", 48), Debug(".debug_line.oat_patches", 4)], 192)
  }

  lemma ExampleRegistered(bss: nat)
    ensures E.Registered(ExampleElf(bss).others) && E.HasFrames(ExampleElf(bss))
    ensures |E.Sections(ExampleElf(bss))| > E.TEXT
  {
    E.SectionAtIndex(ExampleElf(bss));
    hide E.Sections;
  }

  lemma ExampleRoom(bss: nat)
    requires bss > 0
    ensures E.OthersIndex(ExampleElf(bss)) == 9 && |E.Sections(ExampleElf(bss))| == 18
    ensures E.Room(E.Sections(ExampleElf(bss)), 11) <= bss + 9 * 4096
  {
    var b := ExampleElf(bss);
    var ss := E.Sections(b);
    var page := PAGE_SIZE;
    E.SectionAtIndex(b);
    assert ss[0..11] == [
      E.Section(".dynsym", false, true, 8, 144), E.Section(".dynstr", false, true, 1, 59),
      E.Section(".hash", false, true, 4, 40), E.Section(".rodata", false, true, page, 4096),
      E.Section(".text", false, true, page, 32), E.Section(".bss", true, true, page, bss),
      E.Section(".dynamic", false, true, page, 112), E.Section(".symtab", false, false, 8, 48),
      E.Section(".strtab", false, false, 1, 16), b.others[0], b.others[1]];
    hide E.Sections, E.Room;
    RoomOf(ss, 3);
    RoomOf(ss, 6);
    RoomOf(ss, 9);
    RoomOf(ss, 11);
  }

  /** The room of three sections more. */
  lemma RoomOf(ss: seq<E.Section>, k: nat)
    requires 2 <= k <= |ss|
    ensures E.Room(ss, 0) == 0
    ensures E.Room(ss, k) == E.Room(ss, k - 2) + E.Alignment(ss[k - 2]) + ss[k - 2].size + E.Alignment(ss[k - 1]) +
                             ss[k - 1].size
    ensures k >= 3 ==> E.Room(ss, k - 2) == E.Room(ss, k - 3) + E.Alignment(ss[k - 3]) + ss[k - 3].size
  {
  }

  lemma ExampleTable(bss: nat)
    requires bss > 0
    ensures E.Registered(ExampleElf(bss).others) && E.HasFrames(ExampleElf(bss))
    ensures E.FrameTable(ExampleElf(bss)).addr + 20 <= bss + 10 * 4096
  {
    var b := ExampleElf(bss);
    ExampleRegistered(bss);
    ExampleRoom(bss);
    E.SectionAtIndex(b);
    E.FrameHeaders(b);
    hide E.Sections, E.Room, E.HeaderOf, E.LayoutUpTo, E.FirstNamed;
    E.LoadAtMost(E.Start(b), E.Sections(b), 11);
    E.LoadRange(E.Start(b), E.Sections(b), 10, 11);
  }

  /** The file meets the conditions under which its unwinding sections can be read. */
  lemma ExampleIsReadable(frameSize: uint8, offset: uint8, bss: nat)
    requires 0 < bss < 0x4000_0000_0000_0000
    ensures Readable(ExampleElf(bss), SharingLinker(), |TABLES|, Pair(frameSize, offset), [], true, Arm64Cie())
    ensures |E.Sections(ExampleElf(bss))| > E.TEXT
  {
    hide PlanEnd, LayoutOf, PlanAt, Linker.AllCompilable, U.FramesOf, E.FrameTable, E.Registered, E.HasFrames,
         E.Sections, KeptInfos, Arm64Cie;
    ExampleLayout(frameSize, offset);
    ExamplePlan(frameSize, offset);
    ExampleCompiles(frameSize, offset);
    ExampleKept(frameSize, offset);
    ExampleFrames();
    ExampleRegistered(bss);
    ExampleTable(bss);
  }

  /**
   * Two methods that differ in nothing but their call frame information: an unwinder takes that of the
   * second from the first, although the table is within reach.
   */
  lemma SharedCfiIsWrong()
    ensures var b, l, vs := ExampleElf(4096), SharingLinker(), Pair(16, 32);
            vs[1].compiled == vs[0].compiled.(cfi := vs[1].compiled.cfi) && |E.Sections(b)| > E.TEXT &&
            Readable(b, l, |TABLES|, vs, [], true, Arm64Cie()) &&
            Sections(b, l, |TABLES|, vs, [], true, Arm64Cie()).InReach() &&
            !Unwinds(b, l, |TABLES|, vs, [], true, Arm64Cie())
  {
    hide *;
    ExampleIsReadable(16, 32, 4096);
    UnwindsIff(ExampleElf(4096), SharingLinker(), |TABLES|, Pair(16, 32), [], true, Arm64Cie());
    ExampleElfIs64(4096);
    CfiDisagrees();
    OnlyCfiDiffers();
    NearTable();
  }

  lemma ExampleElfIs64(bss: nat)
    ensures ExampleElf(bss).is64 && ExampleElf(bss).bssSize == bss
  {
  }

  lemma OnlyCfiDiffers()
    ensures Pair(16, 32)[1].compiled == Pair(16, 32)[0].compiled.(cfi := Pair(16, 32)[1].compiled.cfi)
  {
  }

  lemma NearTable()
    requires Readable(ExampleElf(4096), SharingLinker(), |TABLES|, Pair(16, 32), [], true, Arm64Cie())
    ensures Sections(ExampleElf(4096), SharingLinker(), |TABLES|, Pair(16, 32), [], true, Arm64Cie()).InReach()
  {
    hide *;
    ExampleTable(4096);
    LowTableIsInReach(ExampleElf(4096), SharingLinker(), |TABLES|, Pair(16, 32), [], true, Arm64Cie());
  }

  lemma CfiDisagrees()
    ensures !CfiAgrees(true, SharingLinker(), Pair(16, 32))
  {
    hide UnwindLookup.Instructions;
    SecondByte(true, [0x0e, 16]);
    SecondByte(true, [0x0e, 32]);
    var vs := Pair(16, 32);
    assert vs[0].compiled.cfi == Some([0x0e, 16]) && vs[1].compiled.cfi == Some([0x0e, 32]);
    assert KeyOf(vs[0].compiled) == KeyOf(vs[1].compiled);
  }

  lemma SecondByte(is64: bool, opcodes: seq<uint8>)
    requires |opcodes| > 1
    ensures |Instructions(is64, opcodes)| > 1 && Instructions(is64, opcodes)[1] == opcodes[1]
  {
    hide RoundUp;
  }

  // ---------------------------------------------------------------- a table out of reach

  /**
   * With 2 GiB of `.bss` between code and table, a 64-bit file is written in which an unwinder finds
   * nothing at the first method's own first address. Here the methods agree on everything.
   */
  lemma FarTableIsLost()
    ensures var b, l, vs := ExampleElf(0x8000_0000), SharingLinker(), Pair(16, 16);
            |E.Sections(b)| > E.TEXT && Readable(b, l, |TABLES|, vs, [], true, Arm64Cie()) &&
            CfiAgrees(b.is64, l, vs) && vs[0].compiled.cfi.Some? &&
            InCode(b, l, LayoutOf(l, |TABLES|, vs, []), vs, 0, E.At(b, E.TEXT).addr + 28) &&
            Sections(b, l, |TABLES|, vs, [], true, Arm64Cie()).M().Lookup(E.At(b, E.TEXT).addr + 28) == None
  {
    hide *;
    var b, l, vs := ExampleElf(0x8000_0000), SharingLinker(), Pair(16, 16);
    ExampleElfIs64(0x8000_0000);
    ExampleIsReadable(16, 16, 0x8000_0000);
    ExampleKept(16, 16);
    LargeBssIsOutOfReach(b, l, |TABLES|, vs, [], true, Arm64Cie());
    OutOfReachIsLost(Sections(b, l, |TABLES|, vs, [], true, Arm64Cie()));
    ExampleRanges();
    ExampleAgrees();
    ExampleInCode(0x8000_0000);
  }

  lemma ExampleRanges()
    ensures ExampleInfo().low == 28
  {
  }

  lemma ExampleAgrees()
    ensures CfiAgrees(true, SharingLinker(), Pair(16, 16)) && Pair(16, 16)[0].compiled.cfi.Some?
  {
    hide Padded;
  }

  lemma ExampleInCode(bss: nat)
    requires 0 < bss < 0x4000_0000_0000_0000
    ensures var b, l, vs := ExampleElf(bss), SharingLinker(), Pair(16, 16);
            |E.Sections(b)| > E.TEXT &&
            InCode(b, l, LayoutOf(l, |TABLES|, vs, []), vs, 0, E.At(b, E.TEXT).addr + 28)
  {
    hide LayoutOf, PlanAt, E.At, E.Sections, Linker.Align;
    var b, l, vs := ExampleElf(bss), SharingLinker(), Pair(16, 16);
    E.OneOffsetSpace(b, 4124);
    ExampleLayout(16, 16);
    ExamplePlan(16, 16);
    FirstCode(l);
    assert OffsetOf(l, 4096, vs, 0) == 4124;
    assert l.Code(vs[0].compiled) == CODE;
  }
}
