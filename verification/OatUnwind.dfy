/**
 * From the oat writer's debug information to an unwinder's answer: frames and search table are written,
 * placed in the ELF file, patched for their addresses, and read.
 */
module OatUnwind {
  import opened Arith
  import opened Words
  import opened SafeMap
  import opened CompiledMethods
  import opened OatTypes
  import opened OatCode
  import opened OatFile
  import opened OatElf
  import opened OatWriters
  import opened UnwindLookup
  import opened Flatten
  import E = ElfLayout
  import U = Unwind

  /** What the ELF writer has before it knows the sizes: its other sections take no memory. */
  predicate Template(b: E.Builder, isa: Isa) {
    b.is64 == isa.Is64() && forall i :: 0 <= i < |b.others| ==> !b.others[i].alloc
  }

  /** The builder once the oat file is planned and the unwinding sections are registered in front of the others. */
  function Filled(b: E.Builder, exec: nat, size: nat, frames: nat, table: nat): (r: E.Builder)
    requires exec <= size
    ensures r.is64 == b.is64 && r.rodataSize == exec && r.textSize == size - exec
    ensures |r.others| == |b.others| + 2 && r.others[0].size == frames && r.others[1].size == table
  {
    b.(rodataSize := exec, textSize := size - exec,
       others := [E.Section(".eh_frame", false, true, PAGE_SIZE, frames),
                  E.Section(".eh_frame_hdr", false, true, 4, table)] + b.others)
  }

  lemma FilledIsRegistered(b: E.Builder, isa: Isa, exec: nat, size: nat, frames: nat, table: nat)
    requires Template(b, isa) && exec <= size
    ensures var r := Filled(b, exec, size, frames, table);
            E.Registered(r.others) && E.HasFrames(r) && |E.Sections(r)| > E.TEXT
  {
    var r := Filled(b, exec, size, frames, table);
    E.SectionAtIndex(r);
    hide E.Sections;
  }

  /** Section sizes are words and all addresses are in range. */
  ghost predicate InRange(b: E.Builder)
    requires E.Registered(b.others) && E.HasFrames(b) && |b.others| >= 2
  {
    b.others[0].size < WORD && b.others[1].size < WORD &&
    E.FrameTable(b).addr + b.others[1].size <= AddressLimit(b.is64)
  }

  /** The address of a section, from the layout loop. */
  method AddressOf(b: E.Builder, i: nat) returns (address: nat)
    requires i < |E.Sections(b)|
    ensures address == E.At(b, i).addr
  {
    hide E.LayoutUpTo, E.HeaderOf, E.Sections;
    var headers, fileEnd := E.LayOut(E.Start(b), E.Sections(b));
    E.HeadersStay(E.Start(b), E.Sections(b), |E.Sections(b)|, i);
    address := headers[i].addr;
  }

  method CopyOf(bytes: seq<uint8>) returns (buffer: array<uint8>)
    ensures fresh(buffer) && buffer[..] == bytes
  {
    buffer := new uint8[|bytes|](i requires 0 <= i < |bytes| => bytes[i]);
  }

  /** The kept methods of a planned oat file, and what is written for them. */
  lemma PlannedKept(l: Linker, tablesEnd: nat, vs: seq<Visited>, ts: seq<seq<uint8>>, anyClass: bool, cie: seq<uint8>)
    requires l.AllCompilable(vs) && PlanEnd(l, LayoutOf(l, tablesEnd, vs, ts).code, vs, anyClass).offset < WORD
    ensures var lay := LayoutOf(l, tablesEnd, vs, ts);
            var infos, kept := U.MethodInfos(l, lay.exec, lay.code, vs), KeptInfos(l, lay, vs);
            U.Ranges(infos) && U.AllKept(kept) && U.Ascending(kept) && kept == U.Kept(infos, |infos|) &&
            |U.TableOf(l.isa.Is64(), cie, kept)| == |kept| &&
            U.InBuffer(|U.FramesOf(l.isa.Is64(), cie, kept).bytes|, U.PointerSize(l.isa.Is64()),
                       U.FramesOf(l.isa.Is64(), cie, kept).patches)
  {
    hide PlanAt, LayoutOf, U.MethodInfos, U.Ranges, U.AllKept, U.Ascending, U.FramesOf, U.TableOf, U.InBuffer, Reserve,
         Linker.AllCompilable;
    var lay := LayoutOf(l, tablesEnd, vs, ts);
    LayoutAscends(l, tablesEnd, vs, ts);
    U.OatMethodsUnwind(l, lay.exec, lay.code, vs);
    U.TableIsOrdered(l.isa.Is64(), cie, KeptInfos(l, lay, vs));
    PatchesInFrames(l.isa.Is64(), cie, KeptInfos(l, lay, vs));
  }

  lemma PatchesInTable(frameSize: nat, t: Entries<nat, nat>)
    ensures U.InBuffer(|U.Hdr(frameSize, t)|, 4, U.HdrPatches(|t|))
  {
    hide U.HdrStart, U.HdrEntries;
  }

  /** What was written, placed and patched is what the unwinder's theorems are about. */
  lemma PatchedIsMapped(b: E.Builder, l: Linker, tablesEnd: nat, vs: seq<Visited>, ts: seq<seq<uint8>>, anyClass: bool,
                        cie: seq<uint8>)
    requires Readable(b, l, tablesEnd, vs, ts, anyClass, cie)
    ensures E.Registered(b.others) && E.HasFrames(b) && |E.Sections(b)| > E.TEXT
    ensures var kept := KeptInfos(l, LayoutOf(l, tablesEnd, vs, ts), vs);
            U.AllKept(kept) && |U.TableOf(b.is64, cie, kept)| == |kept| &&
            var f, t := U.FramesOf(b.is64, cie, kept), U.TableOf(b.is64, cie, kept);
            var text, eh, hdr := E.At(b, E.TEXT).addr, E.Frames(b).addr, E.FrameTable(b).addr;
            U.InBuffer(|f.bytes|, U.PointerSize(b.is64), f.patches) &&
            U.InBuffer(|U.Hdr(|f.bytes|, t)|, 4, U.HdrPatches(|t|)) &&
            Sections(b, l, tablesEnd, vs, ts, anyClass, cie).M() ==
            Mapped(b.is64, U.PatchAll(U.PointerRelativeAddress, U.PointerSize(b.is64), eh, text, f.patches, f.bytes),
                   eh,
                   U.PatchAll(U.SectionRelativeAddress, 4, hdr, text, U.HdrPatches(|t|), U.Hdr(|f.bytes|, t)), hdr)
  {
    hide LayoutOf, Carries, Linker.AllCompilable, KeptInfos, U.FramesOf, U.TableOf, U.Hdr, U.PatchAll, E.At, E.Sections,
         E.Registered, E.HasFrames, E.Frames, E.FrameTable, U.AllKept, U.Ascending, U.InBuffer, U.HdrPatches;
    HoldsReadable(b, l, tablesEnd, vs, ts, anyClass, cie);
    TableBehindFrames(b, l, LayoutOf(l, tablesEnd, vs, ts), vs, cie);
    var u := Sections(b, l, tablesEnd, vs, ts, anyClass, cie);
    U.TableIsOrdered(b.is64, cie, u.kept);
    PatchesInFrames(b.is64, cie, u.kept);
    PatchesInTable(|u.F().bytes|, U.TableOf(b.is64, cie, u.kept));
  }

  /** Frames and search table as they are in memory: written to buffers, then patched in place. */
  method MapSections(b: E.Builder, frames: seq<uint8>, framePatches: seq<nat>, table: seq<uint8>,
                     tablePatches: seq<nat>) returns (m: Mapped)
    requires E.Registered(b.others) && E.HasFrames(b) && |E.Sections(b)| > E.TEXT
    requires U.InBuffer(|frames|, U.PointerSize(b.is64), framePatches) && U.InBuffer(|table|, 4, tablePatches)
    ensures var text, eh, hdr := E.At(b, E.TEXT).addr, E.Frames(b).addr, E.FrameTable(b).addr;
            m == Mapped(b.is64,
                        U.PatchAll(U.PointerRelativeAddress, U.PointerSize(b.is64), eh, text, framePatches, frames), eh,
                        U.PatchAll(U.SectionRelativeAddress, 4, hdr, text, tablePatches, table), hdr)
  {
    hide U.PatchAll, E.At, E.Sections, E.Registered, E.HasFrames;
    E.SectionAtIndex(b);
    E.FrameHeaders(b);
    var text := AddressOf(b, E.TEXT);
    var eh := AddressOf(b, E.OthersIndex(b));
    var hdr := AddressOf(b, E.OthersIndex(b) + 1);
    var frameBuffer := CopyOf(frames);
    var tableBuffer := CopyOf(table);
    U.Patch(U.PointerRelativeAddress, U.PointerSize(b.is64), framePatches, eh, text, frameBuffer);
    U.Patch(U.SectionRelativeAddress, 4, tablePatches, hdr, text, tableBuffer);
    m := Mapped(b.is64, frameBuffer[..], eh, tableBuffer[..], hdr);
  }

  /** A reader of these sections finds every method's own call frame information at all addresses of its code. */
  ghost predicate UnwindsBy(m: Mapped, b: E.Builder, l: Linker, lay: Layout, vs: seq<Visited>)
    requires |E.Sections(b)| > E.TEXT
  {
    forall i: nat, pc: nat :: i < |vs| && InCode(b, l, lay, vs, i, pc) ==>
      m.Lookup(pc) == Padded(b.is64, vs[i].compiled.cfi)
  }

  lemma UnwindsByMapped(b: E.Builder, l: Linker, tablesEnd: nat, vs: seq<Visited>, ts: seq<seq<uint8>>, anyClass: bool,
                        cie: seq<uint8>, m: Mapped)
    requires Readable(b, l, tablesEnd, vs, ts, anyClass, cie) && |E.Sections(b)| > E.TEXT
    requires m == Sections(b, l, tablesEnd, vs, ts, anyClass, cie).M()
    ensures UnwindsBy(m, b, l, LayoutOf(l, tablesEnd, vs, ts), vs) <==>
            Sections(b, l, tablesEnd, vs, ts, anyClass, cie).InReach() && CfiAgrees(b.is64, l, vs)
  {
    hide Readable, Sections, CfiAgrees, InCode, E.Sections, LayoutOf, Padded, Mapped.Lookup, Unwinding.InReach;
    UnwindsIff(b, l, tablesEnd, vs, ts, anyClass, cie);
  }

  /** A filled builder whose sizes are right holds readable unwinding sections. */
  lemma FilledIsReadable(t: E.Builder, l: Linker, tablesEnd: nat, vs: seq<Visited>, ts: seq<seq<uint8>>, anyClass: bool,
                         cie: seq<uint8>, b: E.Builder)
    requires Template(t, l.isa) && l.generateDebugInfo && l.AllCompilable(vs)
    requires cie != [] && |cie| % U.PointerSize(l.isa.Is64()) == 0
    requires var lay := LayoutOf(l, tablesEnd, vs, ts);
             var kept := KeptInfos(l, lay, vs);
             var size := PlanEnd(l, lay.code, vs, anyClass).offset;
             lay.exec <= size < WORD && U.AllKept(kept) && |U.TableOf(l.isa.Is64(), cie, kept)| == |kept| &&
             b == Filled(t, lay.exec, size, |U.FramesOf(l.isa.Is64(), cie, kept).bytes|, 12 + 8 * |kept|)
    requires E.Registered(b.others) && E.HasFrames(b) && |E.Sections(b)| > E.TEXT && InRange(b)
    ensures Readable(b, l, tablesEnd, vs, ts, anyClass, cie)
  {
    hide LayoutOf, PlanEnd, KeptInfos, U.FramesOf, U.TableOf, E.FrameTable, E.Registered, E.HasFrames, E.Sections,
         Linker.AllCompilable, U.AllKept;
  }

  /**
   * Plans an oat file and writes, places and patches its unwinding sections. If their sizes and addresses
   * are in range, every method, placed or duplicate, is unwound by its own call frame information at all
   * of its addresses exactly when the table is within reach and methods with equal keys agree.
   */
  method WriteAndUnwind(w: OatWriter, tablesEnd: nat, trampolines: seq<seq<uint8>>, t: E.Builder, cie: seq<uint8>)
      returns (b: E.Builder, m: Mapped)
    requires w.Blank() && w.linker.generateDebugInfo && w.linker.AllCompilable(w.Methods())
    requires PlanEnd(w.linker, LayoutOf(w.linker, tablesEnd, w.Methods(), trampolines).code, w.Methods(),
                     w.classes != []).offset < WORD
    requires Template(t, w.linker.isa) && cie != [] && |cie| % U.PointerSize(w.linker.isa.Is64()) == 0
    modifies w
    ensures E.Registered(b.others) && E.HasFrames(b) && |E.Sections(b)| > E.TEXT && |b.others| >= 2
    ensures InRange(b) ==> Readable(b, w.linker, tablesEnd, w.Methods(), trampolines, w.classes != [], cie)
    ensures InRange(b) ==>
              (UnwindsBy(m, b, w.linker, LayoutOf(w.linker, tablesEnd, w.Methods(), trampolines), w.Methods()) <==>
               Sections(b, w.linker, tablesEnd, w.Methods(), trampolines, w.classes != [], cie).InReach() &&
               CfiAgrees(b.is64, w.linker, w.Methods()))
  {
    hide Flat, PlanAt, PlanEnd, LayoutOf, DebugInfos, U.FramesOf, U.TableOf, U.AllKept, U.Ascending, U.Ranges, U.Hdr,
         U.HdrPatches, U.PatchAll, U.InBuffer, U.Kept, U.MethodInfos, U.InfosOf, E.Sections, E.Registered, E.HasFrames,
         E.At, E.Frames, E.FrameTable, Readable, Sections, UnwindsBy, CfiAgrees, Filled, InRange, Finished,
         Unwinding.InReach, Linker.AllCompilable;
    ghost var l, vs := w.linker, w.Methods();
    ghost var lay := LayoutOf(l, tablesEnd, vs, trampolines);
    var is64 := w.linker.isa.Is64();
    PlannedKept(l, tablesEnd, vs, trampolines, w.classes != [], cie);
    SizeAfterExec(l, tablesEnd, vs, trampolines, w.classes != []);
    U.RecordedInfos(l, lay.exec, lay.code, vs);
    var size := w.InitLayout(tablesEnd, trampolines);
    var writer := new U.CfiWriter();
    writer.WriteCfiSection(is64, cie, U.InfosOf(w.methodInfo));
    b := Filled(t, w.executableOffset, size, |writer.frame|, |writer.hdr|);
    FilledIsRegistered(t, w.linker.isa, w.executableOffset, size, |writer.frame|, |writer.hdr|);
    PatchesInTable(|writer.frame|, U.TableOf(is64, cie, KeptInfos(l, lay, vs)));
    m := MapSections(b, writer.frame, writer.framePatches, writer.hdr, writer.hdrPatches);
    if InRange(b) {
      FilledIsReadable(t, l, tablesEnd, vs, trampolines, w.classes != [], cie, b);
      PatchedIsMapped(b, l, tablesEnd, vs, trampolines, w.classes != [], cie);
      UnwindsByMapped(b, l, tablesEnd, vs, trampolines, w.classes != [], cie, m);
    }
  }

  lemma SizeAfterExec(l: Linker, tablesEnd: nat, vs: seq<Visited>, ts: seq<seq<uint8>>, anyClass: bool)
    ensures LayoutOf(l, tablesEnd, vs, ts).exec <= PlanEnd(l, LayoutOf(l, tablesEnd, vs, ts).code, vs, anyClass).offset
  {
    hide PlanEnd, LayoutOf;
    LayoutAscends(l, tablesEnd, vs, ts);
    PlanEndAfterStart(l, LayoutOf(l, tablesEnd, vs, ts).code, vs, anyClass);
  }
}
