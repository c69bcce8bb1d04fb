/** An oat file inside its ELF file: where code ends up, and how it is found for unwinding. */
module OatElf {
  import opened Arith
  import opened Words
  import opened SafeMap
  import opened CompiledMethods
  import opened OatTypes
  import opened OatCode
  import opened OatFile
  import E = ElfLayout
  import U = Unwind
  import opened UnwindLookup

  /** The sizes handed to the ELF builder: the executable offset splits the oat data. */
  predicate Carries(b: E.Builder, l: Linker, lay: Layout, vs: seq<Visited>, anyClass: bool) {
    b.rodataSize == lay.exec && b.rodataSize + b.textSize == PlanEnd(l, lay.code, vs, anyClass).offset
  }

  lemma ExecOnPage(l: Linker, tablesEnd: nat, vs: seq<Visited>, ts: seq<seq<uint8>>)
    ensures LayoutOf(l, tablesEnd, vs, ts).exec % PAGE_SIZE == 0
  {
    RoundUpIsLeast(LayoutOf(l, tablesEnd, vs, ts).mapsEnd, PAGE_SIZE);
  }

  lemma CodeAfterExec(l: Linker, exec: nat, start: nat, vs: seq<Visited>, i: nat)
    requires i < |vs| && exec <= start && l.AllCompilable(vs)
    ensures exec <= OffsetOf(l, start, vs, i)
  {
    hide PlanAt, Linker.Align, Reserve, Linker.AllCompilable, Linker.Code;
    if Duplicate(l, start, vs, i) {
      var j := DuplicateBelowCursor(l, start, vs, i);
      PlanStartsAtStart(l, start, vs, j);
    } else {
      PlanStartsAtStart(l, start, vs, i);
    }
  }

  lemma CodeAfterHeader(l: Linker, start: nat, vs: seq<Visited>, i: nat)
    requires i < |vs| && l.AllCompilable(vs)
    ensures l.isa.CodeDelta() <= OffsetOf(l, start, vs, i)
  {
    hide PlanAt, Linker.Align, Reserve, Linker.AllCompilable, Linker.Code;
    var j := EveryMethodIsServed(l, start, vs, i);
  }

  /** The offset of a method's code in the oat data is also its distance from `.rodata` in memory. */
  lemma CodeLoadsAtItsOffset(b: E.Builder, l: Linker, tablesEnd: nat, vs: seq<Visited>, ts: seq<seq<uint8>>,
                             anyClass: bool, i: nat)
    requires l.AllCompilable(vs) && i < |vs| && Carries(b, l, LayoutOf(l, tablesEnd, vs, ts), vs, anyClass)
    ensures |E.Sections(b)| > E.TEXT
    ensures var lay := LayoutOf(l, tablesEnd, vs, ts);
            var offset := OffsetOf(l, lay.code, vs, i);
            lay.exec <= offset && E.At(b, E.RODATA).addr + offset == E.At(b, E.TEXT).addr + (offset - lay.exec)
  {
    hide PlanEnd, LayoutOf, OffsetOf, E.At, E.Sections, Linker.AllCompilable;
    LayoutAscends(l, tablesEnd, vs, ts);
    ExecOnPage(l, tablesEnd, vs, ts);
    var lay := LayoutOf(l, tablesEnd, vs, ts);
    CodeAfterExec(l, lay.exec, lay.code, vs, i);
    E.OneOffsetSpace(b, OffsetOf(l, lay.code, vs, i));
  }

  // ---------------------------------------------------------------- unwinding

  function KeptInfos(l: Linker, lay: Layout, vs: seq<Visited>): seq<U.Info> {
    U.Kept(U.MethodInfos(l, lay.exec, lay.code, vs), |vs|)
  }

  /** The unwinding sections in memory, at the addresses the layout gives them. */
  function UnwindingOf(b: E.Builder, l: Linker, lay: Layout, vs: seq<Visited>, cie: seq<uint8>): Unwinding
    requires E.Registered(b.others) && E.HasFrames(b) && |E.Sections(b)| > E.TEXT
  {
    Unwinding(b.is64, cie, KeptInfos(l, lay, vs), E.At(b, E.TEXT).addr, E.Frames(b).addr)
  }

  /** `.eh_frame` holds what was written for the methods of the oat file; section sizes are 32-bit words. */
  ghost predicate HoldsFrames(b: E.Builder, l: Linker, lay: Layout, vs: seq<Visited>, cie: seq<uint8>) {
    E.Registered(b.others) && E.HasFrames(b) && |E.Sections(b)| > E.TEXT && |b.others| >= 2 &&
    b.textSize < WORD && b.others[0].size < WORD && b.others[1].size < WORD &&
    cie != [] && |cie| % U.PointerSize(b.is64) == 0 &&
    var kept := KeptInfos(l, lay, vs);
    U.AllKept(kept) && b.others[0].size == |U.FramesOf(b.is64, cie, kept).bytes| && b.others[1].size == 12 + 8 * |kept|
  }

  /** The frames end on a word, so the search table is found right behind them. */
  lemma TableBehindFrames(b: E.Builder, l: Linker, lay: Layout, vs: seq<Visited>, cie: seq<uint8>)
    requires HoldsFrames(b, l, lay, vs, cie)
    ensures b.others[0].size % 4 == 0
    ensures UnwindingOf(b, l, lay, vs, cie).HdrAddress() == E.FrameTable(b).addr
  {
    hide *;
    FrameSizes(b, l, lay, vs, cie);
    U.FramesGrow(b.is64, cie, KeptInfos(l, lay, vs));
    WholeWords(b.is64, b.others[0].size);
    E.FramesContiguousIff(b);
    HdrAddressIs(b, l, lay, vs, cie);
  }

  lemma FrameSizes(b: E.Builder, l: Linker, lay: Layout, vs: seq<Visited>, cie: seq<uint8>)
    requires HoldsFrames(b, l, lay, vs, cie)
    ensures E.Registered(b.others) && E.HasFrames(b) && |E.Sections(b)| > E.TEXT && |b.others| >= 2
    ensures |cie| % U.PointerSize(b.is64) == 0 && U.AllKept(KeptInfos(l, lay, vs))
    ensures b.others[0].size == |U.FramesOf(b.is64, cie, KeptInfos(l, lay, vs)).bytes|
  {
    hide E.Registered, E.HasFrames, E.Sections, U.FramesOf, KeptInfos, U.AllKept;
  }

  lemma WholeWords(is64: bool, n: nat)
    requires n % U.PointerSize(is64) == 0
    ensures n % 4 == 0
  {
  }

  lemma HdrAddressIs(b: E.Builder, l: Linker, lay: Layout, vs: seq<Visited>, cie: seq<uint8>)
    requires E.Registered(b.others) && E.HasFrames(b) && |E.Sections(b)| > E.TEXT &&
             U.AllKept(KeptInfos(l, lay, vs))
    ensures UnwindingOf(b, l, lay, vs, cie).HdrAddress() ==
            E.Frames(b).addr + |U.FramesOf(b.is64, cie, KeptInfos(l, lay, vs)).bytes|
  {
    hide E.Registered, E.HasFrames, E.Sections, U.FramesOf, KeptInfos, U.AllKept, E.Frames, E.At;
  }

  /** Code ranges of kept methods lie inside `.text`. */
  lemma KeptInText(b: E.Builder, l: Linker, tablesEnd: nat, vs: seq<Visited>, ts: seq<seq<uint8>>, anyClass: bool)
    requires l.AllCompilable(vs) && Carries(b, l, LayoutOf(l, tablesEnd, vs, ts), vs, anyClass) && b.textSize < WORD
    ensures var kept := KeptInfos(l, LayoutOf(l, tablesEnd, vs, ts), vs);
            U.AllKept(kept) && U.Ascending(kept) && forall e :: 0 <= e < |kept| ==> kept[e].high <= b.textSize
  {
    hide PlanAt, LayoutOf, U.MethodInfo, U.Ascending, U.AllKept, Linker.AllCompilable, Reserve, ReserveThunks, U.Kept,
         OffsetOf, Duplicate;
    var lay := LayoutOf(l, tablesEnd, vs, ts);
    LayoutAscends(l, tablesEnd, vs, ts);
    var infos := U.MethodInfos(l, lay.exec, lay.code, vs);
    U.MethodsAscend(l, lay.exec, lay.code, vs);
    U.KeptAscend(infos, |vs|);
    var kept := U.Kept(infos, |vs|);
    forall e | 0 <= e < |kept| ensures kept[e].high <= b.textSize {
      assert kept[e] in kept;
      var i :| 0 <= i < |vs| && infos[i] == kept[e] && U.IsKept(infos[i]);
      U.RangeOf(l, lay.exec, lay.code, vs, i);
      PlacedBelowCursor(l, lay.code, vs, i, |vs|);
    }
  }

  lemma {:induction false} KeptContains(infos: seq<U.Info>, k: nat, i: nat)
    requires i < k <= |infos| && U.IsKept(infos[i])
    ensures infos[i] in U.Kept(infos, k)
    decreases k
  {
    if i < k - 1 {
      KeptContains(infos, k - 1, i);
    }
  }

  lemma {:induction false} KeptComesFrom(infos: seq<U.Info>, k: nat, e: nat) returns (i: nat)
    requires k <= |infos| && e < |U.Kept(infos, k)|
    ensures i < k && infos[i] == U.Kept(infos, k)[e] && U.IsKept(infos[i])
  {
    if U.IsKept(infos[k - 1]) && e == |U.Kept(infos, k)| - 1 {
      i := k - 1;
    } else {
      i := KeptComesFrom(infos, k - 1, e);
    }
  }

  /** The unwinding sections of every ELF file within the address range are in the form the reader expects. */
  lemma UnwindingIsValid(b: E.Builder, l: Linker, tablesEnd: nat, vs: seq<Visited>, ts: seq<seq<uint8>>, anyClass: bool,
                         cie: seq<uint8>)
    requires l.AllCompilable(vs) && Carries(b, l, LayoutOf(l, tablesEnd, vs, ts), vs, anyClass)
    requires HoldsFrames(b, l, LayoutOf(l, tablesEnd, vs, ts), vs, cie)
    requires E.FrameTable(b).addr + b.others[1].size <= AddressLimit(b.is64)
    ensures UnwindingOf(b, l, LayoutOf(l, tablesEnd, vs, ts), vs, cie).Valid()
  {
    hide *;
    var lay := LayoutOf(l, tablesEnd, vs, ts);
    FramesParts(b, l, lay, vs, cie);
    TextBelowFrames(b);
    TableBehindFrames(b, l, lay, vs, cie);
    KeptInText(b, l, tablesEnd, vs, ts, anyClass);
    ValidFromParts(b, l, lay, vs, cie);
  }

  lemma FramesParts(b: E.Builder, l: Linker, lay: Layout, vs: seq<Visited>, cie: seq<uint8>)
    requires HoldsFrames(b, l, lay, vs, cie)
    ensures E.Registered(b.others) && E.HasFrames(b) && |E.Sections(b)| > E.TEXT && |b.others| >= 2 && b.textSize < WORD
  {
    hide E.Registered, E.HasFrames, E.Sections, U.FramesOf, KeptInfos;
  }

  lemma TextBelowFrames(b: E.Builder)
    requires E.Registered(b.others) && E.HasFrames(b)
    ensures |E.Sections(b)| > E.TEXT && E.At(b, E.TEXT).addr + b.textSize <= E.Frames(b).addr
  {
    E.SectionFacts(b);
    E.SectionAtIndex(b);
    E.FrameHeaders(b);
    hide E.Sections, E.HeaderOf, E.FirstNamed;
    E.LoadRange(E.Start(b), E.Sections(b), E.TEXT, E.OthersIndex(b));
  }

  lemma ValidFromParts(b: E.Builder, l: Linker, lay: Layout, vs: seq<Visited>, cie: seq<uint8>)
    requires HoldsFrames(b, l, lay, vs, cie)
    requires UnwindingOf(b, l, lay, vs, cie).HdrAddress() == E.FrameTable(b).addr
    requires E.FrameTable(b).addr + b.others[1].size <= AddressLimit(b.is64)
    requires E.At(b, E.TEXT).addr + b.textSize <= E.Frames(b).addr
    requires var kept := KeptInfos(l, lay, vs);
             U.Ascending(kept) && forall e :: 0 <= e < |kept| ==> kept[e].high <= b.textSize
    ensures UnwindingOf(b, l, lay, vs, cie).Valid()
  {
    hide U.FramesOf, KeptInfos, E.At, E.Sections, E.Registered, U.AllKept, U.Ascending, U.TableOf, U.Hdr, E.FrameTable,
         E.Frames;
    U.TableIsOrdered(b.is64, cie, KeptInfos(l, lay, vs));
  }

  // ---------------------------------------------------------------- what a lookup finds for a method

  /** `pc` is an address inside the code of method `i`. */
  predicate InCode(b: E.Builder, l: Linker, lay: Layout, vs: seq<Visited>, i: nat, pc: nat)
    requires i < |vs| && |E.Sections(b)| > E.TEXT
  {
    var first := E.At(b, E.RODATA).addr + OffsetOf(l, lay.code, vs, i) - l.isa.CodeDelta();
    first <= pc < first + |l.Code(vs[i].compiled)|
  }

  /** Call frame information as an entry holds it. */
  function Padded(is64: bool, cfi: Option<seq<uint8>>): Option<seq<uint8>> {
    match cfi
    case None => None
    case Some(opcodes) => Some(Instructions(is64, opcodes))
  }

  /** The code range of a method that is not a duplicate, as its debug information has it. */
  lemma InCodeIsRange(b: E.Builder, l: Linker, tablesEnd: nat, vs: seq<Visited>, ts: seq<seq<uint8>>, anyClass: bool,
                      i: nat, pc: nat)
    requires l.AllCompilable(vs) && Carries(b, l, LayoutOf(l, tablesEnd, vs, ts), vs, anyClass) && b.textSize < WORD
    requires i < |vs| && !Duplicate(l, LayoutOf(l, tablesEnd, vs, ts).code, vs, i)
    ensures |E.Sections(b)| > E.TEXT
    ensures var lay, text := LayoutOf(l, tablesEnd, vs, ts), E.At(b, E.TEXT).addr;
            var info := U.MethodInfo(l, lay.exec, lay.code, vs, i);
            !info.deduped && info.cfi == vs[i].compiled.cfi && info.low < info.high &&
            (InCode(b, l, lay, vs, i, pc) <==> text + info.low <= pc < text + info.high)
  {
    hide LayoutOf, OffsetOf, E.At, E.Sections, Linker.AllCompilable, PlanAt, Reserve, CodeOffset;
    var lay := LayoutOf(l, tablesEnd, vs, ts);
    LayoutAscends(l, tablesEnd, vs, ts);
    U.RangeOf(l, lay.exec, lay.code, vs, i);
    CodeLoadsAtItsOffset(b, l, tablesEnd, vs, ts, anyClass, i);
  }

  /** Two methods that are not duplicates have no address in common. */
  lemma PlacedApart(b: E.Builder, l: Linker, lay: Layout, vs: seq<Visited>, i: nat, j: nat, pc: nat)
    requires |E.Sections(b)| > E.TEXT && i < |vs| && j < |vs| && i != j
    requires !Duplicate(l, lay.code, vs, i) && !Duplicate(l, lay.code, vs, j) && InCode(b, l, lay, vs, i, pc)
    ensures !InCode(b, l, lay, vs, j, pc)
  {
    hide OffsetOf, E.At, E.Sections, Duplicate;
    if i < j {
      PlacedRangesAscend(l, lay.code, vs, i, j);
    } else {
      PlacedRangesAscend(l, lay.code, vs, j, i);
    }
  }

  /** A duplicate has the addresses of the method that serves it. */
  lemma ServedInCode(b: E.Builder, l: Linker, lay: Layout, vs: seq<Visited>, i: nat, j: nat, pc: nat)
    requires |E.Sections(b)| > E.TEXT && Serves(l, lay.code, vs, i, j)
    ensures InCode(b, l, lay, vs, i, pc) <==> InCode(b, l, lay, vs, j, pc)
  {
    hide OffsetOf, E.At, E.Sections, Duplicate, KeyOf;
    SameKeySameSize(l, vs[i].compiled, vs[j].compiled);
  }

  /**
   * The conditions under which the unwinding sections of an oat file can be read: they were written for
   * the methods of that file, which are recorded only when debug information is generated.
   */
  ghost predicate Readable(b: E.Builder, l: Linker, tablesEnd: nat, vs: seq<Visited>, ts: seq<seq<uint8>>,
                           anyClass: bool, cie: seq<uint8>) {
    l.generateDebugInfo && b.is64 == l.isa.Is64() &&
    l.AllCompilable(vs) && Carries(b, l, LayoutOf(l, tablesEnd, vs, ts), vs, anyClass) &&
    HoldsFrames(b, l, LayoutOf(l, tablesEnd, vs, ts), vs, cie) &&
    E.FrameTable(b).addr + b.others[1].size <= AddressLimit(b.is64)
  }

  /** The sections as the reader finds them, with the table within reach or not. */
  ghost function Sections(b: E.Builder, l: Linker, tablesEnd: nat, vs: seq<Visited>, ts: seq<seq<uint8>>,
                          anyClass: bool, cie: seq<uint8>): (u: Unwinding)
    requires Readable(b, l, tablesEnd, vs, ts, anyClass, cie)
    ensures u.Valid() && u.is64 == b.is64 && u.text == E.At(b, E.TEXT).addr
    ensures u.kept == KeptInfos(l, LayoutOf(l, tablesEnd, vs, ts), vs)
  {
    hide LayoutOf, Carries, KeptInfos, E.At, E.Sections, E.Registered, E.HasFrames, E.Frames, U.FramesOf, U.AllKept,
         Unwinding.Valid;
    UnwindingIsValid(b, l, tablesEnd, vs, ts, anyClass, cie);
    UnwindingOf(b, l, LayoutOf(l, tablesEnd, vs, ts), vs, cie)
  }

  lemma ReadableParts(b: E.Builder, l: Linker, tablesEnd: nat, vs: seq<Visited>, ts: seq<seq<uint8>>, anyClass: bool,
                      cie: seq<uint8>)
    requires Readable(b, l, tablesEnd, vs, ts, anyClass, cie)
    ensures l.AllCompilable(vs) && Carries(b, l, LayoutOf(l, tablesEnd, vs, ts), vs, anyClass)
    ensures |E.Sections(b)| > E.TEXT && b.textSize < WORD
  {
    hide LayoutOf, Carries, Linker.AllCompilable, KeptInfos, E.At, E.Sections, E.Registered, E.HasFrames, U.FramesOf;
  }

  /**
   * At every address inside the code of a method, placed or duplicate, a lookup finds the call frame
   * information of the method that was placed there, or nothing if that one has none.
   */
  lemma LookupFindsServer(b: E.Builder, l: Linker, tablesEnd: nat, vs: seq<Visited>, ts: seq<seq<uint8>>,
                          anyClass: bool, cie: seq<uint8>, i: nat, pc: nat) returns (j: nat)
    requires Readable(b, l, tablesEnd, vs, ts, anyClass, cie) && i < |vs| && |E.Sections(b)| > E.TEXT
    requires Sections(b, l, tablesEnd, vs, ts, anyClass, cie).InReach()
    requires InCode(b, l, LayoutOf(l, tablesEnd, vs, ts), vs, i, pc)
    ensures Serves(l, LayoutOf(l, tablesEnd, vs, ts).code, vs, i, j)
    ensures Sections(b, l, tablesEnd, vs, ts, anyClass, cie).M().Lookup(pc) == Padded(b.is64, vs[j].compiled.cfi)
  {
    hide *;
    ReadableParts(b, l, tablesEnd, vs, ts, anyClass, cie);
    var lay := LayoutOf(l, tablesEnd, vs, ts);
    j := EveryMethodIsServed(l, lay.code, vs, i);
    ServedInCode(b, l, lay, vs, i, j, pc);
    ServerIsPlaced(l, lay.code, vs, i, j);
    LookupFindsPlaced(b, l, tablesEnd, vs, ts, anyClass, cie, j, pc);
  }

  lemma ServerIsPlaced(l: Linker, start: nat, vs: seq<Visited>, i: nat, j: nat)
    requires Serves(l, start, vs, i, j)
    ensures i < |vs| && j < |vs| && !Duplicate(l, start, vs, j) && KeyOf(vs[i].compiled) == KeyOf(vs[j].compiled)
  {
    hide Duplicate, OffsetOf, KeyOf;
  }

  lemma LookupFindsPlaced(b: E.Builder, l: Linker, tablesEnd: nat, vs: seq<Visited>, ts: seq<seq<uint8>>,
                          anyClass: bool, cie: seq<uint8>, j: nat, pc: nat)
    requires Readable(b, l, tablesEnd, vs, ts, anyClass, cie) && j < |vs| && |E.Sections(b)| > E.TEXT
    requires Sections(b, l, tablesEnd, vs, ts, anyClass, cie).InReach()
    requires !Duplicate(l, LayoutOf(l, tablesEnd, vs, ts).code, vs, j) &&
             InCode(b, l, LayoutOf(l, tablesEnd, vs, ts), vs, j, pc)
    ensures Sections(b, l, tablesEnd, vs, ts, anyClass, cie).M().Lookup(pc) == Padded(b.is64, vs[j].compiled.cfi)
  {
    hide *;
    ReadableParts(b, l, tablesEnd, vs, ts, anyClass, cie);
    var lay, u := LayoutOf(l, tablesEnd, vs, ts), Sections(b, l, tablesEnd, vs, ts, anyClass, cie);
    PaddedCases(b.is64, vs[j].compiled.cfi);
    if vs[j].compiled.cfi.Some? {
      var e := EntryOf(b, l, tablesEnd, vs, ts, anyClass, j, pc, u);
      LookupFinds(u, e, pc);
    } else {
      forall e | 0 <= e < |u.kept| ensures !Covers(u, e, pc) {
        NotCovered(b, l, tablesEnd, vs, ts, anyClass, j, e, pc, u);
      }
      LookupFindsNothing(u, pc);
    }
  }

  lemma PaddedCases(is64: bool, cfi: Option<seq<uint8>>)
    ensures cfi.None? ==> Padded(is64, cfi) == None
    ensures cfi.Some? ==> Padded(is64, cfi) == Some(Instructions(is64, cfi.value))
  {
    hide Instructions;
  }

  /** A placed method with call frame information has an entry that covers its code. */
  lemma EntryOf(b: E.Builder, l: Linker, tablesEnd: nat, vs: seq<Visited>, ts: seq<seq<uint8>>, anyClass: bool, j: nat,
                pc: nat, u: Unwinding) returns (e: nat)
    requires l.AllCompilable(vs) && Carries(b, l, LayoutOf(l, tablesEnd, vs, ts), vs, anyClass) && b.textSize < WORD
    requires |E.Sections(b)| > E.TEXT && u.text == E.At(b, E.TEXT).addr
    requires u.kept == KeptInfos(l, LayoutOf(l, tablesEnd, vs, ts), vs)
    requires j < |vs| && !Duplicate(l, LayoutOf(l, tablesEnd, vs, ts).code, vs, j) && vs[j].compiled.cfi.Some?
    requires InCode(b, l, LayoutOf(l, tablesEnd, vs, ts), vs, j, pc)
    ensures e < |u.kept| && u.kept[e].cfi == vs[j].compiled.cfi && Covers(u, e, pc)
  {
    hide LayoutOf, OffsetOf, E.At, E.Sections, U.Kept, Linker.AllCompilable, PlanAt, InCode, U.MethodInfo, Duplicate;
    var lay := LayoutOf(l, tablesEnd, vs, ts);
    var infos := U.MethodInfos(l, lay.exec, lay.code, vs);
    InCodeIsRange(b, l, tablesEnd, vs, ts, anyClass, j, pc);
    KeptContains(infos, |vs|, j);
    e :| 0 <= e < |u.kept| && u.kept[e] == infos[j];
  }

  /** No entry covers the code of a placed method without call frame information. */
  lemma NotCovered(b: E.Builder, l: Linker, tablesEnd: nat, vs: seq<Visited>, ts: seq<seq<uint8>>, anyClass: bool,
                   j: nat, e: nat, pc: nat, u: Unwinding)
    requires l.AllCompilable(vs) && Carries(b, l, LayoutOf(l, tablesEnd, vs, ts), vs, anyClass) && b.textSize < WORD
    requires |E.Sections(b)| > E.TEXT && u.text == E.At(b, E.TEXT).addr
    requires u.kept == KeptInfos(l, LayoutOf(l, tablesEnd, vs, ts), vs) && e < |u.kept|
    requires j < |vs| && !Duplicate(l, LayoutOf(l, tablesEnd, vs, ts).code, vs, j) && vs[j].compiled.cfi.None?
    requires InCode(b, l, LayoutOf(l, tablesEnd, vs, ts), vs, j, pc)
    ensures !Covers(u, e, pc)
  {
    hide LayoutOf, OffsetOf, E.At, E.Sections, U.Kept, Linker.AllCompilable, PlanAt, InCode;
    var i := EntryComesFrom(b, l, tablesEnd, vs, ts, anyClass, e, pc, u);
    PlacedApart(b, l, LayoutOf(l, tablesEnd, vs, ts), vs, j, i, pc);
  }

  /** Every entry covers exactly the code of some placed method with call frame information. */
  lemma EntryComesFrom(b: E.Builder, l: Linker, tablesEnd: nat, vs: seq<Visited>, ts: seq<seq<uint8>>, anyClass: bool,
                       e: nat, pc: nat, u: Unwinding) returns (i: nat)
    requires l.AllCompilable(vs) && Carries(b, l, LayoutOf(l, tablesEnd, vs, ts), vs, anyClass) && b.textSize < WORD
    requires |E.Sections(b)| > E.TEXT && u.text == E.At(b, E.TEXT).addr
    requires u.kept == KeptInfos(l, LayoutOf(l, tablesEnd, vs, ts), vs) && e < |u.kept|
    ensures i < |vs| && !Duplicate(l, LayoutOf(l, tablesEnd, vs, ts).code, vs, i)
    ensures vs[i].compiled.cfi.Some? && u.kept[e].cfi == vs[i].compiled.cfi
    ensures Covers(u, e, pc) <==> InCode(b, l, LayoutOf(l, tablesEnd, vs, ts), vs, i, pc)
  {
    hide LayoutOf, OffsetOf, E.At, E.Sections, U.Kept, Linker.AllCompilable, PlanAt, InCode, Carries;
    var lay := LayoutOf(l, tablesEnd, vs, ts);
    i := KeptComesFrom(U.MethodInfos(l, lay.exec, lay.code, vs), |vs|, e);
    assert !Duplicate(l, lay.code, vs, i);
    InCodeIsRange(b, l, tablesEnd, vs, ts, anyClass, i, pc);
  }

  /** Every address of every method leads to the method's own call frame information. */
  ghost predicate Unwinds(b: E.Builder, l: Linker, tablesEnd: nat, vs: seq<Visited>, ts: seq<seq<uint8>>,
                          anyClass: bool, cie: seq<uint8>)
    requires Readable(b, l, tablesEnd, vs, ts, anyClass, cie) && |E.Sections(b)| > E.TEXT
  {
    forall i: nat, pc: nat :: i < |vs| && InCode(b, l, LayoutOf(l, tablesEnd, vs, ts), vs, i, pc) ==>
      Sections(b, l, tablesEnd, vs, ts, anyClass, cie).M().Lookup(pc) == Padded(b.is64, vs[i].compiled.cfi)
  }

  /** Methods that share code have the same call frame information, as entries hold it. */
  ghost predicate CfiAgrees(is64: bool, l: Linker, vs: seq<Visited>) {
    l.debuggable ||
    forall i, j :: 0 <= i < |vs| && 0 <= j < |vs| && KeyOf(vs[i].compiled) == KeyOf(vs[j].compiled) ==>
      Padded(is64, vs[i].compiled.cfi) == Padded(is64, vs[j].compiled.cfi)
  }

  /**
   * The deduplication key leaves out call frame information, and search table entries are signed
   * words. So every method unwinds, at every address of its code, exactly when methods with one key
   * have one call frame information (or nothing is shared) and, on 64 bits, the table lies at most
   * 2^31 bytes above the first method that has an entry.
   */
  lemma UnwindsIff(b: E.Builder, l: Linker, tablesEnd: nat, vs: seq<Visited>, ts: seq<seq<uint8>>, anyClass: bool,
                   cie: seq<uint8>)
    requires Readable(b, l, tablesEnd, vs, ts, anyClass, cie) && |E.Sections(b)| > E.TEXT
    ensures Unwinds(b, l, tablesEnd, vs, ts, anyClass, cie) <==>
            Sections(b, l, tablesEnd, vs, ts, anyClass, cie).InReach() && CfiAgrees(b.is64, l, vs)
  {
    hide Readable, Sections, CfiAgrees, InCode, E.Sections, LayoutOf, Padded, Mapped.Lookup, Unwinding.InReach;
    var u := Sections(b, l, tablesEnd, vs, ts, anyClass, cie);
    if u.InReach() && CfiAgrees(b.is64, l, vs) {
      forall i: nat, pc: nat | i < |vs| && InCode(b, l, LayoutOf(l, tablesEnd, vs, ts), vs, i, pc)
        ensures u.M().Lookup(pc) == Padded(b.is64, vs[i].compiled.cfi)
      {
        var j := LookupFindsServer(b, l, tablesEnd, vs, ts, anyClass, cie, i, pc);
        ReadableParts(b, l, tablesEnd, vs, ts, anyClass, cie);
        ServerAgrees(b.is64, l, LayoutOf(l, tablesEnd, vs, ts).code, vs, i, j);
      }
    }
    if Unwinds(b, l, tablesEnd, vs, ts, anyClass, cie) {
      UnwindsOnlyInReach(b, l, tablesEnd, vs, ts, anyClass, cie);
      UnwindsOnlyAgreeing(b, l, tablesEnd, vs, ts, anyClass, cie);
    }
  }

  lemma ServerAgrees(is64: bool, l: Linker, start: nat, vs: seq<Visited>, i: nat, j: nat)
    requires CfiAgrees(is64, l, vs) && l.AllCompilable(vs) && Serves(l, start, vs, i, j)
    ensures i < |vs| && j < |vs| && Padded(is64, vs[i].compiled.cfi) == Padded(is64, vs[j].compiled.cfi)
  {
    hide Padded, Linker.AllCompilable, Serves, KeyOf;
    ServerIsPlaced(l, start, vs, i, j);
    if l.debuggable {
      ServerIsSelf(l, start, vs, i, j);
    }
  }

  lemma UnwindsOnlyInReach(b: E.Builder, l: Linker, tablesEnd: nat, vs: seq<Visited>, ts: seq<seq<uint8>>,
                           anyClass: bool, cie: seq<uint8>)
    requires Readable(b, l, tablesEnd, vs, ts, anyClass, cie) && |E.Sections(b)| > E.TEXT
    requires Unwinds(b, l, tablesEnd, vs, ts, anyClass, cie)
    ensures Sections(b, l, tablesEnd, vs, ts, anyClass, cie).InReach()
  {
    hide *;
    var u := Sections(b, l, tablesEnd, vs, ts, anyClass, cie);
    ReadableParts(b, l, tablesEnd, vs, ts, anyClass, cie);
    ValidIsKept(u);
    if !u.InReach() {
      OutOfReachIsLost(u);
      var pc := u.text + u.kept[0].low;
      var i := EntryComesFrom(b, l, tablesEnd, vs, ts, anyClass, 0, pc, u);
      FirstIsCovered(u);
      UnwindsAt(b, l, tablesEnd, vs, ts, anyClass, cie, i, pc);
      PaddedIsSome(b.is64, vs[i].compiled.cfi);
    }
  }

  /** A `.bss` section of 2 GiB, which lies between code and frames, puts the search table out of reach. */
  lemma LargeBssIsOutOfReach(b: E.Builder, l: Linker, tablesEnd: nat, vs: seq<Visited>, ts: seq<seq<uint8>>,
                             anyClass: bool, cie: seq<uint8>)
    requires Readable(b, l, tablesEnd, vs, ts, anyClass, cie) && b.is64 && b.bssSize >= 0x8000_0000
    requires KeptInfos(l, LayoutOf(l, tablesEnd, vs, ts), vs) != []
    ensures !Sections(b, l, tablesEnd, vs, ts, anyClass, cie).InReach()
  {
    hide *;
    var u := Sections(b, l, tablesEnd, vs, ts, anyClass, cie);
    ReadableFrames(b, l, tablesEnd, vs, ts, anyClass, cie);
    BssBelowFrames(b);
    KeptInText(b, l, tablesEnd, vs, ts, anyClass);
    FarFromFirst(u, b.textSize, b.bssSize);
  }

  lemma ReadableFrames(b: E.Builder, l: Linker, tablesEnd: nat, vs: seq<Visited>, ts: seq<seq<uint8>>, anyClass: bool,
                       cie: seq<uint8>)
    requires Readable(b, l, tablesEnd, vs, ts, anyClass, cie)
    ensures l.AllCompilable(vs) && Carries(b, l, LayoutOf(l, tablesEnd, vs, ts), vs, anyClass) && b.textSize < WORD
    ensures E.Registered(b.others) && E.HasFrames(b)
    ensures Sections(b, l, tablesEnd, vs, ts, anyClass, cie).eh == E.Frames(b).addr
  {
    hide LayoutOf, Carries, Linker.AllCompilable, KeptInfos, E.At, E.Sections, E.Registered, E.HasFrames, U.FramesOf,
         E.Frames, Unwinding.Valid;
  }

  lemma BssBelowFrames(b: E.Builder)
    requires E.Registered(b.others) && E.HasFrames(b) && b.bssSize > 0
    ensures |E.Sections(b)| > E.TEXT && E.At(b, E.TEXT).addr + b.textSize + b.bssSize <= E.Frames(b).addr
  {
    E.SectionFacts(b);
    E.SectionAtIndex(b);
    E.FrameHeaders(b);
    hide E.Sections, E.HeaderOf, E.FirstNamed;
    E.LoadRange(E.Start(b), E.Sections(b), E.TEXT, 5);
    E.LoadRange(E.Start(b), E.Sections(b), 5, E.OthersIndex(b));
  }

  lemma FarFromFirst(u: Unwinding, textSize: nat, gap: nat)
    requires U.AllKept(u.kept) && U.Ascending(u.kept) && u.kept != [] && u.kept[0].high <= textSize
    requires u.is64 && gap >= 0x8000_0000 && u.text + textSize + gap <= u.eh
    ensures !u.InReach()
  {
    hide U.FramesOf;
  }

  /** In a small file everything is within reach. */
  lemma LowTableIsInReach(b: E.Builder, l: Linker, tablesEnd: nat, vs: seq<Visited>, ts: seq<seq<uint8>>,
                          anyClass: bool, cie: seq<uint8>)
    requires Readable(b, l, tablesEnd, vs, ts, anyClass, cie)
    requires E.Registered(b.others) && E.HasFrames(b) && E.FrameTable(b).addr <= 0x8000_0000
    ensures Sections(b, l, tablesEnd, vs, ts, anyClass, cie).InReach()
  {
    hide *;
    HoldsReadable(b, l, tablesEnd, vs, ts, anyClass, cie);
    TableBehindFrames(b, l, LayoutOf(l, tablesEnd, vs, ts), vs, cie);
    ValidIsKept(Sections(b, l, tablesEnd, vs, ts, anyClass, cie));
    LowIsInReach(Sections(b, l, tablesEnd, vs, ts, anyClass, cie));
  }

  lemma HoldsReadable(b: E.Builder, l: Linker, tablesEnd: nat, vs: seq<Visited>, ts: seq<seq<uint8>>, anyClass: bool,
                      cie: seq<uint8>)
    requires Readable(b, l, tablesEnd, vs, ts, anyClass, cie)
    ensures HoldsFrames(b, l, LayoutOf(l, tablesEnd, vs, ts), vs, cie)
    ensures Sections(b, l, tablesEnd, vs, ts, anyClass, cie) ==
            UnwindingOf(b, l, LayoutOf(l, tablesEnd, vs, ts), vs, cie)
  {
    hide LayoutOf, Carries, Linker.AllCompilable, HoldsFrames, UnwindingOf, Unwinding.Valid;
  }

  lemma LowIsInReach(u: Unwinding)
    requires U.AllKept(u.kept) && u.HdrAddress() <= 0x8000_0000
    ensures u.InReach()
  {
    hide U.FramesOf;
  }

  lemma ValidIsKept(u: Unwinding)
    requires u.Valid()
    ensures U.AllKept(u.kept)
  {
    hide U.AllKept;
  }

  lemma UnwindsAt(b: E.Builder, l: Linker, tablesEnd: nat, vs: seq<Visited>, ts: seq<seq<uint8>>, anyClass: bool,
                  cie: seq<uint8>, i: nat, pc: nat)
    requires Readable(b, l, tablesEnd, vs, ts, anyClass, cie) && |E.Sections(b)| > E.TEXT
    requires Unwinds(b, l, tablesEnd, vs, ts, anyClass, cie)
    requires i < |vs| && InCode(b, l, LayoutOf(l, tablesEnd, vs, ts), vs, i, pc)
    ensures Sections(b, l, tablesEnd, vs, ts, anyClass, cie).M().Lookup(pc) ==
            Padded(b.is64, vs[i].compiled.cfi)
  {
    hide Readable, Sections, InCode, E.Sections, LayoutOf, Padded, Mapped.Lookup;
  }

  lemma PaddedIsSome(is64: bool, cfi: Option<seq<uint8>>)
    ensures Padded(is64, cfi).Some? <==> cfi.Some?
  {
    hide Instructions;
  }

  lemma FirstIsCovered(u: Unwinding)
    requires u.Valid() && u.kept != []
    ensures Covers(u, 0, u.text + u.kept[0].low)
  {
    hide U.FramesOf, U.TableOf, U.Hdr;
  }

  lemma UnwindsOnlyAgreeing(b: E.Builder, l: Linker, tablesEnd: nat, vs: seq<Visited>, ts: seq<seq<uint8>>,
                            anyClass: bool, cie: seq<uint8>)
    requires Readable(b, l, tablesEnd, vs, ts, anyClass, cie) && |E.Sections(b)| > E.TEXT
    requires Unwinds(b, l, tablesEnd, vs, ts, anyClass, cie)
    ensures CfiAgrees(b.is64, l, vs)
  {
    hide Readable, Sections, InCode, E.Sections, LayoutOf, Padded, Mapped.Lookup, KeyOf;
    if !l.debuggable {
      forall i, j | 0 <= i < |vs| && 0 <= j < |vs| && KeyOf(vs[i].compiled) == KeyOf(vs[j].compiled)
        ensures Padded(b.is64, vs[i].compiled.cfi) == Padded(b.is64, vs[j].compiled.cfi)
      {
        ReadableParts(b, l, tablesEnd, vs, ts, anyClass, cie);
        var pc := CommonAddress(b, l, LayoutOf(l, tablesEnd, vs, ts), vs, i, j);
      }
    }
  }

  /** Methods with one key have an address in common. */
  lemma CommonAddress(b: E.Builder, l: Linker, lay: Layout, vs: seq<Visited>, i: nat, j: nat) returns (pc: nat)
    requires |E.Sections(b)| > E.TEXT && l.AllCompilable(vs) && !l.debuggable
    requires i < |vs| && j < |vs| && KeyOf(vs[i].compiled) == KeyOf(vs[j].compiled)
    ensures InCode(b, l, lay, vs, i, pc) && InCode(b, l, lay, vs, j, pc)
  {
    hide OffsetOf, E.At, E.Sections, KeyOf;
    SameKeySameOffset(l, lay.code, vs, i, j);
    SameKeySameSize(l, vs[i].compiled, vs[j].compiled);
    assert l.Compilable(vs[i].compiled);
    CodeAfterHeader(l, lay.code, vs, i);
    pc := E.At(b, E.RODATA).addr + OffsetOf(l, lay.code, vs, i) - l.isa.CodeDelta();
  }
}
