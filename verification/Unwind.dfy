/**
 * Stack unwinding information: frame description entries in `.eh_frame`, the search table in
 * `.eh_frame_hdr`, and the in-place patching that makes their addresses relative.
 */
module Unwind {
  import opened Arith
  import opened Words
  import opened SafeMap
  import opened CompiledMethods
  import opened OatTypes
  import opened OatCode

  // ---------------------------------------------------------------- patching words in place

  datatype PatchResult = AbsoluteAddress | PointerRelativeAddress | SectionRelativeAddress

  /** The new value of a `w`-byte word at `location`, in arithmetic modulo 256^w. */
  function PatchedValue(kind: PatchResult, w: nat, bufferAddress: nat, baseAddress: nat, location: nat, value: nat)
      : (r: nat)
    ensures r < Pow256(w)
  {
    (match kind
     case AbsoluteAddress => baseAddress + value
     case PointerRelativeAddress => baseAddress + value - (bufferAddress + location)
     case SectionRelativeAddress => baseAddress + value - bufferAddress) % Pow256(w)
  }

  predicate InBuffer(size: nat, w: nat, locations: seq<nat>) {
    forall i :: 0 <= i < |locations| ==> locations[i] + w <= size
  }

  /** Patched words do not overlap. */
  predicate Spaced(w: nat, locations: seq<nat>) {
    forall i, j :: 0 <= i < j < |locations| ==> locations[i] + w <= locations[j] || locations[j] + w <= locations[i]
  }

  function PatchOne(kind: PatchResult, w: nat, bufferAddress: nat, baseAddress: nat, location: nat, s: seq<uint8>)
      : (r: seq<uint8>)
    requires location + w <= |s|
    ensures |r| == |s|
  {
    var value := PatchedValue(kind, w, bufferAddress, baseAddress, location, DecodeLe(s[location..location + w]));
    Splice(s, location, EncodeLe(value, w))
  }

  function PatchAll(kind: PatchResult, w: nat, bufferAddress: nat, baseAddress: nat, locations: seq<nat>, s: seq<uint8>)
      : (r: seq<uint8>)
    requires InBuffer(|s|, w, locations)
    ensures |r| == |s|
  {
    if locations == [] then s
    else
      var n := |locations| - 1;
      PatchOne(kind, w, bufferAddress, baseAddress, locations[n],
               PatchAll(kind, w, bufferAddress, baseAddress, locations[..n], s))
  }

  /** The loop over all patch locations of a section's buffer. */
  method Patch(kind: PatchResult, w: nat, locations: seq<nat>, bufferAddress: nat, baseAddress: nat,
               buffer: array<uint8>)
    requires InBuffer(buffer.Length, w, locations)
    modifies buffer
    ensures buffer[..] == PatchAll(kind, w, bufferAddress, baseAddress, locations, old(buffer[..]))
  {
    hide PatchOne;
    for i := 0 to |locations|
      invariant buffer[..] == PatchAll(kind, w, bufferAddress, baseAddress, locations[..i], old(buffer[..]))
    {
      assert locations[..i + 1][..i] == locations[..i];
      PatchWordInPlace(kind, w, locations[i], bufferAddress, baseAddress, buffer);
    }
    assert locations[..|locations|] == locations;
  }

  method PatchWordInPlace(kind: PatchResult, w: nat, location: nat, bufferAddress: nat, baseAddress: nat,
                          buffer: array<uint8>)
    requires location + w <= buffer.Length
    modifies buffer
    ensures buffer[..] == PatchOne(kind, w, bufferAddress, baseAddress, location, old(buffer[..]))
  {
    hide PatchedValue, EncodeLe, DecodeLe, Splice;
    var value := DecodeLe(buffer[location..location + w]);
    var word := EncodeLe(PatchedValue(kind, w, bufferAddress, baseAddress, location, value), w);
    SpliceNothing(buffer[..], location);
    for b := 0 to w
      invariant buffer[..] == Splice(old(buffer[..]), location, word[..b])
    {
      SpliceMore(old(buffer[..]), location, word, b);
      ghost var now := buffer[..];
      buffer[location + b] := word[b];
      assert buffer[..] == now[location + b := word[b]];
    }
    assert word[..w] == word;
    assert old(buffer[..])[location..location + w] == old(buffer[location..location + w]);
  }

  lemma SpliceNothing(s: seq<uint8>, at: nat)
    requires at <= |s|
    ensures Splice(s, at, []) == s
  {
  }

  /** Overwriting one byte more. */
  lemma SpliceMore(s: seq<uint8>, at: nat, data: seq<uint8>, b: nat)
    requires at + |data| <= |s| && b < |data|
    ensures Splice(s, at, data[..b])[at + b := data[b]] == Splice(s, at, data[..b + 1])
  {
  }

  /** Bytes outside all patched words are untouched. */
  lemma {:induction false} PatchKeepsOthers(kind: PatchResult, w: nat, bufferAddress: nat, baseAddress: nat,
                                            locations: seq<nat>, s: seq<uint8>, b: nat)
    requires InBuffer(|s|, w, locations) && b < |s|
    requires forall i :: 0 <= i < |locations| ==> !(locations[i] <= b < locations[i] + w)
    ensures PatchAll(kind, w, bufferAddress, baseAddress, locations, s)[b] == s[b]
  {
    hide PatchedValue, EncodeLe, DecodeLe;
    if locations != [] {
      PatchKeepsOthers(kind, w, bufferAddress, baseAddress, locations[..|locations| - 1], s, b);
    }
  }

  lemma PatchKeepsRange(kind: PatchResult, w: nat, bufferAddress: nat, baseAddress: nat, locations: seq<nat>,
                        s: seq<uint8>, a: nat, c: nat)
    requires InBuffer(|s|, w, locations) && a <= c <= |s|
    requires forall i :: 0 <= i < |locations| ==> locations[i] + w <= a || c <= locations[i]
    ensures PatchAll(kind, w, bufferAddress, baseAddress, locations, s)[a..c] == s[a..c]
  {
    hide PatchAll;
    var r := PatchAll(kind, w, bufferAddress, baseAddress, locations, s);
    forall b | a <= b < c ensures r[b] == s[b] {
      PatchKeepsOthers(kind, w, bufferAddress, baseAddress, locations, s, b);
    }
  }

  /** Each listed word gets its patched value, computed from what it held before. */
  lemma {:induction false} PatchSetsWords(kind: PatchResult, w: nat, bufferAddress: nat, baseAddress: nat,
                                          locations: seq<nat>, s: seq<uint8>, i: nat)
    requires InBuffer(|s|, w, locations) && Spaced(w, locations) && i < |locations|
    ensures var l := locations[i];
            DecodeLe(PatchAll(kind, w, bufferAddress, baseAddress, locations, s)[l..l + w]) ==
            PatchedValue(kind, w, bufferAddress, baseAddress, l, DecodeLe(s[l..l + w]))
  {
    hide PatchedValue, EncodeLe, DecodeLe, PatchAll, PatchOne;
    var n, l := |locations| - 1, locations[i];
    PatchAllStep(kind, w, bufferAddress, baseAddress, locations, s);
    var before := PatchAll(kind, w, bufferAddress, baseAddress, locations[..n], s);
    if i < n {
      PatchSetsWords(kind, w, bufferAddress, baseAddress, locations[..n], s, i);
      PatchOneElsewhere(kind, w, bufferAddress, baseAddress, locations[n], before, l);
    } else {
      PatchKeepsRange(kind, w, bufferAddress, baseAddress, locations[..n], s, l, l + w);
      PatchOneHere(kind, w, bufferAddress, baseAddress, l, before);
    }
  }

  lemma PatchAllStep(kind: PatchResult, w: nat, bufferAddress: nat, baseAddress: nat, locations: seq<nat>,
                     s: seq<uint8>)
    requires InBuffer(|s|, w, locations) && locations != []
    ensures var n := |locations| - 1;
            PatchAll(kind, w, bufferAddress, baseAddress, locations, s) ==
            PatchOne(kind, w, bufferAddress, baseAddress, locations[n],
                     PatchAll(kind, w, bufferAddress, baseAddress, locations[..n], s))
  {
    hide PatchOne;
  }

  lemma PatchOneElsewhere(kind: PatchResult, w: nat, bufferAddress: nat, baseAddress: nat, location: nat, s: seq<uint8>,
                          l: nat)
    requires location + w <= |s| && l + w <= |s| && (location + w <= l || l + w <= location)
    ensures PatchOne(kind, w, bufferAddress, baseAddress, location, s)[l..l + w] == s[l..l + w]
  {
    hide PatchedValue, EncodeLe, DecodeLe;
  }

  lemma PatchOneHere(kind: PatchResult, w: nat, bufferAddress: nat, baseAddress: nat, l: nat, s: seq<uint8>)
    requires l + w <= |s|
    ensures DecodeLe(PatchOne(kind, w, bufferAddress, baseAddress, l, s)[l..l + w]) ==
            PatchedValue(kind, w, bufferAddress, baseAddress, l, DecodeLe(s[l..l + w]))
  {
    hide PatchedValue, EncodeLe, DecodeLe;
    LeRoundTrip(PatchedValue(kind, w, bufferAddress, baseAddress, l, DecodeLe(s[l..l + w])), w);
  }

  // ---------------------------------------------------------------- frame description entries

  /** What the debug information says of one method; `cfi` is its call frame information, if any. */
  datatype Info = Info(deduped: bool, low: nat, high: nat, cfi: Option<seq<uint8>>)

  function PointerSize(is64: bool): (w: nat)
    ensures w == 4 || w == 8
  {
    if is64 then 8 else 4
  }

  /** An entry after its length field: CIE pointer, address, range, empty augmentation, opcodes. */
  function FdeBody(is64: bool, start: nat, low: nat, range: nat, opcodes: seq<uint8>): (s: seq<uint8>)
    ensures |s| == 4 + 2 * PointerSize(is64) + 1 + |opcodes|
  {
    EncodeLe(start + 4, 4) + EncodeLe(low, PointerSize(is64)) + EncodeLe(range, PointerSize(is64)) + [0] + opcodes
  }

  /** Where an entry that starts at `start` ends, padding included. */
  function FdeEnd(is64: bool, start: nat, opcodes: seq<uint8>): nat {
    RoundUp(start + 4 + (4 + 2 * PointerSize(is64) + 1 + |opcodes|), PointerSize(is64))
  }

  function Fde(is64: bool, start: nat, low: nat, range: nat, opcodes: seq<uint8>): (s: seq<uint8>)
    ensures start + |s| == FdeEnd(is64, start, opcodes)
  {
    hide RoundUp, EncodeLe;
    RoundUpIsLeast(start + 4 + (4 + 2 * PointerSize(is64) + 1 + |opcodes|), PointerSize(is64));
    var end := FdeEnd(is64, start, opcodes);
    var body := FdeBody(is64, start, low, range, opcodes);
    EncodeLe(end - start - 4, 4) + body + Zeros(end - start - 4 - |body|)
  }

  datatype Frames = Frames(bytes: seq<uint8>, patches: seq<nat>, starts: seq<nat>)

  /** The `.eh_frame` section: the CIE at offset 0, then an entry for every kept method. */
  function FramesOf(is64: bool, cie: seq<uint8>, kept: seq<Info>): (f: Frames)
    requires AllKept(kept)
    ensures |f.patches| == |f.starts| == |kept|
  {
    if kept == [] then Frames(cie, [], [])
    else
      var n := |kept| - 1;
      var f, k := FramesOf(is64, cie, kept[..n]), kept[n];
      Frames(f.bytes + Fde(is64, |f.bytes|, k.low, k.high - k.low, k.cfi.value),
             f.patches + [|f.bytes| + 8], f.starts + [|f.bytes|])
  }

  function FdeOf(is64: bool, start: nat, k: Info): (s: seq<uint8>)
    requires k.cfi.Some? && k.low <= k.high
    ensures start + |s| == FdeEnd(is64, start, k.cfi.value)
  {
    Fde(is64, start, k.low, k.high - k.low, k.cfi.value)
  }

  predicate AllKept(kept: seq<Info>) {
    forall i :: 0 <= i < |kept| ==> kept[i].cfi.Some? && kept[i].low <= kept[i].high
  }

  /** Entries follow each other without overlap, and each patch location is the address field of its entry. */
  lemma {:induction false} FramesLaidOut(is64: bool, cie: seq<uint8>, kept: seq<Info>, i: nat)
    requires AllKept(kept) && i < |kept|
    ensures var f := FramesOf(is64, cie, kept);
            f.patches[i] == f.starts[i] + 8 && |cie| <= f.starts[i] &&
            ReadsAs(f.bytes, f.starts[i], FdeOf(is64, f.starts[i], kept[i])) &&
            f.starts[i] + |FdeOf(is64, f.starts[i], kept[i])| <= (if i + 1 < |kept| then f.starts[i + 1] else |f.bytes|)
    decreases |kept|
  {
    hide Fde, ReadsAs, FdeEnd, EncodeLe;
    var n := |kept| - 1;
    var f, g := FramesOf(is64, cie, kept[..n]), FramesOf(is64, cie, kept);
    var fde := Fde(is64, |f.bytes|, kept[n].low, kept[n].high - kept[n].low, kept[n].cfi.value);
    assert g.bytes == f.bytes + fde;
    if i < n {
      FramesLaidOut(is64, cie, kept[..n], i);
      ReadsAsAfterAppend(f.bytes, fde, f.starts[i], FdeOf(is64, f.starts[i], kept[i]));
    } else {
      FramesGrow(is64, cie, kept[..n]);
      ReadsAsAtEnd(f.bytes, fde);
    }
  }

  lemma {:induction false} FramesGrow(is64: bool, cie: seq<uint8>, kept: seq<Info>)
    requires AllKept(kept)
    ensures |cie| <= |FramesOf(is64, cie, kept).bytes|
    ensures |cie| % PointerSize(is64) == 0 ==> |FramesOf(is64, cie, kept).bytes| % PointerSize(is64) == 0
  {
    hide Fde;
    if kept != [] {
      var n := |kept| - 1;
      FramesGrow(is64, cie, kept[..n]);
      var start, opcodes := |FramesOf(is64, cie, kept[..n]).bytes|, kept[n].cfi.value;
      hide RoundUp;
      RoundUpIsLeast(start + 4 + (4 + 2 * PointerSize(is64) + 1 + |opcodes|), PointerSize(is64));
    }
  }

  lemma {:induction false} StartsAscend(is64: bool, cie: seq<uint8>, kept: seq<Info>, i: nat, j: nat)
    requires AllKept(kept) && i < j < |kept|
    ensures var f := FramesOf(is64, cie, kept);
            f.starts[i] + |FdeOf(is64, f.starts[i], kept[i])| <= f.starts[j]
    decreases j
  {
    hide FramesOf, Fde, ReadsAs;
    FramesLaidOut(is64, cie, kept, j - 1);
    if i + 1 < j {
      StartsAscend(is64, cie, kept, i, j - 1);
    }
  }

  // ---------------------------------------------------------------- the search table

  /** `std::map::emplace`: the first value of a key is kept. */
  function Emplace(table: Entries<nat, nat>, k: nat, v: nat): Entries<nat, nat> {
    var less := (a: nat, b: nat) => a < b;
    if Find(less, table, k).Some? then table else PutBefore(table, LowerBound(less, table, k), k, v)
  }

  lemma EmplaceLast(table: Entries<nat, nat>, k: nat, v: nat)
    requires forall i :: 0 <= i < |table| ==> table[i].0 < k
    ensures Emplace(table, k, v) == table + [(k, v)]
  {
    var less := (a: nat, b: nat) => a < b;
    assert LowerBound(less, table, k) == |table|;
  }

  function TableOf(is64: bool, cie: seq<uint8>, kept: seq<Info>): Entries<nat, nat>
    requires AllKept(kept)
  {
    if kept == [] then []
    else
      var n := |kept| - 1;
      Emplace(TableOf(is64, cie, kept[..n]), kept[n].low, |FramesOf(is64, cie, kept[..n]).bytes|)
  }

  /** Code ranges ascend without overlap. */
  predicate Ascending(kept: seq<Info>) {
    (forall i :: 0 <= i < |kept| ==> kept[i].low < kept[i].high) &&
    (forall i, j :: 0 <= i < j < |kept| ==> kept[i].high <= kept[j].low)
  }

  /** The table lists every kept method, in order of address, with the offset of its entry. */
  lemma {:induction false} TableIsOrdered(is64: bool, cie: seq<uint8>, kept: seq<Info>)
    requires AllKept(kept) && Ascending(kept)
    ensures |TableOf(is64, cie, kept)| == |kept|
    ensures forall i :: 0 <= i < |kept| ==>
              TableOf(is64, cie, kept)[i] == (kept[i].low, FramesOf(is64, cie, kept).starts[i])
  {
    hide Emplace, FramesOf, TableOf, FdeOf;
    if kept == [] {
      NothingKept(is64, cie);
    } else {
      var n := |kept| - 1;
      TableIsOrdered(is64, cie, kept[..n]);
      FramesStep(is64, cie, kept);
      TableStep(is64, cie, kept);
      EmplaceLast(TableOf(is64, cie, kept[..n]), kept[n].low, |FramesOf(is64, cie, kept[..n]).bytes|);
    }
  }

  function HdrEntry(frameSize: nat, entry: (nat, nat)): (s: seq<uint8>)
    ensures |s| == 8
  {
    EncodeLe(U32(entry.0), 4) + EncodeLe(U32(entry.1 - frameSize), 4)
  }

  function HdrEntries(frameSize: nat, table: Entries<nat, nat>): (s: seq<uint8>)
    ensures |s| == 8 * |table|
  {
    if table == [] then [] else HdrEntries(frameSize, table[..|table| - 1]) + HdrEntry(frameSize, table[|table| - 1])
  }

  /** Version, encodings, pointer to the frames and number of entries. */
  function HdrStart(frameSize: nat, count: nat): (s: seq<uint8>)
    ensures |s| == 12
  {
    [1, 0x1b, 0x03, 0x3b] + EncodeLe(U32(0 - frameSize - 4), 4) + EncodeLe(U32(count), 4)
  }

  function Hdr(frameSize: nat, table: Entries<nat, nat>): (s: seq<uint8>)
    ensures |s| == 12 + 8 * |table|
  {
    HdrStart(frameSize, |table|) + HdrEntries(frameSize, table)
  }

  function HdrPatches(count: nat): (ps: seq<nat>)
    ensures |ps| == count && forall e :: 0 <= e < count ==> ps[e] == 12 + 8 * e
  {
    seq(count, e => 12 + 8 * e)
  }

  lemma {:induction false} EntryAt(frameSize: nat, table: Entries<nat, nat>, e: nat)
    requires e < |table|
    ensures ReadsAs(HdrEntries(frameSize, table), 8 * e, HdrEntry(frameSize, table[e]))
    decreases |table|
  {
    hide HdrEntry, ReadsAs;
    var n := |table| - 1;
    if e < n {
      EntryAt(frameSize, table[..n], e);
      ReadsAsAfterAppend(HdrEntries(frameSize, table[..n]), HdrEntry(frameSize, table[n]), 8 * e,
                         HdrEntry(frameSize, table[e]));
    } else {
      ReadsAsAtEnd(HdrEntries(frameSize, table[..n]), HdrEntry(frameSize, table[n]));
    }
  }

  // ---------------------------------------------------------------- writing both sections

  /** One entry per unique address: duplicates and methods without call frame information are skipped. */
  function Kept(infos: seq<Info>, k: nat): (r: seq<Info>)
    requires k <= |infos|
  {
    if k == 0 then []
    else if IsKept(infos[k - 1]) then Kept(infos, k - 1) + [infos[k - 1]]
    else Kept(infos, k - 1)
  }

  predicate IsKept(info: Info) {
    !info.deduped && info.cfi.Some?
  }

  predicate Ranges(infos: seq<Info>) {
    forall i :: 0 <= i < |infos| && IsKept(infos[i]) ==> infos[i].low <= infos[i].high
  }

  lemma {:induction false} KeptAreKept(infos: seq<Info>, k: nat)
    requires k <= |infos| && Ranges(infos)
    ensures AllKept(Kept(infos, k))
  {
    if k > 0 {
      KeptAreKept(infos, k - 1);
    }
  }

  class CfiWriter {
    var frame: seq<uint8>
    var framePatches: seq<nat>
    var hdr: seq<uint8>
    var hdrPatches: seq<nat>

    constructor ()
      ensures frame == [] && framePatches == [] && hdr == [] && hdrPatches == []
    {
      frame, framePatches, hdr, hdrPatches := [], [], [], [];
    }

    /** The length is written last, over its placeholder. */
    method WriteFde(is64: bool, low: nat, range: nat, opcodes: seq<uint8>)
      modifies this`frame, this`framePatches
      ensures frame == old(frame) + Fde(is64, |old(frame)|, low, range, opcodes)
      ensures framePatches == old(framePatches) + [|old(frame)| + 8]
    {
      hide RoundUp, EncodeLe, Splice, Zeros, FdeBody;
      ghost var was, body := frame, FdeBody(is64, |frame|, low, range, opcodes);
      var start, w := |frame|, PointerSize(is64);
      WriteFdeBody(is64, low, range, opcodes);
      RoundUpIsLeast(|frame|, w);
      var padding := Zeros(RoundUp(|frame|, w) - |frame|);
      frame := frame + padding;
      var length := EncodeLe(|frame| - start - 4, 4);
      ReplaceLength(was, EncodeLe(0, 4), length, body, padding);
      frame := Splice(frame, start, length);
    }

    /** An entry up to its padding, with the length still 0. */
    method WriteFdeBody(is64: bool, low: nat, range: nat, opcodes: seq<uint8>)
      modifies this`frame, this`framePatches
      ensures frame == old(frame) + EncodeLe(0, 4) + FdeBody(is64, |old(frame)|, low, range, opcodes)
      ensures framePatches == old(framePatches) + [|old(frame)| + 8]
    {
      hide EncodeLe;
      var w := PointerSize(is64);
      frame := frame + EncodeLe(0, 4);
      frame := frame + EncodeLe(|frame|, 4);
      framePatches := framePatches + [|frame|];
      frame := frame + EncodeLe(low, w);
      frame := frame + EncodeLe(range, w);
      frame := frame + [0];
      frame := frame + opcodes;
    }

    /** Writes frames and search table; the table is kept in a map ordered by address. */
    method WriteCfiSection(is64: bool, cie: seq<uint8>, infos: seq<Info>)
      requires Ranges(infos) && frame == [] && framePatches == [] && hdr == [] && hdrPatches == []
      modifies this
      ensures AllKept(Kept(infos, |infos|))
      ensures var kept := Kept(infos, |infos|);
              var f, t := FramesOf(is64, cie, kept), TableOf(is64, cie, kept);
              frame == f.bytes && framePatches == f.patches && hdr == Hdr(|f.bytes|, t) && hdrPatches == HdrPatches(|t|)
    {
      hide Fde, Emplace, FramesOf, TableOf, HdrEntry, HdrStart;
      var table: Entries<nat, nat> := [];
      frame := frame + cie;
      NothingKept(is64, cie);
      KeptAreKept(infos, 0);
      for i := 0 to |infos|
        invariant hdr == [] && hdrPatches == [] && AllKept(Kept(infos, i))
        invariant frame == FramesOf(is64, cie, Kept(infos, i)).bytes &&
                  framePatches == FramesOf(is64, cie, Kept(infos, i)).patches
        invariant table == TableOf(is64, cie, Kept(infos, i))
      {
        KeptAreKept(infos, i + 1);
        var mi := infos[i];
        if !mi.deduped {
          match mi.cfi
          case Some(opcodes) =>
            OneMoreFrame(is64, cie, Kept(infos, i), mi);
            table := Emplace(table, mi.low, |frame|);
            WriteFde(is64, mi.low, mi.high - mi.low, opcodes);
          case None =>
        }
      }
      var frameSize := |frame|;
      hdr := HdrStart(frameSize, |table|);
      for e := 0 to |table|
        invariant hdr == HdrStart(frameSize, |table|) + HdrEntries(frameSize, table[..e]) && hdrPatches == HdrPatches(e)
        invariant frame == FramesOf(is64, cie, Kept(infos, |infos|)).bytes
        invariant framePatches == FramesOf(is64, cie, Kept(infos, |infos|)).patches
      {
        hdrPatches := hdrPatches + [|hdr|];
        assert table[..e + 1][..e] == table[..e];
        hdr := hdr + HdrEntry(frameSize, table[e]);
      }
      assert table[..|table|] == table;
    }
  }

  lemma ReplaceLength(a: seq<uint8>, x: seq<uint8>, y: seq<uint8>, body: seq<uint8>, padding: seq<uint8>)
    requires |x| == |y|
    ensures Splice(a + x + body + padding, |a|, y) == a + (y + body + padding)
  {
    var s := a + x + body + padding;
    assert s[..|a|] == a;
    assert s[|a| + |y|..] == body + padding;
  }

  lemma NothingKept(is64: bool, cie: seq<uint8>)
    ensures FramesOf(is64, cie, []) == Frames(cie, [], []) && TableOf(is64, cie, []) == []
  {
  }

  lemma OneMoreFrame(is64: bool, cie: seq<uint8>, kept: seq<Info>, k: Info)
    requires AllKept(kept) && AllKept(kept + [k])
    ensures var f, g := FramesOf(is64, cie, kept), FramesOf(is64, cie, kept + [k]);
            g.bytes == f.bytes + FdeOf(is64, |f.bytes|, k) && g.patches == f.patches + [|f.bytes| + 8]
    ensures TableOf(is64, cie, kept + [k]) ==
              Emplace(TableOf(is64, cie, kept), k.low, |FramesOf(is64, cie, kept).bytes|)
  {
    hide Fde, Emplace, AllKept;
    var all := kept + [k];
    LastKept(kept, k);
    FramesStep(is64, cie, all);
    TableStep(is64, cie, all);
  }

  lemma LastKept(kept: seq<Info>, k: Info)
    requires AllKept(kept + [k])
    ensures k.cfi.Some? && k.low <= k.high && (kept + [k])[..|kept|] == kept
  {
    assert (kept + [k])[|kept|] == k;
  }

  lemma FramesStep(is64: bool, cie: seq<uint8>, all: seq<Info>)
    requires AllKept(all) && all != []
    ensures var n := |all| - 1;
            var f, g := FramesOf(is64, cie, all[..n]), FramesOf(is64, cie, all);
            g == Frames(f.bytes + FdeOf(is64, |f.bytes|, all[n]), f.patches + [|f.bytes| + 8], f.starts + [|f.bytes|])
  {
    hide Fde;
  }

  lemma TableStep(is64: bool, cie: seq<uint8>, all: seq<Info>)
    requires AllKept(all) && all != []
    ensures var n := |all| - 1;
            TableOf(is64, cie, all) == Emplace(TableOf(is64, cie, all[..n]), all[n].low,
                                               |FramesOf(is64, cie, all[..n]).bytes|)
  {
    hide Fde, Emplace, FramesOf;
  }

  // ---------------------------------------------------------------- the methods of an oat file

  /** Debug information of the visited methods, with addresses relative to `.text`. */
  function MethodInfo(l: Linker, exec: nat, start: nat, vs: seq<Visited>, i: nat): Info
    requires i < |vs|
  {
    var d := DebugInfoOf(l, exec, PlanAt(l, start, vs, i), vs[i]);
    Info(d.deduped, U32(d.lowPc), U32(d.highPc), vs[i].compiled.cfi)
  }

  function MethodInfos(l: Linker, exec: nat, start: nat, vs: seq<Visited>)
      : (infos: seq<Info>)
    ensures |infos| == |vs|
    ensures forall i :: 0 <= i < |vs| ==> infos[i] == MethodInfo(l, exec, start, vs, i)
  {
    seq(|vs|, i requires 0 <= i < |vs| => MethodInfo(l, exec, start, vs, i))
  }

  /** What the unwinding sections are made of, taken from the debug information that the oat writer records. */
  function InfoOf(d: DebugInfo): Info {
    Info(d.deduped, U32(d.lowPc), U32(d.highPc), d.compiled.cfi)
  }

  function InfosOf(ds: seq<DebugInfo>): (infos: seq<Info>)
    ensures |infos| == |ds| && forall i :: 0 <= i < |ds| ==> infos[i] == InfoOf(ds[i])
  {
    seq(|ds|, i requires 0 <= i < |ds| => InfoOf(ds[i]))
  }

  lemma {:induction false} DebugInfoAt(l: Linker, exec: nat, start: nat, vs: seq<Visited>, k: nat, i: nat)
    requires i < k <= |vs|
    ensures DebugInfos(l, exec, start, vs, k)[i] == DebugInfoOf(l, exec, PlanAt(l, start, vs, i), vs[i])
    decreases k
  {
    hide PlanAt, DebugInfoOf;
    if i < k - 1 {
      DebugInfoAt(l, exec, start, vs, k - 1, i);
    }
  }

  /** The debug information that planning records for the visited methods is the model of them used here. */
  lemma RecordedInfos(l: Linker, exec: nat, start: nat, vs: seq<Visited>)
    ensures InfosOf(DebugInfos(l, exec, start, vs, |vs|)) == MethodInfos(l, exec, start, vs)
  {
    hide PlanAt, DebugInfos, IsDuplicate, CodeOffset;
    forall i | 0 <= i < |vs|
      ensures InfoOf(DebugInfos(l, exec, start, vs, |vs|)[i]) == MethodInfo(l, exec, start, vs, i)
    {
      DebugInfoAt(l, exec, start, vs, |vs|, i);
    }
  }

  /** A method that is not a duplicate has a non-empty range inside `.text`. */
  lemma RangeOf(l: Linker, exec: nat, start: nat, vs: seq<Visited>, i: nat)
    requires i < |vs| && l.AllCompilable(vs) && exec <= start
    requires !MethodInfo(l, exec, start, vs, i).deduped && PlanAt(l, start, vs, |vs|).offset - exec < WORD
    ensures !Duplicate(l, start, vs, i)
    ensures var info := MethodInfo(l, exec, start, vs, i);
            info.low == OffsetOf(l, start, vs, i) - l.isa.CodeDelta() - exec &&
            info.high == info.low + |l.Code(vs[i].compiled)| && info.low < info.high
  {
    hide PlanAt, CodeStart, U32;
    assert l.Compilable(vs[i].compiled);
    PlanStartsAtStart(l, start, vs, i);
    PlacedBelowCursor(l, start, vs, i, |vs|);
  }

  /** Kept entries have disjoint, strictly increasing code ranges. */
  ghost predicate InfosAscend(infos: seq<Info>) {
    (forall i :: 0 <= i < |infos| && IsKept(infos[i]) ==> infos[i].low < infos[i].high) &&
    (forall i, j :: 0 <= i < j < |infos| && IsKept(infos[i]) && IsKept(infos[j]) ==> infos[i].high <= infos[j].low)
  }

  lemma MethodsAscend(l: Linker, exec: nat, start: nat, vs: seq<Visited>)
    requires l.AllCompilable(vs) && exec <= start
    requires PlanAt(l, start, vs, |vs|).offset - exec < WORD
    ensures InfosAscend(MethodInfos(l, exec, start, vs))
  {
    hide PlanAt, MethodInfo, Duplicate, OffsetOf;
    var infos := MethodInfos(l, exec, start, vs);
    forall i | 0 <= i < |infos| && IsKept(infos[i]) ensures infos[i].low < infos[i].high {
      RangeOf(l, exec, start, vs, i);
    }
    forall i, j | 0 <= i < j < |infos| && IsKept(infos[i]) && IsKept(infos[j]) ensures infos[i].high <= infos[j].low {
      RangeOf(l, exec, start, vs, i);
      RangeOf(l, exec, start, vs, j);
      PlacedRangesAscend(l, start, vs, i, j);
    }
  }

  lemma {:induction false} KeptAscend(infos: seq<Info>, k: nat)
    requires k <= |infos| && InfosAscend(infos)
    ensures AllKept(Kept(infos, k)) && Ascending(Kept(infos, k))
    ensures forall x :: x in Kept(infos, k) ==> exists i :: 0 <= i < k && infos[i] == x && IsKept(infos[i])
  {
    if k > 0 {
      KeptAscend(infos, k - 1);
      var before := Kept(infos, k - 1);
      if IsKept(infos[k - 1]) {
        forall i | 0 <= i < |before| ensures before[i].high <= infos[k - 1].low {
          assert before[i] in before;
        }
      }
    }
  }

  /** The unwinding sections of every oat file meet the conditions under which lookups succeed. */
  lemma OatMethodsUnwind(l: Linker, exec: nat, start: nat, vs: seq<Visited>)
    requires l.AllCompilable(vs) && exec <= start
    requires PlanAt(l, start, vs, |vs|).offset - exec < WORD
    ensures var infos := MethodInfos(l, exec, start, vs);
            Ranges(infos) && AllKept(Kept(infos, |infos|)) && Ascending(Kept(infos, |infos|))
  {
    hide PlanAt, MethodInfo, Linker.AllCompilable;
    MethodsAscend(l, exec, start, vs);
    KeptAscend(MethodInfos(l, exec, start, vs), |vs|);
  }
}
