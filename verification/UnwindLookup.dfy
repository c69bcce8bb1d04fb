/**
 * Finding a method's call frame information from an address: the reader of the patched `.eh_frame` and
 * `.eh_frame_hdr` sections, and what it finds for every address.
 */
module UnwindLookup {
  import opened Arith
  import opened Words
  import opened SafeMap
  import opened Unwind

  // ---------------------------------------------------------------- the reader

  /** Version, and the encodings of frame pointer (pcrel, sdata4), count (udata4) and table (datarel, sdata4). */
  const ENCODINGS: seq<uint8> := [1, 0x1b, 0x03, 0x3b]

  /** The two sections as they are mapped. The reader knows their bytes and addresses and nothing else. */
  datatype Mapped = Mapped(is64: bool, frames: seq<uint8>, eh: nat, table: seq<uint8>, hdr: nat) {

    predicate HasEntries(n: nat) {
      12 + 8 * n <= |table|
    }

    function Width(): nat {
      PointerSize(is64)
    }

    /** `DW_EH_PE_sdata4`: a sign-extended word, added to the address it is relative to. */
    function Relative(base: nat, at: nat): nat
      requires at + 4 <= |table|
    {
      (base + Signed32(PointerAt(table, at, 4))) % Pow256(Width())
    }

    /** The first column of the search table, relative to the table. */
    function LocationOf(e: nat): nat
      requires HasEntries(e + 1)
    {
      Relative(hdr, 12 + 8 * e)
    }

    function FdeAddressOf(e: nat): nat
      requires HasEntries(e + 1)
    {
      Relative(hdr, 16 + 8 * e)
    }

    /** One more than the greatest entry that is not above `pc`; 0 if there is none. */
    function Search(pc: nat, n: nat): (k: nat)
      requires HasEntries(n)
      ensures k <= n && (k > 0 ==> LocationOf(k - 1) <= pc)
      ensures forall e :: k <= e < n ==> LocationOf(e) > pc
    {
      if n == 0 then 0 else if LocationOf(n - 1) <= pc then n else Search(pc, n - 1)
    }

    /** The instructions of the entry at `at`, if it is well-formed and covers `pc`. */
    function ReadFde(at: nat, pc: nat): Option<seq<uint8>> {
      var w := Width();
      var start := at + 9 + 2 * w;
      if start > |frames| || PointerAt(frames, at + 4, 4) != at + 4 || frames[at + 8 + 2 * w] != 0 then None
      else
        var end := at + 4 + PointerAt(frames, at, 4);
        var first := (eh + at + 8 + PointerAt(frames, at + 8, w)) % Pow256(w);
        if start <= end <= |frames| && first <= pc < first + PointerAt(frames, at + 8 + w, w) then
          Some(frames[start..end])
        else None
    }

    /** From an address to call frame instructions, by way of the search table. */
    function Lookup(pc: nat): Option<seq<uint8>> {
      if |table| < 12 || table[..4] != ENCODINGS || !HasEntries(PointerAt(table, 8, 4)) then None
      else
        var k := Search(pc, PointerAt(table, 8, 4));
        if k == 0 || FdeAddressOf(k - 1) < eh then None
        else ReadFde(FdeAddressOf(k - 1) - eh, pc)
    }
  }

  // ---------------------------------------------------------------- what was written

  /** Addresses below this can be added to without leaving the pointer's range. */
  function AddressLimit(is64: bool): nat {
    if is64 then 0x8000_0000_0000_0000 else WORD
  }

  /** What was written: `.text` at `text`, `.eh_frame` for the kept methods at `eh`, the table right behind it. */
  datatype Unwinding = Unwinding(is64: bool, cie: seq<uint8>, kept: seq<Info>, text: nat, eh: nat) {

    /** Sizes are 32-bit words, code lies below the frames, and all addresses are in range. */
    ghost predicate Valid() {
      AllKept(kept) && Ascending(kept) && |cie| % PointerSize(is64) == 0 && |kept| < WORD && |F().bytes| < WORD &&
      (forall i :: 0 <= i < |kept| ==> kept[i].high < WORD && text + kept[i].high <= eh) &&
      HdrAddress() + |Table()| <= AddressLimit(is64)
    }

    ghost function F(): Frames
      requires AllKept(kept)
    {
      FramesOf(is64, cie, kept)
    }

    ghost function HdrAddress(): nat
      requires AllKept(kept)
    {
      eh + |F().bytes|
    }

    ghost function Table(): seq<uint8>
      requires AllKept(kept)
    {
      Hdr(|F().bytes|, TableOf(is64, cie, kept))
    }

    /** The table after patching. */
    ghost function PatchedTable(): (s: seq<uint8>)
      requires Valid()
      ensures |s| == 12 + 8 * |kept|
    {
      hide Hdr, PatchAll, FramesOf, TableOf;
      TableIsOrdered(is64, cie, kept);
      PatchAll(SectionRelativeAddress, 4, HdrAddress(), text, HdrPatches(|kept|), Table())
    }

    /** The frames after patching. */
    ghost function PatchedFrames(): (s: seq<uint8>)
      requires Valid()
      ensures |s| == |F().bytes|
    {
      hide PatchAll, FramesOf;
      PatchesInFrames(is64, cie, kept);
      PatchAll(PointerRelativeAddress, PointerSize(is64), eh, text, F().patches, F().bytes)
    }

    ghost function M(): (m: Mapped)
      requires Valid()
      ensures m.is64 == is64 && m.eh == eh && m.hdr == HdrAddress() && m.HasEntries(|kept|)
    {
      Mapped(is64, PatchedFrames(), eh, PatchedTable(), HdrAddress())
    }

    /** The first code address that has an entry is near enough to be written as a signed word. */
    ghost predicate InReach()
      requires AllKept(kept)
    {
      kept == [] || Near(is64, HdrAddress(), text + kept[0].low)
    }
  }

  /** `target`, below `base`, can be written as a signed word relative to `base`; on 32 bits everything can. */
  predicate Near(is64: bool, base: nat, target: nat) {
    !is64 || base - target <= 0x8000_0000
  }

  lemma PatchesInFrames(is64: bool, cie: seq<uint8>, kept: seq<Info>)
    requires AllKept(kept)
    ensures var f := FramesOf(is64, cie, kept);
            InBuffer(|f.bytes|, PointerSize(is64), f.patches) && Spaced(PointerSize(is64), f.patches)
  {
    hide FramesOf, PointerSize;
    var f, w := FramesOf(is64, cie, kept), PointerSize(is64);
    forall i | 0 <= i < |f.patches| ensures f.patches[i] + w <= |f.bytes| {
      PatchInFrames(is64, cie, kept, i, i);
    }
    forall i, j | 0 <= i < j < |f.patches| ensures f.patches[i] + w <= f.patches[j] {
      PatchInFrames(is64, cie, kept, i, j);
    }
  }

  /** An address field lies inside its own entry. */
  lemma PatchInFrames(is64: bool, cie: seq<uint8>, kept: seq<Info>, i: nat, j: nat)
    requires AllKept(kept) && i <= j < |kept|
    ensures var f := FramesOf(is64, cie, kept);
            f.patches[i] + PointerSize(is64) <= (if i < j then f.patches[j] else |f.bytes|)
  {
    hide FramesOf, Fde, ReadsAs, FdeOf;
    var f := FramesOf(is64, cie, kept);
    FramesLaidOut(is64, cie, kept, i);
    FdeLength(is64, f.starts[i], kept[i]);
    ReadsAsBound(f.bytes, f.starts[i], FdeOf(is64, f.starts[i], kept[i]));
    if i < j {
      FramesLaidOut(is64, cie, kept, j);
      StartsAscend(is64, cie, kept, i, j);
    }
  }

  lemma ReadsAsBound(s: seq<uint8>, at: nat, data: seq<uint8>)
    requires ReadsAs(s, at, data)
    ensures at + |data| <= |s|
  {
  }

  lemma FdeLength(is64: bool, start: nat, k: Info)
    requires k.cfi.Some? && k.low <= k.high
    ensures |FdeOf(is64, start, k)| >= 9 + 2 * PointerSize(is64) + |k.cfi.value|
  {
    hide RoundUp, Fde;
    RoundUpIsLeast(start + 4 + (4 + 2 * PointerSize(is64) + 1 + |k.cfi.value|), PointerSize(is64));
  }

  lemma HdrWords(size: nat, t: Entries<nat, nat>, e: nat)
    requires e < |t|
    ensures PointerAt(Hdr(size, t), 12 + 8 * e, 4) == U32(t[e].0)
    ensures PointerAt(Hdr(size, t), 16 + 8 * e, 4) == U32(t[e].1 - size)
  {
    hide DecodeLe, EncodeLe, HdrEntries, HdrStart, U32, ReadsAs;
    EntryAt(size, t, e);
    EntryWords(HdrStart(size, |t|), HdrEntries(size, t), 8 * e, U32(t[e].0), U32(t[e].1 - size));
  }

  lemma EntryWords(a: seq<uint8>, b: seq<uint8>, at: nat, x: nat, y: nat)
    requires ReadsAs(b, at, EncodeLe(x, 4) + EncodeLe(y, 4)) && x < WORD && y < WORD
    ensures |a| + at + 8 <= |a + b|
    ensures DecodeLe((a + b)[|a| + at..|a| + at + 4]) == x && DecodeLe((a + b)[|a| + at + 4..|a| + at + 8]) == y
  {
    hide EncodeLe, DecodeLe;
    var d := EncodeLe(x, 4) + EncodeLe(y, 4);
    assert (a + b)[|a| + at..|a| + at + 4] == b[at..at + 8][..4] == d[..4] == EncodeLe(x, 4);
    assert (a + b)[|a| + at + 4..|a| + at + 8] == b[at..at + 8][4..] == d[4..] == EncodeLe(y, 4);
    WordRoundTrip(x);
    WordRoundTrip(y);
  }

  lemma WordRoundTrip(x: nat)
    requires x < WORD
    ensures DecodeLe(EncodeLe(x, 4)) == x
  {
    Pow256Four();
    LeRoundTrip(x, 4);
  }

  lemma StartWords(size: nat, t: Entries<nat, nat>)
    requires |t| < WORD
    ensures PointerAt(Hdr(size, t), 4, 4) == U32(0 - size - 4) && PointerAt(Hdr(size, t), 8, 4) == |t|
    ensures Hdr(size, t)[..4] == ENCODINGS
  {
    hide DecodeLe, EncodeLe, HdrEntries, U32;
    var h := Hdr(size, t);
    assert h[4..8] == EncodeLe(U32(0 - size - 4), 4);
    assert h[8..12] == EncodeLe(U32(|t|), 4);
    WordRoundTrip(U32(0 - size - 4));
    WordRoundTrip(U32(|t|));
  }

  lemma WrittenWords(u: Unwinding, e: nat)
    requires AllKept(u.kept) && Ascending(u.kept) && e < |u.kept|
    ensures |u.Table()| == 12 + 8 * |u.kept|
    ensures PointerAt(u.Table(), 12 + 8 * e, 4) == U32(u.kept[e].low)
    ensures PointerAt(u.Table(), 16 + 8 * e, 4) == U32(u.F().starts[e] - |u.F().bytes|)
  {
    hide *;
    TableIsOrdered(u.is64, u.cie, u.kept);
    HdrWords(|FramesOf(u.is64, u.cie, u.kept).bytes|, TableOf(u.is64, u.cie, u.kept), e);
    Unfolded(u);
  }

  lemma Unfolded(u: Unwinding)
    requires AllKept(u.kept)
    ensures u.F() == FramesOf(u.is64, u.cie, u.kept)
    ensures u.Table() == Hdr(|FramesOf(u.is64, u.cie, u.kept).bytes|, TableOf(u.is64, u.cie, u.kept))
  {
  }

  lemma PatchedWords(u: Unwinding, e: nat)
    requires u.Valid() && e < |u.kept| && |u.Table()| == 12 + 8 * |u.kept|
    ensures PointerAt(u.PatchedTable(), 12 + 8 * e, 4) ==
            (u.text + PointerAt(u.Table(), 12 + 8 * e, 4) - u.HdrAddress()) % Pow256(4)
    ensures PointerAt(u.PatchedTable(), 16 + 8 * e, 4) == PointerAt(u.Table(), 16 + 8 * e, 4)
  {
    hide FramesOf, TableOf, DecodeLe, Hdr, PatchAll, Pow256;
    var ps, t := HdrPatches(|u.kept|), u.Table();
    PatchSetsWords(SectionRelativeAddress, 4, u.HdrAddress(), u.text, ps, t, e);
    PatchKeepsRange(SectionRelativeAddress, 4, u.HdrAddress(), u.text, ps, t, 16 + 8 * e, 20 + 8 * e);
  }

  // ---------------------------------------------------------------- decoding the table

  /** Subtracting and adding an address, modulo the word size. */
  lemma SubtractAdd(x: nat, y: nat, m: nat)
    requires x < m
    ensures (y + (x - y) % m) % m == x
  {
    var q := (x - y) / m;
    assert (x - y) % m == x - y - q * m;
    assert y + (x - y) % m == x - q * m;
    if q <= 0 {
      assert x - q * m == (0 - q) * m + x;
      DivModUnique(y + (x - y) % m, m, 0 - q, x);
    } else {
      MulLe(1, q, m);
      assert false;
    }
  }

  /** A signed word leads from `base` back to `target` exactly when `target` is near; otherwise above it. */
  lemma SignedWordIff(is64: bool, base: nat, target: nat)
    requires target <= base <= AddressLimit(is64) && target < AddressLimit(is64)
    ensures var r := (base + Signed32((target - base) % WORD)) % Pow256(PointerSize(is64));
            if Near(is64, base, target) then r == target else r > target
  {
    if is64 {
      Pow256Eight();
      FarWord(base, target);
    } else {
      Pow256Four();
      NearWord(base, target);
    }
  }

  lemma NearWord(base: nat, target: nat)
    requires target < WORD
    ensures (base + Signed32((target - base) % WORD)) % WORD == target
  {
    SubtractAdd(target, base, WORD);
  }

  lemma FarWord(base: nat, target: nat)
    requires target <= base <= 0x8000_0000_0000_0000
    ensures var r := base + Signed32((target - base) % WORD);
            0 <= r < 0x1_0000_0000_0000_0000 && if base - target <= 0x8000_0000 then r == target else r > target
  {
  }

  lemma Bounds(u: Unwinding, e: nat)
    requires u.Valid() && e < |u.kept|
    ensures u.kept[e].low < u.kept[e].high < WORD && u.text + u.kept[e].high <= u.eh
    ensures u.F().starts[e] < |u.F().bytes| < WORD && u.eh + |u.F().bytes| == u.HdrAddress() < AddressLimit(u.is64)
  {
    hide FramesOf, TableOf, Hdr, ReadsAs, FdeOf, AddressLimit;
    FramesLaidOut(u.is64, u.cie, u.kept, e);
    FdeLength(u.is64, u.F().starts[e], u.kept[e]);
    ReadsAsBound(u.F().bytes, u.F().starts[e], FdeOf(u.is64, u.F().starts[e], u.kept[e]));
    TableIsOrdered(u.is64, u.cie, u.kept);
  }

  /** Entry `e` decodes to the address of method `e` exactly when that is near enough; otherwise to one above it. */
  lemma LocationIff(u: Unwinding, e: nat)
    requires u.Valid() && e < |u.kept|
    ensures u.M().HasEntries(e + 1)
    ensures var target := u.text + u.kept[e].low;
            if Near(u.is64, u.HdrAddress(), target) then u.M().LocationOf(e) == target else u.M().LocationOf(e) > target
  {
    hide FramesOf, TableOf, Hdr, PatchAll, Pow256, AllKept, Ascending, U32, PointerAt, Near, AddressLimit, Signed32;
    Bounds(u, e);
    WrittenWords(u, e);
    PatchedWords(u, e);
    Pow256Four();
    SignedWordIff(u.is64, u.HdrAddress(), u.text + u.kept[e].low);
  }

  lemma FdeAddressIff(u: Unwinding, e: nat)
    requires u.Valid() && e < |u.kept|
    ensures u.M().HasEntries(e + 1)
    ensures var target := u.eh + u.F().starts[e];
            if Near(u.is64, u.HdrAddress(), target) then u.M().FdeAddressOf(e) == target
            else u.M().FdeAddressOf(e) > target
  {
    hide FramesOf, TableOf, Hdr, PatchAll, Pow256, AllKept, Ascending, PointerAt, Near, AddressLimit, Signed32;
    Bounds(u, e);
    WrittenWords(u, e);
    PatchedWords(u, e);
    SignedWordIff(u.is64, u.HdrAddress(), u.eh + u.F().starts[e]);
  }

  /** All entries decode right exactly when the first does. */
  lemma TableDecodesIff(u: Unwinding)
    requires u.Valid()
    ensures u.InReach() <==>
            forall e :: 0 <= e < |u.kept| ==> u.M().LocationOf(e) == u.text + u.kept[e].low &&
                                              u.M().FdeAddressOf(e) == u.eh + u.F().starts[e]
  {
    hide FramesOf, TableOf, Hdr, PatchAll, U32, PointerAt, AddressLimit, Signed32, Mapped.LocationOf,
         Mapped.FdeAddressOf;
    forall e | 0 <= e < |u.kept|
      ensures u.InReach() ==> Near(u.is64, u.HdrAddress(), u.text + u.kept[e].low)
      ensures u.InReach() ==> Near(u.is64, u.HdrAddress(), u.eh + u.F().starts[e])
      ensures Near(u.is64, u.HdrAddress(), u.text + u.kept[e].low) <==> u.M().LocationOf(e) == u.text + u.kept[e].low
      ensures Near(u.is64, u.HdrAddress(), u.eh + u.F().starts[e]) <==> u.M().FdeAddressOf(e) == u.eh + u.F().starts[e]
    {
      Bounds(u, e);
      LocationIff(u, e);
      FdeAddressIff(u, e);
    }
  }

  /** The table's own pointer leads to the frames exactly when they are near; its count is the number of methods. */
  lemma HdrPointsToFramesIff(u: Unwinding)
    requires u.Valid()
    ensures u.M().Relative(u.HdrAddress() + 4, 4) == u.eh <==> Near(u.is64, u.HdrAddress() + 4, u.eh)
    ensures PointerAt(u.M().table, 8, 4) == |u.kept| && u.M().table[..4] == ENCODINGS
  {
    hide FramesOf, TableOf, Hdr, PatchAll, HdrPatches, Pow256, Near, Signed32, PointerAt;
    HeaderKept(u);
    var start, table := Hdr(|u.F().bytes|, TableOf(u.is64, u.cie, u.kept)), u.M().table;
    StartWords(|u.F().bytes|, TableOf(u.is64, u.cie, u.kept));
    SamePointer(start, table, 4);
    SamePointer(start, table, 8);
    SignedWordIff(u.is64, u.HdrAddress() + 4, u.eh);
  }

  /** Patching leaves the header alone. */
  lemma HeaderKept(u: Unwinding)
    requires u.Valid()
    ensures |TableOf(u.is64, u.cie, u.kept)| == |u.kept|
    ensures |u.M().table| >= 12 && u.M().table[..12] == Hdr(|u.F().bytes|, TableOf(u.is64, u.cie, u.kept))[..12]
  {
    hide FramesOf, TableOf, Hdr, PatchAll, Pow256;
    TableIsOrdered(u.is64, u.cie, u.kept);
    PatchKeepsRange(SectionRelativeAddress, 4, u.HdrAddress(), u.text, HdrPatches(|u.kept|), u.Table(), 0, 12);
  }

  lemma SamePointer(s: seq<uint8>, t: seq<uint8>, at: nat)
    requires |s| >= 12 && |t| >= 12 && s[..12] == t[..12] && at + 4 <= 12
    ensures PointerAt(s, at, 4) == PointerAt(t, at, 4) && s[..4] == t[..4]
  {
    hide DecodeLe;
    assert s[at..at + 4] == s[..12][at..at + 4] == t[..12][at..at + 4] == t[at..at + 4];
    assert s[..4] == s[..12][..4] == t[..12][..4] == t[..4];
  }

  /** The search ends right behind the last method that begins at or below `pc`. */
  lemma SearchIs(u: Unwinding, pc: nat, e: nat)
    requires u.Valid() && u.InReach() && e < |u.kept|
    ensures e < u.M().Search(pc, |u.kept|) <==> u.text + u.kept[e].low <= pc
  {
    hide FramesOf, TableOf, Hdr, PatchAll, Mapped.LocationOf, Mapped.FdeAddressOf, Mapped.Search, Unwinding.InReach;
    TableDecodesIff(u);
    var k := u.M().Search(pc, |u.kept|);
    if e + 1 < k {
      assert u.kept[e].high <= u.kept[k - 1].low;
    }
  }

  // ---------------------------------------------------------------- decoding a frame description

  /** Instructions as an entry holds them: padded with zeros, which do nothing, to whole words. */
  function Instructions(is64: bool, opcodes: seq<uint8>): seq<uint8> {
    var n := 9 + 2 * PointerSize(is64) + |opcodes|;
    RoundUpIsLeast(n, PointerSize(is64));
    opcodes + Zeros(RoundUp(n, PointerSize(is64)) - n)
  }

  lemma SixParts(s: seq<uint8>, a: seq<uint8>, b: seq<uint8>, c: seq<uint8>, d: seq<uint8>, ops: seq<uint8>,
                 z: seq<uint8>)
    requires s == a + (b + c + d + [0] + ops) + z
    ensures s == [] + a + (b + c + d + [0] + ops + z)
    ensures s == a + b + (c + d + [0] + ops + z)
    ensures s == a + b + c + (d + [0] + ops + z)
    ensures s == a + b + c + d + ([0] + ops + z)
    ensures s == a + b + c + d + ([0] + (ops + z)) + []
  {
  }

  lemma {:induction false} StartsAligned(is64: bool, cie: seq<uint8>, kept: seq<Info>, i: nat)
    requires AllKept(kept) && i < |kept| && |cie| % PointerSize(is64) == 0
    ensures FramesOf(is64, cie, kept).starts[i] % PointerSize(is64) == 0
    decreases |kept|
  {
    hide FdeOf, FramesOf, PointerSize;
    var n := |kept| - 1;
    FramesStep(is64, cie, kept);
    if i < n {
      StartsAligned(is64, cie, kept[..n], i);
    } else {
      FramesGrow(is64, cie, kept[..n]);
    }
  }

  /** An entry that starts on a word is padded to whole words of its own. */
  lemma FdeLengthAligned(is64: bool, at: nat, k: Info)
    requires k.cfi.Some? && k.low <= k.high && at % PointerSize(is64) == 0
    ensures |FdeOf(is64, at, k)| == 9 + 2 * PointerSize(is64) + |Instructions(is64, k.cfi.value)|
  {
    hide Fde, RoundUp;
    RoundUpShift(at, 9 + 2 * PointerSize(is64) + |k.cfi.value|, is64);
  }

  lemma RoundUpShift(at: nat, n: nat, is64: bool)
    requires at % PointerSize(is64) == 0
    ensures RoundUp(at + n, PointerSize(is64)) == at + RoundUp(n, PointerSize(is64))
    ensures RoundUp(n, PointerSize(is64)) >= n
  {
    RoundUpIsLeast(n, PointerSize(is64));
    if is64 {
      RoundUpShift8(at, n);
    } else {
      RoundUpShift4(at, n);
    }
  }

  lemma RoundUpShift4(at: nat, n: nat)
    requires at % 4 == 0
    ensures RoundUp(at + n, 4) == at + RoundUp(n, 4)
  {
    assert (at + n + 3) / 4 == at / 4 + (n + 3) / 4;
  }

  lemma RoundUpShift8(at: nat, n: nat)
    requires at % 8 == 0
    ensures RoundUp(at + n, 8) == at + RoundUp(n, 8)
  {
    assert (at + n + 7) / 8 == at / 8 + (n + 7) / 8;
  }

  /** The fields of an unpatched entry. */
  lemma FdeFields(is64: bool, bytes: seq<uint8>, at: nat, k: Info)
    requires k.cfi.Some? && k.low <= k.high && at % PointerSize(is64) == 0 && ReadsAs(bytes, at, FdeOf(is64, at, k))
    ensures var w, n := PointerSize(is64), |FdeOf(is64, at, k)|;
            n == 9 + 2 * w + |Instructions(is64, k.cfi.value)| && ReadsAs(bytes, at, EncodeLe(n - 4, 4)) &&
            ReadsAs(bytes, at + 4, EncodeLe(at + 4, 4)) && ReadsAs(bytes, at + 8, EncodeLe(k.low, w)) &&
            ReadsAs(bytes, at + 8 + w, EncodeLe(k.high - k.low, w)) &&
            ReadsAs(bytes, at + 8 + 2 * w, [0] + Instructions(is64, k.cfi.value))
  {
    hide EncodeLe, ReadsAs, RoundUp, Zeros;
    FdeLengthAligned(is64, at, k);
    var w, ops, n := PointerSize(is64), k.cfi.value, |FdeOf(is64, at, k)|;
    var a, b, c, d := EncodeLe(n - 4, 4), EncodeLe(at + 4, 4), EncodeLe(k.low, w), EncodeLe(k.high - k.low, w);
    var z := Zeros(n - 4 - |FdeBody(is64, at, k.low, k.high - k.low, ops)|);
    assert Instructions(is64, ops) == ops + z;
    SixParts(FdeOf(is64, at, k), a, b, c, d, ops, z);
    ReadsAsInside(bytes, at, [], a, b + c + d + [0] + ops + z);
    ReadsAsInside(bytes, at, a, b, c + d + [0] + ops + z);
    ReadsAsInside(bytes, at, a + b, c, d + [0] + ops + z);
    ReadsAsInside(bytes, at, a + b + c, d, [0] + ops + z);
    ReadsAsInside(bytes, at, a + b + c + d, [0] + (ops + z), []);
  }

  lemma PatchElsewhere(is64: bool, cie: seq<uint8>, kept: seq<Info>, i: nat, j: nat)
    requires AllKept(kept) && i < |kept| && j < |kept|
    ensures var f := FramesOf(is64, cie, kept);
            f.patches[j] == f.starts[j] + 8 &&
            (j < i ==> f.patches[j] + PointerSize(is64) <= f.starts[i]) &&
            (i < j ==> f.starts[i] + |FdeOf(is64, f.starts[i], kept[i])| <= f.patches[j])
  {
    hide FramesOf, FdeOf, ReadsAs;
    FramesLaidOut(is64, cie, kept, j);
    FdeLength(is64, FramesOf(is64, cie, kept).starts[j], kept[j]);
    if j < i {
      StartsAscend(is64, cie, kept, j, i);
    } else if i < j {
      StartsAscend(is64, cie, kept, i, j);
    }
  }

  /** Patching changes an entry only in its address field. */
  lemma KeptByPatch(u: Unwinding, i: nat, a: nat, data: seq<uint8>)
    requires u.Valid() && i < |u.kept| && ReadsAs(u.F().bytes, u.F().starts[i] + a, data)
    requires a + |data| <= |FdeOf(u.is64, u.F().starts[i], u.kept[i])|
    requires a + |data| <= 8 || 8 + PointerSize(u.is64) <= a
    ensures ReadsAs(u.PatchedFrames(), u.F().starts[i] + a, data)
  {
    hide FramesOf, FdeOf, Hdr, TableOf, PatchAll;
    var f, w := u.F(), PointerSize(u.is64);
    var from, to := f.starts[i] + a, f.starts[i] + a + |data|;
    PatchesInFrames(u.is64, u.cie, u.kept);
    forall j | 0 <= j < |f.patches| ensures f.patches[j] + w <= from || to <= f.patches[j] {
      PatchElsewhere(u.is64, u.cie, u.kept, i, j);
    }
    PatchKeepsRange(PointerRelativeAddress, w, u.eh, u.text, f.patches, f.bytes, from, to);
  }

  /** The address field, read relative to itself, gives the method's address. */
  lemma AddressField(u: Unwinding, i: nat)
    requires u.Valid() && i < |u.kept| && u.F().starts[i] + 8 + PointerSize(u.is64) <= |u.F().bytes|
    requires ReadsAs(u.F().bytes, u.F().starts[i] + 8, EncodeLe(u.kept[i].low, PointerSize(u.is64)))
    ensures var w, at := PointerSize(u.is64), u.F().starts[i] + 8;
            (u.eh + at + PointerAt(u.PatchedFrames(), at, w)) % Pow256(w) == u.text + u.kept[i].low
  {
    hide FramesOf, Hdr, TableOf, PatchAll, DecodeLe, EncodeLe, Pow256, PatchedValue;
    var f, w, low := u.F(), PointerSize(u.is64), u.kept[i].low;
    var at := f.starts[i] + 8;
    PatchesInFrames(u.is64, u.cie, u.kept);
    PatchElsewhere(u.is64, u.cie, u.kept, i, i);
    PatchSetsWords(PointerRelativeAddress, w, u.eh, u.text, f.patches, f.bytes, i);
    Bounds(u, i);
    LimitFits(u.is64);
    WordFits(w);
    LeRoundTrip(low, w);
    RelativeToSelf(w, u.eh, u.text, at, low);
  }

  lemma LimitFits(is64: bool)
    ensures AddressLimit(is64) <= Pow256(PointerSize(is64))
  {
    Pow256Four();
    Pow256Eight();
  }

  lemma RelativeToSelf(w: nat, eh: nat, text: nat, at: nat, low: nat)
    requires text + low < Pow256(w)
    ensures (eh + at + PatchedValue(PointerRelativeAddress, w, eh, text, at, low)) % Pow256(w) == text + low
  {
    hide Pow256;
    SubtractAdd(text + low, eh + at, Pow256(w));
  }

  /** What the reader parses out of the entry of method `i`. */
  lemma FdeParses(u: Unwinding, i: nat)
    requires u.Valid() && i < |u.kept|
    ensures var w, p, at, k := PointerSize(u.is64), u.PatchedFrames(), u.F().starts[i], u.kept[i];
            var data := Instructions(u.is64, k.cfi.value);
            at + 9 + 2 * w + |data| <= |p| && PointerAt(p, at, 4) == 5 + 2 * w + |data| &&
            PointerAt(p, at + 4, 4) == at + 4 &&
            (u.eh + at + 8 + PointerAt(p, at + 8, w)) % Pow256(w) == u.text + k.low &&
            PointerAt(p, at + 8 + w, w) == k.high - k.low &&
            p[at + 8 + 2 * w] == 0 && p[at + 9 + 2 * w..at + 9 + 2 * w + |data|] == data
  {
    hide FramesOf, Hdr, TableOf, PatchAll, DecodeLe, EncodeLe, Pow256, ReadsAs, FdeOf, Instructions, PointerAt;
    var f, w := u.F(), PointerSize(u.is64);
    FramesLaidOut(u.is64, u.cie, u.kept, i);
    StartsAligned(u.is64, u.cie, u.kept, i);
    Bounds(u, i);
    var at, k := f.starts[i], u.kept[i];
    FdeFields(u.is64, f.bytes, at, k);
    var n := |FdeOf(u.is64, at, k)|;
    KeptByPatch(u, i, 0, EncodeLe(n - 4, 4));
    KeptByPatch(u, i, 4, EncodeLe(at + 4, 4));
    KeptByPatch(u, i, 8 + w, EncodeLe(k.high - k.low, w));
    KeptByPatch(u, i, 8 + 2 * w, [0] + Instructions(u.is64, k.cfi.value));
    ReadsAsBound(f.bytes, at, FdeOf(u.is64, at, k));
    AddressField(u, i);
    Pow256Four();
    WordFits(w);
    var p := u.PatchedFrames();
    ReadsWord(p, at, 4, n - 4);
    ReadsWord(p, at + 4, 4, at + 4);
    ReadsWord(p, at + 8 + w, w, k.high - k.low);
    ReadsTail(p, at + 8 + 2 * w, Instructions(u.is64, k.cfi.value));
  }

  /** The entry of method `i` answers for exactly the addresses of its code, with its instructions. */
  lemma FdeReads(u: Unwinding, i: nat, pc: nat)
    requires u.Valid() && i < |u.kept|
    ensures u.M().ReadFde(u.F().starts[i], pc) ==
            if Covers(u, i, pc) then Some(Instructions(u.is64, u.kept[i].cfi.value)) else None
  {
    hide FramesOf, Hdr, TableOf, PatchAll, Pow256, Instructions, PointerAt;
    FdeParses(u, i);
  }

  /** `pc` lies in the code of kept method `i`. */
  predicate Covers(u: Unwinding, i: nat, pc: nat)
    requires i < |u.kept|
  {
    u.text + u.kept[i].low <= pc < u.text + u.kept[i].high
  }

  lemma ReadsTail(s: seq<uint8>, at: nat, data: seq<uint8>)
    requires ReadsAs(s, at, [0] + data)
    ensures at + 1 + |data| <= |s| && s[at] == 0 && s[at + 1..at + 1 + |data|] == data
  {
    var d := [0] + data;
    assert s[at..at + |d|][0] == d[0];
    ReadsAsInside(s, at, [0], data, []);
  }

  // ---------------------------------------------------------------- what a lookup finds

  /** Inside the code of a kept method a lookup finds that method's instructions. */
  lemma LookupFinds(u: Unwinding, i: nat, pc: nat)
    requires u.Valid() && u.InReach() && i < |u.kept| && Covers(u, i, pc)
    ensures u.M().Lookup(pc) == Some(Instructions(u.is64, u.kept[i].cfi.value))
  {
    hide FramesOf, Hdr, TableOf, PatchAll, PointerAt, Instructions, Mapped.ReadFde, Mapped.LocationOf,
         Mapped.FdeAddressOf, Mapped.Search, Unwinding.InReach;
    HdrPointsToFramesIff(u);
    TableDecodesIff(u);
    SearchEndsBehind(u, i, pc);
    FdeReads(u, i, pc);
  }

  lemma SearchEndsBehind(u: Unwinding, i: nat, pc: nat)
    requires u.Valid() && u.InReach() && i < |u.kept| && Covers(u, i, pc)
    ensures u.M().Search(pc, |u.kept|) == i + 1
  {
    hide FramesOf, Hdr, TableOf, PatchAll, Mapped.LocationOf, Mapped.Search, Unwinding.InReach;
    SearchIs(u, pc, i);
    if i + 1 < |u.kept| {
      SearchIs(u, pc, i + 1);
    }
  }

  /** Outside the code of all kept methods it finds nothing. */
  lemma LookupFindsNothing(u: Unwinding, pc: nat)
    requires u.Valid() && u.InReach() && forall i :: 0 <= i < |u.kept| ==> !Covers(u, i, pc)
    ensures u.M().Lookup(pc) == None
  {
    hide FramesOf, Hdr, TableOf, PatchAll, PointerAt, Instructions, Mapped.ReadFde, Mapped.LocationOf,
         Mapped.FdeAddressOf, Mapped.Search, Unwinding.InReach;
    HdrPointsToFramesIff(u);
    TableDecodesIff(u);
    var k := u.M().Search(pc, |u.kept|);
    if k > 0 {
      FdeReads(u, k - 1, pc);
      assert !Covers(u, k - 1, pc);
    }
  }

  /** If the first method is out of reach, a lookup at its own first address finds nothing. */
  lemma OutOfReachIsLost(u: Unwinding)
    requires u.Valid() && !u.InReach()
    ensures u.kept != [] && u.M().Lookup(u.text + u.kept[0].low) == None
  {
    hide FramesOf, Hdr, TableOf, PatchAll, PointerAt, Instructions, Mapped.ReadFde, Mapped.LocationOf,
         Mapped.FdeAddressOf, Mapped.Search;
    HdrPointsToFramesIff(u);
    var pc := u.text + u.kept[0].low;
    var k := u.M().Search(pc, |u.kept|);
    if k > 0 {
      LocationIff(u, k - 1);
    }
  }
}
