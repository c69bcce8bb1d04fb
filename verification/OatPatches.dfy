/** Patch lists: ULEB128 deltas between consecutive locations, and how the loader walks them. */
module OatPatches {
  import opened Arith
  import opened Words
  import opened CompiledMethods
  import opened OatTypes
  import opened OatCode

  // ---------------------------------------------------------------- ULEB128

  function Uleb128(value: nat): (s: seq<uint8>)
    ensures |s| > 0
  {
    if value < 0x80 then [value] else [value % 0x80 + 0x80] + Uleb128(value / 0x80)
  }

  /** The push-back loop of the encoder. */
  method EncodeUnsignedLeb128(dest: seq<uint8>, value: uint32) returns (out: seq<uint8>)
    ensures out == dest + Uleb128(value)
  {
    hide Uleb128;
    out := dest;
    var b := value % 0x80;
    var rest := value / 0x80;
    SevenBits(value);
    while rest != 0
      invariant 0 <= rest && 0 <= b < 0x80
      invariant out + Uleb128(b + 0x80 * rest) == dest + Uleb128(value)
      decreases rest
    {
      UlebSplit(b, rest);
      SevenBits(rest);
      ghost var more := Uleb128(rest);
      assert Uleb128(b + 0x80 * rest) == [b + 0x80] + more;
      assert out + ([b + 0x80] + more) == (out + [b + 0x80]) + more;
      out := out + [b + 0x80];
      b := rest % 0x80;
      rest := rest / 0x80;
    }
    UlebSplit(b, 0);
    out := out + [b];
  }

  lemma SevenBits(x: nat)
    ensures x % 0x80 + 0x80 * (x / 0x80) == x && x % 0x80 < 0x80 && (x > 0 ==> x / 0x80 < x)
  {
  }

  lemma UlebSplit(b: nat, rest: nat)
    requires b < 0x80
    ensures Uleb128(b + 0x80 * rest) == if rest == 0 then [b] else [b + 0x80] + Uleb128(rest)
  {
  }

  /** A byte without the continuation bit, or the last of `n` bytes, comes before the end. */
  predicate Terminated(s: seq<uint8>, n: nat) {
    s != [] && (n <= 1 || s[0] <= 0x7f || Terminated(s[1..], n - 1))
  }

  /**
   * The decoder, which reads `n` bytes at most: five at the outset, of which the fifth only
   * gives the four bits that fit a 32-bit word. Returns the value and the number of bytes read.
   */
  function Decode(s: seq<uint8>, n: nat): (r: (nat, nat))
    requires Terminated(s, n)
    ensures 0 < r.1 <= |s|
    decreases n
  {
    if n <= 1 then (s[0] % 0x10, 1)
    else if s[0] <= 0x7f then (s[0], 1)
    else
      var rest := Decode(s[1..], n - 1);
      (s[0] % 0x80 + 0x80 * rest.0, rest.1 + 1)
  }

  /** The values that fit `n` bytes. */
  function Limit(n: nat): nat {
    if n <= 1 then 0x10 else 0x80 * Limit(n - 1)
  }

  lemma {:induction false} UlebDecodes(value: nat, rest: seq<uint8>, n: nat)
    requires value < Limit(n)
    ensures Terminated(Uleb128(value) + rest, n)
    ensures Decode(Uleb128(value) + rest, n) == (value, |Uleb128(value)|)
    decreases n
  {
    if n > 1 && value >= 0x80 {
      UlebDecodes(value / 0x80, rest, n - 1);
      assert (Uleb128(value) + rest)[1..] == Uleb128(value / 0x80) + rest;
    }
  }

  /** Decoding reads back every 32-bit value and stops right after it. */
  lemma UlebRoundTrip(value: uint32, rest: seq<uint8>)
    ensures Terminated(Uleb128(value) + rest, 5)
    ensures Decode(Uleb128(value) + rest, 5) == (value, |Uleb128(value)|)
  {
    assert Limit(3) == 0x80 * 0x80 * 0x10;
    assert Limit(5) == WORD;
    UlebDecodes(value, rest, 5);
  }

  // ---------------------------------------------------------------- patch lists

  predicate Nondecreasing(s: seq<int>) {
    forall i, j :: 0 <= i < j < |s| ==> s[i] <= s[j]
  }

  /** Every location is at or above the one before it, by less than 2^32. */
  predicate Encodable(locations: seq<int>, address: int) {
    locations == [] ||
      (0 <= locations[0] - address < WORD && Encodable(locations[1..], locations[0]))
  }

  function Deltas(locations: seq<int>, address: int): seq<uint8>
    requires Encodable(locations, address)
  {
    if locations == [] then []
    else Uleb128(locations[0] - address) + Deltas(locations[1..], locations[0])
  }

  /** EncodeOatPatches: the loop that carries the previous location along. */
  method EncodeOatPatches(locations: seq<int>, buffer: seq<uint8>) returns (out: seq<uint8>)
    requires Encodable(locations, 0)
    ensures out == buffer + Deltas(locations, 0)
  {
    hide Uleb128;
    out := buffer;
    var address := 0;
    for i := 0 to |locations|
      invariant Encodable(locations[i..], address)
      invariant out + Deltas(locations[i..], address) == buffer + Deltas(locations, 0)
    {
      assert locations[i..][1..] == locations[i + 1..];
      out := EncodeUnsignedLeb128(out, locations[i] - address);
      address := locations[i];
    }
  }

  /** The loader's walk: each decoded delta moves the pointer to the next word to patch. */
  ghost predicate Walks(patches: seq<uint8>, address: int, locations: seq<int>) {
    if patches == [] then locations == []
    else
      && Terminated(patches, 5)
      && var d := Decode(patches, 5);
         && locations != [] && locations[0] == address + d.0
         && Walks(patches[d.1..], locations[0], locations[1..])
  }

  /** Decoding the deltas visits exactly the encoded locations, in order. */
  lemma {:induction false} PatchListRoundTrip(locations: seq<int>, address: int)
    requires Encodable(locations, address)
    ensures Walks(Deltas(locations, address), address, locations)
  {
    hide Uleb128, Decode, Terminated;
    if locations != [] {
      var first := Uleb128(locations[0] - address);
      var rest := Deltas(locations[1..], locations[0]);
      UlebRoundTrip(locations[0] - address, rest);
      PatchListRoundTrip(locations[1..], locations[0]);
      assert (first + rest)[|first|..] == rest;
    }
  }

  lemma {:induction false} SortedIsEncodable(locations: seq<int>, address: int, bound: int)
    requires Nondecreasing(locations)
    requires forall i :: 0 <= i < |locations| ==> address <= locations[i] < bound
    requires bound - address <= WORD
    ensures Encodable(locations, address)
  {
    if locations != [] {
      SortedIsEncodable(locations[1..], locations[0], bound);
    }
  }

  // ---------------------------------------------------------------- locations over the whole file

  lemma NondecreasingConcat(a: seq<int>, b: seq<int>, middle: int)
    requires forall i :: 0 <= i < |a| ==> a[i] <= middle
    requires forall i :: 0 <= i < |b| ==> middle <= b[i]
    ensures Nondecreasing(a + b) <==> Nondecreasing(a) && Nondecreasing(b)
  {
    var c := a + b;
    if Nondecreasing(c) {
      forall i, j | 0 <= i < j < |a| ensures a[i] <= a[j] {
        assert c[i] <= c[j];
      }
      forall i, j | 0 <= i < j < |b| ensures b[i] <= b[j] {
        assert c[|a| + i] <= c[|a| + j];
      }
    }
  }

  lemma {:induction false} LocationsInCode(base: int, patches: seq<LinkerPatch>, size: nat)
    requires forall p :: p in patches ==> p.literalOffset + 4 <= size
    ensures forall i :: 0 <= i < |PatchLocations(base, patches)| ==>
              base <= PatchLocations(base, patches)[i] < base + size
  {
    if patches != [] {
      var n := |patches| - 1;
      assert patches[n] in patches;
      LocationsInCode(base, patches[..n], size);
    }
  }

  /** The absolute patches of every placed method are listed in order of their offsets. */
  ghost predicate MethodsSorted(l: Linker, exec: nat, start: nat, vs: seq<Visited>, k: nat)
    requires k <= |vs|
  {
    forall j :: 0 <= j < k && !Duplicate(l, start, vs, j) ==>
      Nondecreasing(PatchLocations(CodeStart(l, PlanAt(l, start, vs, j)) - exec, vs[j].compiled.patches))
  }

  lemma {:induction false} LocationsBelowCursor(l: Linker, exec: nat, start: nat, vs: seq<Visited>, k: nat)
    requires k <= |vs| && l.AllCompilable(vs) && exec <= start
    ensures forall i :: 0 <= i < |AbsolutePatches(l, exec, start, vs, k)| ==>
              0 <= AbsolutePatches(l, exec, start, vs, k)[i] < PlanAt(l, start, vs, k).offset - exec
  {
    hide Visit, Linker.Align, CodeStart, Reserve, PatchLocations, Linker.Compilable, IsDuplicate, Linker.Code;
    if k > 0 {
      var p, v := PlanAt(l, start, vs, k - 1), vs[k - 1];
      LocationsBelowCursor(l, exec, start, vs, k - 1);
      VisitExtends(l, p, v);
      PlanStartsAtStart(l, start, vs, k - 1);
      if !IsDuplicate(l, p, v.compiled) {
        PatchesInCode(l, v.compiled);
        LocationsInCode(CodeStart(l, p) - exec, v.compiled.patches, |l.Code(v.compiled)|);
        VisitEndsCode(l, p, v);
      }
    }
  }

  lemma PatchesInCode(l: Linker, m: CompiledMethod)
    requires l.Compilable(m)
    ensures forall p :: p in m.patches ==> p.literalOffset + 4 <= |l.Code(m)|
  {
  }

  lemma VisitEndsCode(l: Linker, p: Plan, v: Visited)
    requires !IsDuplicate(l, p, v.compiled)
    ensures Visit(l, p, v).offset == CodeStart(l, p) + |l.Code(v.compiled)|
  {
    hide CodeStart;
  }

  /**
   * The collected locations ascend over the whole file exactly when they do within every
   * placed method.
   */
  lemma {:induction false} CollectedPatchesSortedIff(l: Linker, exec: nat, start: nat, vs: seq<Visited>, k: nat)
    requires k <= |vs| && l.AllCompilable(vs) && exec <= start
    ensures Nondecreasing(AbsolutePatches(l, exec, start, vs, k)) <==> MethodsSorted(l, exec, start, vs, k)
  {
    hide Visit, PlanAt, Linker.Align, CodeStart, Reserve, PatchLocations, Linker.Compilable, Nondecreasing, IsDuplicate;
    if k > 0 {
      var p, v := PlanAt(l, start, vs, k - 1), vs[k - 1];
      CollectedPatchesSortedIff(l, exec, start, vs, k - 1);
      LocationsBelowCursor(l, exec, start, vs, k - 1);
      if !IsDuplicate(l, p, v.compiled) {
        PatchesInCode(l, v.compiled);
        LocationsInCode(CodeStart(l, p) - exec, v.compiled.patches, |l.Code(v.compiled)|);
        NondecreasingConcat(AbsolutePatches(l, exec, start, vs, k - 1),
                            PatchLocations(CodeStart(l, p) - exec, v.compiled.patches), p.offset - exec);
      }
    } else {
      NothingIsSorted();
    }
  }

  lemma NothingIsSorted()
    ensures Nondecreasing([])
  {
  }

  /** From planning to loading: the loader patches exactly the recorded absolute locations. */
  lemma AbsolutePatchesRoundTrip(l: Linker, exec: nat, start: nat, vs: seq<Visited>)
    requires l.AllCompilable(vs) && exec <= start && MethodsSorted(l, exec, start, vs, |vs|)
    requires PlanAt(l, start, vs, |vs|).offset < WORD
    ensures var locations := AbsolutePatches(l, exec, start, vs, |vs|);
            Encodable(locations, 0) && Walks(Deltas(locations, 0), 0, locations)
  {
    hide PlanAt, AbsolutePatches, MethodsSorted, Deltas, Walks;
    var locations := AbsolutePatches(l, exec, start, vs, |vs|);
    CollectedPatchesSortedIff(l, exec, start, vs, |vs|);
    LocationsBelowCursor(l, exec, start, vs, |vs|);
    SortedIsEncodable(locations, 0, WORD);
    PatchListRoundTrip(locations, 0);
  }
}
