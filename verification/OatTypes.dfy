/** The entities the oat writer lays out: instruction sets, visited methods, method headers. */
module OatTypes {
  import opened Arith
  import opened Words
  import opened CompiledMethods

  datatype Isa = Arm | Thumb2 | Arm64 | X86 | X86_64 | Mips | Mips64 {
    function Alignment(): (n: nat)
      ensures n == 8 || n == 16
    {
      match this
      case Arm => 8
      case Thumb2 => 8
      case Arm64 => 16
      case X86 => 16
      case X86_64 => 16
      case Mips => 8
      case Mips64 => 8
    }

    function Is64(): bool {
      Arm64? || X86_64? || Mips64?
    }

    /** Distance from the first code byte to a usable entry point: the Thumb mode bit. */
    function CodeDelta(): (d: nat)
      ensures d <= 1
    {
      if this.Thumb2? then 1 else 0
    }
  }

  datatype MethodRef = MethodRef(dexFile: nat, index: nat)

  /** A method that has compiled code, as a visitor meets it. */
  datatype Visited = Visited(ref: MethodRef, compiled: CompiledMethod)

  /** The contents of the shared vectors, by address; address 0 is the null pointer. */
  type Vectors = map<nat, seq<uint8>>

  function Bytes(vectors: Vectors, address: nat): (s: seq<uint8>)
    ensures address !in vectors ==> s == []
  {
    if address in vectors then vectors[address] else []
  }

  const METHOD_HEADER_SIZE := 28

  /** OatQuickMethodHeader: seven 32-bit words that precede a method's code. */
  datatype MethodHeader = MethodHeader(
    mappingTableOffset: uint32, vmapTableOffset: uint32, gcMapOffset: uint32,
    frameSize: uint32, coreSpillMask: uint32, fpSpillMask: uint32, codeSize: uint32) {

    function Encode(): (s: seq<uint8>)
      ensures |s| == METHOD_HEADER_SIZE
    {
      Le32(mappingTableOffset) + Le32(vmapTableOffset) + Le32(gcMapOffset) +
      Le32(frameSize) + Le32(coreSpillMask) + Le32(fpSpillMask) + Le32(codeSize)
    }
  }

  const EMPTY_HEADER := MethodHeader(0, 0, 0, 0, 0, 0, 0)

  function DecodeHeader(s: seq<uint8>): (h: MethodHeader)
    requires |s| == METHOD_HEADER_SIZE
  {
    MethodHeader(WordAt(s, 0), WordAt(s, 4), WordAt(s, 8), WordAt(s, 12), WordAt(s, 16), WordAt(s, 20), WordAt(s, 24))
  }

  lemma HeaderRoundTrip(h: MethodHeader)
    ensures DecodeHeader(h.Encode()) == h
  {
    var s := h.Encode();
    assert s[0..4] == Le32(h.mappingTableOffset);
    assert s[4..8] == Le32(h.vmapTableOffset);
    assert s[8..12] == Le32(h.gcMapOffset);
    assert s[12..16] == Le32(h.frameSize);
    assert s[16..20] == Le32(h.coreSpillMask);
    assert s[20..24] == Le32(h.fpSpillMask);
    assert s[24..28] == Le32(h.codeSize);
    Le32RoundTrip(h.mappingTableOffset);
    Le32RoundTrip(h.vmapTableOffset);
    Le32RoundTrip(h.gcMapOffset);
    Le32RoundTrip(h.frameSize);
    Le32RoundTrip(h.coreSpillMask);
    Le32RoundTrip(h.fpSpillMask);
    Le32RoundTrip(h.codeSize);
  }

  /** What the writer is configured with; function members stand for services it calls. */
  datatype Linker = Linker(
    isa: Isa,
    debuggable: bool,
    generateDebugInfo: bool,
    vectors: Vectors,
    thunk: seq<uint8>,                          // Code of one relative call thunk.
    needsThunk: nat -> bool,                    // Is a thunk due before the n-th placed method?
    oatBase: nat,                               // Run-time address of the oat data, or 0.
    trampoline: MethodRef -> nat,               // Entry point of a method without compiled code.
    address: LinkerPatch -> nat,                // Resolved address of a method, type or dex cache slot.
    relative: (LinkerPatch, nat, nat, nat) -> nat) { // New PC-relative instruction word.

    function Code(m: CompiledMethod): seq<uint8> {
      Bytes(vectors, m.quickCode)
    }

    function Align(offset: nat): (r: nat)
      ensures offset <= r < offset + isa.Alignment()
      ensures r % 8 == 0 && (isa.Alignment() == 16 ==> r % 16 == 0)
    {
      hide RoundUp;
      RoundUpIsLeast(offset, 8);
      RoundUpIsLeast(offset, 16);
      ModDivisor(RoundUp(offset, 16), 2, 8);
      if isa.Alignment() == 8 then RoundUp(offset, 8) else RoundUp(offset, 16)
    }

    /** Code reaches past its own mode bit, and every patched word lies inside the code. */
    predicate Compilable(m: CompiledMethod) {
      && |Code(m)| > isa.CodeDelta()
      && (forall p :: p in m.patches ==> p.literalOffset + 4 <= |Code(m)|)
    }

    predicate AllCompilable(vs: seq<Visited>) {
      forall i :: 0 <= i < |vs| ==> Compilable(vs[i].compiled)
    }
  }
}
