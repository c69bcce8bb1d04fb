/** The in-memory output stream and the write buffer in front of it. */
module OutputStreams {
  import opened Arith
  import opened Words

  datatype Whence = SeekSet | SeekCurrent | SeekEnd

  // ---------------------------------------------------------------- what a stream means

  /** A byte vector with a cursor that never leaves it. */
  datatype Contents = Contents(data: seq<uint8>, offset: nat) {
    predicate Valid() { offset <= |data| }

    /** Overwrites from the cursor on, growing the vector as needed. */
    function Written(bytes: seq<uint8>): (c: Contents)
      requires Valid()
      ensures c.Valid()
    {
      var end := offset + |bytes|;
      Contents(data[..offset] + bytes + (if end < |data| then data[end..] else []), end)
    }

    function Target(at: int, whence: Whence): int {
      match whence
      case SeekSet => at
      case SeekCurrent => offset + at
      case SeekEnd => |data| + at
    }

    /** Moves the cursor, filling any gap with zeros. */
    function Sought(at: int, whence: Whence): (c: Contents)
      requires Valid() && Target(at, whence) >= 0
      ensures c.Valid()
    {
      var target := Target(at, whence);
      Contents(if target > |data| then data + Zeros(target - |data|) else data, target)
    }
  }

  /** Two writes in a row are one write of both. */
  lemma WriteWrite(c: Contents, a: seq<uint8>, b: seq<uint8>)
    requires c.Valid()
    ensures c.Written(a).Written(b) == c.Written(a + b)
  {
    var end := c.offset + |a|;
    var d := c.Written(a).data;
    assert d[..end] == c.data[..c.offset] + a;
    if end + |b| < |c.data| {
      assert d[end + |b|..] == c.data[end + |b|..];
    }
    assert c.Written(a).Written(b).data == c.Written(a + b).data;
  }

  lemma WriteNothing(c: Contents)
    requires c.Valid()
    ensures c.Written([]) == c
  {
    assert c.data[..c.offset] + c.data[c.offset..] == c.data;
  }

  // ---------------------------------------------------------------- the vector stream

  class VectorOutputStream {
    var vector: seq<uint8>
    var offset: nat

    ghost function State(): Contents
      reads this
    {
      Contents(vector, offset)
    }

    ghost predicate Valid()
      reads this
    {
      State().Valid()
    }

    constructor (vector: seq<uint8>)
      ensures Valid() && State() == Contents(vector, |vector|)
    {
      this.vector, offset := vector, |vector|;
    }

    method EnsureCapacity(newOffset: nat)
      modifies this`vector
      ensures vector ==
              if newOffset > |old(vector)| then old(vector) + Zeros(newOffset - |old(vector)|) else old(vector)
    {
      if newOffset > |vector| {
        vector := vector + Zeros(newOffset - |vector|);
      }
    }

    method WriteFully(bytes: seq<uint8>)
      requires Valid()
      modifies this
      ensures Valid() && State() == old(State()).Written(bytes)
    {
      if offset == |vector| {
        vector := vector + bytes;
        offset := offset + |bytes|;
      } else {
        var newOffset := offset + |bytes|;
        EnsureCapacity(newOffset);
        vector := Splice(vector, offset, bytes);
        offset := newOffset;
      }
      assert vector == old(State()).Written(bytes).data;
    }

    method Seek(at: int, whence: Whence) returns (newOffset: nat)
      requires Valid() && State().Target(at, whence) >= 0
      modifies this
      ensures Valid() && State() == old(State()).Sought(at, whence) && newOffset == offset
    {
      match whence {
        case SeekSet => newOffset := at;
        case SeekCurrent => newOffset := offset + at;
        case SeekEnd => newOffset := |vector| + at;
      }
      EnsureCapacity(newOffset);
      offset := newOffset;
    }
  }

  // ---------------------------------------------------------------- the buffered stream

  const BUFFER_SIZE := 8 * KB

  datatype Op = Write(bytes: seq<uint8>) | Seek(at: int, whence: Whence)

  /** The operations done directly, without a buffer. */
  function Apply(c: Contents, ops: seq<Op>): (r: Contents)
    requires c.Valid() && Applicable(c, ops)
    ensures r.Valid()
    decreases |ops|
  {
    if ops == [] then c else Apply(One(c, ops[0]), ops[1..])
  }

  function One(c: Contents, op: Op): (r: Contents)
    requires c.Valid() && (op.Seek? ==> c.Target(op.at, op.whence) >= 0)
    ensures r.Valid()
  {
    match op
    case Write(bytes) => c.Written(bytes)
    case Seek(at, whence) => c.Sought(at, whence)
  }

  /** No seek goes below the start. */
  predicate Applicable(c: Contents, ops: seq<Op>)
    requires c.Valid()
    decreases |ops|
  {
    ops != [] ==>
      && (ops[0].Seek? ==> c.Target(ops[0].at, ops[0].whence) >= 0)
      && Applicable(One(c, ops[0]), ops[1..])
  }

  class BufferedOutputStream {
    const out: VectorOutputStream
    const buffer: array<uint8>
    var used: nat

    ghost predicate Valid()
      reads this, out, buffer
    {
      buffer.Length == BUFFER_SIZE && used <= BUFFER_SIZE && out.Valid()
    }

    /** What the vector will be once the pending bytes are flushed. */
    ghost function View(): (c: Contents)
      requires Valid()
      reads this, out, buffer
      ensures c.Valid()
    {
      out.State().Written(buffer[..used])
    }

    constructor (out: VectorOutputStream)
      requires out.Valid()
      ensures Valid() && this.out == out && fresh(buffer) && View() == out.State()
    {
      this.out := out;
      buffer := new uint8[BUFFER_SIZE](_ => 0);
      used := 0;
      new;
      WriteNothing(out.State());
    }

    method Flush()
      requires Valid()
      modifies this, out
      ensures Valid() && used == 0 && out.State() == old(View()) == View()
    {
      WriteNothing(out.State());
      if used > 0 {
        out.WriteFully(buffer[..used]);
        used := 0;
      }
      WriteNothing(out.State());
    }

    method WriteFully(bytes: seq<uint8>)
      requires Valid()
      modifies this, out, buffer
      ensures Valid() && View() == old(View()).Written(bytes)
    {
      if |bytes| > BUFFER_SIZE {
        Flush();
        out.WriteFully(bytes);
        WriteNothing(out.State());
        return;
      }
      if used + |bytes| > BUFFER_SIZE {
        Flush();
      }
      CopyIn(bytes);
    }

    /** The `memcpy` into the buffer. */
    method CopyIn(bytes: seq<uint8>)
      requires Valid() && used + |bytes| <= BUFFER_SIZE
      modifies this, buffer
      ensures Valid() && View() == old(View()).Written(bytes)
    {
      ghost var pending := buffer[..used];
      for i := 0 to |bytes|
        invariant buffer[..used] == pending
        invariant forall b :: 0 <= b < i ==> buffer[used + b] == bytes[b]
        modifies buffer
      {
        buffer[used + i] := bytes[i];
      }
      assert buffer[..used + |bytes|] == pending + bytes;
      WriteWrite(out.State(), pending, bytes);
      used := used + |bytes|;
    }

    method Seek(at: int, whence: Whence) returns (newOffset: nat)
      requires Valid() && View().Target(at, whence) >= 0
      modifies this, out
      ensures Valid() && View() == old(View()).Sought(at, whence) && newOffset == View().offset
    {
      Flush();
      newOffset := out.Seek(at, whence);
      WriteNothing(out.State());
    }
  }

  /**
   * Any sequence of writes of any size and of seeks, done through the buffer and flushed at the
   * end, leaves the vector and its cursor as if there were no buffer.
   */
  method RunBuffered(stream: BufferedOutputStream, ops: seq<Op>)
    requires stream.Valid() && Applicable(stream.View(), ops)
    modifies stream, stream.out, stream.buffer
    ensures stream.Valid() && stream.out.State() == Apply(old(stream.View()), ops)
  {
    for i := 0 to |ops|
      invariant stream.Valid() && Applicable(stream.View(), ops[i..])
      invariant Apply(stream.View(), ops[i..]) == Apply(old(stream.View()), ops)
    {
      assert ops[i..][1..] == ops[i + 1..];
      match ops[i] {
        case Write(bytes) => stream.WriteFully(bytes);
        case Seek(at, whence) => var position := stream.Seek(at, whence);
      }
    }
    stream.Flush();
  }
}
