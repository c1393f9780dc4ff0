/**
 * The growable byte buffer (src/libxively/xi_data_desc.c): appends grow it to powers of two, and a
 * buffer that was only shared into a descriptor is copied before anything is written.
 */
module DataDesc {
  import opened Bits

  type Bytes = seq<bv8>

  datatype Memory = Managed | Unmanaged

  datatype Outcome = Ok | OutOfMemory | BufferOverflow

  // ---------------------------------------------------------------------------------------------
  // The capacity strategy

  /** The arithmetic of the strategy on `uint32_t`, where doubling wraps around. */
  function Pow2Capacity(original: nat, desire: nat): (c: nat)
    requires desire < WORD
  {
    if desire <= original then original
    else
      var highest := HighestBitFilter(desire);
      if highest < desire then (2 * highest) % WORD else highest
  }

  ghost predicate IsPow2(c: nat)
  {
    exists k: nat :: Pow2(k) == c
  }

  lemma Word()
    ensures Pow2(32) == WORD && Pow2(31) == 0x8000_0000
  {
    assert Pow2(8) == 256;
    assert Pow2(16) == 0x1_0000;
    assert Pow2(24) == 0x100_0000;
    assert Pow2(31) == 0x8000_0000;
  }

  /** A grown capacity is the least power of two that is not less than what is desired. */
  lemma GrowsToLeastPow2(original: nat, desire: nat)
    requires original < desire <= 0x8000_0000
    ensures var c := Pow2Capacity(original, desire);
            && IsPow2(c) && desire <= c < 2 * desire
            && forall k: nat :: desire <= Pow2(k) ==> c <= Pow2(k)
  {
    var j := GrownExponent(original, desire);
    forall k: nat | desire <= Pow2(k)
      ensures Pow2(j) <= Pow2(k)
    {
      NoPowerBetween(j, k, desire);
    }
  }

  lemma GrownExponent(original: nat, desire: nat) returns (j: nat)
    requires original < desire <= 0x8000_0000
    ensures Pow2Capacity(original, desire) == Pow2(j) && desire <= Pow2(j) < 2 * desire
    ensures j > 0 ==> Pow2(j - 1) < desire
  {
    Word();
    var k := BitLength(desire, 32);
    HighestBit(desire, k);
    if Pow2(k - 1) < desire {
      assert k < 32;
      Pow2Within(k, 31);
      j := k;
    } else {
      j := k - 1;
    }
  }

  lemma Pow2Within(j: nat, k: nat)
    requires j <= k
    ensures Pow2(j) <= Pow2(k)
  {
    if j < k {
      Pow2Grows(j, k);
    }
  }

  lemma NoPowerBetween(j: nat, k: nat, desire: nat)
    requires (j > 0 ==> Pow2(j - 1) < desire) && desire <= Pow2(k)
    ensures Pow2(j) <= Pow2(k)
  {
    if j <= k {
      Pow2Within(j, k);
    } else {
      Pow2Within(k, j - 1);
    }
  }

  /** The strategy meets the desire iff nothing has to grow or at most 2^31 bytes are desired; beyond, it yields 0. */
  lemma StrategyFits(original: nat, desire: nat)
    requires desire < WORD
    ensures desire <= Pow2Capacity(original, desire) <==> desire <= original || desire <= 0x8000_0000
    ensures original < desire && desire > 0x8000_0000 ==> Pow2Capacity(original, desire) == 0
  {
    Word();
    if original < desire {
      if desire <= 0x8000_0000 {
        GrowsToLeastPow2(original, desire);
      } else {
        HighestBit(desire, 32);
      }
    }
  }

  // ---------------------------------------------------------------------------------------------
  // Descriptors as values

  /**
   * `copied` counts the bytes that reallocations have copied, and `grown` says whether there was one; the
   * library keeps neither.
   */
  datatype Desc = Desc(content: Bytes, capacity: nat, memory: Memory, copied: nat, grown: bool)

  /** What holds of every descriptor: a shared buffer is full, and growth has been paid for. */
  ghost predicate Sound(d: Desc)
  {
    && |d.content| <= d.capacity
    && (d.memory == Unmanaged ==> |d.content| == d.capacity)
    && (if d.grown then IsPow2(d.capacity) && d.copied < d.capacity < 2 * |d.content| else d.copied == 0)
  }

  function Realloc(d: Desc, desire: nat): (d': Desc)
    requires desire < WORD
  {
    Desc(d.content, Pow2Capacity(d.capacity, desire), Managed, d.copied + d.capacity, true)
  }

  /** The resizing append; `available` says whether the allocator has memory. */
  function AppendResize(d: Desc, bytes: Bytes, available: bool): (r: (Desc, Outcome))
    requires |d.content| + |bytes| < WORD
  {
    if |d.content| + |bytes| <= d.capacity then (d.(content := d.content + bytes), Ok)
    else if available then
      (Realloc(d, |d.content| + |bytes|).(content := d.content + bytes), Ok)
    else (d, OutOfMemory)
  }

  /** The appends that never grow. */
  function Append(d: Desc, bytes: Bytes): (r: (Desc, Outcome))
  {
    if |d.content| + |bytes| <= d.capacity then (d.(content := d.content + bytes), Ok) else (d, BufferOverflow)
  }

  lemma AppendResizeTells(d: Desc, bytes: Bytes, available: bool)
    requires |d.content| + |bytes| < WORD
    ensures var (e, r) := AppendResize(d, bytes, available);
            && r == (if |d.content| + |bytes| <= d.capacity || available then Ok else OutOfMemory)
            && e.content == if r == Ok then d.content + bytes else d.content
  {
  }

  lemma AppendKeepsSound(d: Desc, bytes: Bytes)
    requires Sound(d)
    ensures Sound(Append(d, bytes).0)
    ensures d.memory == Unmanaged ==> Append(d, bytes).0 == d && (Append(d, bytes).1 == Ok <==> bytes == [])
  {
    assert d.content + [] == d.content;
  }

  lemma AppendResizeKeepsSound(d: Desc, bytes: Bytes, available: bool)
    requires Sound(d) && |d.content| + |bytes| <= 0x8000_0000
    ensures Sound(AppendResize(d, bytes, available).0)
    ensures d.memory == Unmanaged && AppendResize(d, bytes, available).0.memory == Unmanaged ==>
              AppendResize(d, bytes, available).0 == d
  {
    var n := |d.content| + |bytes|;
    assert bytes == [] ==> d.content + bytes == d.content;
    if d.capacity < n && available {
      GrowsToLeastPow2(d.capacity, n);
      if d.grown {
        var k: nat :| Pow2(k) == d.capacity;
        var k': nat :| Pow2(k') == Pow2Capacity(d.capacity, n);
        if k' <= k {
          Pow2Within(k', k);
        }
        Pow2Grows(k, k');
      }
    }
  }

  // ---------------------------------------------------------------------------------------------
  // Runs of resizing appends

  function Flatten(chunks: seq<Bytes>): (all: Bytes)
  {
    if chunks == [] then [] else chunks[0] + Flatten(chunks[1..])
  }

  function AppendChunks(d: Desc, chunks: seq<Bytes>): (d': Desc)
    requires |d.content| + |Flatten(chunks)| < WORD
    decreases |chunks|
  {
    if chunks == [] then d else AppendChunks(AppendResize(d, chunks[0], true).0, chunks[1..])
  }

  /**
   * Any sequence of appends up to 2^31 bytes in all leaves the concatenation, in a capacity that after any
   * growth is a power of two below twice the length, and has copied less than twice the final length.
   */
  lemma {:induction false} AppendsAreCheap(d: Desc, chunks: seq<Bytes>)
    requires Sound(d) && |d.content| + |Flatten(chunks)| <= 0x8000_0000
    ensures var d' := AppendChunks(d, chunks);
            && Sound(d') && d'.content == d.content + Flatten(chunks)
            && (d'.grown ==> d'.copied < 2 * |d'.content|)
            && (d'.capacity != d.capacity ==> IsPow2(d'.capacity) && d'.capacity < 2 * |d'.content|)
    decreases |chunks|
  {
    if chunks == [] {
      assert d.content + [] == d.content;
    } else {
      AppendResizeKeepsSound(d, chunks[0], true);
      var d1 := AppendResize(d, chunks[0], true).0;
      AppendsAreCheap(d1, chunks[1..]);
      assert d.content + Flatten(chunks) == d1.content + Flatten(chunks[1..]);
    }
  }

  // ---------------------------------------------------------------------------------------------
  // Descriptors as objects over buffers

  class DataDesc {
    var data: array<bv8>
    var length: nat
    var capacity: nat
    var memory: Memory
    ghost var copied: nat
    ghost var grown: bool

    ghost function Value(): (d: Desc)
      reads this, data
      requires length <= data.Length
    {
      Desc(data[..length], capacity, memory, copied, grown)
    }

    ghost predicate Valid()
      reads this, data
    {
      length <= capacity == data.Length && Sound(Value())
    }

    constructor Empty(capacity: nat)
      requires capacity > 0
      ensures Valid() && fresh(data) && Value() == Desc([], capacity, Managed, 0, false)
    {
      data := new bv8[capacity];
      length, this.capacity, memory := 0, capacity, Managed;
      copied, grown := 0, false;
    }

    constructor FromBufferCopy(buffer: array<bv8>)
      ensures Valid() && fresh(data) && Value() == Desc(buffer[..], buffer.Length, Managed, 0, false)
    {
      var copy := new bv8[buffer.Length](i requires 0 <= i < buffer.Length reads buffer => buffer[i]);
      data := copy;
      length, capacity, memory := buffer.Length, buffer.Length, Managed;
      copied, grown := 0, false;
      new;
      assert data[..length] == buffer[..];
    }

    /** The descriptor uses the caller's buffer. */
    constructor FromBufferShare(buffer: array<bv8>)
      ensures Valid() && data == buffer && Value() == Desc(buffer[..], buffer.Length, Unmanaged, 0, false)
    {
      data := buffer;
      length, capacity, memory := buffer.Length, buffer.Length, Unmanaged;
      copied, grown := 0, false;
    }

    method WillItFit(len: nat) returns (r: bool)
      ensures r == (length + len <= capacity)
    {
      r := !(capacity < length + len);
    }

    /** Copies the whole old capacity into a new buffer; the old one is not touched. */
    method Reallocate(desire: nat, available: bool) returns (r: Outcome)
      requires Valid() && desire <= 0x8000_0000
      modifies this`data, this`capacity, this`memory, this`copied, this`grown
      ensures r == if available then Ok else OutOfMemory
      ensures !available ==> unchanged(this)
      ensures available ==> fresh(data) && length <= capacity == data.Length && Value() == Realloc(old(Value()), desire)
      ensures available ==> desire <= capacity
    {
      if !available {
        return OutOfMemory;
      }
      StrategyFits(capacity, desire);
      var newCapacity := Pow2Capacity(capacity, desire);
      assert capacity <= newCapacity;
      var newBuffer := CopyOf(data, newCapacity);
      assert newBuffer[..length] == newBuffer[..capacity][..length] == data[..length];
      copied, grown := copied + capacity, true;
      data, capacity, memory := newBuffer, newCapacity, Managed;
      return Ok;
    }

    static method CopyOf(source: array<bv8>, size: nat) returns (target: array<bv8>)
      requires source.Length <= size
      ensures fresh(target) && target.Length == size && target[..source.Length] == source[..]
    {
      target := new bv8[size];
      for i := 0 to source.Length
        invariant target[..i] == source[..i]
      {
        target[i] := source[i];
      }
    }

    /** memcpy to the end of the content */
    method CopyIn(bytes: Bytes)
      requires length + |bytes| <= data.Length
      modifies data, this`length
      ensures length == old(length) + |bytes| && Value() == old(Value()).(content := old(Value()).content + bytes)
    {
      for i := 0 to |bytes|
        invariant length == old(length) && data[..length + i] == old(data[..length]) + bytes[..i]
      {
        data[length + i] := bytes[i];
        assert bytes[..i + 1] == bytes[..i] + [bytes[i]];
      }
      assert bytes[..|bytes|] == bytes;
      length := length + |bytes|;
    }

    /** The resizing append. A buffer shared into the descriptor keeps its bytes. */
    method AppendDataResize(bytes: Bytes, available: bool) returns (r: Outcome)
      requires Valid() && length + |bytes| <= 0x8000_0000
      modifies this, data
      ensures Valid() && (Value(), r) == AppendResize(old(Value()), bytes, available)
      ensures data == old(data) || fresh(data)
      ensures old(memory) == Unmanaged ==> old(data)[..] == old(data[..])
      ensures memory == Unmanaged ==> data == old(data)
      ensures r == if old(length) + |bytes| <= old(capacity) || available then Ok else OutOfMemory
      ensures Value().content == if r == Ok then old(Value()).content + bytes else old(Value()).content
    {
      ghost var d := Value();
      AppendResizeKeepsSound(d, bytes, available);
      AppendResizeTells(d, bytes, available);
      r := AssureBufLen(|bytes|, available);
      if r == Ok {
        assert data == old(data) && old(memory) == Unmanaged ==> bytes == [];
        CopyIn(bytes);
        assert Value() == AppendResize(d, bytes, available).0;
      }
    }

    /** Makes room for further bytes, if there is none. */
    method AssureBufLen(len: nat, available: bool) returns (r: Outcome)
      requires Valid() && length + len <= 0x8000_0000
      modifies this`data, this`capacity, this`memory, this`copied, this`grown
      ensures length <= capacity == data.Length && (r == Ok ==> length + len <= capacity)
      ensures r == if length + len <= old(capacity) || available then Ok else OutOfMemory
      ensures if length + len <= old(capacity) || !available then unchanged(this)
              else fresh(data) && Value() == Realloc(old(Value()), length + len)
    {
      var fits := WillItFit(len);
      r := Ok;
      if !fits {
        r := Reallocate(length + len, available);
      }
    }

    /** The append that never grows; a single byte and another descriptor's content are appended this way too. */
    method AppendBytes(bytes: Bytes) returns (r: Outcome)
      requires Valid()
      modifies this`length, data
      ensures Valid() && (Value(), r) == Append(old(Value()), bytes) && data == old(data)
      ensures old(memory) == Unmanaged ==> data[..] == old(data[..])
      ensures r == if old(length) + |bytes| <= old(capacity) then Ok else BufferOverflow
      ensures data[..length] == if r == Ok then old(data[..length]) + bytes else old(data[..length])
    {
      AppendKeepsSound(Value(), bytes);
      r := BufferOverflow;
      var fits := WillItFit(|bytes|);
      if fits {
        CopyIn(bytes);
        r := Ok;
      }
    }

    method AppendByte(byte: bv8) returns (r: Outcome)
      requires Valid()
      modifies this`length, data
      ensures Valid() && (Value(), r) == Append(old(Value()), [byte]) && data == old(data)
      ensures old(memory) == Unmanaged ==> data[..] == old(data[..])
      ensures r == if old(length) < old(capacity) then Ok else BufferOverflow
      ensures data[..length] == if r == Ok then old(data[..length]) + [byte] else old(data[..length])
    {
      AppendKeepsSound(Value(), [byte]);
      r := BufferOverflow;
      var fits := WillItFit(1);
      if fits {
        data[length] := byte;
        length := length + 1;
        assert data[..length] == old(data[..length]) + [byte];
        r := Ok;
      }
    }

    method AppendData(from: DataDesc) returns (r: Outcome)
      requires Valid() && from.length <= from.data.Length
      modifies this`length, data
      ensures Valid() && (Value(), r) == Append(old(Value()), old(from.Value()).content) && data == old(data)
      ensures old(memory) == Unmanaged ==> data[..] == old(data[..])
      ensures r == if old(length) + old(from.length) <= old(capacity) then Ok else BufferOverflow
      ensures data[..length] == if r == Ok then old(data[..length]) + old(from.data[..from.length]) else old(data[..length])
    {
      r := AppendBytes(from.data[..from.length]);
    }
  }

  /** Any of the append functions; one of them appends what another descriptor holds at that moment. */
  datatype AppendCall = Resizing(bytes: Bytes, available: bool) | Plain(bytes: Bytes) | OneByte(byte: bv8) | Content(from: DataDesc)

  /** What a call appends. */
  ghost function BytesOf(c: AppendCall): (bytes: Bytes)
    reads if c.Content? then {c.from, c.from.data} else {}
    requires c.Content? ==> c.from.length <= c.from.data.Length
  {
    match c
    case Resizing(b, _) => b
    case Plain(b) => b
    case OneByte(b) => [b]
    case Content(from) => from.data[..from.length]
  }

  method AppendAny(d: DataDesc, c: AppendCall) returns (r: Outcome)
    requires c.Content? ==> c.from.length <= c.from.data.Length
    requires d.Valid() && d.length + |BytesOf(c)| <= 0x8000_0000
    modifies d, d.data
    ensures d.Valid()
    ensures d.data == old(d.data) || fresh(d.data)
    ensures old(d.memory) == Unmanaged ==> old(d.data)[..] == old(d.data[..])
    ensures d.memory == Unmanaged <==> old(d.memory) == Unmanaged && d.data == old(d.data)
    ensures r == Ok <==> old(d.length + |BytesOf(c)| <= d.capacity) || (c.Resizing? && c.available)
    ensures d.data[..d.length] == if r == Ok then old(d.data[..d.length]) + old(BytesOf(c)) else old(d.data[..d.length])
  {
    match c {
      case Resizing(bytes, available) => r := d.AppendDataResize(bytes, available);
      case Plain(bytes) => r := d.AppendBytes(bytes);
      case OneByte(byte) => r := d.AppendByte(byte);
      case Content(from) => r := d.AppendData(from);
    }
  }

  /** The data of those calls that were answered with success. */
  function Accepted(chunks: seq<Bytes>, answers: seq<Outcome>): (all: Bytes)
    requires |answers| <= |chunks|
  {
    if answers == [] then []
    else
      var n := |answers| - 1;
      Accepted(chunks, answers[..n]) + if answers[n] == Ok then chunks[n] else []
  }

  lemma AcceptedSnoc(start: Bytes, chunks: seq<Bytes>, answers: seq<Outcome>, r: Outcome)
    requires |answers| < |chunks|
    ensures start + Accepted(chunks, answers + [r])
         == start + Accepted(chunks, answers) + if r == Ok then chunks[|answers|] else []
  {
    assert (answers + [r])[..|answers|] == answers;
  }

  /** What was accepted so far and the next data are no longer than all data together. */
  lemma {:induction false} AcceptedFits(chunks: seq<Bytes>, answers: seq<Outcome>)
    requires |answers| <= |chunks|
    ensures |Accepted(chunks, answers)| <= |Flatten(chunks[..|answers|])|
    ensures |answers| < |chunks| ==> |Accepted(chunks, answers)| + |chunks[|answers|]| <= |Flatten(chunks)|
    decreases |answers|
  {
    var n := |answers|;
    if n > 0 {
      AcceptedFits(chunks, answers[..n - 1]);
      FlattenSnoc(chunks, n - 1);
    }
    if n < |chunks| {
      FlattenSnoc(chunks, n);
      FlattenGrows(chunks, n + 1);
    }
  }

  lemma {:induction false} FlattenSnoc(chunks: seq<Bytes>, n: nat)
    requires n < |chunks|
    ensures Flatten(chunks[..n + 1]) == Flatten(chunks[..n]) + chunks[n]
  {
    if n > 0 {
      assert chunks[..n + 1][1..] == chunks[1..][..n] && chunks[..n][1..] == chunks[1..][..n - 1];
      FlattenSnoc(chunks[1..], n - 1);
    } else {
      assert chunks[..1][1..] == [];
    }
  }

  lemma {:induction false} FlattenGrows(chunks: seq<Bytes>, n: nat)
    requires n <= |chunks|
    ensures |Flatten(chunks[..n])| <= |Flatten(chunks)|
    decreases |chunks| - n
  {
    if n < |chunks| {
      FlattenSnoc(chunks, n);
      FlattenGrows(chunks, n + 1);
    } else {
      assert chunks[..n] == chunks;
    }
  }

  /**
   * Appends to a descriptor that shares the caller's buffer. It ends with the bytes of the buffer followed by the
   * data of exactly those calls that succeeded, in order; and whatever is appended, the buffer itself is never
   * changed, for it is copied when the descriptor grows.
   */
  method AppendToShared(buffer: array<bv8>, calls: seq<AppendCall>, ghost chunks: seq<Bytes>)
    returns (d: DataDesc, answers: seq<Outcome>)
    requires forall i :: 0 <= i < |calls| && calls[i].Content? ==> calls[i].from.length <= calls[i].from.data.Length
    requires |chunks| == |calls| && forall i :: 0 <= i < |calls| ==> chunks[i] == BytesOf(calls[i])
    requires buffer.Length + |Flatten(chunks)| <= 0x8000_0000
    modifies buffer
    ensures d.Valid() && buffer[..] == old(buffer[..])
    ensures d.memory == Unmanaged ==> d.data == buffer && d.length == buffer.Length
    ensures |answers| == |calls| && d.Value().content == old(buffer[..]) + Accepted(chunks, answers)
  {
    d := new DataDesc.FromBufferShare(buffer);
    answers := [];
    ghost var start, content := buffer[..], buffer[..];
    for i := 0 to |calls|
      invariant fresh(d) && d.Valid() && buffer[..] == old(buffer[..])
      invariant d.data == buffer || fresh(d.data)
      invariant d.memory == Unmanaged <==> d.data == buffer
      invariant |answers| == i && content == start + Accepted(chunks, answers)
      invariant d.data[..d.length] == content
    {
      AcceptedFits(chunks, answers);
      var r := AppendKnown(d, calls[i], chunks[i]);
      AcceptedSnoc(start, chunks, answers, r);
      content := content + if r == Ok then chunks[i] else [];
      answers := answers + [r];
    }
  }

  method AppendKnown(d: DataDesc, c: AppendCall, ghost bytes: Bytes) returns (r: Outcome)
    requires c.Content? ==> c.from.length <= c.from.data.Length
    requires d.Valid() && bytes == BytesOf(c) && d.length + |bytes| <= 0x8000_0000
    modifies d, d.data
    ensures d.Valid()
    ensures d.data == old(d.data) || fresh(d.data)
    ensures old(d.memory) == Unmanaged ==> old(d.data)[..] == old(d.data[..])
    ensures d.memory == Unmanaged <==> old(d.memory) == Unmanaged && d.data == old(d.data)
    ensures d.data[..d.length] == old(d.data[..d.length]) + if r == Ok then bytes else []
  {
    r := AppendAny(d, c);
  }

  // ---------------------------------------------------------------------------------------------
  // The cost of growth, read off the lengths

  /** Each growth copies the whole old capacity. */
  function GrowthCost(capacity: nat, length: nat, chunks: seq<Bytes>): (n: nat)
    requires length + |Flatten(chunks)| < WORD
    decreases |chunks|
  {
    if chunks == [] then 0
    else
      var needed := length + |chunks[0]|;
      if needed <= capacity then GrowthCost(capacity, needed, chunks[1..])
      else capacity + GrowthCost(Pow2Capacity(capacity, needed), needed, chunks[1..])
  }

  lemma {:induction false} CostIsCopied(d: Desc, chunks: seq<Bytes>)
    requires |d.content| + |Flatten(chunks)| < WORD
    ensures AppendChunks(d, chunks).copied == d.copied + GrowthCost(d.capacity, |d.content|, chunks)
    decreases |chunks|
  {
    if chunks != [] {
      assert |Flatten(chunks)| == |chunks[0]| + |Flatten(chunks[1..])|;
      var e := ResizeCosts(d, chunks[0]);
      CostIsCopied(e, chunks[1..]);
    }
  }

  lemma ResizeCosts(d: Desc, bytes: Bytes) returns (e: Desc)
    requires |d.content| + |bytes| < WORD
    ensures var n := |d.content| + |bytes|;
            && e == AppendResize(d, bytes, true).0 && |e.content| == n
            && e.capacity == (if n <= d.capacity then d.capacity else Pow2Capacity(d.capacity, n))
            && e.copied == d.copied + if n <= d.capacity then 0 else d.capacity
  {
    e := AppendResize(d, bytes, true).0;
  }
}
