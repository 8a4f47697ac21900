/**
 * The stream that gathers its input into blocks of one size (lib/util/bufferedPassThrough.ts:64-142,
 * 184-192). Chunks are sequences of bytes; `output` is what was pushed, as it was when pushed.
 */
module BufferedPassThrough {
  import opened Wrappers

  newtype Byte = x: int | 0 <= x < 256

  /* ---------- cutting a sequence into blocks ---------- */

  function Flatten(blocks: seq<seq<Byte>>): seq<Byte>
  {
    if blocks == [] then [] else blocks[0] + Flatten(blocks[1..])
  }

  /** The full blocks at the start of the input, and what is left of it. */
  function FullBlocks(s: seq<Byte>, size: nat): seq<seq<Byte>>
    requires size > 0
    decreases |s|
  {
    if |s| < size then [] else [s[..size]] + FullBlocks(s[size..], size)
  }

  function Rest(s: seq<Byte>, size: nat): (r: seq<Byte>)
    requires size > 0
    ensures |r| < size
    decreases |s|
  {
    if |s| < size then s else Rest(s[size..], size)
  }

  /** Full blocks, and a shorter last one when something is left. */
  function Chop(s: seq<Byte>, size: nat): seq<seq<Byte>>
    requires size > 0
  {
    FullBlocks(s, size) + if Rest(s, size) == [] then [] else [Rest(s, size)]
  }

  predicate Regular(blocks: seq<seq<Byte>>, size: nat)
  {
    && (forall i :: 0 <= i < |blocks| - 1 ==> |blocks[i]| == size)
    && (blocks != [] ==> 0 < |blocks[|blocks| - 1]| <= size)
  }

  lemma {:induction false} FlattenConcat(a: seq<seq<Byte>>, b: seq<seq<Byte>>)
    ensures Flatten(a + b) == Flatten(a) + Flatten(b)
  {
    if a == [] {
      assert a + b == b;
    } else {
      FlattenConcat(a[1..], b);
      assert (a + b)[1..] == a[1..] + b && (a + b)[0] == a[0];
      Regroup(a[0], Flatten(a[1..]), Flatten(b));
    }
  }

  /** Nothing is lost, added or moved by the cut. */
  lemma {:induction false} BlocksHoldAll(s: seq<Byte>, size: nat)
    requires size > 0
    ensures Flatten(FullBlocks(s, size)) + Rest(s, size) == s
    ensures forall b <- FullBlocks(s, size) :: |b| == size
    decreases |s|
  {
    if |s| >= size {
      BlocksHoldAll(s[size..], size);
      assert s == s[..size] + s[size..];
    }
  }

  lemma FlattenOne(b: seq<Byte>)
    ensures Flatten([b]) == b
  {
    var one: seq<seq<Byte>> := [b];
    assert one[1..] == [];
  }

  /**
   * The cut is the only way to write the input as full blocks followed by a last block that may be shorter but not
   * empty.
   */
  lemma {:induction false} ChopIsTheOnlyCut(s: seq<Byte>, blocks: seq<seq<Byte>>, size: nat)
    requires size > 0
    ensures blocks == Chop(s, size) <==> Flatten(blocks) == s && Regular(blocks, size)
    decreases |s|
  {
    ChopIsRegular(s, size);
    if Flatten(blocks) == s && Regular(blocks, size) {
      if blocks == [] {
      } else if |blocks| == 1 {
        assert blocks == [blocks[0]];
        FlattenOne(blocks[0]);
        if |s| == size {
          assert s[..size] == s && s[size..] == [];
        }
      } else {
        assert s[..size] == blocks[0] && s[size..] == Flatten(blocks[1..]);
        ChopIsTheOnlyCut(s[size..], blocks[1..], size);
      }
    }
  }

  lemma ChopIsRegular(s: seq<Byte>, size: nat)
    requires size > 0
    ensures Flatten(Chop(s, size)) == s && Regular(Chop(s, size), size)
  {
    BlocksHoldAll(s, size);
    var full, rest := FullBlocks(s, size), Rest(s, size);
    if rest != [] {
      FlattenConcat(full, [rest]);
      FlattenOne(rest);
    } else {
      assert Chop(s, size) == full;
    }
  }

  lemma FlattenNext(before: seq<Byte>, chunks: seq<seq<Byte>>, i: nat)
    requires i < |chunks|
    ensures (before + Flatten(chunks[..i])) + chunks[i] == before + Flatten(chunks[..i + 1])
  {
    FlattenConcat(chunks[..i], [chunks[i]]);
    FlattenOne(chunks[i]);
    assert chunks[..i + 1] == chunks[..i] + [chunks[i]];
    Regroup(before, Flatten(chunks[..i]), chunks[i]);
  }

  /** What arrives is added to what is left; when that fills a block, the block is complete. */
  lemma {:induction false} Arrival(s: seq<Byte>, t: seq<Byte>, size: nat)
    requires size > 0 && |Rest(s, size)| + |t| <= size
    ensures |Rest(s, size)| + |t| < size ==>
            FullBlocks(s + t, size) == FullBlocks(s, size) && Rest(s + t, size) == Rest(s, size) + t
    ensures |Rest(s, size)| + |t| == size ==>
            FullBlocks(s + t, size) == FullBlocks(s, size) + [Rest(s, size) + t] && Rest(s + t, size) == []
    decreases |s|
  {
    if |s| < size {
      if |s + t| == size {
        assert (s + t)[..size] == s + t && (s + t)[size..] == [];
      }
    } else {
      Arrival(s[size..], t, size);
      assert (s + t)[..size] == s[..size] && (s + t)[size..] == s[size..] + t;
    }
  }

  lemma Taken(before: seq<Byte>, chunk: seq<Byte>, i: nat, j: nat)
    requires i <= j <= |chunk|
    ensures before + chunk[..j] == (before + chunk[..i]) + chunk[i..j]
    ensures chunk[..|chunk|] == chunk && chunk[i..|chunk|] == chunk[i..]
  {
  }

  /* ---------- reading the pushed blocks later ---------- */

  /** What is left of the input is its end. */
  lemma {:induction false} RestIsTheEnd(s: seq<Byte>, size: nat)
    requires size > 0
    ensures |Rest(s, size)| <= |s| && Rest(s, size) == s[|s| - |Rest(s, size)|..]
    decreases |s|
  {
    if |s| >= size {
      RestIsTheEnd(s[size..], size);
    }
  }

  lemma ShortIsLeft(s: seq<Byte>, size: nat)
    requires size > 0
    ensures |Rest(s, size)| == |s| || |s| >= size
  {
  }

  /** What the buffer holds once a block was pushed: what is left, over the end of the last full block. */
  function Held(s: seq<Byte>, size: nat): (held: seq<Byte>)
    requires 0 < size <= |s|
  {
    Rest(s, size) + s[|s| - size..|s| - |Rest(s, size)|]
  }

  predicate Periodic(s: seq<Byte>, size: nat)
  {
    forall i :: size <= i < |s| ==> s[i] == s[i - size]
  }

  predicate AllAre(blocks: seq<seq<Byte>>, block: seq<Byte>)
  {
    forall i :: 0 <= i < |blocks| ==> blocks[i] == block
  }

  /** Read at the end, the buffer shows each full block exactly when the input repeats itself with that period. */
  lemma {:induction false} HeldIsEachBlockIff(s: seq<Byte>, size: nat)
    requires 0 < size <= |s|
    ensures AllAre(FullBlocks(s, size), Held(s, size)) <==> Periodic(s, size)
    decreases |s|
  {
    var t := s[size..];
    if |t| < size {
      HeldIsTheBlockIff(s, size);
    } else {
      HeldIsEachBlockIff(t, size);
      PeriodicStep(s, size);
      HeldOfTail(s, size);
      AllAreCons(s[..size], FullBlocks(t, size), Held(t, size));
      assert FullBlocks(t, size)[0] == t[..size];
    }
  }

  lemma AllAreCons(first: seq<Byte>, blocks: seq<seq<Byte>>, block: seq<Byte>)
    ensures AllAre([first] + blocks, block) <==> first == block && AllAre(blocks, block)
  {
    var all := [first] + blocks;
    assert all[0] == first;
    if AllAre(all, block) {
      forall i | 0 <= i < |blocks| ensures blocks[i] == block {
        assert all[i + 1] == blocks[i];
      }
    }
  }

  lemma HeldOfTail(s: seq<Byte>, size: nat)
    requires 0 < size && 2 * size <= |s|
    ensures Held(s, size) == Held(s[size..], size)
  {
    var t := s[size..];
    assert s[|s| - size..|s| - |Rest(s, size)|] == t[|t| - size..|t| - |Rest(t, size)|];
  }

  lemma HeldIsTheBlockIff(s: seq<Byte>, size: nat)
    requires 0 < size <= |s| < 2 * size
    ensures AllAre(FullBlocks(s, size), Held(s, size)) <==> Periodic(s, size)
  {
    var rest, block := s[size..], s[..size];
    assert FullBlocks(s, size) == [block];
    assert Rest(s, size) == rest;
    assert Held(s, size) == rest + block[|rest|..];
    if Periodic(s, size) {
      assert forall i :: 0 <= i < |rest| ==> rest[i] == s[size + i] == s[size + i - size] == block[i];
      assert rest == block[..|rest|];
      assert Held(s, size) == block;
    }
    if AllAre([block], Held(s, size)) {
      assert block == [block][0] == Held(s, size);
      forall i | size <= i < |s| ensures s[i] == s[i - size] {
        assert s[i] == rest[i - size] == Held(s, size)[i - size] == block[i - size];
      }
    }
  }

  lemma PeriodicStep(s: seq<Byte>, size: nat)
    requires 0 < size && 2 * size <= |s|
    ensures Periodic(s, size) <==> s[..size] == s[size..][..size] && Periodic(s[size..], size)
  {
    var t := s[size..];
    assert forall i :: 0 <= i < |t| ==> t[i] == s[i + size];
    if Periodic(s, size) {
      assert forall i :: 0 <= i < size ==> s[i + size] == s[i];
      assert forall i :: size <= i < |t| ==> t[i] == s[i + size] == s[i] == t[i - size];
    }
    if s[..size] == t[..size] && Periodic(t, size) {
      forall i | size <= i < |s| ensures s[i] == s[i - size] {
        if i < 2 * size {
          assert s[..size][i - size] == t[..size][i - size];
        } else {
          assert t[i - size] == t[i - size - size];
        }
      }
    }
  }

  /** The buffer starts with what is left and ends like the last full block. */
  predicate Holds(buffer: seq<Byte>, received: seq<Byte>, offset: nat, size: nat)
  {
    && size > 0 && |buffer| == size && offset < size
    && buffer[..offset] == Rest(received, size)
    && (|received| >= size ==> buffer[offset..] == received[|received| - size..|received| - offset])
  }

  /** `part` was written after the bytes already there, and nothing else changed. */
  predicate Written(before: seq<Byte>, after: seq<Byte>, part: seq<Byte>, offset: nat)
  {
    && offset + |part| <= |before| == |after|
    && after[..offset + |part|] == before[..offset] + part && after[offset + |part|..] == before[offset + |part|..]
  }

  lemma BlockFilled(before: seq<Byte>, after: seq<Byte>, received: seq<Byte>, part: seq<Byte>, offset: nat, size: nat)
    requires Holds(before, received, offset, size) && Written(before, after, part, offset) && offset + |part| == size
    ensures Holds(after, received + part, 0, size)
    ensures FullBlocks(received + part, size) == FullBlocks(received, size) + [after]
  {
    WrittenWhole(before, after, part, offset);
    HoldsBlock(after, received, part, size);
    Arrival(received, part, size);
  }

  lemma WrittenWhole(before: seq<Byte>, after: seq<Byte>, part: seq<Byte>, offset: nat)
    requires Written(before, after, part, offset) && offset + |part| == |after|
    ensures after == before[..offset] + part && |before[..offset]| == offset
  {
    assert after == after[..|after|];
  }

  lemma PartKept(before: seq<Byte>, after: seq<Byte>, received: seq<Byte>, part: seq<Byte>, offset: nat, size: nat)
    requires Holds(before, received, offset, size) && Written(before, after, part, offset) && offset + |part| < size
    ensures Holds(after, received + part, offset + |part|, size)
    ensures FullBlocks(received + part, size) == FullBlocks(received, size)
  {
    HoldsPart(before, after, received, part, offset, size);
    assert |before[..offset]| == offset;
    Arrival(received, part, size);
  }

  lemma HoldsPart(before: seq<Byte>, after: seq<Byte>, received: seq<Byte>, part: seq<Byte>, offset: nat, size: nat)
    requires Holds(before, received, offset, size) && |after| == size && offset + |part| < size
    requires after[..offset + |part|] == before[..offset] + part
             && after[offset + |part|..] == before[offset + |part|..]
    ensures Holds(after, received + part, offset + |part|, size)
  {
    var now := received + part;
    assert |before[..offset]| == offset;
    Arrival(received, part, size);
    assert after[..offset + |part|] == Rest(now, size);
    if |now| >= size {
      EndStays(before, received, part, offset, size);
    }
  }

  lemma HoldsBlock(after: seq<Byte>, received: seq<Byte>, part: seq<Byte>, size: nat)
    requires size > 0 && |Rest(received, size)| + |part| == size && after == Rest(received, size) + part
    ensures Holds(after, received + part, 0, size)
  {
    RestIsTheEnd(received, size);
    BlockEnds(received, part, Rest(received, size), size);
    NothingLeft(received, part, size);
    WholeBlock(after, received + part, size);
  }

  lemma NothingLeft(received: seq<Byte>, part: seq<Byte>, size: nat)
    requires size > 0 && |Rest(received, size)| + |part| == size
    ensures Rest(received + part, size) == []
  {
    Arrival(received, part, size);
  }

  lemma BlockEnds(received: seq<Byte>, part: seq<Byte>, rest: seq<Byte>, size: nat)
    requires |rest| <= |received| && rest == received[|received| - |rest|..] && |rest| + |part| == size
    ensures var now := received + part; |now| >= size && rest + part == now[|now| - size..]
  {
    EndOfConcat(received, part, |rest|);
    assert |received + part| - size == |received| - |rest|;
  }

  lemma EndOfConcat(a: seq<Byte>, b: seq<Byte>, n: nat)
    requires n <= |a|
    ensures a[|a| - n..] + b == (a + b)[|a| - n..]
  {
  }

  lemma WholeBlock(buffer: seq<Byte>, received: seq<Byte>, size: nat)
    requires 0 < size <= |received| && buffer == received[|received| - size..] && Rest(received, size) == []
    ensures Holds(buffer, received, 0, size)
  {
    assert buffer[..0] == [] && buffer[0..] == buffer;
    assert received[|received| - size..|received| - 0] == received[|received| - size..];
  }

  lemma EndStays(before: seq<Byte>, received: seq<Byte>, part: seq<Byte>, offset: nat, size: nat)
    requires Holds(before, received, offset, size) && offset + |part| < size && |received| + |part| >= size
    ensures var now := received + part;
            before[offset + |part|..] == now[|now| - size..|now| - offset - |part|]
  {
    var now := received + part;
    assert offset == |before[..offset]| == |Rest(received, size)|;
    ShortIsLeft(received, size);
    var end := received[|received| - size..|received| - offset];
    assert before[offset + |part|..] == before[offset..][|part|..] == end[|part|..];
    assert end[|part|..] == received[|received| - size + |part|..|received| - offset];
    assert received[|received| - size + |part|..|received| - offset] == now[|now| - size..|now| - offset - |part|];
  }

  /** The first of two different blocks reads like the second one afterwards. */
  lemma FirstBlockIsLost()
    ensures FullBlocks([1, 2, 3, 4], 2) == [[1, 2], [3, 4]] && Held([1, 2, 3, 4], 2) == [3, 4]
    ensures !Periodic([1, 2, 3, 4], 2)
  {
    var s: seq<Byte> := [1, 2, 3, 4];
    assert s[..2] == [1, 2] && s[2..] == [3, 4];
    var t: seq<Byte> := [3, 4];
    assert t[..2] == t && t[2..] == [];
    assert s[2] != s[0];
  }

  /* ---------- the stream ---------- */

  class BufferedPassThrough {
    const bufferSize: nat
    const buffer: array<Byte>
    var offset: nat
    // the objects pushed for full blocks
    var pushed: seq<array<Byte>>
    var closed: bool
    ghost var output: seq<seq<Byte>>
    ghost var received: seq<Byte>

    constructor (bufferSize: nat)
      requires bufferSize > 0
      ensures Valid() && !closed && received == [] && output == [] && fresh(buffer) && this.bufferSize == bufferSize
    {
      this.bufferSize := bufferSize;
      this.buffer := new Byte[bufferSize](_ => 0);
      this.offset := 0;
      this.pushed := [];
      this.closed := false;
      this.output := [];
      this.received := [];
    }

    /**
     * What was pushed and the start of the buffer are the input. Every full block pushed is the same
     * object, the buffer itself, which is filled again from its start: its end is still that of the
     * last full block.
     */
    ghost predicate Valid()
      reads this, buffer
    {
      && buffer.Length == bufferSize && Holds(buffer[..], received, offset, bufferSize)
      && output == FullBlocks(received, bufferSize)
      && |pushed| == |output| && (forall b <- pushed :: b == buffer)
    }

    /** Copies `data[start..end]` after the bytes already there, as far as it fits. */
    method WriteToBuffer(data: seq<Byte>, start: nat, end: nat) returns (size: nat)
      requires start <= end <= |data| && offset <= buffer.Length
      modifies buffer
      ensures size == if end - start <= buffer.Length - offset then end - start else buffer.Length - offset
      ensures Written(old(buffer[..]), buffer[..], data[start..start + size], offset)
    {
      size := 0;
      while size < end - start && offset + size < buffer.Length
        invariant size <= end - start && offset + size <= buffer.Length
        invariant buffer[..offset + size] == old(buffer[..offset]) + data[start..start + size]
        invariant forall i :: offset + size <= i < buffer.Length ==> buffer[i] == old(buffer[i])
      {
        ghost var before := buffer[..offset + size];
        buffer[offset + size] := data[start + size];
        size := size + 1;
        assert buffer[..offset + size] == before + [data[start + size - 1]];
        assert data[start..start + size] == data[start..start + size - 1] + [data[start + size - 1]];
      }
      assert buffer[..][..offset + size] == buffer[..offset + size];
    }

    method WriteChunkData(chunk: seq<Byte>)
      requires Valid() && !closed
      modifies this`offset, this`pushed, this`output, this`received, buffer
      ensures Valid() && received == old(received) + chunk
    {
      var chunkOffset := 0;
      while chunkOffset < |chunk|
        invariant Valid() && chunkOffset <= |chunk|
        invariant received == old(received) + chunk[..chunkOffset]
        decreases |chunk| - chunkOffset
      {
        var remainingChunkSize := |chunk| - chunkOffset;
        var remainingBufferSize := bufferSize - offset;
        if remainingChunkSize >= remainingBufferSize {
          var size := FillBuffer(chunk, chunkOffset);
          Taken(old(received), chunk, chunkOffset, chunkOffset + size);
          chunkOffset := chunkOffset + size;
        } else {
          Taken(old(received), chunk, chunkOffset, |chunk|);
          KeepRest(chunk, chunkOffset);
          chunkOffset := |chunk|;
          break;
        }
      }
      assert chunk[..|chunk|] == chunk;
    }

    /** Writes up to the end of the buffer, pushes it and starts again. */
    method FillBuffer(chunk: seq<Byte>, chunkOffset: nat) returns (size: nat)
      requires Valid() && chunkOffset <= |chunk| && |chunk| - chunkOffset >= bufferSize - offset
      modifies this`offset, this`pushed, this`output, this`received, buffer
      ensures Valid() && 0 < size <= |chunk| - chunkOffset
      ensures received == old(received) + chunk[chunkOffset..chunkOffset + size]
    {
      ghost var before := buffer[..];
      size := WriteToBuffer(chunk, chunkOffset, chunkOffset + (bufferSize - offset));
      ghost var part := chunk[chunkOffset..chunkOffset + size];
      BlockFilled(before, buffer[..], received, part, offset, bufferSize);
      pushed, output, received := pushed + [buffer], output + [buffer[..]], received + part;
      offset := 0;
    }

    /** Writes the end of the chunk, which does not fill the buffer. */
    method KeepRest(chunk: seq<Byte>, chunkOffset: nat)
      requires Valid() && chunkOffset <= |chunk| && |chunk| - chunkOffset < bufferSize - offset
      modifies this`offset, this`received, buffer
      ensures Valid() && received == old(received) + chunk[chunkOffset..]
    {
      ghost var before := buffer[..];
      var size := WriteToBuffer(chunk, chunkOffset, |chunk|);
      assert chunk[chunkOffset..chunkOffset + size] == chunk[chunkOffset..];
      PartKept(before, buffer[..], received, chunk[chunkOffset..], offset, bufferSize);
      received := received + chunk[chunkOffset..];
      offset := offset + size;
    }

    method WriteChunks(chunks: seq<seq<Byte>>)
      requires Valid() && !closed
      modifies this`offset, this`pushed, this`output, this`received, buffer
      ensures Valid() && received == old(received) + Flatten(chunks)
    {
      for i := 0 to |chunks|
        invariant Valid() && received == old(received) + Flatten(chunks[..i])
      {
        WriteChunkData(chunks[i]);
        FlattenNext(old(received), chunks, i);
      }
      assert chunks[..|chunks|] == chunks;
    }

    /**
     * Whatever the chunks were, the stream ends with the cut of their concatenation. A reader that
     * looks at the pushed objects only then finds the full blocks in them exactly when the input is
     * periodic; the last slice is never written over.
     */
    method Final()
      requires Valid() && !closed
      modifies this`output, this`closed
      ensures closed && received == old(received)
      ensures output == Chop(received, bufferSize)
      ensures forall b <- pushed :: |received| >= bufferSize && b[..] == Held(received, bufferSize)
      ensures (forall i :: 0 <= i < |pushed| ==> pushed[i][..] == FullBlocks(received, bufferSize)[i])
              <==> Periodic(received, bufferSize)
      ensures buffer[..offset] == Rest(received, bufferSize)
    {
      ReadLater();
      if offset > 0 {
        output := output + [buffer[..offset]];
      }
      closed := true;
    }

    lemma ReadLater()
      requires Valid()
      ensures forall b <- pushed :: |received| >= bufferSize && b[..] == Held(received, bufferSize)
      ensures |pushed| == |FullBlocks(received, bufferSize)|
      ensures (forall i :: 0 <= i < |pushed| ==> pushed[i][..] == FullBlocks(received, bufferSize)[i])
              <==> Periodic(received, bufferSize)
    {
      var blocks := FullBlocks(received, bufferSize);
      if |received| >= bufferSize {
        assert buffer[..] == buffer[..][..offset] + buffer[..][offset..];
        assert buffer[..] == Held(received, bufferSize);
        HeldIsEachBlockIff(received, bufferSize);
        assert forall i :: 0 <= i < |blocks| ==> pushed[i] in pushed;
      }
    }
  }
}
