/** The byte buffer in memory: a block, a head that moves through it, and lazy compaction. */
module ByteBuffer {
  import opened CStrings
  import opened ByteQueue

  class Buffer {
    var data: array?<byte>
    var head: nat
    var used: nat
    var actuallyUsed: nat
    var datalen: nat
    var loops: int
    const maxLen: nat
    const blockSize: nat
    const kind: Kind

    /** The head offset and the unread bytes add up to the stored ones, which lie inside the block. */
    ghost predicate Valid()
      reads this
    {
      && head + used == actuallyUsed <= datalen
      && (if data == null then datalen == 0 else datalen <= data.Length)
    }

    ghost function Stored(): (s: seq<byte>)
      requires Valid()
      reads this, data
      ensures |s| == actuallyUsed
    {
      if data == null then [] else data[..actuallyUsed]
    }

    ghost function View(): (q: Queue)
      requires Valid()
      reads this, data
    {
      Queue(Stored(), head, datalen, maxLen, blockSize, loops, kind)
    }

    /** `switch_buffer_create`. */
    constructor Create(max: nat)
      ensures Valid() && View() == Queue([], 0, max, 0, 0, 0, Fixed) && data != null && fresh(data)
    {
      head, used, actuallyUsed, datalen, loops := 0, 0, 0, max, 0;
      maxLen, blockSize, kind := 0, 0, Fixed;
      data := new byte[max](_ => 0);
    }

    /** `switch_buffer_create_dynamic`: no block at all if it starts with length zero. */
    constructor CreateDynamic(block: nat, start: nat, max: nat)
      ensures Valid() && View() == NewDynamic(block, start, max)
      ensures (data == null <==> start == 0) && (data != null ==> fresh(data))
    {
      head, used, actuallyUsed, datalen, loops := 0, 0, 0, start, 0;
      maxLen, blockSize, kind := max, block, Dynamic;
      if start == 0 {
        data := null;
      } else {
        data := new byte[start](_ => 0);
      }
    }

    /** `switch_buffer_create_partition`: a view of the caller's bytes. */
    constructor CreatePartition(bytes: array<byte>, len: nat)
      requires len <= bytes.Length
      ensures Valid() && data == bytes && View() == Queue(bytes[..len], 0, len, 0, 0, 0, Partition)
    {
      head, used, actuallyUsed, datalen, loops := 0, len, len, len, 0;
      maxLen, blockSize, kind := 0, 0, Partition;
      data := bytes;
    }

    /** `switch_buffer_reset_partition_data`: everything the block holds is unread again. */
    method ResetPartition() returns (ok: bool)
      requires Valid()
      modifies this
      ensures Valid() && data == old(data) && datalen == old(datalen) && ok == kind.Partition?
      ensures View() == ByteQueue.SetPartition(old(View()), if data == null then [] else data[..datalen])
    {
      if !kind.Partition? {
        return false;
      }
      head := 0;
      used, actuallyUsed := datalen, datalen;
      return true;
    }

    /** `switch_buffer_set_partition_data`. */
    method SetPartition(bytes: array<byte>, len: nat) returns (ok: bool)
      requires Valid() && len <= bytes.Length
      modifies this
      ensures Valid() && ok == kind.Partition?
      ensures View() == ByteQueue.SetPartition(old(View()), bytes[..len])
    {
      if !kind.Partition? {
        return false;
      }
      head, used, actuallyUsed := 0, 0, 0;
      data := bytes;
      datalen := len;
      ok := ResetPartition();
    }

    /** `switch_buffer_toss`. */
    method Toss(n: nat) returns (left: nat)
      requires Valid()
      modifies `head, `used
      ensures Valid() && View() == ByteQueue.Toss(old(View()), n) && left == used
    {
      var reading := 0;
      if used < 1 {
        return 0;
      } else if used >= n {
        reading := n;
      } else {
        reading := used;
      }
      used := used - reading;
      head := head + reading;
      return used;
    }

    /** `switch_buffer_peek`. */
    method Peek(n: nat) returns (bytes: seq<byte>)
      requires Valid()
      ensures bytes == ByteQueue.Peek(View(), n)
    {
      var reading := 0;
      if used < 1 {
        return [];
      } else if used >= n {
        reading := n;
      } else {
        reading := used;
      }
      bytes := data[head..head + reading];
      assert bytes == data[..actuallyUsed][head..head + reading];
    }

    /** `switch_buffer_read`. */
    method Read(n: nat) returns (bytes: seq<byte>)
      requires Valid()
      modifies `head, `used
      ensures Valid() && View() == ByteQueue.Toss(old(View()), n) && bytes == ByteQueue.Peek(old(View()), n)
    {
      bytes := Peek(n);
      used := used - |bytes|;
      head := head + |bytes|;
    }

    /** `switch_buffer_read_loop`. */
    method ReadLoop(n: nat) returns (bytes: seq<byte>)
      requires Valid()
      modifies `head, `used, `loops
      ensures Valid() && (View(), bytes) == ByteQueue.ReadLoop(old(View()), n)
    {
      bytes := Read(n);
      if |bytes| == 0 {
        if loops > 0 {
          loops := loops - 1;
        }
        if loops == 0 {
          return [];
        }
        head := 0;
        used := actuallyUsed;
        bytes := Read(n);
      }
    }

    /** `memmove` to the front of the block, lowest byte first. */
    method MoveToFront()
      requires Valid() && data != null
      modifies this, data
      ensures Valid() && data == old(data) && datalen == old(datalen) && loops == old(loops) && used == old(used)
      ensures head == 0 && Stored() == old(Stored()[head..])
    {
      ghost var before := data[..];
      for i := 0 to used
        invariant forall j :: 0 <= j < i ==> data[j] == before[head + j]
        invariant forall j :: i <= j < data.Length ==> data[j] == before[j]
        modifies data
      {
        data[i] := data[head + i];
      }
      assert data[..used] == before[..actuallyUsed][head..];
      head := 0;
      actuallyUsed := used;
    }

    /** `realloc`: the same bytes at the front of a larger block. */
    method Enlarge(size: nat)
      requires Valid() && data != null && head == 0 && datalen <= size
      modifies this
      ensures Valid() && data != null && fresh(data) && datalen == size
      ensures head == 0 && used == old(used) && loops == old(loops) && Stored() == old(Stored())
    {
      var block := new byte[size];
      for i := 0 to datalen
        invariant block[..i] == data[..i]
        modifies block
      {
        block[i] := data[i];
        assert block[..i + 1] == block[..i] + [block[i]] && data[..i + 1] == data[..i] + [data[i]];
      }
      assert block[..actuallyUsed] == block[..datalen][..actuallyUsed] == data[..datalen][..actuallyUsed];
      data := block;
      datalen := size;
    }

    /** The growing step of a write, once the unread bytes are at the front. */
    method GrowFor(n: nat)
      requires Valid() && data != null && (datalen - used < n ==> head == 0)
      modifies this
      ensures Valid() && data != null && (data == old(data) || fresh(data)) && View() == Grow(old(View()), n)
    {
      var freespace := datalen - used;
      if kind.Dynamic? && freespace < n && (maxLen == 0 || used + n <= maxLen) {
        var newSize := datalen + n;
        var newBlockSize := datalen + blockSize;
        if newBlockSize > newSize {
          newSize := newBlockSize;
        }
        Enlarge(newSize);
      }
    }

    /** Compaction and growth. */
    method MakeRoom(n: nat)
      requires Valid() && data != null
      modifies this, data
      ensures Valid() && data != null && (data == old(data) || fresh(data))
      ensures View() == Grow(Compact(old(View()), n), n)
      ensures datalen - used >= n ==> datalen - actuallyUsed >= n
    {
      ghost var before := View();
      if datalen - actuallyUsed < n {
        MoveToFront();
        assert View() == Compact(before, n);
      }
      GrowFor(n);
    }

    /** `memcpy` behind the stored bytes. */
    method Append(bytes: seq<byte>)
      requires Valid() && data != null && actuallyUsed + |bytes| <= datalen
      modifies this, data
      ensures Valid() && data == old(data) && used == old(used) + |bytes|
      ensures View() == old(View()).(stored := old(Stored()) + bytes)
    {
      for i := 0 to |bytes|
        invariant data[..actuallyUsed + i] == old(data[..actuallyUsed]) + bytes[..i]
        modifies data
      {
        data[actuallyUsed + i] := bytes[i];
        assert data[..actuallyUsed + i + 1] == data[..actuallyUsed + i] + [bytes[i]];
        assert bytes[..i + 1] == bytes[..i] + [bytes[i]];
      }
      assert bytes[..|bytes|] == bytes;
      used := used + |bytes|;
      actuallyUsed := actuallyUsed + |bytes|;
    }

    /** `switch_buffer_write`. */
    method Write(bytes: seq<byte>) returns (w: nat)
      requires Valid() && (kind.Partition? || data != null)
      modifies this, data
      ensures Valid() && (data == old(data) || fresh(data)) && (data == null <==> old(data) == null)
      ensures (View(), w) == ByteQueue.Write(old(View()), bytes)
    {
      hide Compact, Grow, Stored;
      if kind.Partition? {
        return 0;
      }
      if |bytes| == 0 {
        return used;
      }
      MakeRoom(|bytes|);
      if datalen - used < |bytes| {
        return 0;
      }
      Append(bytes);
      return used;
    }

    /** `switch_buffer_zero`. */
    method Zero()
      requires Valid() && data != null
      modifies `head, `used, `actuallyUsed
      ensures Valid() && View() == ByteQueue.Zero(old(View()))
    {
      head, used, actuallyUsed := 0, 0, 0;
    }

    /** `switch_buffer_zwrite`. */
    method ZWrite(bytes: seq<byte>) returns (w: nat)
      requires Valid() && (kind.Partition? || data != null)
      modifies this, data
      ensures Valid() && (data == old(data) || fresh(data)) && (data == null <==> old(data) == null)
      ensures (View(), w) == ByteQueue.ZWrite(old(View()), bytes)
    {
      hide ByteQueue.Write;
      if kind.Partition? {
        PartitionRefuses(View(), bytes);
        return 0;
      }
      w := Write(bytes);
      if w == 0 {
        Zero();
        w := Write(bytes);
      }
    }

    /** `switch_buffer_slide_write`. */
    method SlideWrite(bytes: seq<byte>) returns (w: nat)
      requires Valid() && (kind.Partition? || data != null)
      modifies this, data
      ensures Valid() && (data == old(data) || fresh(data)) && (data == null <==> old(data) == null)
      ensures (View(), w) == ByteQueue.SlideWrite(old(View()), bytes)
    {
      hide ByteQueue.Write;
      if kind.Partition? {
        PartitionRefuses(View(), bytes);
        return 0;
      }
      w := Write(bytes);
      if w == 0 {
        var left := Toss(|bytes|);
        w := Write(bytes);
      }
    }

    /** `switch_buffer_freespace`: `size_t` subtraction wraps. */
    method Freespace() returns (n: int)
      requires Valid()
      ensures n == ByteQueue.Freespace(View())
    {
      if kind.Dynamic? {
        if maxLen != 0 {
          return (maxLen - used) % SIZE_MODULUS;
        }
        return 1000000;
      }
      return datalen - used;
    }
  }

  lemma PartitionRefuses(q: Queue, bytes: seq<byte>)
    requires q.kind.Partition?
    ensures ByteQueue.Write(q, bytes) == (q, 0)
  {
  }
}
