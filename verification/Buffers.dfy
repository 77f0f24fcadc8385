/** A byte buffer with room before and behind its contents. */
module Buffers {
  import opened Frames

  class Buffer {
    var base: array<byte>
    var head: nat
    var tail: nat

    ghost predicate Valid()
      reads this
    {
      head <= tail <= base.Length
    }

    ghost function Contents(): seq<byte>
      requires Valid()
      reads this, base
    {
      base[head..tail]
    }

    constructor (size: nat)
      ensures Valid() && fresh(base) && base.Length == size
      ensures head == tail == 0 && Contents() == []
    {
      base := new byte[size];
      head, tail := 0, 0;
    }

    function Count(): (n: nat)
      requires Valid()
      reads this, base
      ensures n == |Contents()|
    {
      tail - head
    }

    /** Leave room for headers. The buffer must still be empty. */
    method ReserveHead(n: nat)
      requires Valid() && head == tail && tail + n <= base.Length
      modifies this`head, this`tail
      ensures Valid() && Contents() == [] && head == old(head) + n && tail == head
    {
      tail := tail + n;
      head := tail;
    }

    method PushHead(data: seq<byte>)
      requires Valid() && |data| <= head
      modifies this`head, base
      ensures Valid() && Contents() == data + old(Contents())
    {
      head := head - |data|;
      forall k | 0 <= k < |data| {
        base[head + k] := data[k];
      }
      assert base[head..old(head)] == data;
      assert base[old(head)..tail] == old(base[head..tail]);
      assert base[head..tail] == base[head..old(head)] + base[old(head)..tail];
    }

    method PushTail(data: seq<byte>)
      requires Valid() && |data| <= base.Length - tail
      modifies this`tail, base
      ensures Valid() && Contents() == old(Contents()) + data
    {
      forall k | 0 <= k < |data| {
        base[tail + k] := data[k];
      }
      tail := tail + |data|;
      assert base[head..old(tail)] == old(base[head..tail]);
      assert base[old(tail)..tail] == data;
      assert base[head..tail] == base[head..old(tail)] + base[old(tail)..tail];
    }

    method PullHead(n: nat) returns (data: seq<byte>)
      requires Valid() && n <= |Contents()|
      modifies this`head
      ensures Valid() && data + Contents() == old(Contents()) && |data| == n
    {
      data := base[head..head + n];
      head := head + n;
      assert data + base[head..tail] == old(base[head..tail]);
    }

    /** Grow the buffer so that n more bytes fit behind its contents. */
    method EnsureTailroom(n: nat)
      requires Valid()
      modifies this`base
      ensures Valid() && base.Length - tail >= n
      ensures base == old(base) || fresh(base)
      ensures Contents() == old(Contents())
    {
      if base.Length - tail >= n {
        return;
      }
      var size := base.Length + n;
      var grown := new byte[size];
      forall k | 0 <= k < base.Length {
        grown[k] := base[k];
      }
      assert grown[head..tail] == base[head..tail];
      base := grown;
    }
  }
}
