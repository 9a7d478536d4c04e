/** The byte ring of src/loop_cache.c.  Pointers are offsets from `cache_begin`. */
module LoopCaches {
  import opened Bytes

  function Min(a: nat, b: nat): nat {
    if a < b then a else b
  }

  /** How much is between two offsets, round the end. */
  function Used(head: nat, tail: nat, size: nat): int {
    var dist := tail + size - head;
    if dist >= size then dist - size else dist
  }

  /** An offset moved on, round the end. */
  function Moved(at: nat, n: nat, size: nat): int {
    if at + n >= size then n - (size - at) else at + n
  }

  /** What of `len` bytes lies before the end of the ring. */
  function Stretch(at: nat, len: int, size: nat): int {
    if at + len >= size then size - at else len
  }

  /** `loop_cache_get_free`. */
  function FreeStretch(head: nat, tail: nat, size: nat, wanted: nat): int {
    var free := size - Used(head, tail, size) - 1;
    Stretch(tail, if wanted != 0 then if wanted > free then free else wanted else free, size)
  }

  /** `loop_cache_get_data`. */
  function DataStretch(head: nat, tail: nat, size: nat, wanted: nat): int {
    var used := Used(head, tail, size);
    Stretch(head, if wanted != 0 then if wanted > used then used else wanted else used, size)
  }

  /** What a ring holds: from head on, round the end, up to tail. */
  function Held(bytes: seq<byte>, head: nat, tail: nat): (s: seq<byte>)
    requires head < |bytes| && tail < |bytes|
    ensures |s| == if head <= tail then tail - head else tail + |bytes| - head
  {
    if head <= tail then bytes[head..tail] else bytes[head..] + bytes[..tail]
  }

  class LoopCache {
    const cache: array<byte>
    var head: nat
    var tail: nat

    ghost predicate Valid()
      reads this
    {
      head < cache.Length && tail < cache.Length
    }

    ghost function Contents(): (s: seq<byte>)
      requires Valid()
      reads this, cache
    {
      Held(cache[..], head, tail)
    }

    /** `create_loop_cache`; there is none of no size. */
    constructor (size: nat)
      requires size > 0
      ensures Valid() && fresh(cache) && cache.Length == size && head == tail == 0 && Contents() == []
    {
      cache := new byte[size];
      head, tail := 0, 0;
    }

    /** `loop_cache_data_size`. */
    function DataSize(): (used: nat)
      requires Valid()
      reads this, cache
      ensures used == |Contents()| < cache.Length
    {
      Used(head, tail, cache.Length)
    }

    /** `loop_cache_free_size`. */
    function FreeSize(): (free: nat)
      requires Valid()
      reads this, cache
      ensures free + |Contents()| == cache.Length - 1
    {
      cache.Length - DataSize() - 1
    }

    /** memcpy into the ring. */
    method Store(at: nat, data: seq<byte>)
      requires at + |data| <= cache.Length
      modifies cache
      ensures cache[..] == old(cache[..at]) + data + old(cache[at + |data|..])
    {
      var i: nat := 0;
      while i < |data|
        invariant i <= |data|
        invariant forall k :: 0 <= k < cache.Length ==>
          cache[k] == if at <= k < at + i then data[k - at] else old(cache[k])
        decreases |data| - i
      {
        cache[at + i] := data[i];
        i := i + 1;
      }
    }

    /** `loop_cache_push_data`: all of the data at the end, or nothing. */
    method PushData(data: seq<byte>) returns (ok: bool)
      requires Valid()
      modifies this`tail, cache
      ensures Valid() && (ok <==> |data| + |old(Contents())| + 1 <= cache.Length)
      ensures Contents() == if ok then old(Contents()) + data else old(Contents())
    {
      if |data| + DataSize() + 1 > cache.Length {
        return false;
      }
      ghost var was := cache[..];
      if tail + |data| >= cache.Length {
        var seg := cache.Length - tail;
        Store(tail, data[..seg]);
        Store(0, data[seg..]);
        tail := |data| - seg;
        StoredRound(was, cache[..], head, old(tail), data);
      } else {
        Store(tail, data);
        tail := tail + |data|;
        StoredAhead(was, cache[..], head, old(tail), data);
      }
      ok := true;
    }

    /** The bytes of a stretch, and those it goes on with at the beginning of the ring. */
    function Fetch(size: nat): (data: seq<byte>)
      requires Valid() && size <= DataSize()
      reads this, cache
      ensures data == Contents()[..size]
    {
      if head + size >= cache.Length then
        var seg := cache.Length - head;
        cache[head..] + cache[..size - seg]
      else cache[head..head + size]
    }

    /** `loop_cache_copy_data`. */
    method CopyData(size: nat) returns (ok: bool, data: seq<byte>)
      requires Valid()
      ensures ok <==> size <= |Contents()|
      ensures ok ==> data == Contents()[..size]
    {
      if size > DataSize() {
        return false, [];
      }
      ok, data := true, Fetch(size);
    }

    /** `loop_cache_pop`. */
    method Pop(size: nat) returns (ok: bool)
      requires Valid()
      modifies this`head
      ensures Valid() && (ok <==> size <= |old(Contents())|)
      ensures Contents() == if ok then old(Contents())[size..] else old(Contents())
    {
      if size > DataSize() {
        return false;
      }
      head := Moved(head, size, cache.Length);
      Popped(cache[..], old(head), tail, size);
      ok := true;
    }

    /** `loop_cache_pop_data`. */
    method PopData(size: nat) returns (ok: bool, data: seq<byte>)
      requires Valid()
      modifies this`head
      ensures Valid() && (ok <==> size <= |old(Contents())|)
      ensures if ok then old(Contents()) == data + Contents() && |data| == size else Contents() == old(Contents())
    {
      ok, data := CopyData(size);
      if ok {
        ok := Pop(size);
      }
    }

    /** `loop_cache_get_free`: how many bytes can be written in one stretch from tail on. */
    function GetFree(wanted: nat): (len: nat)
      requires Valid()
      reads this, cache
      ensures len == Min(Min(if wanted == 0 then FreeSize() else wanted, FreeSize()), cache.Length - tail)
    {
      FreeStretch(head, tail, cache.Length, wanted)
    }

    /** `loop_cache_get_data`: how many bytes can be read in one stretch from head on. */
    function GetData(wanted: nat): (len: nat)
      requires Valid()
      reads this, cache
      ensures len == Min(Min(if wanted == 0 then DataSize() else wanted, DataSize()), cache.Length - head)
      ensures cache[head..head + len] == Contents()[..len]
    {
      DataStretch(head, tail, cache.Length, wanted)
    }

    /** What a caller does with the stretch it was given for writing. */
    method Fill(data: seq<byte>)
      requires Valid() && |data| <= GetFree(0)
      modifies cache
      ensures Contents() == old(Contents())
      ensures tail + |data| <= cache.Length && cache[tail..tail + |data|] == data
    {
      ghost var was := cache[..];
      Store(tail, data);
      Filled(was, cache[..], head, tail, data);
    }

    /** `loop_cache_push`: what has been written in place from tail on becomes part of the contents. */
    method Push(size: nat) returns (ok: bool)
      requires Valid()
      modifies this`tail
      ensures Valid() && (ok <==> size + |old(Contents())| + 1 <= cache.Length)
      ensures !ok ==> tail == old(tail)
      ensures ok ==> |Contents()| == |old(Contents())| + size && old(Contents()) <= Contents()
      ensures ok && old(tail) + size <= cache.Length ==>
        Contents() == old(Contents()) + old(cache[tail..tail + size])
    {
      if size + DataSize() + 1 > cache.Length {
        return false;
      }
      tail := Moved(tail, size, cache.Length);
      Extended(cache[..], head, old(tail), size);
      ok := true;
    }
  }

  lemma StoredAhead(was: seq<byte>, now: seq<byte>, head: nat, tail: nat, data: seq<byte>)
    requires |was| == |now| && head < |was| && tail + |data| < |was|
    requires |data| + |Held(was, head, tail)| + 1 <= |was|
    requires now == was[..tail] + data + was[tail + |data|..]
    ensures Held(now, head, tail + |data|) == Held(was, head, tail) + data
  {
    var next := tail + |data|;
    assert now[..tail] == was[..tail] && now[tail..next] == data;
    if head <= tail {
      assert now[head..next] == now[head..tail] + now[tail..next];
      assert now[head..tail] == was[head..tail];
    } else {
      assert next < head;
      assert now[head..] == was[head..];
      assert now[..next] == now[..tail] + now[tail..next];
    }
  }

  lemma Filled(was: seq<byte>, now: seq<byte>, head: nat, tail: nat, data: seq<byte>)
    requires |was| == |now| && head < |was| && tail < |was| && tail + |data| <= |was|
    requires |data| + |Held(was, head, tail)| + 1 <= |was|
    requires now == was[..tail] + data + was[tail + |data|..]
    ensures Held(now, head, tail) == Held(was, head, tail)
  {
    assert now[..tail] == was[..tail];
    if head <= tail {
      assert now[head..tail] == now[..tail][head..];
      assert was[head..tail] == was[..tail][head..];
    } else {
      assert tail + |data| < head;
      assert now[head..] == was[head..];
    }
  }

  lemma WrittenRound(a: seq<byte>, b: seq<byte>, c: seq<byte>, k: nat)
    requires |c| <= k <= |a|
    ensures var now := c + (a + b)[|c|..];
      now[..|c|] == c && now[|a|..] == b && now[k..|a|] == a[k..]
  {
    assert (a + b)[|c|..] == a[|c|..] + b;
    var now := c + (a[|c|..] + b);
    assert now == (c + a[|c|..]) + b;
    assert (c + a[|c|..])[k..] == a[k..];
  }

  lemma StoredRound(was: seq<byte>, now: seq<byte>, head: nat, tail: nat, data: seq<byte>)
    requires |was| == |now| && head < |was| && tail < |was| <= tail + |data|
    requires |data| + |Held(was, head, tail)| + 1 <= |was|
    requires var seg := |was| - tail;
      now == data[seg..] + (was[..tail] + data[..seg])[|data| - seg..]
    ensures Held(now, head, tail + |data| - |was|) == Held(was, head, tail) + data
  {
    var seg := |was| - tail;
    var next := |data| - seg;
    assert head <= tail && next < head;
    WrittenRound(was[..tail], data[..seg], data[seg..], head);
    assert now[head..tail] == was[head..tail];
    assert now[head..] == now[head..tail] + now[tail..];
    assert data[..seg] + data[seg..] == data;
  }

  lemma Popped(bytes: seq<byte>, head: nat, tail: nat, size: nat)
    requires head < |bytes| && tail < |bytes| && size <= |Held(bytes, head, tail)|
    ensures var next := if head + size >= |bytes| then head + size - |bytes| else head + size;
      next < |bytes| && Held(bytes, next, tail) == Held(bytes, head, tail)[size..]
  {
  }

  lemma Extended(bytes: seq<byte>, head: nat, tail: nat, size: nat)
    requires head < |bytes| && tail < |bytes| && size + |Held(bytes, head, tail)| + 1 <= |bytes|
    ensures var next := if tail + size >= |bytes| then tail + size - |bytes| else tail + size;
      && next < |bytes| && |Held(bytes, head, next)| == |Held(bytes, head, tail)| + size
      && Held(bytes, head, tail) <= Held(bytes, head, next)
      && (tail + size <= |bytes| ==> Held(bytes, head, next) == Held(bytes, head, tail) + bytes[tail..tail + size])
  {
    var next := if tail + size >= |bytes| then tail + size - |bytes| else tail + size;
    if head <= tail {
      if tail + size < |bytes| {
        Slices(bytes, head, tail, next);
      } else {
        assert next < head;
        Slices(bytes, head, tail, |bytes|);
        More(bytes[head..tail], bytes[tail..], bytes[..next]);
      }
    } else {
      assert next == tail + size < head;
      Slices(bytes, 0, tail, next);
      More(bytes[head..], bytes[..tail], bytes[tail..next]);
    }
  }

  lemma Slices(bytes: seq<byte>, i: nat, j: nat, k: nat)
    requires i <= j <= k <= |bytes|
    ensures bytes[i..k] == bytes[i..j] + bytes[j..k]
  {
  }

  lemma More(a: seq<byte>, b: seq<byte>, c: seq<byte>)
    ensures (a + b) + c == a + (b + c) && a <= a + (b + c) && a + b <= (a + b) + c
  {
  }
}
