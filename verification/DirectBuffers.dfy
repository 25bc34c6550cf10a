/** Native buffers for streamed blobs: the connection's pool, the streams that fill buffers, and the bindings
    through which SQLite reads them. Java and C share two control bytes at the head of each buffer. */
module DirectBuffers {
  import opened CInts

  type Addr = nat
  type Stream = nat
  datatype Param = Param(stmt: nat, index: nat)

  const CONTROL_BYTES := 2
  const MAX_POOLED := 0x10_0000   // MAX_POOLED_DIRECT_BUFFER_SIZE
  const MAX_REQUEST := 0x4000_0000 - CONTROL_BYTES   // above this the doubling of an int overflows

  /** A native buffer with its DirectBuffer: `use` and `pending` are the control bytes, `attached` tells whether
      the Java object still refers to it, and `data` is what lies before the position of its byte buffer. The
      preconditions say that nobody touches the control bytes of memory that has been freed. */
  datatype Memory = Memory(size: int, use: int, pending: int, freed: bool, attached: bool, data: seq<int>) {
    function Capacity(): int { size - CONTROL_BYTES }
    /** The Java object does not refer to freed memory. */
    predicate Safe() { attached ==> !freed }
    predicate IsValid() requires Safe() { attached && pending == 0 }
    predicate IsUsed() requires Safe() { attached && use != 0 }
    function IncUsed(): Memory requires Safe() { if attached then this.(use := use + 1) else this }
    function DecUsed(): Memory requires Safe() { if attached && use > 0 then this.(use := use - 1) else this }
  }

  /** wrapper_free: the memory goes at once if it is not in use, and otherwise when SQLite releases it. */
  function WrapperFree(b: Memory): Memory
    requires b.Safe()
  {
    if !b.attached then b
    else if b.use == 0 then b.(attached := false, pending := 255, freed := true)
    else b.(attached := false, pending := 1)
  }

  /** bind_release, SQLite's destructor call. */
  function BindRelease(b: Memory): Memory
    requires !b.freed
  {
    var b := if b.use > 0 then b.(use := b.use - 1) else b;
    if b.pending == 1 then b.(freed := true) else b
  }

  /** freeBuffer: a pooled buffer only loses a use, another one is freed as soon as SQLite lets go of it too. */
  function FreeBuffer(b: Memory, cached: bool): Memory
    requires b.Safe()
  {
    var b := b.DecUsed();
    if cached then b else WrapperFree(b)
  }

  /** One user leaves: the buffer is idle in the pool or freed. One of two leaves: the other, SQLite, keeps it. */
  lemma FreeBufferMeaning(b: Memory, cached: bool)
    requires b.attached && b.pending == 0 && !b.freed && 0 <= b.use <= 2
    ensures var r := FreeBuffer(b, cached);
            && r.size == b.size && r.data == b.data
            && r.use == (if b.use == 0 then 0 else b.use - 1)
            && (r.freed <==> !cached && b.use <= 1)
            && (cached ==> r.attached && r.pending == 0)
            && (r.freed ==> !r.attached)
            && (!cached && b.use == 2 ==> !r.attached && r.pending == 1)
  {
  }

  /** A blob SQLite reads from a buffer. */
  datatype Blob = Blob(addr: Addr, length: int)

  datatype Holder = Unused | ByStream(s: Stream) | ByBinding(p: Param) | Released

  /** size in allocateBuffer: 1024 doubled until the request and the control bytes fit. */
  method RoundUp(minimumSize: int) returns (size: int)
    requires minimumSize <= MAX_REQUEST
    ensures IsRounded(size, minimumSize) && size <= 0x4000_0000
  {
    size := 1024;
    ghost var k := 0;
    while size < minimumSize + CONTROL_BYTES
      invariant size == 1024 * Power(k) && size >= 1024
      invariant k == 0 || size / 2 < minimumSize + CONTROL_BYTES
      invariant size <= 0x4000_0000
      decreases minimumSize + CONTROL_BYTES - size
    {
      PowerBound(k);
      size := 2 * size;
      k := k + 1;
    }
    RoundedSize(size, k, minimumSize);
  }

  function Power(k: nat): nat { if k == 0 then 1 else 2 * Power(k - 1) }

  ghost predicate IsDoubled(size: int) { exists k: nat :: size == 1024 * Power(k) }

  /** The smallest of 1024, 2048, 4096, ... that takes the request and the control bytes. */
  ghost predicate IsRounded(size: int, minimumSize: int) {
    && IsDoubled(size) && size >= minimumSize + CONTROL_BYTES
    && forall smaller: int :: IsDoubled(smaller) && smaller < size ==> smaller < minimumSize + CONTROL_BYTES
  }

  lemma DoubledSize(size: int)
    requires IsDoubled(size)
    ensures size >= 1024
  {
    var k: nat :| size == 1024 * Power(k);
    PowerSteps(0, k);
  }

  /** The size after k rounds of the loop, on a Java int. */
  function JavaSize(k: nat): int { if k == 0 then 1024 else Wrap32(2 * JavaSize(k - 1)) }

  lemma Doublings()
    ensures Wrap32(0x8000_0000) == INT32_MIN && Wrap32(2 * INT32_MIN) == 0 && Wrap32(0) == 0
  {
  }

  lemma {:induction false} JavaSizes(k: nat)
    ensures k <= 20 ==> JavaSize(k) == 1024 * Power(k) && Power(k) <= 0x10_0000
    ensures k == 21 ==> JavaSize(k) == INT32_MIN
    ensures k > 21 ==> JavaSize(k) == 0
  {
    hide Power, Wrap32;
    Doublings();
    PowerZero();
    PowerTen();
    if k > 0 {
      JavaSizes(k - 1);
      PowerNext(k - 1);
      if k <= 20 { PowerSteps(k, 20); }
    }
  }

  lemma PowerZero()
    ensures Power(0) == 1
  {
  }

  lemma PowerNext(k: nat)
    ensures Power(k + 1) == 2 * Power(k)
  {
  }

  /** The loop stops after k rounds. */
  ghost predicate StopsAt(minimumSize: int, k: nat) {
    && JavaSize(k) >= Wrap32(minimumSize + CONTROL_BYTES)
    && forall j :: 0 <= j < k ==> JavaSize(j) < Wrap32(minimumSize + CONTROL_BYTES)
  }

  lemma {:induction false} FirstStop(minimumSize: int, k: nat) returns (m: nat)
    requires JavaSize(k) >= Wrap32(minimumSize + CONTROL_BYTES)
    ensures m <= k && StopsAt(minimumSize, m)
  {
    if j :| 0 <= j < k && JavaSize(j) >= Wrap32(minimumSize + CONTROL_BYTES) {
      m := FirstStop(minimumSize, j);
    } else {
      m := k;
    }
  }

  lemma JavaSizeBounds()
    ensures forall k: nat :: JavaSize(k) <= 0x4000_0000
    ensures JavaSize(0) == 1024 && JavaSize(20) == 0x4000_0000
  {
    forall k: nat ensures JavaSize(k) <= 0x4000_0000 { JavaSizes(k); }
    JavaSizes(20);
    PowerTen();
  }

  /** The sum with the control bytes wraps for the two largest ints only. */
  lemma WrappedSum(minimumSize: int)
    requires INT32_MIN <= minimumSize <= INT32_MAX
    ensures var w := Wrap32(minimumSize + CONTROL_BYTES);
            if minimumSize > INT32_MAX - CONTROL_BYTES then w < 0 else w == minimumSize + CONTROL_BYTES
  {
  }

  /** On Java ints the loop ends with a buffer that holds the request if and only if the request is at most 2^30 - 2.
      Above that it never ends, except for the two largest ints, which wrap around and get 1024 bytes. */
  lemma RequestFits(minimumSize: int)
    requires INT32_MIN <= minimumSize <= INT32_MAX
    ensures (exists k: nat :: StopsAt(minimumSize, k) && JavaSize(k) - CONTROL_BYTES >= minimumSize)
            <==> minimumSize <= MAX_REQUEST
    ensures (exists k: nat :: StopsAt(minimumSize, k))
            <==> minimumSize <= MAX_REQUEST || minimumSize > INT32_MAX - CONTROL_BYTES
  {
    hide JavaSize, Wrap32;
    JavaSizeBounds();
    WrappedSum(minimumSize);
    if minimumSize <= MAX_REQUEST {
      var k := FirstStop(minimumSize, 20);
      assert StopsAt(minimumSize, k) && JavaSize(k) - CONTROL_BYTES >= minimumSize;
    } else if minimumSize > INT32_MAX - CONTROL_BYTES {
      assert StopsAt(minimumSize, 0);
    }
  }

  lemma RoundedSize(size: int, k: nat, minimumSize: int)
    requires size == 1024 * Power(k) && size >= minimumSize + CONTROL_BYTES
    requires k == 0 || size / 2 < minimumSize + CONTROL_BYTES
    ensures IsRounded(size, minimumSize)
  {
    forall smaller: int | IsDoubled(smaller) && smaller < size ensures smaller < minimumSize + CONTROL_BYTES {
      var j: nat :| smaller == 1024 * Power(j);
      PowerSteps(j, k);
      PowerSteps(k, j);
    }
  }

  lemma {:induction false} PowerSteps(k: nat, j: nat)
    ensures k <= j ==> Power(k) <= Power(j)
    ensures k < j ==> 2 * Power(k) <= Power(j)
    decreases j
  {
    if k < j { PowerSteps(k, j - 1); }
  }

  /** Powers of two do not skip 2^20. */
  lemma PowerBound(k: nat)
    ensures Power(k) < 0x10_0000 ==> 2 * Power(k) <= 0x10_0000
  {
    PowerTen();
    PowerSteps(k, 20);
    PowerSteps(20, k);
  }

  lemma PowerTen()
    ensures Power(10) == 1024 && Power(20) == 0x10_0000
  {
    assert Power(5) == 32;
    assert Power(10) == 1024 by { assert Power(6) == 64 && Power(7) == 128 && Power(8) == 256 && Power(9) == 512; }
    assert Power(15) == 32768 by {
      assert Power(11) == 2048 && Power(12) == 4096 && Power(13) == 8192 && Power(14) == 16384;
    }
    assert Power(20) == 0x10_0000 by {
      assert Power(16) == 65536 && Power(17) == 131072 && Power(18) == 262144 && Power(19) == 524288;
    }
  }

  function Total(pool: seq<Addr>, mem: map<Addr, Memory>): int
    requires forall i :: 0 <= i < |pool| ==> pool[i] in mem
  {
    if pool == [] then 0 else mem[pool[0]].Capacity() + Total(pool[1..], mem)
  }

  lemma {:induction false} TotalSame(pool: seq<Addr>, mem: map<Addr, Memory>, mem': map<Addr, Memory>)
    requires forall i :: 0 <= i < |pool| ==>
               pool[i] in mem && pool[i] in mem' && mem'[pool[i]].size == mem[pool[i]].size
    ensures Total(pool, mem) == Total(pool, mem')
  {
    if pool != [] { TotalSame(pool[1..], mem, mem'); }
  }

  lemma {:induction false} TotalInsert(pool: seq<Addr>, i: nat, a: Addr, mem: map<Addr, Memory>)
    requires i <= |pool| && a in mem && forall j :: 0 <= j < |pool| ==> pool[j] in mem
    ensures var p := pool[..i] + [a] + pool[i..];
            && (forall j :: 0 <= j < |p| ==> p[j] in mem)
            && Total(p, mem) == Total(pool, mem) + mem[a].Capacity()
  {
    var p := pool[..i] + [a] + pool[i..];
    if i == 0 {
      assert p[1..] == pool;
    } else {
      TotalInsert(pool[1..], i - 1, a, mem);
      assert p[1..] == pool[1..][..i - 1] + [a] + pool[1..][i - 1..];
    }
  }

  class Buffers {
    var mem: map<Addr, Memory>          // every buffer ever allocated
    var pool: seq<Addr>                 // myBuffers
    var total: int                      // myBuffersTotalSize
    var streams: map<Stream, Addr>      // the buffer of each open BindStream
    var bindings: map<Param, Blob>      // the blobs SQLite holds
    var nextAddr: Addr
    var nextStream: Stream

    ghost var holder: map<Addr, Holder>

    /** Every buffer is unused in the pool, filled by one stream, read through one binding, or released; the
        control bytes say which. */
    ghost predicate BufferOk(a: Addr)
      reads this
    {
      a in mem && a in holder && a < nextAddr && IsDoubled(mem[a].size) && |mem[a].data| <= mem[a].Capacity() &&
      match holder[a]
      case Unused => a in pool && mem[a].use == 0 && mem[a].pending == 0 && mem[a].attached && !mem[a].freed
      case ByStream(s) =>
        s in streams && streams[s] == a && mem[a].use == 1 && mem[a].pending == 0 && mem[a].attached && !mem[a].freed
      case ByBinding(p) =>
        p in bindings && bindings[p] == Blob(a, |mem[a].data|) && mem[a].use == 1 && !mem[a].freed &&
        (if a in pool then mem[a].pending == 0 && mem[a].attached else mem[a].pending == 1 && !mem[a].attached)
      case Released => mem[a].freed && mem[a].use == 0 && !mem[a].attached && a !in pool
    }

    ghost predicate StreamOk(s: Stream)
      reads this
    {
      s in streams && s < nextStream && streams[s] in holder && holder[streams[s]] == ByStream(s)
    }

    ghost predicate BindingOk(p: Param)
      reads this
    {
      p in bindings && bindings[p].addr in holder && holder[bindings[p].addr] == ByBinding(p)
    }

    /** The pool is sorted by size, has no duplicates, and its total is right and below the limit. */
    ghost predicate PoolOk()
      reads this
    {
      && (forall i :: 0 <= i < |pool| ==> pool[i] in mem)
      && (forall i, j :: 0 <= i < j < |pool| ==> pool[i] != pool[j] && mem[pool[i]].size <= mem[pool[j]].size)
      && total == Total(pool, mem) && total < 0x10_0000
    }

    ghost predicate Valid()
      reads this
    {
      && (forall a :: a in mem || a in holder ==> BufferOk(a))
      && (forall s :: s in streams ==> StreamOk(s))
      && (forall p :: p in bindings ==> BindingOk(p))
      && PoolOk()
    }

    /** What has been written to a stream. */
    ghost function Written(s: Stream): seq<int>
      reads this
    {
      if s in streams && streams[s] in mem then mem[streams[s]].data else []
    }

    /** What SQLite reads through a binding. */
    ghost function BoundBytes(p: Param): seq<int>
      reads this
    {
      if p in bindings && bindings[p].addr in mem && 0 <= bindings[p].length <= |mem[bindings[p].addr].data|
      then mem[bindings[p].addr].data[..bindings[p].length] else []
    }

    constructor ()
      ensures Valid() && mem == map[] && streams == map[] && bindings == map[]
    {
      mem, pool, total, streams, bindings, nextAddr, nextStream := map[], [], 0, map[], map[], 0, 0;
      holder := map[];
    }

    // -------------------------------------------------------------- allocation

    predicate Free(a: Addr) reads this { a in mem && mem[a].Safe() && mem[a].IsValid() && !mem[a].IsUsed() }

    /** The search of allocateBuffer: from the largest buffer down, stopping at the first that is too small. */
    method FindFree(payloadSize: int) returns (found: bool, a: Addr)
      requires Valid()
      ensures found ==> a in pool && Free(a) && mem[a].Capacity() >= payloadSize
      ensures found ==> forall b :: b in pool && Free(b) && mem[b].Capacity() >= payloadSize ==>
                          mem[a].size <= mem[b].size
      ensures !found ==> forall b :: b in pool && Free(b) ==> mem[b].Capacity() < payloadSize
    {
      hide IsDoubled;
      found, a := false, 0;
      var i := |pool| - 1;
      while i >= 0
        invariant -1 <= i < |pool|
        invariant found ==> a in pool && Free(a) && mem[a].Capacity() >= payloadSize
        invariant found ==> forall j :: i < j < |pool| && Free(pool[j]) && mem[pool[j]].Capacity() >= payloadSize ==>
                                          mem[a].size <= mem[pool[j]].size
        invariant !found ==> forall j :: i < j < |pool| ==> !Free(pool[j])
        invariant found ==> forall j :: 0 <= j <= i ==> mem[pool[j]].size <= mem[a].size
        decreases i
      {
        var b := pool[i];
        assert BufferOk(b);
        // the source drops a buffer that is no longer valid from the pool: there is none
        if !mem[b].IsValid() { assert false; }
        if mem[b].Capacity() < payloadSize { break; }
        if !mem[b].IsUsed() { found, a := true, b; }
        i := i - 1;
      }
    }

    /** The pool as such does not change. */
    twostate lemma PoolKept(a: Addr)
      requires old(PoolOk()) && pool == old(pool) && total == old(total)
      requires a in old(mem) && a in mem && mem == old(mem)[a := mem[a]] && mem[a].size == old(mem)[a].size
      ensures PoolOk()
    {
      TotalSame(pool, old(mem), mem);
    }

    /** A step that concerns the buffer a alone. */
    twostate predicate OnlyAt(a: Addr)
      reads this
    {
      && a in mem && mem == old(mem)[a := mem[a]] && a in holder && holder == old(holder)[a := holder[a]]
      && (forall b :: b != a ==> (b in pool <==> b in old(pool)))
      && old(nextAddr) <= nextAddr && old(nextStream) <= nextStream
    }

    twostate predicate StreamsOnlyAt(a: Addr)
      reads this
    {
      && (forall s :: s in streams && streams[s] != a ==> s in old(streams) && streams[s] == old(streams)[s])
      && (forall s :: s in old(streams) && old(streams)[s] != a ==> s in streams && streams[s] == old(streams)[s])
    }

    twostate predicate BindingsOnlyAt(a: Addr)
      reads this
    {
      && (forall p :: p in bindings && bindings[p].addr != a ==> p in old(bindings) && bindings[p] == old(bindings)[p])
      && (forall p :: p in old(bindings) && old(bindings)[p].addr != a ==>
            p in bindings && bindings[p] == old(bindings)[p])
    }

    twostate lemma SettleBuffers(a: Addr)
      requires old(Valid()) && OnlyAt(a) && StreamsOnlyAt(a) && BindingsOnlyAt(a) && BufferOk(a)
      ensures forall b :: b in mem || b in holder ==> BufferOk(b)
    {
      hide PoolOk, StreamOk, BindingOk;
      forall b | b in mem || b in holder ensures BufferOk(b) {
        if b != a { assert old(BufferOk(b)); }
      }
    }

    twostate lemma SettleRest(a: Addr)
      requires old(Valid()) && OnlyAt(a) && StreamsOnlyAt(a) && BindingsOnlyAt(a)
      requires forall s :: s in streams && streams[s] == a ==> StreamOk(s)
      requires forall p :: p in bindings && bindings[p].addr == a ==> BindingOk(p)
      ensures forall s :: s in streams ==> StreamOk(s)
      ensures forall p :: p in bindings ==> BindingOk(p)
    {
      hide PoolOk, BufferOk;
      forall s | s in streams ensures StreamOk(s) {
        if streams[s] != a { assert old(StreamOk(s)); }
      }
      forall p | p in bindings ensures BindingOk(p) {
        if bindings[p].addr != a { assert old(BindingOk(p)); }
      }
    }

    /** Nothing another stream has written, and nothing SQLite reads elsewhere, is disturbed. */
    twostate predicate OthersKept(a: Addr)
      reads this
    {
      && (forall s :: s in old(streams) && old(streams)[s] != a ==> s in streams && Written(s) == old(Written(s)))
      && (forall p :: p in old(bindings) && old(bindings)[p].addr != a ==>
            p in bindings && BoundBytes(p) == old(BoundBytes(p)))
    }

    /** The streams and bindings that are still there hold what they held. */
    twostate predicate Kept()
      reads this
    {
      && (forall s :: s in streams && s in old(streams) ==> Written(s) == old(Written(s)))
      && (forall p :: p in bindings && p in old(bindings) ==> BoundBytes(p) == old(BoundBytes(p)))
    }

    /** ... when none of them is at the one buffer concerned. */
    twostate lemma NothingDisturbed(a: Addr)
      requires OthersKept(a)
      requires forall s :: s in streams && s in old(streams) ==> old(streams)[s] != a
      requires forall p :: p in bindings && p in old(bindings) ==> old(bindings)[p].addr != a
      ensures Kept()
    {
    }

    /** After a step that concerns one buffer, everything else is as it was. */
    twostate lemma Settle(a: Addr)
      requires old(Valid()) && PoolOk() && OnlyAt(a) && StreamsOnlyAt(a) && BindingsOnlyAt(a) && BufferOk(a)
      requires forall s :: s in streams && streams[s] == a ==> StreamOk(s)
      requires forall p :: p in bindings && bindings[p].addr == a ==> BindingOk(p)
      ensures Valid() && OthersKept(a)
    {
      hide PoolOk, BufferOk, StreamOk, BindingOk;
      SettleBuffers(a);
      SettleRest(a);
    }

    lemma AllInMemory()
      requires Valid()
      ensures forall s :: s in streams ==> streams[s] in mem
      ensures forall p :: p in bindings ==> bindings[p].addr in mem
    {
      forall s | s in streams ensures streams[s] in mem { assert StreamOk(s) && BufferOk(streams[s]); }
      forall p | p in bindings ensures bindings[p].addr in mem { assert BindingOk(p) && BufferOk(bindings[p].addr); }
    }

    /** Nobody is at a free pooled buffer. */
    lemma FreeIsUnused(a: Addr)
      requires Valid() && a in pool && Free(a)
      ensures a in mem && a in holder && a < nextAddr && holder[a] == Unused
      ensures IsDoubled(mem[a].size) && |mem[a].data| <= mem[a].Capacity()
      ensures mem[a].use == 0 && mem[a].pending == 0 && mem[a].attached && !mem[a].freed
      ensures forall s :: s in streams ==> streams[s] != a
      ensures forall p :: p in bindings ==> bindings[p].addr != a
    {
      assert BufferOk(a);
      forall s | s in streams ensures streams[s] != a { assert StreamOk(s); }
      forall p | p in bindings ensures bindings[p].addr != a { assert BindingOk(p); }
    }

    lemma FreshNames()
      requires Valid()
      ensures nextStream !in streams && nextAddr !in mem && nextAddr !in holder && nextAddr !in pool
      ensures forall s :: s in streams ==> streams[s] in mem
      ensures forall p :: p in bindings ==> bindings[p].addr in mem
    {
      assert nextStream in streams ==> StreamOk(nextStream);
      assert nextAddr in mem || nextAddr in holder ==> BufferOk(nextAddr);
      forall s | s in streams ensures streams[s] in mem { assert StreamOk(s) && BufferOk(streams[s]); }
      forall p | p in bindings ensures bindings[p].addr in mem { assert BindingOk(p) && BufferOk(bindings[p].addr); }
    }

    /** A free pooled buffer is handed to a new stream. */
    method Reuse(a: Addr) returns (t: Stream)
      requires Valid() && a in pool && Free(a)
      modifies this`mem, this`streams, this`nextStream, this`holder
      ensures Valid() && t == old(nextStream) && t !in old(streams) && streams == old(streams)[t := a]
              && Written(t) == []
      ensures mem == old(mem)[a := mem[a]] && mem[a].size == old(mem)[a].size
      ensures OthersKept(a) && (forall s :: s in old(streams) ==> old(streams)[s] != a)
      ensures forall p :: p in bindings ==> bindings[p].addr != a
    {
      hide PoolOk, BufferOk, StreamOk, BindingOk, OthersKept;
      FreeIsUnused(a);
      FreshNames();
      t := nextStream;
      nextStream := nextStream + 1;
      mem := mem[a := mem[a].IncUsed().(data := [])];
      streams := streams[t := a];
      holder := holder[a := ByStream(t)];
      NowFilling(a, t);
      PoolKept(a);
      Settle(a);
    }

    /** A new buffer from wrapper_alloc is handed to a new stream; it joins the pool if that stays below the limit. */
    method Allocate(size: int) returns (t: Stream, a: Addr)
      requires Valid() && IsDoubled(size)
      modifies this
      ensures Valid() && t == old(nextStream) && t !in old(streams) && streams == old(streams)[t := a]
              && Written(t) == []
      ensures forall b :: b in pool <==> b in old(pool) || (b == a && old(total) + size < 0x10_0000)
      ensures a !in old(mem) && a in mem && mem == old(mem)[a := mem[a]] && mem[a].size == size
              && bindings == old(bindings)
      ensures OthersKept(a) && (forall s :: s in old(streams) ==> old(streams)[s] != a)
      ensures forall p :: p in bindings ==> bindings[p].addr != a
    {
      hide PoolOk, BufferOk, StreamOk, BindingOk, OthersKept;
      FreshNames();
      DoubledSize(size);
      a := nextAddr;
      t := nextStream;
      var pooled := total;
      nextAddr, nextStream := nextAddr + 1, nextStream + 1;
      mem := mem[a := Memory(size, 0, 0, false, true, []).IncUsed()];
      streams := streams[t := a];
      holder := holder[a := ByStream(t)];
      PoolUntouched(a);
      assert StreamsOnlyAt(a) && BindingsOnlyAt(a);
      if pooled + size < MAX_POOLED { AddToPool(a); }
      NowFilling(a, t);
      Settle(a);
    }

    twostate lemma PoolUntouched(a: Addr)
      requires old(PoolOk()) && pool == old(pool) && total == old(total)
      requires a !in old(mem) && a in mem && mem == old(mem)[a := mem[a]]
      ensures PoolOk()
    {
      TotalSame(pool, old(mem), mem);
    }

    /** The buffer goes in front of the first larger one. */
    method AddToPool(a: Addr)
      requires PoolOk() && a in mem && a !in pool && total + mem[a].size < MAX_POOLED
      modifies this`pool, this`total
      ensures PoolOk() && forall b :: b in pool <==> b in old(pool) || b == a
    {
      hide Total;
      var i := 0;
      while i < |pool| && mem[pool[i]].size <= mem[a].size
        invariant 0 <= i <= |pool|
        invariant forall j :: 0 <= j < i ==> mem[pool[j]].size <= mem[a].size
      {
        i := i + 1;
      }
      TotalInsert(pool, i, a, mem);
      Inserted(pool, i, a);
      pool := pool[..i] + [a] + pool[i..];
      total := total + mem[a].Capacity();
    }

    lemma Inserted(p0: seq<Addr>, i: nat, a: Addr)
      requires i <= |p0| && a in mem && a !in p0
      requires forall j :: 0 <= j < |p0| ==> p0[j] in mem
      requires forall j, k :: 0 <= j < k < |p0| ==> p0[j] != p0[k] && mem[p0[j]].size <= mem[p0[k]].size
      requires forall j :: 0 <= j < i ==> mem[p0[j]].size <= mem[a].size
      requires i < |p0| ==> mem[a].size <= mem[p0[i]].size
      ensures var p := p0[..i] + [a] + p0[i..];
              && (forall j :: 0 <= j < |p| ==> p[j] in mem)
              && (forall j, k :: 0 <= j < k < |p| ==> p[j] != p[k] && mem[p[j]].size <= mem[p[k]].size)
              && (forall b :: b in p <==> b in p0 || b == a)
    {
      var p := p0[..i] + [a] + p0[i..];
      forall j, k | 0 <= j < k < |p|
        ensures p[j] in mem && p[k] in mem && p[j] != p[k] && mem[p[j]].size <= mem[p[k]].size
      {
        assert j != i ==> p[j] == p0[if j < i then j else j - 1];
        assert k != i ==> p[k] == p0[if k < i then k else k - 1];
      }
      forall j | 0 <= j < |p| ensures p[j] in mem { assert j != i ==> p[j] == p0[if j < i then j else j - 1]; }
    }

    /** allocateBuffer: the smallest free pooled buffer that is large enough, or a new one. */
    method AllocateBuffer(minimumSize: int, allocOk: bool) returns (ok: bool, t: Stream, a: Addr)
      requires Valid() && minimumSize <= MAX_REQUEST
      modifies this
      ensures Valid() && bindings == old(bindings)
      ensures allocOk ==> ok
      ensures !ok ==> mem == old(mem) && streams == old(streams)
      ensures ok ==> t == old(nextStream) && t !in old(streams) && streams == old(streams)[t := a] && Written(t) == []
      ensures ok ==> a in mem && mem == old(mem)[a := mem[a]] && mem[a].Capacity() >= minimumSize
                     && OthersKept(a) && (forall s :: s in old(streams) ==> old(streams)[s] != a)
                     && forall p :: p in bindings ==> bindings[p].addr != a
      ensures Kept()
      ensures ok && a in old(mem) ==> a in old(pool) && old(Free(a)) && mem[a].size == old(mem)[a].size
      // the best fit
      ensures forall b :: b in old(pool) && old(Free(b)) && old(mem[b].Capacity()) >= minimumSize ==>
                ok && a in old(mem) && mem[a].size <= old(mem)[b].size
    {
      hide PoolOk, BufferOk, StreamOk, BindingOk;
      AllInMemory();
      PoolInMemory();
      var size := RoundUp(minimumSize);
      PoolSizes(size, minimumSize);
      ok := true;
      var found;
      found, a := FindFree(size - CONTROL_BYTES);
      if found {
        t := Reuse(a);
        NothingDisturbed(a);
        return;
      }
      if !allocOk { return false, 0, 0; }
      t, a := Allocate(size);
      NothingDisturbed(a);
    }

    /** A pooled buffer that holds the request has at least the rounded size. */
    lemma PoolSizes(size: int, minimumSize: int)
      requires Valid() && IsRounded(size, minimumSize)
      ensures forall b :: b in pool && b in mem && mem[b].Capacity() >= minimumSize ==> mem[b].size >= size
    {
      forall b | b in pool && b in mem ensures IsDoubled(mem[b].size) { assert BufferOk(b); }
    }

    lemma PoolInMemory()
      requires Valid()
      ensures forall b :: b in pool ==> b in mem
    {
    }

    /** freeBuffer, when a stream lets go of its buffer: back to the pool, or freed. */
    method DisposeStream(s: Stream)
      requires Valid() && s in streams
      modifies this`mem, this`streams, this`holder
      ensures Valid() && streams == old(streams) - {s} && old(streams)[s] in old(mem) && OthersKept(old(streams)[s])
      ensures mem.Keys == old(mem).Keys && Kept()
      ensures var a := old(streams)[s];
              && a in mem && mem == old(mem)[a := mem[a]]
              && if a in pool then mem[a].use == 0 && !mem[a].freed else mem[a].freed
    {
      hide PoolOk, BufferOk, StreamOk, BindingOk, OthersKept, FreeBuffer;
      StreamFacts(s);
      NobodyElse(s);
      var a := streams[s];
      var cached := a in pool;
      FreeBufferMeaning(mem[a], cached);
      mem := mem[a := FreeBuffer(mem[a], cached)];
      streams := streams - {s};
      holder := holder[a := if cached then Unused else Released];
      NowIdle(a);
      PoolKept(a);
      Settle(a);
      NothingDisturbed(a);
    }

    /** The buffer of a stream serves nothing else. */
    lemma NobodyElse(s: Stream)
      requires Valid() && s in streams
      ensures forall r :: r in streams && r != s ==> streams[r] != streams[s]
      ensures forall p :: p in bindings ==> bindings[p].addr != streams[s]
    {
      assert StreamOk(s);
      forall r | r in streams && r != s ensures streams[r] != streams[s] { assert StreamOk(r); }
      forall p | p in bindings ensures bindings[p].addr != streams[s] { assert BindingOk(p); }
    }

    /** The buffer of a binding serves nothing else. */
    lemma NobodyElseReads(p: Param)
      requires Valid() && p in bindings
      ensures forall r :: r in streams ==> streams[r] != bindings[p].addr
      ensures forall q :: q in bindings && q != p ==> bindings[q].addr != bindings[p].addr
    {
      assert BindingOk(p);
      forall r | r in streams ensures streams[r] != bindings[p].addr { assert StreamOk(r); }
      forall q | q in bindings && q != p ensures bindings[q].addr != bindings[p].addr { assert BindingOk(q); }
    }

    /** SQLite drops a binding (rebind, clear_bindings, finalize) and calls bind_release. */
    method Unbind(p: Param)
      requires Valid() && p in bindings
      modifies this`mem, this`bindings, this`holder
      ensures Valid() && bindings == old(bindings) - {p} && OthersKept(old(bindings)[p].addr)
      ensures old(bindings)[p].addr in mem && mem == old(mem)[old(bindings)[p].addr := mem[old(bindings)[p].addr]]
      ensures mem.Keys == old(mem).Keys && Kept()
      ensures var a := old(bindings)[p].addr; if a in pool then mem[a].use == 0 && !mem[a].freed else mem[a].freed
    {
      hide PoolOk, BufferOk, StreamOk, BindingOk, OthersKept;
      BindingFacts(p);
      NobodyElseReads(p);
      var a := bindings[p].addr;
      var b := BindRelease(mem[a]);
      assert b.use == 0 && (b.freed <==> a !in pool);
      mem := mem[a := b];
      bindings := bindings - {p};
      holder := holder[a := if a in pool then Unused else Released];
      NowIdle(a);
      PoolKept(a);
      Settle(a);
      NothingDisturbed(a);
    }

    /** BindStream.close(): wrapper_bind_buffer, then dispose(). `ok` is what sqlite3_bind_blob answers, and `oldGone`
        whether a refusal has cost the parameter its old value. Whether a failed sqlite3_bind_blob has called the
        destructor makes no difference: the use byte ends at 0. */
    method CloseStream(s: Stream, p: Param, ok: bool, oldGone: bool, destructorRan: bool)
      requires Valid() && s in streams
      modifies this`mem, this`streams, this`bindings, this`holder
      ensures Valid() && streams == old(streams) - {s} && old(streams)[s] in mem
      ensures bindings.Keys == if ok then old(bindings).Keys + {p}
                               else if oldGone then old(bindings).Keys - {p} else old(bindings).Keys
      ensures ok ==> p in bindings && bindings[p].addr == old(streams)[s] && BoundBytes(p) == old(Written(s))
      ensures !ok ==> var a := old(streams)[s]; mem[a].use == 0 && (mem[a].freed <==> a !in pool)
      ensures forall r :: r in streams ==> Written(r) == old(Written(r))
      ensures forall q :: q in old(bindings) && q != p ==> q in bindings && BoundBytes(q) == old(BoundBytes(q))
    {
      hide PoolOk, BufferOk, StreamOk, BindingOk;
      AllInMemory();
      NobodyElse(s);
      if p in bindings && (ok || oldGone) {
        NobodyElseReads(p);
        Unbind(p);
      }
      AllInMemory();
      NobodyElse(s);
      if ok { BindAndDispose(s, p); } else { FailAndDispose(s, destructorRan); }
    }

    method BindAndDispose(s: Stream, p: Param)
      requires Valid() && s in streams && p !in bindings
      modifies this`mem, this`streams, this`bindings, this`holder
      ensures Valid() && streams == old(streams) - {s} && old(streams)[s] in mem && OthersKept(old(streams)[s])
      ensures p in bindings && bindings == old(bindings)[p := bindings[p]]
      ensures bindings[p].addr == old(streams)[s] && BoundBytes(p) == old(Written(s))
    {
      hide PoolOk, BufferOk, StreamOk, BindingOk, OthersKept, FreeBuffer;
      StreamFacts(s);
      NobodyElse(s);
      var a := streams[s];
      var cached := a in pool;
      var b := mem[a].(use := mem[a].use + 1);
      bindings := bindings[p := Blob(a, |b.data|)];
      FreeBufferMeaning(b, cached);
      b := FreeBuffer(b, cached);
      mem := mem[a := b];
      streams := streams - {s};
      holder := holder[a := ByBinding(p)];
      assert b.data[..|b.data|] == b.data;
      NowBound(a, p);
      PoolKept(a);
      assert StreamsOnlyAt(a) && BindingsOnlyAt(a);
      Settle(a);
    }

    /** What is known of the buffer of an open stream. */
    lemma StreamFacts(s: Stream)
      requires Valid() && s in streams
      ensures var a := streams[s];
              && a in mem && a in holder && holder[a] == ByStream(s) && a < nextAddr && s < nextStream
              && IsDoubled(mem[a].size) && |mem[a].data| <= mem[a].Capacity()
              && mem[a].use == 1 && mem[a].pending == 0 && mem[a].attached && !mem[a].freed
    {
      assert StreamOk(s) && BufferOk(streams[s]);
    }

    /** What is known of the buffer of a binding. */
    lemma BindingFacts(p: Param)
      requires Valid() && p in bindings
      ensures var a := bindings[p].addr;
              && a in mem && a in holder && holder[a] == ByBinding(p) && a < nextAddr
              && IsDoubled(mem[a].size) && |mem[a].data| <= mem[a].Capacity()
              && bindings[p] == Blob(a, |mem[a].data|) && mem[a].use == 1 && !mem[a].freed
              && if a in pool then mem[a].pending == 0 && mem[a].attached else mem[a].pending == 1 && !mem[a].attached
    {
      assert BindingOk(p) && BufferOk(bindings[p].addr);
    }

    /** A buffer a stream fills. */
    lemma NowFilling(a: Addr, s: Stream)
      requires a in mem && a in holder && holder[a] == ByStream(s) && a < nextAddr
      requires IsDoubled(mem[a].size) && |mem[a].data| <= mem[a].Capacity()
      requires mem[a].use == 1 && mem[a].pending == 0 && mem[a].attached && !mem[a].freed
      requires s in streams && streams[s] == a && s < nextStream
      ensures BufferOk(a) && StreamOk(s)
    {
    }

    /** A buffer SQLite reads. */
    lemma NowBound(a: Addr, p: Param)
      requires a in mem && a in holder && holder[a] == ByBinding(p) && a < nextAddr
      requires IsDoubled(mem[a].size) && |mem[a].data| <= mem[a].Capacity() && mem[a].use == 1 && !mem[a].freed
      requires p in bindings && bindings[p] == Blob(a, |mem[a].data|)
      requires if a in pool then mem[a].pending == 0 && mem[a].attached else mem[a].pending == 1 && !mem[a].attached
      ensures BufferOk(a) && BindingOk(p)
    {
    }

    /** A buffer nobody holds any more. */
    lemma NowIdle(a: Addr)
      requires a in mem && a in holder && holder[a] == (if a in pool then Unused else Released) && a < nextAddr
      requires IsDoubled(mem[a].size) && |mem[a].data| <= mem[a].Capacity()
      requires mem[a].use == 0
      requires if a in pool then mem[a].pending == 0 && mem[a].attached && !mem[a].freed
               else mem[a].freed && !mem[a].attached
      ensures BufferOk(a)
    {
    }

    method FailAndDispose(s: Stream, destructorRan: bool)
      requires Valid() && s in streams
      modifies this`mem, this`streams, this`holder
      ensures Valid() && streams == old(streams) - {s} && old(streams)[s] in mem && OthersKept(old(streams)[s])
      ensures var a := old(streams)[s]; mem[a].use == 0 && (mem[a].freed <==> a !in pool)
    {
      hide PoolOk, BufferOk, StreamOk, BindingOk, OthersKept, FreeBuffer;
      StreamFacts(s);
      NobodyElse(s);
      var a := streams[s];
      var b := mem[a].(use := mem[a].use + 1);
      if destructorRan { b := BindRelease(b); }
      b := b.(use := b.use - 1);
      var cached := a in pool;
      FreeBufferMeaning(b, cached);
      mem := mem[a := FreeBuffer(b, cached)];
      streams := streams - {s};
      holder := holder[a := if cached then Unused else Released];
      NowIdle(a);
      PoolKept(a);
      Settle(a);
    }

    // -------------------------------------------------------------- writing

    /** data.put, where there is room. */
    method PutBytes(s: Stream, bytes: seq<int>)
      requires Valid() && s in streams && streams[s] in mem
               && |mem[streams[s]].data| + |bytes| <= mem[streams[s]].Capacity()
      modifies this`mem
      ensures Valid() && Written(s) == old(Written(s)) + bytes && OthersKept(streams[s])
      ensures mem == old(mem)[streams[s] := mem[streams[s]]] && mem[streams[s]].size == old(mem)[streams[s]].size
    {
      hide PoolOk, BufferOk, StreamOk, BindingOk, OthersKept;
      StreamFacts(s);
      NobodyElse(s);
      var a := streams[s];
      mem := mem[a := mem[a].(data := mem[a].data + bytes)];
      NowFilling(a, s);
      PoolKept(a);
      Settle(a);
    }

    /** myBuffer = newBuffer: the stream t was only a name for the new buffer. */
    method Rename(t: Stream, s: Stream)
      requires Valid() && t in streams && s !in streams && s < nextStream
      modifies this`streams, this`holder
      ensures Valid() && streams == (old(streams) - {t})[s := old(streams)[t]] && Written(s) == old(Written(t))
      ensures OthersKept(old(streams)[t])
    {
      hide PoolOk, BufferOk, StreamOk, BindingOk, OthersKept;
      StreamFacts(t);
      NobodyElse(t);
      var a := streams[t];
      streams := (streams - {t})[s := a];
      holder := holder[a := ByStream(s)];
      assert mem == old(mem)[a := mem[a]];
      NowFilling(a, s);
      PoolKept(a);
      Settle(a);
    }

    /** BindStream.write: the bytes are appended, after moving to a larger buffer if need be; a stream that cannot
        grow is discarded. */
    method Write(s: Stream, bytes: seq<int>, allocOk: bool) returns (ok: bool)
      requires Valid() && s in streams && streams[s] in mem
      requires mem[streams[s]].Capacity() - |mem[streams[s]].data| < |bytes| ==>
                 mem[streams[s]].Capacity() + |bytes| <= MAX_REQUEST
      modifies this
      ensures Valid() && bindings == old(bindings)
      ensures ok ==> streams.Keys == old(streams.Keys) && Written(s) == old(Written(s)) + bytes
      ensures allocOk ==> ok
      ensures !ok ==> streams == old(streams) - {s}
      ensures |bytes| <= old(mem[streams[s]].Capacity() - |mem[streams[s]].data|) ==> ok && streams == old(streams)
      ensures forall r :: r in old(streams) && r != s ==> r in streams && Written(r) == old(Written(r))
      ensures forall p :: p in bindings ==> BoundBytes(p) == old(BoundBytes(p))
    {
      hide PoolOk, BufferOk, StreamOk, BindingOk;
      AllInMemory();
      NobodyElse(s);
      ok := true;
      if mem[streams[s]].Capacity() - |mem[streams[s]].data| < |bytes| {
        ok := Grow(s, |bytes|, allocOk);
        if !ok { return; }
      }
      AllInMemory();
      NobodyElse(s);
      PutBytes(s, bytes);
    }

    method Grow(s: Stream, len: int, allocOk: bool) returns (ok: bool)
      requires Valid() && s in streams && streams[s] in mem && 0 <= len
               && mem[streams[s]].Capacity() + len <= MAX_REQUEST
      modifies this
      ensures Valid() && bindings == old(bindings)
      ensures ok ==> streams.Keys == old(streams.Keys) && Written(s) == old(Written(s)) && streams[s] in mem
                     && |mem[streams[s]].data| + len <= mem[streams[s]].Capacity()
      ensures allocOk ==> ok
      ensures !ok ==> streams == old(streams) - {s}
      ensures forall r :: r in old(streams) && r != s ==> r in streams && Written(r) == old(Written(r))
      ensures forall p :: p in bindings ==> BoundBytes(p) == old(BoundBytes(p))
    {
      hide PoolOk, BufferOk, StreamOk, BindingOk;
      AllInMemory();
      NobodyElse(s);
      CapacityHolds(s);
      BelowNext(s);
      var buffer := mem[streams[s]];
      var t, a;
      ok, t, a := AllocateBuffer(buffer.Capacity() + len, allocOk);
      if !ok {
        DisposeStream(s);
        return;
      }
      MoveTo(t, s);
    }

    /** The rest of BindStream.buffer(): copy what was written, free the old buffer, use the new one. */
    method MoveTo(t: Stream, s: Stream)
      requires Valid() && s in streams && t in streams && s != t && Written(t) == []
      requires streams[s] in mem && streams[t] in mem && mem[streams[s]].Capacity() <= mem[streams[t]].Capacity()
      modifies this
      ensures Valid() && bindings == old(bindings)
      ensures streams == (old(streams) - {t})[s := old(streams)[t]] && Written(s) == old(Written(s))
      ensures streams[s] in mem && mem[streams[s]].size == old(mem[streams[t]].size)
      ensures forall r :: r in old(streams) && r != s && r != t ==> r in streams && Written(r) == old(Written(r))
      ensures forall p :: p in bindings ==> BoundBytes(p) == old(BoundBytes(p))
    {
      hide PoolOk, BufferOk, StreamOk, BindingOk;
      AllInMemory();
      NobodyElse(s);
      NobodyElse(t);
      CapacityHolds(s);
      BelowNext(s);
      PutBytes(t, mem[streams[s]].data);
      AllInMemory();
      NobodyElse(s);
      NobodyElse(t);
      DisposeStream(s);
      NobodyElse(t);
      Rename(t, s);
    }

    lemma CapacityHolds(s: Stream)
      requires Valid() && s in streams && streams[s] in mem
      ensures |mem[streams[s]].data| <= mem[streams[s]].Capacity()
    {
      assert BufferOk(streams[s]);
    }

    lemma BelowNext(s: Stream)
      requires Valid() && s in streams
      ensures s < nextStream
    {
      assert StreamOk(s);
    }

    // -------------------------------------------------------------- the end of the connection

    /** finalizeBuffers: the pool is emptied, and each of its buffers is freed, or left to SQLite or a stream that still
        uses it. When all statements are finalized, nobody does: nothing stays allocated. */
    method FreePool()
      requires Valid()
      modifies this`mem, this`pool, this`total, this`holder
      ensures pool == [] && total == 0 && mem.Keys == old(mem.Keys)
      ensures forall a :: a in mem && a in old(pool) ==>
                if old(mem)[a].use == 0 then mem[a].freed else !mem[a].freed && mem[a].pending == 1
      ensures forall a :: a in mem && a !in old(pool) ==> mem[a] == old(mem)[a]
      ensures streams == map[] && bindings == map[] ==> Valid() && forall a :: a in mem ==> mem[a].freed
    {
      hide BufferOk, PoolOk, StreamOk, BindingOk;
      PoolAttached();
      var buffers := pool;
      pool, total := [], 0;
      FreeAll(buffers);
      if streams == map[] && bindings == map[] {
        EveryBufferIdle();
        holder := map a | a in mem :: Released;
        forall a | a in mem || a in holder ensures BufferOk(a) { NowIdle(a); }
        assert PoolOk() by { EmptyPool(); }
      }
    }

    lemma PoolAttached()
      requires Valid()
      ensures forall a :: a in pool ==> a in mem && mem[a].attached && !mem[a].freed && mem[a].use >= 0
      ensures forall i, j :: 0 <= i < j < |pool| ==> pool[i] != pool[j]
    {
      forall a | a in pool
        ensures a in mem && mem[a].attached && !mem[a].freed && mem[a].use >= 0
      {
        assert BufferOk(a);
      }
    }

    twostate lemma EveryBufferIdle()
      requires old(Valid()) && streams == map[] && bindings == map[] && old(streams) == map[] && old(bindings) == map[]
      requires pool == [] && mem.Keys == old(mem).Keys && nextAddr == old(nextAddr)
      requires forall a :: a in mem ==> mem[a] == if a in old(pool) then WrapperFree(old(mem)[a]) else old(mem)[a]
      ensures forall a :: a in mem ==> Idle(a)
    {
      forall a | a in mem ensures Idle(a) { assert old(BufferOk(a)); }
    }

    lemma EmptyPool()
      requires pool == [] && total == 0
      ensures PoolOk()
    {
    }

    method FreeAll(buffers: seq<Addr>)
      requires forall i :: 0 <= i < |buffers| ==> buffers[i] in mem
      requires forall i, j :: 0 <= i < j < |buffers| ==> buffers[i] != buffers[j]
      requires forall a :: a in buffers ==> mem[a].attached && !mem[a].freed
      modifies this`mem
      ensures mem.Keys == old(mem.Keys)
      ensures forall a :: a in mem ==> mem[a] == if a in buffers then WrapperFree(old(mem)[a]) else old(mem)[a]
    {
      var i := 0;
      while i < |buffers|
        invariant 0 <= i <= |buffers| && mem.Keys == old(mem.Keys)
        invariant forall a :: a in mem ==> mem[a] == if a in buffers[..i] then WrapperFree(old(mem)[a]) else old(mem)[a]
      {
        var a := buffers[i];
        assert a !in buffers[..i];
        assert mem[a].Safe();
        mem := mem[a := WrapperFree(mem[a])];
        assert buffers[..i + 1] == buffers[..i] + [a];
        i := i + 1;
      }
      assert buffers[..i] == buffers;
    }

    /** An idle buffer of the pool, or one that has been freed. */
    ghost predicate Idle(a: Addr)
      reads this
    {
      a in mem && a < nextAddr && IsDoubled(mem[a].size) && |mem[a].data| <= mem[a].Capacity() && mem[a].use == 0 &&
      if a in pool then mem[a].attached && !mem[a].freed else mem[a].freed && !mem[a].attached
    }

    /** Without streams and bindings, a buffer is in the pool and unused, or has been freed. */
    lemma EveryBufferPooled()
      requires Valid() && streams == map[] && bindings == map[]
      ensures forall a :: a in mem ==> Idle(a)
      ensures forall a :: a in pool ==> a in mem
      ensures forall i, j :: 0 <= i < j < |pool| ==> pool[i] != pool[j]
    {
      forall a | a in mem ensures Idle(a) { assert BufferOk(a); }
    }

    /** The use byte counts the users, there is at most one, and used memory is not freed. */
    lemma UseCountsUsers(a: Addr)
      requires Valid() && a in mem
      ensures mem[a].use == (if exists s :: s in streams && streams[s] == a then 1 else 0)
                          + (if exists p :: p in bindings && bindings[p].addr == a then 1 else 0)
      ensures mem[a].use <= 1 && (mem[a].use > 0 ==> !mem[a].freed) && mem[a].Safe()
      ensures a in pool ==> !mem[a].freed
    {
      assert BufferOk(a);
      if s :| s in streams && streams[s] == a { assert StreamOk(s); NobodyElse(s); }
      if p :| p in bindings && bindings[p].addr == a { assert BindingOk(p); NobodyElseReads(p); }
    }
  }
}
