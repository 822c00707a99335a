/** Ownership, loss-freedom and order for every interleaving of recv with the kernel. */
module XdpTheorems {
  import opened XdpModel

  // ---- ownership -----------------------------------------------------------------------

  function Chunks(cfg: Config, addrs: seq<nat>): (cs: seq<nat>)
    ensures |cs| == |addrs|
  {
    seq(|addrs|, i requires 0 <= i < |addrs| => ChunkOf(cfg, addrs[i]))
  }

  function RxChunks(cfg: Config, rx: seq<Desc>): (cs: seq<nat>)
    ensures |cs| == |rx|
  {
    seq(|rx|, i requires 0 <= i < |rx| => ChunkOf(cfg, rx[i].addr))
  }

  function InHand(s: State): multiset<nat>
  {
    if s.phase.Holding? then multiset{ChunkOf(s.cfg, s.phase.addr)} else multiset{}
  }

  /** Every chunk in the fill ring, with the kernel, in the RX ring or in user hand. */
  function Places(s: State): multiset<nat>
  {
    multiset(Chunks(s.cfg, s.fill)) + s.kernel + multiset(RxChunks(s.cfg, s.rx)) + InHand(s)
  }

  /** Each chunk number below `n`, once. */
  function AllChunks(n: nat): (all: multiset<nat>)
    ensures |all| == n && forall c: nat :: all[c] == if c < n then 1 else 0
  {
    if n == 0 then multiset{} else AllChunks(n - 1) + multiset{n - 1}
  }

  /** The descriptor lies inside one chunk of the area. */
  predicate InChunk(cfg: Config, d: Desc)
  {
    ChunkOf(cfg, d.addr) < cfg.numFrames && d.addr % cfg.frameSize + d.len <= cfg.frameSize
  }

  ghost predicate Owned(s: State) {
    && s.cfg.numFrames <= s.cfg.fillCapacity
    && |s.umem| == s.cfg.numFrames * s.cfg.frameSize
    && Places(s) == AllChunks(s.cfg.numFrames)
    && (forall i :: 0 <= i < |s.rx| ==> InChunk(s.cfg, s.rx[i]))
    && (s.phase.Copied? ==> s.rx != [])
  }

  lemma SmallMultiple(a: int, size: int)
    requires 0 < size && -size < a * size < size
    ensures a == 0
  {
    if a >= 1 { MulMonotone(1, a, size); }
    if a <= -1 { MulMonotone(a, -1, size); }
  }

  lemma MulMonotone(a: int, b: int, size: int)
    requires a <= b && 0 <= size
    ensures a * size <= b * size
  {}

  lemma DivisionUnique(size: nat, q: int, r: int, q': int, r': int)
    requires 0 <= r < size && 0 <= r' < size && q * size + r == q' * size + r'
    ensures q == q' && r == r'
  {
    assert (q - q') * size == q * size - q' * size;
    SmallMultiple(q - q', size);
  }

  lemma ChunkSplit(size: nat, chunk: nat, offset: nat)
    requires offset < size
    ensures (chunk * size + offset) / size == chunk && (chunk * size + offset) % size == offset
  {
    var addr := chunk * size + offset;
    DivisionUnique(size, addr / size, addr % size, chunk, offset);
  }

  lemma InsideArea(cfg: Config, d: Desc)
    requires InChunk(cfg, d)
    ensures d.addr + d.len <= (ChunkOf(cfg, d.addr) + 1) * cfg.frameSize <= cfg.numFrames * cfg.frameSize
  {
    var c := ChunkOf(cfg, d.addr);
    assert d.addr == c * cfg.frameSize + d.addr % cfg.frameSize;
    MulMonotone(c + 1, cfg.numFrames, cfg.frameSize);
  }

  /** Aligned descriptors carry no offset in their upper bits. */
  lemma PlainAddress(cfg: Config, d: Desc)
    requires InChunk(cfg, d)
    ensures ExtractAddr(d.addr) == d.addr && ExtractOffset(d.addr) == 0
  {
    InsideArea(cfg, d);
    assert d.addr < (ChunkOf(cfg, d.addr) + 1) * cfg.frameSize;
  }

  lemma HeadTail(cs: seq<nat>)
    requires cs != []
    ensures multiset(cs) == multiset{cs[0]} + multiset(cs[1..])
  {
    assert cs == [cs[0]] + cs[1..];
  }

  lemma TakesKeepsOwned(s: State)
    requires Owned(s) && Enabled(s, KernelTakes)
    ensures Owned(Next(s, KernelTakes))
  {
    HeadTail(Chunks(s.cfg, s.fill));
    assert Chunks(s.cfg, s.fill)[1..] == Chunks(s.cfg, s.fill[1..]);
  }

  lemma DeliveredInChunk(s: State, chunk: nat, offset: nat, len: nat)
    requires Owned(s) && chunk in s.kernel && offset < s.cfg.frameSize && offset + len <= s.cfg.frameSize
    ensures var d := Desc(ChunkStart(s.cfg, chunk) + offset, len);
      ChunkOf(s.cfg, d.addr) == chunk && InChunk(s.cfg, d)
  {
    ChunkSplit(s.cfg.frameSize, chunk, offset);
    assert chunk in Places(s);
  }

  /** The state after the kernel filled `d`, which lies in `chunk`. */
  function Filled(s: State, chunk: nat, d: Desc, umem: seq<Byte>, packet: seq<Byte>): State {
    s.(kernel := s.kernel - multiset{chunk}, umem := umem, rx := s.rx + [d], delivered := s.delivered + [packet])
  }

  lemma ChunkMoves(s: State, chunk: nat, d: Desc, umem: seq<Byte>, packet: seq<Byte>)
    requires chunk in s.kernel && ChunkOf(s.cfg, d.addr) == chunk
    ensures Places(Filled(s, chunk, d, umem, packet)) == Places(s)
  {
    assert RxChunks(s.cfg, s.rx + [d]) == RxChunks(s.cfg, s.rx) + [chunk];
    assert s.kernel - multiset{chunk} + multiset{chunk} == s.kernel;
  }

  lemma FilledKeepsOwned(s: State, chunk: nat, d: Desc, umem: seq<Byte>, packet: seq<Byte>)
    requires Owned(s) && chunk in s.kernel && ChunkOf(s.cfg, d.addr) == chunk && InChunk(s.cfg, d) && |umem| == |s.umem|
    ensures Owned(Filled(s, chunk, d, umem, packet))
  {
    ChunkMoves(s, chunk, d, umem, packet);
  }

  lemma DeliversIsFilled(s: State, chunk: nat, offset: nat, packet: seq<Byte>)
    requires Enabled(s, KernelDelivers(chunk, offset, packet))
    ensures var addr := ChunkStart(s.cfg, chunk) + offset;
      Next(s, KernelDelivers(chunk, offset, packet))
      == Filled(s, chunk, Desc(addr, |packet|), Overwrite(s.umem, addr, packet), packet)
  {}

  lemma DeliversKeepsOwned(s: State, chunk: nat, offset: nat, packet: seq<Byte>)
    requires Owned(s) && Enabled(s, KernelDelivers(chunk, offset, packet))
    ensures Owned(Next(s, KernelDelivers(chunk, offset, packet)))
  {
    var d := Desc(ChunkStart(s.cfg, chunk) + offset, |packet|);
    DeliveredInChunk(s, chunk, offset, |packet|);
    DeliversIsFilled(s, chunk, offset, packet);
    FilledKeepsOwned(s, chunk, d, Overwrite(s.umem, d.addr, packet), packet);
  }

  lemma ReleasesKeepsOwned(s: State)
    requires Owned(s) && Enabled(s, UserReleases)
    ensures Owned(Next(s, UserReleases))
  {
    PlainAddress(s.cfg, s.rx[0]);
    HeadTail(RxChunks(s.cfg, s.rx));
    assert RxChunks(s.cfg, s.rx)[1..] == RxChunks(s.cfg, s.rx[1..]);
    assert Places(Next(s, UserReleases)) == Places(s);
  }

  /** While user space holds a chunk the fill ring has room: the reserve cannot fail. */
  lemma RefillHasRoom(s: State)
    requires Owned(s) && s.phase.Holding?
    ensures Granted(Free(s), 1) == 1
  {
    assert |Places(s)| == |s.fill| + |s.kernel| + |s.rx| + 1;
  }

  lemma RefillsKeepsOwned(s: State)
    requires Owned(s) && Enabled(s, UserRefills)
    ensures Owned(Next(s, UserRefills))
  {
    RefillHasRoom(s);
    assert Chunks(s.cfg, s.fill + [s.phase.addr]) == Chunks(s.cfg, s.fill) + [ChunkOf(s.cfg, s.phase.addr)];
    assert Places(Next(s, UserRefills)) == Places(s);
  }

  lemma StepKeepsOwned(s: State, step: Step)
    requires Owned(s)
    ensures Owned(Next(s, step))
  {
    if Enabled(s, step) {
      match step
      case KernelTakes => TakesKeepsOwned(s);
      case KernelDelivers(chunk, offset, packet) => DeliversKeepsOwned(s, chunk, offset, packet);
      case UserCopies(_) => assert Places(Next(s, step)) == Places(s);
      case UserReleases => ReleasesKeepsOwned(s);
      case UserRefills => RefillsKeepsOwned(s);
    }
  }

  // ---- order and content -----------------------------------------------------------------

  function Truncated(packet: seq<Byte>, bufSize: nat): seq<Byte> {
    if |packet| <= bufSize then packet else packet[..bufSize]
  }

  /** How many packets have left the RX ring or are being copied out of its head. */
  function Released(s: State): int {
    |s.returned| - if s.phase.Copied? then 1 else 0
  }

  /** Descriptor `i` of the RX ring still points at the bytes of the packet it was queued for. */
  ghost predicate Intact(s: State, i: nat)
    requires i < |s.rx| && 0 <= Released(s) && Released(s) + i < |s.delivered|
  {
    s.rx[i].len == |s.delivered[Released(s) + i]|
    && Slice(s.umem, s.rx[i].addr, s.rx[i].len) == s.delivered[Released(s) + i]
  }

  ghost predicate InOrder(s: State) {
    && 0 <= Released(s)
    && |s.delivered| == Released(s) + |s.rx|
    && (!s.phase.Idle? ==> s.returned != [])
    && |s.returned| <= |s.delivered|
    && (forall i :: 0 <= i < |s.rx| ==> Intact(s, i))
    && (forall i :: 0 <= i < |s.returned| ==>
          s.returned[i].bytes == Truncated(s.delivered[i], s.returned[i].bufSize))
    && (forall i :: 0 <= i < |s.delivered| ==> |s.delivered[i]| <= s.cfg.frameSize)
    && s.userRxFrames == (|s.returned| - if s.phase.Idle? then 0 else 1) % U64
  }

  /** A copy reads only inside the UMEM area, and never more than the descriptor's length. */
  lemma CopyInsideArea(s: State, bufSize: nat)
    requires Owned(s) && s.rx != []
    ensures var d := s.rx[0];
      ExtractAddr(d.addr) + ExtractOffset(d.addr) == d.addr && d.addr + d.len <= |s.umem|
      && CopyLength(d.len, bufSize) == if d.len <= bufSize then d.len else bufSize
  {
    assert InChunk(s.cfg, s.rx[0]);
    PlainAddress(s.cfg, s.rx[0]);
    InsideArea(s.cfg, s.rx[0]);
  }

  lemma SliceElsewhere(umem: seq<Byte>, at: nat, packet: seq<Byte>, from: nat, n: nat)
    requires at + |packet| <= |umem| && from + n <= |umem|
    requires from + n <= at || at + |packet| <= from
    ensures Slice(Overwrite(umem, at, packet), from, n) == Slice(umem, from, n)
  {
    var written := Overwrite(umem, at, packet);
    forall i | from <= i < from + n ensures written[i] == umem[i] {}
  }

  lemma SliceWritten(umem: seq<Byte>, at: nat, packet: seq<Byte>)
    requires at + |packet| <= |umem|
    ensures Slice(Overwrite(umem, at, packet), at, |packet|) == packet
  {}

  /** A chunk the kernel holds is not the chunk of any queued descriptor. */
  lemma KernelChunkNotQueued(s: State, chunk: nat, i: nat)
    requires Owned(s) && chunk in s.kernel && i < |s.rx|
    ensures ChunkOf(s.cfg, s.rx[i].addr) != chunk
  {
    assert RxChunks(s.cfg, s.rx)[i] in multiset(RxChunks(s.cfg, s.rx));
    assert Places(s)[chunk] <= 1;
  }

  lemma OneMore(c: int, size: int)
    ensures (c + 1) * size == c * size + size
  {}

  lemma SpansApart(size: nat, a: nat, endA: nat, b: nat, endB: nat)
    requires a != b && endA <= size && endB <= size
    ensures a * size + endA <= b * size || b * size + endB <= a * size
  {
    OneMore(a, size);
    OneMore(b, size);
    if a < b { MulMonotone(a + 1, b, size); } else { MulMonotone(b + 1, a, size); }
  }

  /** A write inside one chunk misses every descriptor of another chunk. */
  lemma ChunksApart(cfg: Config, chunk: nat, offset: nat, len: nat, d: Desc)
    requires InChunk(cfg, d) && ChunkOf(cfg, d.addr) != chunk && offset + len <= cfg.frameSize
    ensures d.addr + d.len <= ChunkStart(cfg, chunk) + offset || ChunkStart(cfg, chunk) + offset + len <= d.addr
  {
    var c, end := ChunkOf(cfg, d.addr), d.addr % cfg.frameSize + d.len;
    assert d.addr + d.len == c * cfg.frameSize + end;
    SpansApart(cfg.frameSize, c, end, chunk, offset + len);
  }

  lemma KernelChunkInArea(s: State, chunk: nat)
    requires Owned(s) && chunk in s.kernel
    ensures ChunkStart(s.cfg, chunk) + s.cfg.frameSize <= |s.umem|
  {
    assert Places(s)[chunk] >= 1;
    OneMore(chunk, s.cfg.frameSize);
    MulMonotone(chunk + 1, s.cfg.numFrames, s.cfg.frameSize);
  }

  lemma DeliveryLeavesQueued(s: State, chunk: nat, offset: nat, packet: seq<Byte>, i: nat)
    requires Owned(s) && chunk in s.kernel && offset + |packet| <= s.cfg.frameSize && i < |s.rx|
    ensures var d := s.rx[i];
      Slice(Overwrite(s.umem, ChunkStart(s.cfg, chunk) + offset, packet), d.addr, d.len) == Slice(s.umem, d.addr, d.len)
  {
    KernelChunkNotQueued(s, chunk, i);
    KernelChunkInArea(s, chunk);
    assert InChunk(s.cfg, s.rx[i]);
    InsideArea(s.cfg, s.rx[i]);
    ChunksApart(s.cfg, chunk, offset, |packet|, s.rx[i]);
    SliceElsewhere(s.umem, ChunkStart(s.cfg, chunk) + offset, packet, s.rx[i].addr, s.rx[i].len);
  }

  lemma QueueingKeepsOrder(s: State, kernel: multiset<nat>, umem: seq<Byte>, d: Desc, packet: seq<Byte>)
    requires InOrder(s) && d.len == |packet| <= s.cfg.frameSize && Slice(umem, d.addr, d.len) == packet
    requires forall i :: 0 <= i < |s.rx| ==>
      Slice(umem, s.rx[i].addr, s.rx[i].len) == Slice(s.umem, s.rx[i].addr, s.rx[i].len)
    ensures InOrder(s.(kernel := kernel, umem := umem, rx := s.rx + [d], delivered := s.delivered + [packet]))
  {
    var s' := s.(kernel := kernel, umem := umem, rx := s.rx + [d], delivered := s.delivered + [packet]);
    forall i | 0 <= i < |s'.rx| ensures Intact(s', i) {
      if i < |s.rx| {
        assert Intact(s, i);
      }
    }
  }

  lemma DeliversKeepsOrder(s: State, chunk: nat, offset: nat, packet: seq<Byte>)
    requires Owned(s) && InOrder(s) && Enabled(s, KernelDelivers(chunk, offset, packet))
    ensures InOrder(Next(s, KernelDelivers(chunk, offset, packet)))
  {
    var addr := ChunkStart(s.cfg, chunk) + offset;
    var umem := Overwrite(s.umem, addr, packet);
    KernelChunkInArea(s, chunk);
    SliceWritten(s.umem, addr, packet);
    forall i | 0 <= i < |s.rx|
      ensures Slice(umem, s.rx[i].addr, s.rx[i].len) == Slice(s.umem, s.rx[i].addr, s.rx[i].len)
    {
      DeliveryLeavesQueued(s, chunk, offset, packet, i);
    }
    QueueingKeepsOrder(s, s.kernel - multiset{chunk}, umem, Desc(addr, |packet|), packet);
  }

  lemma CopyingKeepsOrder(s: State, got: Received)
    requires InOrder(s) && s.phase.Idle? && s.rx != []
    requires got.bytes == Truncated(s.delivered[Released(s)], got.bufSize)
    ensures InOrder(s.(phase := Copied, returned := s.returned + [got]))
  {
    var s' := s.(phase := Copied, returned := s.returned + [got]);
    forall i | 0 <= i < |s'.rx| ensures Intact(s', i) { assert Intact(s, i); }
  }

  lemma CopiesKeepsOrder(s: State, bufSize: nat)
    requires Owned(s) && InOrder(s) && Enabled(s, UserCopies(bufSize))
    ensures InOrder(Next(s, UserCopies(bufSize)))
  {
    CopyInsideArea(s, bufSize);
    var d := s.rx[0];
    assert Intact(s, 0);
    var got := Received(Slice(s.umem, d.addr, CopyLength(d.len, bufSize)), bufSize);
    assert Slice(s.umem, d.addr, d.len) == s.delivered[Released(s)];
    CopyingKeepsOrder(s, got);
  }

  lemma ReleasesKeepsOrder(s: State)
    requires Owned(s) && InOrder(s) && Enabled(s, UserReleases)
    ensures InOrder(Next(s, UserReleases))
  {
    var s' := Next(s, UserReleases);
    forall i | 0 <= i < |s'.rx| ensures Intact(s', i) { assert Intact(s, i + 1); }
  }

  lemma RingsKeepOrder(s: State, step: Step)
    requires InOrder(s) && Enabled(s, step) && (step.KernelTakes? || step.UserRefills?)
    ensures InOrder(Next(s, step))
  {
    forall i | 0 <= i < |s.rx| ensures Intact(Next(s, step), i) { assert Intact(s, i); }
  }

  lemma StepKeepsOrder(s: State, step: Step)
    requires Owned(s) && InOrder(s)
    ensures InOrder(Next(s, step))
  {
    if Enabled(s, step) {
      match step
      case KernelDelivers(chunk, offset, packet) => DeliversKeepsOrder(s, chunk, offset, packet);
      case UserCopies(bufSize) => CopiesKeepsOrder(s, bufSize);
      case UserReleases => ReleasesKeepsOrder(s);
      case _ => RingsKeepOrder(s, step);
    }
  }

  ghost predicate Good(s: State) {
    Owned(s) && InOrder(s)
  }

  lemma StepKeeps(s: State, step: Step)
    requires Good(s)
    ensures Good(Next(s, step))
  {
    StepKeepsOwned(s, step);
    StepKeepsOrder(s, step);
  }

  // ---- whole sessions -----------------------------------------------------------------------

  lemma {:induction false} FreshChunks(cfg: Config, n: nat)
    ensures multiset(Chunks(cfg, ChunkAddrs(cfg, n))) == AllChunks(n)
  {
    if n > 0 {
      FreshChunks(cfg, n - 1);
      ChunkSplit(cfg.frameSize, n - 1, 0);
      assert Chunks(cfg, ChunkAddrs(cfg, n)) == Chunks(cfg, ChunkAddrs(cfg, n - 1)) + [n - 1];
    }
  }

  /** Opening succeeds exactly when the fill ring can take every frame at once. */
  lemma OpenIffRoom(cfg: Config, umem: seq<Byte>)
    requires |umem| == cfg.numFrames * cfg.frameSize
    ensures Opened(cfg, umem).Some? <==> cfg.numFrames <= cfg.fillCapacity
    ensures Opened(cfg, umem).Some? ==> Good(Opened(cfg, umem).value)
  {
    FreshChunks(cfg, cfg.numFrames);
  }

  /** With both defaults filled in, 4096 frames, a fill ring of 2048 slots is too small to open. */
  lemma DefaultsNeedRoom(fillCapacity: nat, rxCapacity: nat, umem: seq<Byte>)
    ensures Opened(EffectiveConfig(0, 0, fillCapacity, rxCapacity), umem).None? <==> fillCapacity < 4096
    ensures Opened(EffectiveConfig(0, 0, 2048, rxCapacity), umem).None?
  {}

  lemma {:induction false} RunKeeps(s: State, steps: seq<Step>)
    requires Good(s)
    ensures Good(After(s, steps))
  {
    if steps != [] {
      var front := steps[..|steps| - 1];
      RunKeeps(s, front);
      StepKeeps(After(s, front), steps[|steps| - 1]);
    }
  }

  /** In every session and every interleaving with the kernel each chunk is in exactly one place,
      and a chunk in user hand can always be posted back, so none is ever lost or duplicated. */
  lemma EveryChunkOnce(cfg: Config, umem: seq<Byte>, steps: seq<Step>, chunk: nat)
    requires |umem| == cfg.numFrames * cfg.frameSize && Opened(cfg, umem).Some?
    ensures var s := After(Opened(cfg, umem).value, steps);
      && multiset(Chunks(cfg, s.fill))[chunk] + s.kernel[chunk]
           + multiset(RxChunks(cfg, s.rx))[chunk] + InHand(s)[chunk]
         == (if chunk < cfg.numFrames then 1 else 0)
      && (s.phase.Holding? ==> Granted(Free(s), 1) == 1)
  {
    OpenIffRoom(cfg, umem);
    RunKeeps(Opened(cfg, umem).value, steps);
    var s := After(Opened(cfg, umem).value, steps);
    assert Places(s)[chunk] == AllChunks(cfg.numFrames)[chunk];
    if s.phase.Holding? { RefillHasRoom(s); }
  }

  /** What recv has returned is the kernel's packet sequence from its beginning, in order, cut to
      the caller's buffer; user_rx_frames counts the completed calls. */
  lemma ReturnedInOrder(cfg: Config, umem: seq<Byte>, steps: seq<Step>)
    requires |umem| == cfg.numFrames * cfg.frameSize && Opened(cfg, umem).Some?
    ensures var s := After(Opened(cfg, umem).value, steps);
      && |s.returned| <= |s.delivered|
      && (forall i :: 0 <= i < |s.returned| ==>
            s.returned[i].bytes == Truncated(s.delivered[i], s.returned[i].bufSize))
      && (s.phase.Idle? ==> |s.delivered| == |s.returned| + |s.rx| && s.userRxFrames == |s.returned| % U64)
  {
    OpenIffRoom(cfg, umem);
    RunKeeps(Opened(cfg, umem).value, steps);
  }

  /** The Python reader's buffer never truncates: its size covers any frame size it can ask for. */
  lemma ReaderSeesWholePackets(frameSize: int, numFrames: int, fillCapacity: nat, rxCapacity: nat,
                               umem: seq<Byte>, steps: seq<Step>, i: nat)
    requires var cfg := EffectiveConfig(frameSize, numFrames, fillCapacity, rxCapacity);
      cfg.Ok() && |umem| == cfg.numFrames * cfg.frameSize && Opened(cfg, umem).Some?
      && var s := After(Opened(cfg, umem).value, steps);
         i < |s.returned| && s.returned[i].bufSize == ReaderBufSize(frameSize)
    ensures var cfg := EffectiveConfig(frameSize, numFrames, fillCapacity, rxCapacity);
      var s := After(Opened(cfg, umem).value, steps);
      i < |s.delivered| && s.returned[i].bytes == s.delivered[i]
  {
    var cfg := EffectiveConfig(frameSize, numFrames, fillCapacity, rxCapacity);
    OpenIffRoom(cfg, umem);
    RunKeeps(Opened(cfg, umem).value, steps);
  }

  lemma ReleaseTakesAddress(s: State)
    requires Enabled(s, UserReleases)
    ensures Next(s, UserReleases) == s.(phase := Holding(ExtractAddr(s.rx[0].addr)), rx := s.rx[1..])
  {}

  lemma RefillPosts(s: State)
    requires Owned(s) && s.phase.Holding?
    ensures Next(s, UserRefills).fill == s.fill + [s.phase.addr] && Next(s, UserRefills).rx == s.rx
    ensures Next(s, UserRefills).phase == Idle
  {
    RefillHasRoom(s);
  }

  /** Releasing and posting back returns the very address the kernel had delivered. */
  lemma PostsSameAddress(s: State)
    requires Owned(s) && s.phase.Copied?
    ensures var t := Next(Next(s, UserReleases), UserRefills);
      t.fill == s.fill + [s.rx[0].addr] && t.rx == s.rx[1..] && t.phase == Idle
  {
    var released := Next(s, UserReleases);
    assert released.phase == Holding(s.rx[0].addr) && released.rx == s.rx[1..] && released.fill == s.fill by {
      ReleaseTakesAddress(s);
      assert InChunk(s.cfg, s.rx[0]);
      PlainAddress(s.cfg, s.rx[0]);
    }
    StepKeepsOwned(s, UserReleases);
    RefillPosts(released);
  }

  /** The sizes used when none are given. */
  lemma EffectiveSizes(frameSize: int, numFrames: int, fillCapacity: nat, rxCapacity: nat)
    ensures var c := EffectiveConfig(frameSize, numFrames, fillCapacity, rxCapacity);
      && (frameSize <= 0 ==> c.frameSize == 2048) && (frameSize > 0 ==> c.frameSize == frameSize)
      && (numFrames <= 0 ==> c.numFrames == 4096) && (numFrames > 0 ==> c.numFrames == numFrames)
  {}
}
