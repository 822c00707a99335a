/** xdp_capture.c: the session struct, its rings and its UMEM area, updated in place. Each part of
    recv is one atomic step of the model, with the kernel free to run in between. */
module XdpSession {
  import opened Common
  import opened XdpModel
  import opened XdpTheorems

  predicate KernelOnly(steps: seq<Step>) {
    forall i :: 0 <= i < |steps| ==> steps[i].KernelTakes? || steps[i].KernelDelivers?
  }

  class Session {
    const cfg: Config
    const umem: array<Byte>
    var fill: seq<nat>
    var kernel: multiset<nat>
    var rx: seq<Desc>
    var phase: Phase
    var userRxFrames: nat
    ghost var delivered: seq<seq<Byte>>
    ghost var returned: seq<Received>

    ghost function View(): State
      reads this, umem
    {
      State(cfg, fill, kernel, rx, phase, umem[..], userRxFrames, delivered, returned)
    }

    ghost predicate Valid()
      reads this, umem
    {
      Good(View())
    }

    constructor (cfg: Config)
      ensures this.cfg == cfg && fresh(umem) && umem.Length == cfg.numFrames * cfg.frameSize
      ensures View() == State(cfg, [], multiset{}, [], Idle, umem[..], 0, [], [])
    {
      this.cfg := cfg;
      this.umem := new Byte[cfg.numFrames * cfg.frameSize](_ => 0);
      fill, kernel, rx, phase := [], multiset{}, [], Idle;
      userRxFrames := 0;
      delivered, returned := [], [];
    }

    method PopulateFq() returns (ok: bool)
      requires fill == []
      modifies this`fill
      ensures ok <==> cfg.numFrames <= cfg.fillCapacity
      ensures fill == if ok then ChunkAddrs(cfg, cfg.numFrames) else []
    {
      var granted := Granted(cfg.fillCapacity - |fill|, cfg.numFrames);
      if granted != cfg.numFrames { return false; }
      var i := 0;
      while i < cfg.numFrames
        invariant 0 <= i <= cfg.numFrames
        invariant fill == ChunkAddrs(cfg, i)
      {
        fill := fill + [ChunkStart(cfg, i)];
        i := i + 1;
      }
      return true;
    }

    method KernelTake()
      modifies this`fill, this`kernel
      ensures View() == Next(old(View()), KernelTakes)
    {
      if fill != [] {
        kernel := kernel + multiset{ChunkOf(cfg, fill[0])};
        fill := fill[1..];
      }
    }

    /** Write `packet` into the area. */
    method WritePacket(addr: nat, packet: seq<Byte>)
      requires addr + |packet| <= umem.Length
      modifies umem
      ensures umem[..] == Overwrite(old(umem[..]), addr, packet)
    {
      ghost var before := umem[..];
      forall i | 0 <= i < |packet| {
        umem[addr + i] := packet[i];
      }
      assert umem[..] == before[..addr] + packet + before[addr + |packet|..];
    }

    /** Copy `len` bytes of the area into the caller's buffer. */
    method CopyBytes(from: nat, len: nat, buf: array<Byte>)
      requires from + len <= umem.Length && len <= buf.Length && buf != umem
      modifies buf
      ensures buf[..len] == umem[from..from + len]
    {
      forall i | 0 <= i < len {
        buf[i] := umem[from + i];
      }
    }

    method KernelDeliver(chunk: nat, offset: nat, packet: seq<Byte>)
      requires chunk in kernel ==> ChunkStart(cfg, chunk) + cfg.frameSize <= umem.Length
      modifies this`kernel, this`rx, this`delivered, umem
      ensures View() == Next(old(View()), KernelDelivers(chunk, offset, packet))
      ensures old(rx) <= rx
    {
      if chunk in kernel && offset < cfg.frameSize && offset + |packet| <= cfg.frameSize && |rx| < cfg.rxCapacity {
        ghost var before := View();
        DeliversIsFilled(before, chunk, offset, packet);
        var addr := ChunkStart(cfg, chunk) + offset;
        WritePacket(addr, packet);
        kernel := kernel - multiset{chunk};
        rx := rx + [Desc(addr, |packet|)];
        delivered := delivered + [packet];
      }
    }

    /** The kernel's side: any number of its steps, in place. */
    method KernelRuns(steps: seq<Step>)
      requires Valid() && KernelOnly(steps)
      modifies this`fill, this`kernel, this`rx, this`delivered, umem
      ensures View() == After(old(View()), steps) && Valid()
      ensures old(rx) <= rx
      decreases |steps|
    {
      if steps != [] {
        var front, last := steps[..|steps| - 1], steps[|steps| - 1];
        KernelRuns(front);
        KernelSteps(last);
      }
    }

    method KernelSteps(step: Step)
      requires Valid() && (step.KernelTakes? || step.KernelDelivers?)
      modifies this`fill, this`kernel, this`rx, this`delivered, umem
      ensures View() == Next(old(View()), step) && Valid()
      ensures old(rx) <= rx
    {
      StepKeeps(View(), step);
      KernelLeavesUser(View(), step);
      match step
      case KernelTakes => KernelTake();
      case KernelDelivers(chunk, offset, packet) =>
        if chunk in kernel { KernelChunkInArea(View(), chunk); }
        KernelDeliver(chunk, offset, packet);
    }

    /** Read the head descriptor and copy its bytes out. */
    method CopyHead(buf: array<Byte>, bufSize: nat) returns (len: nat)
      requires Valid() && Enabled(View(), UserCopies(bufSize)) && bufSize <= buf.Length && buf != umem
      modifies this`phase, this`returned, buf
      ensures View() == Next(old(View()), UserCopies(bufSize))
      ensures len <= bufSize && returned == old(returned) + [Received(buf[..len], bufSize)]
    {
      ghost var before := View();
      CopyInsideArea(before, bufSize);
      var addr := rx[0].addr;
      len := rx[0].len;
      var orig, offset := ExtractAddr(addr), ExtractOffset(addr);
      len := CopyLength(len, bufSize);
      CopyBytes(orig + offset, len, buf);
      phase := Copied;
      returned := returned + [Received(buf[..len], bufSize)];
      CopyIsNext(before, bufSize, buf[..len]);
    }

    method ReleaseHead()
      requires phase.Copied? && rx != []
      modifies this`phase, this`rx
      ensures View() == Next(old(View()), UserReleases)
    {
      phase := Holding(ExtractAddr(rx[0].addr));
      rx := rx[1..];
    }

    method Refill()
      requires phase.Holding?
      modifies this`phase, this`fill, this`userRxFrames
      ensures View() == Next(old(View()), UserRefills)
    {
      var free := if |fill| <= cfg.fillCapacity then cfg.fillCapacity - |fill| else 0;
      if Granted(free, 1) == 1 {
        fill := fill + [phase.addr];
      }
      phase := Idle;
      userRxFrames := (userRxFrames + 1) % U64;
    }

    /** xdp_cap_recv. `ready` is poll's answer; the kernel runs `k0` during the poll, `k1` after the
        copy and `k2` after the release. `trace` is the interleaving that resulted. */
    method Recv(buf: array<Byte>, bufSize: int, ready: bool, k0: seq<Step>, k1: seq<Step>, k2: seq<Step>)
      returns (ret: int, ghost trace: seq<Step>)
      requires Valid() && phase.Idle? && bufSize < U31 && bufSize <= buf.Length && buf != umem
      requires KernelOnly(k0) && KernelOnly(k1) && KernelOnly(k2)
      modifies this, umem, buf
      ensures Valid() && phase.Idle? && View() == After(old(View()), trace)
      ensures bufSize <= 0 ==> ret == -1 && trace == []
      ensures returned == old(returned)
        || (0 <= ret <= bufSize && returned == old(returned) + [Received(buf[..ret], bufSize)])
      ensures bufSize > 0 && returned == old(returned) ==>
        ret == 0 && trace == k0 && old(rx) == [] && (!ready || rx == [])
      ensures returned != old(returned) ==>
        trace == (if old(rx) == [] then k0 else [])
                 + ([UserCopies(bufSize)] + k1 + [UserReleases]) + (k2 + [UserRefills])
    {
      trace := [];
      if bufSize <= 0 { return -1, trace; }
      if rx == [] {
        KernelRuns(k0);
        trace := k0;
        if !ready { return 0, trace; }
        if rx == [] { return 0, trace; }
      }
      ghost var start := old(View());
      ret := TakeOut(buf, bufSize, k1);
      AfterAppend(start, trace, [UserCopies(bufSize)] + k1 + [UserReleases]);
      trace := trace + ([UserCopies(bufSize)] + k1 + [UserReleases]);
      PutBack(k2);
      AfterAppend(start, trace, k2 + [UserRefills]);
      trace := trace + (k2 + [UserRefills]);
    }

    /** Copy the head out, then release its slot; the chunk is then in user hand. */
    method TakeOut(buf: array<Byte>, bufSize: nat, k1: seq<Step>) returns (len: nat)
      requires Valid() && phase.Idle? && rx != [] && 0 < bufSize < U31 && bufSize <= buf.Length && buf != umem
      requires KernelOnly(k1)
      modifies this, umem, buf
      ensures Valid() && phase.Holding? && View() == After(old(View()), [UserCopies(bufSize)] + k1 + [UserReleases])
      ensures len <= bufSize && returned == old(returned) + [Received(buf[..len], bufSize)]
    {
      ghost var start := View();
      len := CopyOut(buf, bufSize, k1);
      ReleaseIsNext(start, [UserCopies(bufSize)] + k1);
      ReleaseHead();
    }

    method CopyOut(buf: array<Byte>, bufSize: nat, k1: seq<Step>) returns (len: nat)
      requires Valid() && phase.Idle? && rx != [] && 0 < bufSize < U31 && bufSize <= buf.Length && buf != umem
      requires KernelOnly(k1)
      modifies this, umem, buf
      ensures Valid() && phase.Copied? && rx != [] && View() == After(old(View()), [UserCopies(bufSize)] + k1)
      ensures len <= bufSize && returned == old(returned) + [Received(buf[..len], bufSize)]
    {
      CopyThenKernel(View(), bufSize, k1);
      len := CopyHead(buf, bufSize);
      KernelRuns(k1);
    }

    /** Post the chunk in hand back to the fill ring. */
    method PutBack(k2: seq<Step>)
      requires Valid() && phase.Holding? && KernelOnly(k2)
      modifies this, umem
      ensures Valid() && phase.Idle? && View() == After(old(View()), k2 + [UserRefills])
      ensures returned == old(returned)
    {
      ghost var start := View();
      KernelRuns(k2);
      RefillIsNext(start, k2);
      Refill();
    }
  }

  lemma AfterOneMore(s: State, steps: seq<Step>, step: Step)
    ensures After(s, steps + [step]) == Next(After(s, steps), step)
  {
    assert (steps + [step])[..|steps|] == steps;
  }

  /** What a copy does, once its bytes are known to lie inside the area. */
  lemma CopyIsNext(s: State, bufSize: nat, bytes: seq<Byte>)
    requires Owned(s) && Enabled(s, UserCopies(bufSize)) && s.rx[0].addr + CopyLength(s.rx[0].len, bufSize) <= |s.umem|
    requires bytes == s.umem[s.rx[0].addr..s.rx[0].addr + CopyLength(s.rx[0].len, bufSize)]
    ensures Next(s, UserCopies(bufSize)) == s.(phase := Copied, returned := s.returned + [Received(bytes, bufSize)])
  {
    CopyInsideArea(s, bufSize);
  }

  lemma CopyThenKernel(s: State, bufSize: nat, k1: seq<Step>)
    requires Good(s) && Enabled(s, UserCopies(bufSize))
    ensures var copied := Next(s, UserCopies(bufSize));
      && After(s, [UserCopies(bufSize)] + k1) == After(copied, k1)
      && Good(copied) && copied.phase.Copied? && copied.rx == s.rx && copied.rx != []
  {
    AfterAppend(s, [UserCopies(bufSize)], k1);
    AfterOneMore(s, [], UserCopies(bufSize));
    assert [] + [UserCopies(bufSize)] == [UserCopies(bufSize)];
    StepKeeps(s, UserCopies(bufSize));
  }

  lemma RefillFrees(s: State)
    requires s.phase.Holding?
    ensures Next(s, UserRefills).phase.Idle? && Next(s, UserRefills).returned == s.returned
  {}

  lemma KernelLeavesUser(s: State, step: Step)
    requires step.KernelTakes? || step.KernelDelivers?
    ensures s.rx <= Next(s, step).rx
  {}

  lemma RefillIsNext(s: State, steps: seq<Step>)
    requires Good(After(s, steps)) && After(s, steps).phase.Holding?
    ensures var refilled := After(s, steps + [UserRefills]);
      && refilled == Next(After(s, steps), UserRefills) && Good(refilled)
      && refilled.phase.Idle? && refilled.returned == After(s, steps).returned
  {
    AfterOneMore(s, steps, UserRefills);
    StepKeeps(After(s, steps), UserRefills);
    RefillFrees(After(s, steps));
  }

  lemma ReleaseHolds(s: State)
    requires Good(s) && s.phase.Copied?
    ensures var released := Next(s, UserReleases);
      Good(released) && released.phase.Holding? && released.returned == s.returned
  {
    StepKeeps(s, UserReleases);
  }

  lemma ReleaseIsNext(s: State, steps: seq<Step>)
    requires Good(After(s, steps)) && After(s, steps).phase.Copied?
    ensures var released := After(s, steps + [UserReleases]);
      && released == Next(After(s, steps), UserReleases) && Good(released)
      && released.phase.Holding? && released.returned == After(s, steps).returned
  {
    AfterOneMore(s, steps, UserReleases);
    ReleaseHolds(After(s, steps));
  }

  function Fold<S, T>(f: (S, T) -> S, s: S, ts: seq<T>): S {
    if ts == [] then s else f(Fold(f, s, ts[..|ts| - 1]), ts[|ts| - 1])
  }

  lemma {:induction false} FoldAppend<S, T>(f: (S, T) -> S, s: S, first: seq<T>, second: seq<T>)
    ensures Fold(f, s, first + second) == Fold(f, Fold(f, s, first), second)
  {
    if second == [] {
      assert first + second == first;
    } else {
      var front, last := second[..|second| - 1], second[|second| - 1];
      FoldAppend(f, s, first, front);
      assert (first + second)[..|first + second| - 1] == first + front;
    }
  }

  lemma {:induction false} AfterIsFold(s: State, steps: seq<Step>)
    ensures After(s, steps) == Fold(Next, s, steps)
  {
    if steps != [] { AfterIsFold(s, steps[..|steps| - 1]); }
  }

  lemma AfterAppend(s: State, first: seq<Step>, second: seq<Step>)
    ensures After(s, first + second) == After(After(s, first), second)
  {
    AfterIsFold(s, first + second);
    AfterIsFold(s, first);
    AfterIsFold(After(s, first), second);
    FoldAppend(Next, s, first, second);
  }

  /** How the calls that xdp_cap_open makes before filling the ring turn out: both names are given, the
      session is allocated, the interface exists, the area is mapped, the program is loaded with its
      map and attached, the UMEM and the socket are created and the socket is entered in the map. */
  datatype Host = Host(named: bool, inMemory: bool, interfaceFound: bool, mapped: bool, loaded: bool, attached: bool,
                       umemCreated: bool, socketCreated: bool, mapUpdated: bool)
  {
    predicate Ready() {
      named && inMemory && interfaceFound && mapped && loaded && attached && umemCreated && socketCreated && mapUpdated
    }
  }

  /** xdp_cap_open: a session exactly when every call succeeds, the area fits the descriptors' address
      bits, and the fill ring takes all frames; it then starts with every chunk in the fill ring. */
  method Open(frameSize: int, numFrames: int, fillCapacity: nat, rxCapacity: nat, host: Host) returns (sess: Session?)
    requires frameSize < U31 && numFrames < U31
    ensures var cfg := EffectiveConfig(frameSize, numFrames, fillCapacity, rxCapacity);
      && (sess != null <==> host.Ready() && cfg.Ok() && cfg.numFrames <= cfg.fillCapacity)
      && (sess != null ==>
            fresh(sess) && fresh(sess.umem) && sess.Valid() && Opened(cfg, sess.umem[..]) == Some(sess.View()))
  {
    if !host.named { return null; }
    var frames := if frameSize <= 0 then DEFAULT_FRAME_SIZE else frameSize;
    var count := if numFrames <= 0 then DEFAULT_NUM_FRAMES else numFrames;
    var cfg := Sizes(frames, count, fillCapacity, rxCapacity);
    if !host.inMemory || !host.interfaceFound || !host.mapped || !cfg.Ok() { return null; }
    if !host.loaded || !host.attached || !host.umemCreated || !host.socketCreated || !host.mapUpdated { return null; }
    sess := new Session(cfg);
    var ok := sess.PopulateFq();
    if !ok { return null; }
    OpenIffRoom(cfg, sess.umem[..]);
    assert Opened(cfg, sess.umem[..]) == Some(sess.View());
  }
}
