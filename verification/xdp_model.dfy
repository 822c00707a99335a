/** AF_XDP frame ownership: the rings user space and the kernel exchange UMEM chunks through,
    every atomic step either side takes, and what holds under every interleaving. */
module XdpModel {
  import opened Common

  const DEFAULT_FRAME_SIZE := 2048
  const DEFAULT_NUM_FRAMES := 4096
  const ADDR_SPAN := 0x1_0000_0000_0000  // low 48 bits of a descriptor address
  const U31 := 0x8000_0000
  const U64 := 0x1_0000_0000_0000_0000

  type Byte = b: int | 0 <= b < 256

  datatype Sizes = Sizes(frameSize: nat, numFrames: nat, fillCapacity: nat, rxCapacity: nat)
  {
    /** Sizes come from positive C ints, and the area was mapped into the address space. */
    predicate Ok() {
      0 < frameSize < U31 && 0 < numFrames < U31 && numFrames * frameSize <= ADDR_SPAN
    }
  }

  type Config = c: Sizes | c.Ok() witness Sizes(1, 1, 1, 1)

  datatype Desc = Desc(addr: nat, len: nat)

  /** Where user space is inside recv: between calls, after the copy, or after the release. */
  datatype Phase = Idle | Copied | Holding(addr: nat)

  datatype Received = Received(bytes: seq<Byte>, bufSize: nat)

  /** `delivered` logs the packets the kernel queued, `returned` what recv handed out. */
  datatype State = State(
    cfg: Config,
    fill: seq<nat>,
    kernel: multiset<nat>,
    rx: seq<Desc>,
    phase: Phase,
    umem: seq<Byte>,
    userRxFrames: nat,
    delivered: seq<seq<Byte>>,
    returned: seq<Received>)

  datatype Step =
    | KernelTakes
    | KernelDelivers(chunk: nat, offset: nat, packet: seq<Byte>)
    | UserCopies(bufSize: nat)
    | UserReleases
    | UserRefills

  function ExtractAddr(addr: nat): nat { addr % ADDR_SPAN }
  function ExtractOffset(addr: nat): nat { addr / ADDR_SPAN }

  /** `(int)len > buf_size ? buf_size : len` on a 32-bit length. */
  function CopyLength(len: nat, bufSize: nat): nat {
    var signed := if len < U31 then len else len - 2 * U31;
    if signed > bufSize then bufSize else len
  }

  /** What a reserve of `n` slots grants: all or nothing. */
  function Granted(free: nat, n: nat): nat {
    if free < n then 0 else n
  }

  function Slice(umem: seq<Byte>, from: nat, n: nat): seq<Byte> {
    if from + n <= |umem| then umem[from..from + n] else []
  }

  function Overwrite(umem: seq<Byte>, from: nat, bytes: seq<Byte>): (r: seq<Byte>)
    ensures |r| == |umem|
  {
    if from + |bytes| <= |umem| then umem[..from] + bytes + umem[from + |bytes|..] else umem
  }

  predicate Enabled(s: State, step: Step) {
    match step
    case KernelTakes => s.fill != []
    case KernelDelivers(chunk, offset, packet) =>
      chunk in s.kernel && offset < s.cfg.frameSize && offset + |packet| <= s.cfg.frameSize && |s.rx| < s.cfg.rxCapacity
    case UserCopies(bufSize) => s.phase.Idle? && s.rx != [] && 0 < bufSize < U31
    case UserReleases => s.phase.Copied? && s.rx != []
    case UserRefills => s.phase.Holding?
  }

  /** The kernel identifies the chunk of a fill address by masking off the offset within it. */
  function ChunkOf(cfg: Config, addr: nat): nat
  {
    addr / cfg.frameSize
  }

  /** One atomic step; a step that is not enabled changes nothing. */
  function Next(s: State, step: Step): State
  {
    if !Enabled(s, step) then s else
    match step
    case KernelTakes =>
      s.(fill := s.fill[1..], kernel := s.kernel + multiset{ChunkOf(s.cfg, s.fill[0])})
    case KernelDelivers(chunk, offset, packet) =>
      var addr := ChunkStart(s.cfg, chunk) + offset;
      s.(kernel := s.kernel - multiset{chunk},
         umem := Overwrite(s.umem, addr, packet),
         rx := s.rx + [Desc(addr, |packet|)],
         delivered := s.delivered + [packet])
    case UserCopies(bufSize) =>
      var from := ExtractAddr(s.rx[0].addr) + ExtractOffset(s.rx[0].addr);
      s.(phase := Copied,
         returned := s.returned + [Received(Slice(s.umem, from, CopyLength(s.rx[0].len, bufSize)), bufSize)])
    case UserReleases =>
      s.(phase := Holding(ExtractAddr(s.rx[0].addr)), rx := s.rx[1..])
    case UserRefills =>
      s.(fill := if Granted(Free(s), 1) == 1 then s.fill + [s.phase.addr] else s.fill,
         phase := Idle,
         userRxFrames := (s.userRxFrames + 1) % U64)
  }

  /** Free slots of the fill ring. */
  function Free(s: State): nat {
    if |s.fill| <= s.cfg.fillCapacity then s.cfg.fillCapacity - |s.fill| else 0
  }

  function After(s: State, steps: seq<Step>): (r: State)
    ensures r.cfg == s.cfg
  {
    if steps == [] then s else Next(After(s, steps[..|steps| - 1]), steps[|steps| - 1])
  }

  // ---- a freshly opened session ------------------------------------------------------

  function ChunkStart(cfg: Config, chunk: nat): nat {
    chunk * cfg.frameSize
  }

  function ChunkAddrs(cfg: Config, n: nat): (addrs: seq<nat>)
    ensures |addrs| == n
  {
    seq(n, i requires 0 <= i < n => ChunkStart(cfg, i))
  }

  /** populate_fq: success only if the whole UMEM fits the fill ring at once. */
  function Opened(cfg: Config, umem: seq<Byte>): Option<State> {
    if Granted(cfg.fillCapacity, cfg.numFrames) != cfg.numFrames then None
    else Some(State(cfg, ChunkAddrs(cfg, cfg.numFrames), multiset{}, [], Idle, umem, 0, [], []))
  }

  function EffectiveConfig(frameSize: int, numFrames: int, fillCapacity: nat, rxCapacity: nat): Sizes {
    Sizes(if frameSize <= 0 then DEFAULT_FRAME_SIZE else frameSize,
           if numFrames <= 0 then DEFAULT_NUM_FRAMES else numFrames, fillCapacity, rxCapacity)
  }

  /** The buffer xdp_reader.py passes for a configured frame size. */
  function ReaderBufSize(frameSize: int): nat {
    if frameSize > 2048 then frameSize else 2048
  }
}
