/** The classifier-filter request `runTc` keeps re-installing: the byte
    swap `htons` and the descriptor `newTcBpfObj` (main.go:230-262). Field
    widths are Go's, so they are bit-vectors here. */
module TcFilter {
  import opened Base

  /** `unix.ETH_P_ALL`, "every protocol", from the Linux `if_ether.h` header. */
  const EthPAll: bv16 := 0x0003

  /** `unix.AF_UNSPEC`. */
  const AfUnspec: bv32 := 0

  /** The fixed filter handle. */
  const FilterHandle: bv32 := 0xffff_fff1

  /** The filter priority placed in the upper half of `Info`. */
  const Priority: bv32 := 100

  /** `binary.BigEndian.PutUint16`: most significant byte first. */
  function PutUint16BigEndian(x: bv16): (b: seq<bv8>)
    ensures |b| == 2
  {
    [(x >> 8) as bv8, (x & 0xFF) as bv8]
  }

  /** Reading two bytes through a `*uint16` on the x86 target the programs are
      built for, which is little-endian: the first byte is the low one. */
  function NativeUint16(b: seq<bv8>): (r: bv16)
    requires |b| == 2
    ensures r & 0xFF == b[0] as bv16
    ensures r >> 8 == b[1] as bv16
  {
    (b[0] as bv16) | ((b[1] as bv16) << 8)
  }

  /** Host to network byte order: on a little-endian host, a byte swap. */
  function Htons(x: bv16): (r: bv16)
    ensures r & 0xFF == x >> 8
    ensures r >> 8 == x & 0xFF
  {
    NativeUint16(PutUint16BigEndian(x))
  }

  /** Swapping twice restores the value (`ntohs` is `htons`). */
  lemma HtonsInvolution(x: bv16)
    ensures Htons(Htons(x)) == x
  {
  }

  /** The protocol value actually sent: ETH_P_ALL in network order. */
  lemma HtonsEthPAll()
    ensures Htons(EthPAll) == 0x0300
  {
  }

  /** Library constants the descriptor uses whose values are not part of
      this model: `tc.BpfActDirect` and
      `core.BuildHandle(tc.HandleRoot, tc.HandleMinIngress)`. */
  datatype TcConsts = TcConsts(actDirect: bv32, ingressParent: bv32)

  /** `tc.Msg`. */
  datatype TcMsg = TcMsg(family: bv32, ifindex: bv32, handle: bv32, parent: bv32, info: bv32)

  /** `tc.Bpf`: program descriptor, annotation and flags. The descriptor is
      the one field kept as an integer: it comes from Go's `int`, and its
      conversion to `uint32` is stated as arithmetic modulo 2^32. */
  datatype BpfAttr = BpfAttr(fd: u32, name: string, flags: bv32)

  /** `tc.Object`: the message plus the `bpf` classifier attribute. */
  datatype TcObject = TcObject(msg: TcMsg, kind: string, bpf: BpfAttr)

  /** `prio<<16 | protocol`, the kernel's `tcm_info` for a filter. */
  function PackInfo(prio: bv32, protocol: bv16): bv32 {
    (prio << 16) | (protocol as bv32)
  }

  function InfoPriority(info: bv32): bv32 {
    info >> 16
  }

  function InfoProtocol(info: bv32): bv16 {
    (info & 0xFFFF) as bv16
  }

  /** Both halves of `Info` read back unchanged when the priority fits in 16 bits. */
  lemma PackInfoRoundTrip(prio: bv32, protocol: bv16)
    requires prio < 0x1_0000
    ensures InfoPriority(PackInfo(prio, protocol)) == prio
    ensures InfoProtocol(PackInfo(prio, protocol)) == protocol
  {
  }

  /** Go's `uint32(fd)` on an `int`: the value modulo 2^32. */
  function Uint32(n: int): u32 {
    n % 0x1_0000_0000
  }

  /** `newTcBpfObj(ifindex, prog)`, with the program's descriptor number `progFd`. */
  function NewTcBpfObj(ifindex: bv32, progFd: int, k: TcConsts): (o: TcObject)
    ensures o.msg.info == PackInfo(Priority, Htons(EthPAll))
    ensures o.msg.ifindex == ifindex
    ensures o.msg.handle == FilterHandle
    ensures o.msg.parent == k.ingressParent
    ensures o.msg.family == AfUnspec
    ensures o.kind == "bpf" && o.bpf.name == "fake"
    ensures o.bpf.fd == progFd % 0x1_0000_0000
    ensures o.bpf.flags == k.actDirect
  {
    TcObject(
      TcMsg(AfUnspec, ifindex, FilterHandle, k.ingressParent, PackInfo(Priority, Htons(EthPAll))),
      "bpf",
      BpfAttr(Uint32(progFd), "fake", k.actDirect))
  }

  /** The priority and protocol read back out of the descriptor's `Info`:
      100 in the upper half, ETH_P_ALL in network order in the lower. */
  lemma NewTcBpfObjInfo(ifindex: bv32, progFd: int, k: TcConsts)
    ensures InfoPriority(NewTcBpfObj(ifindex, progFd, k).msg.info) == Priority
    ensures InfoProtocol(NewTcBpfObj(ifindex, progFd, k).msg.info) == 0x0300
  {
    HtonsEthPAll();
    PackInfoRoundTrip(Priority, Htons(EthPAll));
  }

  /** The only part of the program that reaches the request is its
      descriptor truncated to 32 bits: descriptors that agree modulo 2^32
      give the same request. */
  lemma NewTcBpfObjDeterministic(ifindex: bv32, fd1: int, fd2: int, k: TcConsts)
    requires fd1 % 0x1_0000_0000 == fd2 % 0x1_0000_0000
    ensures NewTcBpfObj(ifindex, fd1, k) == NewTcBpfObj(ifindex, fd2, k)
  {
  }
}
