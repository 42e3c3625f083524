/** The records that travel from the kernel side to userspace, and the fixed-width
    casts the two sides apply to them. */
module Records {
  const U16 := 0x1_0000
  const U32 := 0x1_0000_0000
  const U64 := 0x1_0000_0000_0000_0000

  const AF_INET6 := 10
  const TCP_CLOSE := 7
  const FILE_PATH_MAX := 64

  newtype Byte = b: int | 0 <= b < 256

  type I64 = x: int | -0x8000_0000_0000_0000 <= x < 0x8000_0000_0000_0000
  type I32 = x: int | -0x8000_0000 <= x < 0x8000_0000

  /** What the user-string helper may hand back: any length up to the buffer. */
  type UserStr = s: seq<Byte> | |s| <= FILE_PATH_MAX

  datatype SyscallKind = Enter | Exit
  datatype SyscallEvent = SyscallEvent(pid: nat, kind: SyscallKind, nr: nat, ts: nat)

  datatype NetKind = StateChange | Retransmit
  datatype NetEvent = NetEvent(
    kind: NetKind, family: nat, state: nat, sport: nat, dport: nat,
    saddr: seq<Byte>, daddr: seq<Byte>, ts: nat)

  datatype FileKind = Open | Close | Read | Write
  datatype FileEvent = FileEvent(
    pid: nat, kind: FileKind, fd: int, bytes: int, pathLen: nat, path: seq<Byte>, ts: nat)

  datatype MemKind = Alloc | Free
  datatype MemEvent = MemEvent(pid: nat, kind: MemKind, bytes: nat, ts: nat)

  /** `as u64` on a signed 64-bit value. */
  function AsU64(x: int): nat {
    x % U64
  }

  /** `as u16` on a signed 32-bit value. */
  function AsU16(x: int): nat {
    x % U16
  }

  /** `as i32` on a signed 64-bit value: keep the low 32 bits, read as two's complement. */
  function AsI32(x: int): (r: int)
    ensures -0x8000_0000 <= r < 0x8000_0000
    ensures (x - r) % U32 == 0
    ensures -0x8000_0000 <= x < 0x8000_0000 ==> r == x
  {
    var low := x % U32;
    if low < 0x8000_0000 then low else low - U32
  }

  /** A fixed-size zeroed buffer whose first bytes are `s`. */
  function Padded(s: seq<Byte>, size: nat): (buf: seq<Byte>)
    requires |s| <= size
    ensures |buf| == size && buf[..|s|] == s
  {
    s + seq(size - |s|, _ => 0)
  }
}
