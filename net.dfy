/** Socket addresses, transport protocols and the fixed-width integers that the
    server's C structures use.  The address helpers model the libre `sa_*`
    functions the server relies on (`sa_cmp`, `sa_isset`, `sa_is_any`,
    `sa_port`, `sa_af`): their code is not part of this model, only the
    behaviour the server depends on. */
module Net {

  type byte = x: int | 0 <= x < 0x100
  type u16 = x: int | 0 <= x < 0x1_0000
  type u32 = x: int | 0 <= x < 0x1_0000_0000
  type u64 = x: int | 0 <= x < 0x1_0000_0000_0000_0000

  /** A `time_t` as returned by `time(NULL)`: a non-negative count of seconds
      that fits a signed 64-bit integer. */
  type Time = t: int | 0 <= t < 0x8000_0000_0000_0000

  datatype Option<T> = None | Some(value: T)

  /** Error numbers returned by the functions of the core. */
  datatype Errno = EINVAL | ENOENT | ENOMEM | EBADMSG | EADDRINUSE | EIO

  datatype Result<T> = Ok(value: T) | Err(error: Errno)

  /** `IPPROTO_UDP` or `IPPROTO_TCP` (TLS connections report TCP). */
  datatype Proto = Udp | Tcp

  /** `AF_UNSPEC`, `AF_INET` or `AF_INET6`. */
  datatype Family = Unspec | Inet | Inet6

  /** `struct sa`: family, IP address (as a number) and port. */
  datatype Addr = Addr(af: Family, ip: nat, port: u16)

  /** `sa_init(&sa, AF_UNSPEC)`. */
  const Unset: Addr := Addr(Unspec, 0, 0)

  /** Which parts `sa_cmp` compares and `sa_isset` inspects. */
  datatype SaFlag = SaAddr | SaPort | SaAll

  /** `sa_cmp(l, r, flag)`: both of a known family, the same family, and equal
      in the parts the flag names. */
  predicate SaCmp(l: Addr, r: Addr, flag: SaFlag)
  {
    l.af != Unspec && l.af == r.af
    && (flag != SaPort ==> l.ip == r.ip)
    && (flag != SaAddr ==> l.port == r.port)
  }

  /** `sa_isset(sa, flag)`: a known family and non-zero in the parts named. */
  predicate IsSet(a: Addr, flag: SaFlag)
  {
    a.af != Unspec
    && (flag != SaPort ==> a.ip != 0)
    && (flag != SaAddr ==> a.port != 0)
  }

  /** `sa_is_any(sa)`: the wildcard address of a known family. */
  predicate IsAny(a: Addr)
  {
    a.af != Unspec && a.ip == 0
  }

  /** `sa_port(sa)`: zero for an address of unknown family. */
  function Port(a: Addr): (p: u16)
    ensures a.af == Unspec ==> p == 0
    ensures a.af != Unspec ==> p == a.port
  {
    if a.af == Unspec then 0 else a.port
  }

  /** `sa_set_port`. */
  function WithPort(a: Addr, p: u16): (r: Addr)
    ensures r.af == a.af && r.ip == a.ip && r.port == p
  {
    a.(port := p)
  }

  /** The part of an address that `sa_hash(sa, SA_ADDR)` reads. */
  datatype IpKey = IpKey(af: Family, ip: nat)

  function IpKeyOf(a: Addr): IpKey
  {
    IpKey(a.af, a.ip)
  }

  /** The address-hash function of libre is not part of this model: every
      component that hashes receives it as a parameter of this type. */
  type AddrHash = Addr -> u32
  type IpHash = IpKey -> u32

  /** 2^x, the bucket counts chosen by the hash-table sizing loops. */
  function Pow2(x: nat): (r: nat)
    ensures r >= 1
  {
    if x == 0 then 1 else 2 * Pow2(x - 1)
  }

  /** Two's-complement reading of a value taken modulo 2^64, as C does when
      an unsigned 64-bit result is stored in an `int64_t`. */
  function Signed64(x: int): (r: int)
    ensures -0x8000_0000_0000_0000 <= r < 0x8000_0000_0000_0000
    ensures (r - x) % 0x1_0000_0000_0000_0000 == 0
  {
    var m := x % 0x1_0000_0000_0000_0000;
    if m < 0x8000_0000_0000_0000 then m else m - 0x1_0000_0000_0000_0000
  }

  /** `uint32_t` increment with wrap-around. */
  function Inc32(x: u32): (r: u32)
    ensures x < 0xFFFF_FFFF ==> r == x + 1
    ensures x == 0xFFFF_FFFF ==> r == 0
  {
    if x == 0xFFFF_FFFF then 0 else x + 1
  }

  /** `uint64_t` addition with wrap-around. */
  function Add64(x: u64, y: u64): (r: u64)
    ensures x + y < 0x1_0000_0000_0000_0000 ==> r == x + y
    ensures x + y >= 0x1_0000_0000_0000_0000 ==> r == x + y - 0x1_0000_0000_0000_0000 && r < x
  {
    (x + y) % 0x1_0000_0000_0000_0000
  }

  /** An MD5 digest: `MD5_SIZE`, 16 bytes. */
  type Digest = d: seq<byte> | |d| == 16 witness [0, 0, 0, 0, 0, 0, 0, 0, 0, 0, 0, 0, 0, 0, 0, 0]

  /** Big-endian 16-bit value at `s[i..i+2]` (`ntohs(mbuf_read_u16(mb))`). */
  function ReadU16(s: seq<byte>, i: nat): u16
    requires i + 2 <= |s|
  {
    (s[i] as int) * 0x100 + (s[i + 1] as int)
  }

  /** Big-endian encoding of a 16-bit value (`mbuf_write_u16(mb, htons(v))`). */
  function WriteU16(v: u16): seq<byte>
  {
    [v / 0x100, v % 0x100]
  }

  /** Writing then reading a 16-bit field gives the value back, and reading
      splits a field into its high and low byte. */
  lemma U16RoundTrip(v: u16, s: seq<byte>, i: nat)
    requires i + 2 <= |s|
    ensures |WriteU16(v)| == 2 && ReadU16(WriteU16(v), 0) == v
    ensures ReadU16(s, i) / 0x100 == s[i] && ReadU16(s, i) % 0x100 == s[i + 1]
    ensures WriteU16(ReadU16(s, i)) == s[i..i + 2]
  {
  }
}
