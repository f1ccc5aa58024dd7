/** The flow record that the collector fills in, the filter reads and the log stores
    (struct store_flow_complete of flowd/store.h). Multi-byte fields are the numbers that
    their network-order bytes hold. */
module FlowRecord {
  import opened Addr
  import AddrMatch
  import opened Bytes

  /** The bit numbers of the STORE_FIELD flags; a field word is the set of its bits. */
  const TAG := 0
  const RECV_TIME := 1
  const PROTO_FLAGS_TOS := 2
  const AGENT_ADDR4 := 3
  const AGENT_ADDR6 := 4
  const SRC_ADDR4 := 5
  const SRC_ADDR6 := 6
  const DST_ADDR4 := 7
  const DST_ADDR6 := 8
  const GATEWAY_ADDR4 := 9
  const GATEWAY_ADDR6 := 10
  const SRCDST_PORT := 11
  const PACKETS := 12
  const OCTETS := 13
  const IF_INDICES := 14
  const AGENT_INFO := 15
  const FLOW_TIMES := 16
  const AS_INFO := 17
  const FLOW_ENGINE_INFO := 18
  const CRC32 := 30

  type Fields = s: set<nat> | forall b <- s :: b < 32

  const ZERO16: seq<u8> := [0, 0, 0, 0, 0, 0, 0, 0, 0, 0, 0, 0, 0, 0, 0, 0]

  /** struct xaddr as memory: the family, the sixteen bytes that v4 and v6 addresses
      share, and the scope. */
  datatype RawAddr = RawAddr(af: AddrMatch.Family, bytes: seq<u8>, scope: u32)
  type Raw = r: RawAddr | |r.bytes| == 16 witness RawAddr(AddrMatch.OtherFamily, ZERO16, 0)

  const NO_ADDR: Raw := RawAddr(AddrMatch.OtherFamily, ZERO16, 0)

  /** memcpy over the first bytes of the union, and the family. */
  function SetAddr(r: Raw, af: AddrMatch.Family, data: seq<u8>): Raw
    requires |data| <= 16
  {
    RawAddr(af, data + r.bytes[|data|..], r.scope)
  }

  function ToXAddr(r: Raw): XAddr {
    match r.af
    case Inet => V4(Get32(r.bytes, 0))
    case Inet6 => V6(Get32(r.bytes, 0), Get32(r.bytes, 4), Get32(r.bytes, 8), Get32(r.bytes, 12), r.scope)
    case OtherFamily => NoAddr
  }

  function OfXAddr(a: XAddr): Raw {
    match a
    case NoAddr => NO_ADDR
    case V4(v) => RawAddr(AddrMatch.Inet, Put32(v) + ZERO16[4..], 0)
    case V6(w0, w1, w2, w3, scope) => RawAddr(AddrMatch.Inet6, Put32(w0) + Put32(w1) + Put32(w2) + Put32(w3), scope)
  }

  datatype StoreFlow = StoreFlow(
    fields: Fields,
    tag: u32,
    recvSec: u32, recvUsec: u32,
    tcpFlags: u8, protocol: u8, tos: u8, pftPad: u8,
    agent: Raw, src: Raw, dst: Raw, gateway: Raw,
    srcPort: u16, dstPort: u16,
    packets: u64, octets: u64,
    ifIn: u32, ifOut: u32,
    sysUptimeMs: u32, timeSec: u32, timeNanosec: u32, netflowVersion: u16, agentPad: u16,
    flowStart: u32, flowFinish: u32,
    srcAs: u32, dstAs: u32, srcMask: u8, dstMask: u8, asPad: u16,
    engineType: u16, engineId: u16, flowSequence: u32, sourceId: u32,
    crc: u32)

  /** A record after bzero. */
  const BLANK := StoreFlow({}, 0, 0, 0, 0, 0, 0, 0, NO_ADDR, NO_ADDR, NO_ADDR, NO_ADDR, 0, 0, 0, 0, 0, 0,
                           0, 0, 0, 0, 0, 0, 0, 0, 0, 0, 0, 0, 0, 0, 0, 0, 0)
}
