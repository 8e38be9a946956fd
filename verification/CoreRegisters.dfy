/** The register map: which addresses exist, how large they are, and the values behind them. */
module CoreRegisters {
  import opened Basics
  import opened HarpMessage

  const CORE_REG_COUNT: byte := 20
  const CORE_EXTENSION_START: byte := 32
  const CORE_EXTENSION_COUNT: byte := 5

  const WHO_AM_I: byte := 0
  const TIMESTAMP_SECOND: byte := 8
  const TIMESTAMP_MICRO: byte := 9
  const OPERATION_CTRL: byte := 10
  const RESET_DEV: byte := 11
  const DEVICE_NAME: byte := 12
  const SERIAL_NUMBER: byte := 13
  const CLOCK_CONFIG: byte := 14
  const TIMESTAMP_OFFSET: byte := 15
  const UID: byte := 16
  const TAG: byte := 17
  const HEARTBEAT: byte := 18
  const VERSION: byte := 19
  const NET_SSID: byte := 32
  const NET_PASSWORD: byte := 33
  const NET_SERVER_IP: byte := 34
  const NET_SERVER_PORT: byte := 35
  const NET_CONFIG: byte := 36

  const SSID_LENGTH := 32
  const PASSWORD_LENGTH := 64
  const SERVER_IP_LENGTH := 16

  predicate IsExtension(address: byte) {
    CORE_EXTENSION_START <= address < CORE_EXTENSION_START + CORE_EXTENSION_COUNT
  }

  predicate Mapped(address: byte) { address < CORE_REG_COUNT || IsExtension(address) }

  /** Without an app, an unmapped address has the specification of the first register. */
  function SpecAddress(address: byte): (a: byte)
    ensures Mapped(a)
  {
    if Mapped(address) then address else WHO_AM_I
  }

  function NumBytes(address: byte): (n: byte)
    requires Mapped(address)
    ensures 1 <= n <= PASSWORD_LENGTH
  {
    match address
    case WHO_AM_I => 2
    case TIMESTAMP_SECOND => 4
    case TIMESTAMP_MICRO => 2
    case DEVICE_NAME => 25
    case SERIAL_NUMBER => 2
    case UID => 16
    case TAG => 8
    case HEARTBEAT => 2
    case VERSION => 32
    case NET_SSID => SSID_LENGTH
    case NET_PASSWORD => PASSWORD_LENGTH
    case NET_SERVER_IP => SERVER_IP_LENGTH
    case NET_SERVER_PORT => 2
    case _ => 1
  }

  function RegType(address: byte): (t: byte)
    requires Mapped(address)
    ensures t == U8 || t == U16 || t == U32
    ensures !HasBit(t, HAS_TIMESTAMP)
  {
    match address
    case WHO_AM_I => U16
    case TIMESTAMP_SECOND => U32
    case TIMESTAMP_MICRO => U16
    case SERIAL_NUMBER => U16
    case HEARTBEAT => U16
    case NET_SERVER_PORT => U16
    case _ => U8
  }

  /** The registers the constructor fixes for good. */
  predicate Fixed(address: byte) {
    || address < TIMESTAMP_SECOND || address == RESET_DEV || address == SERIAL_NUMBER
    || address == UID || address == TAG || address == VERSION
  }

  /** memcpy of a whole register. */
  method CopyInto(a: array<byte>, bytes: seq<byte>)
    requires |bytes| == a.Length
    modifies a
    ensures a[..] == bytes
  {
    for i := 0 to a.Length
      invariant a[..i] == bytes[..i]
    {
      a[i] := bytes[i];
      assert a[..i + 1] == a[..i] + [bytes[i]];
    }
  }

  class RegValues {
    const fixed: map<byte, seq<byte>>
    var timestampSecond: uint32
    var timestampMicro: uint16
    var opCtrl: bv8
    const deviceName: array<byte>
    var clockConfig: bv8
    var timestampOffset: byte
    var heartbeat: uint16
    const netSsid: array<byte>
    const netPassword: array<byte>
    const netServerIp: array<byte>
    const netServerPort: array<byte>
    var netConfig: bv8

    ghost predicate Valid() {
      && (forall a: byte :: Fixed(a) ==> a in fixed && |fixed[a]| == NumBytes(a))
      && deviceName.Length == 25
      && netSsid.Length == SSID_LENGTH && netPassword.Length == PASSWORD_LENGTH
      && netServerIp.Length == SERVER_IP_LENGTH && netServerPort.Length == 2
    }

    /** Power-on values; the name is padded with NUL. */
    constructor (fixed: map<byte, seq<byte>>, name: seq<byte>)
      requires forall a: byte :: Fixed(a) ==> a in fixed && |fixed[a]| == NumBytes(a)
      requires |name| < 25
      ensures Valid() && fresh(Arrays()) && this.fixed == fixed && AtPowerOn(name)
    {
      this.fixed := fixed;
      timestampSecond, timestampMicro, opCtrl, clockConfig := 0, 0, 0xE4, 0x40;
      timestampOffset, heartbeat, netConfig := 0, 0, 0;
      deviceName := new byte[25](i => if 0 <= i < |name| then name[i] else 0);
      netSsid := new byte[SSID_LENGTH](_ => 0);
      netPassword := new byte[PASSWORD_LENGTH](_ => 0);
      netServerIp := new byte[SERVER_IP_LENGTH](_ => 0);
      netServerPort := new byte[2](i => if i == 0 then 9999 % 256 else 9999 / 256);
    }

    ghost predicate AtPowerOn(name: seq<byte>)
      reads this, deviceName, netSsid, netPassword, netServerIp, netServerPort
      requires Valid() && |name| < 25
    {
      && timestampSecond == 0 && timestampMicro == 0 && opCtrl == 0xE4 && clockConfig == 0x40
      && timestampOffset == 0 && heartbeat == 0 && netConfig == 0
      && (forall i :: 0 <= i < 25 ==> deviceName[i] == if i < |name| then name[i] else 0)
      && (forall i :: 0 <= i < SSID_LENGTH ==> netSsid[i] == 0)
      && (forall i :: 0 <= i < PASSWORD_LENGTH ==> netPassword[i] == 0)
      && (forall i :: 0 <= i < SERVER_IP_LENGTH ==> netServerIp[i] == 0)
      && netServerPort[..] == Le16(9999)
    }

    ghost function Arrays(): set<object> { {deviceName, netSsid, netPassword, netServerIp, netServerPort} }

    /** The memory image of a register. */
    function Image(address: byte): (bytes: seq<byte>)
      reads this, deviceName, netSsid, netPassword, netServerIp, netServerPort
      requires Valid() && Mapped(address)
      ensures |bytes| == NumBytes(address)
    {
      if Fixed(address) then fixed[address]
      else
        match address
        case TIMESTAMP_SECOND => Le32(timestampSecond)
        case TIMESTAMP_MICRO => Le16(timestampMicro)
        case OPERATION_CTRL => [opCtrl as byte]
        case DEVICE_NAME => deviceName[..]
        case CLOCK_CONFIG => [clockConfig as byte]
        case TIMESTAMP_OFFSET => [timestampOffset]
        case HEARTBEAT => Le16(heartbeat)
        case NET_SSID => netSsid[..]
        case NET_PASSWORD => netPassword[..]
        case NET_SERVER_IP => netServerIp[..]
        case NET_SERVER_PORT => netServerPort[..]
        case _ => [netConfig as byte]
    }
  }
}
