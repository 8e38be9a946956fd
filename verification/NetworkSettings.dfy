/** The network registers and the one stored profile, as one value changed by host writes and reboots. */
module NetworkSettings {
  import opened Basics
  import opened CoreRegisters

  const ENABLE_WIFI: bv8 := 0x01
  const ENABLE_TCP: bv8 := 0x02
  const ENABLE: bv8 := ENABLE_WIFI | ENABLE_TCP
  const STATUS_CFG_VALID: bv8 := 0x04
  const STATUS_WIFI_UP: bv8 := 0x08
  const STATUS_IP_OK: bv8 := 0x10
  const STATUS_TCP_CONN: bv8 := 0x20
  const STATUS: bv8 := STATUS_CFG_VALID | STATUS_WIFI_UP | STATUS_IP_OK | STATUS_TCP_CONN
  const APPLY: bv8 := 0x40
  const CLEAR: bv8 := 0x80

  const DEFAULT_PORT: uint16 := 9999

  datatype Cfg = Cfg(ssid: seq<byte>, password: seq<byte>, serverIp: seq<byte>, port: uint16, enable: bv8)

  datatype Settings = Settings(
    ssid: seq<byte>,
    password: seq<byte>,
    serverIp: seq<byte>,
    port: seq<byte>,
    enable: bv8,
    stored: Option<Cfg>)

  function Zeros(n: nat): (z: seq<byte>)
    ensures |z| == n && forall i :: 0 <= i < n ==> z[i] == 0
  {
    seq(n, i => 0)
  }

  function Terminate(s: seq<byte>): seq<byte> { if s == [] then [] else s[..|s| - 1] + [0] }

  predicate Terminated(s: seq<byte>, length: nat) { |s| == length && (length > 0 ==> s[length - 1] == 0) }

  function EnsureTerminated(c: Cfg): Cfg {
    c.(ssid := Terminate(c.ssid), password := Terminate(c.password), serverIp := Terminate(c.serverIp))
  }

  function Snapshot(s: Settings): Cfg
    requires |s.port| == 2
  {
    EnsureTerminated(Cfg(s.ssid, s.password, s.serverIp, FromLe16(s.port), s.enable & ENABLE))
  }

  /**
   * apply(): without ENABLE_WIFI nothing; otherwise the profile is stored, if flash takes it, and
   * the password consumed.
   */
  function Applied(s: Settings, saved: bool): Settings
    requires |s.port| == 2
  {
    if !Has(s.enable, ENABLE_WIFI) then s
    else s.(password := Zeros(PASSWORD_LENGTH), stored := if saved then Some(Snapshot(s)) else s.stored)
  }

  function Restored(s: Settings, c: Cfg): Settings {
    s.(ssid := c.ssid, password := c.password, serverIp := c.serverIp, port := Le16(c.port),
       enable := c.enable & ENABLE)
  }

  function Defaults(stored: Option<Cfg>): Settings {
    Settings(Zeros(SSID_LENGTH), Zeros(PASSWORD_LENGTH), Zeros(SERVER_IP_LENGTH), Le16(DEFAULT_PORT), 0, stored)
  }

  /** A boot: default registers, then the stored profile if it can be read, applied if it enables Wi-Fi. */
  function Booted(stored: Option<Cfg>, loaded: bool, saved: bool): Settings {
    if stored.None? || !loaded then Defaults(stored)
    else
      var c := EnsureTerminated(stored.value);
      var s := Restored(Defaults(stored), c);
      if Has(c.enable, ENABLE_WIFI) then Applied(s, saved) else s
  }

  /** disconnect(): the stored profile is erased, if flash allows it. */
  function Disconnected(s: Settings, erased: bool): Settings { s.(stored := if erased then None else s.stored) }

  /** A write of NET_CONFIG: APPLY first, then CLEAR. */
  function Configured(s: Settings, value: bv8, saved: bool, erased: bool): Settings
    requires |s.port| == 2
  {
    var s1 := s.(enable := value & ENABLE);
    var s2 := if Has(value, APPLY) then Applied(s1, saved) else s1;
    if Has(value, CLEAR) then Disconnected(s2, erased).(enable := 0) else s2
  }

  datatype Change =
    | SetSsid(bytes: seq<byte>)
    | SetPassword(bytes: seq<byte>)
    | SetServerIp(bytes: seq<byte>)
    | SetPort(bytes: seq<byte>)
    | SetConfig(value: bv8, saved: bool, erased: bool)
    | Reboot(loaded: bool, saved: bool)

  /** Writes that pass the length check. */
  predicate Legal(c: Change) {
    match c
    case SetSsid(b) => |b| == SSID_LENGTH
    case SetPassword(b) => |b| == PASSWORD_LENGTH
    case SetServerIp(b) => |b| == SERVER_IP_LENGTH
    case SetPort(b) => |b| == 2
    case _ => true
  }

  function Change1(s: Settings, c: Change): Settings
    requires |s.port| == 2 && Legal(c)
  {
    match c
    case SetSsid(b) => s.(ssid := Terminate(b))
    case SetPassword(b) => s.(password := Terminate(b))
    case SetServerIp(b) => s.(serverIp := Terminate(b))
    case SetPort(b) => s.(port := b)
    case SetConfig(value, saved, erased) => Configured(s, value, saved, erased)
    case Reboot(loaded, saved) => Booted(s.stored, loaded, saved)
  }

  predicate AllLegal(cs: seq<Change>) { forall c <- cs :: Legal(c) }

  /** Every flash operation of the change succeeds. */
  predicate Faultless(c: Change) {
    match c
    case SetConfig(_, saved, erased) => saved && erased
    case Reboot(loaded, saved) => loaded && saved
    case _ => true
  }

  predicate AllFaultless(cs: seq<Change>) { forall c <- cs :: Faultless(c) }

  predicate GoodCfg(c: Cfg) {
    && Terminated(c.ssid, SSID_LENGTH) && Terminated(c.password, PASSWORD_LENGTH)
    && Terminated(c.serverIp, SERVER_IP_LENGTH)
    && Has(c.enable, ENABLE_WIFI) && c.enable & ENABLE == c.enable
  }

  /** String registers and stored strings end in NUL, and a stored profile enables Wi-Fi. */
  predicate Good(s: Settings) {
    && Terminated(s.ssid, SSID_LENGTH) && Terminated(s.password, PASSWORD_LENGTH)
    && Terminated(s.serverIp, SERVER_IP_LENGTH) && |s.port| == 2
    && s.enable & ENABLE == s.enable
    && (s.stored.Some? ==> GoodCfg(s.stored.value))
  }

  lemma AppliedIsGood(s: Settings, saved: bool)
    requires Good(s)
    ensures Good(Applied(s, saved))
  {
    if Has(s.enable, ENABLE_WIFI) {
      assert GoodCfg(Snapshot(s));
    }
  }

  /** The registers of a device without a profile: empty strings, port 9999, nothing enabled. */
  lemma DefaultRegisters(stored: Option<Cfg>)
    ensures var s := Defaults(stored);
            && Terminated(s.ssid, 32) && Terminated(s.password, 64) && Terminated(s.serverIp, 16)
            && (forall b <- s.ssid + s.password + s.serverIp :: b == 0)
            && s.port == [0x0F, 0x27] && s.enable == 0 && s.stored == stored
  {
  }

  lemma EnableBits(value: bv8)
    ensures value & ENABLE & ENABLE == value & ENABLE
    ensures Has(value & ENABLE, ENABLE_WIFI) <==> Has(value, ENABLE_WIFI)
  {
  }

  lemma StatusIsSeparate(b: bv8)
    ensures b & ENABLE == b ==> b & !ENABLE == 0
  {
  }

  /** A boot leaves the stored profile as it was, and the registers hold it but for the password. */
  lemma BootRestoresProfile(c: Cfg, saved: bool)
    requires GoodCfg(c)
    ensures var s := Booted(Some(c), true, saved);
            && s.stored == Some(c)
            && s.ssid == c.ssid && s.serverIp == c.serverIp && s.port == Le16(c.port) && s.enable == c.enable
            && s.password == Zeros(PASSWORD_LENGTH)
            && Good(s)
  {
    assert EnsureTerminated(c) == c;
    EnableBits(c.enable);
    Le16RoundTrip(c.port);
    var s := Restored(Defaults(Some(c)), c);
    assert Snapshot(s) == c;
  }

  lemma ConfiguredIsGood(s: Settings, value: bv8, saved: bool, erased: bool)
    requires Good(s)
    ensures Good(Configured(s, value, saved, erased))
  {
    EnableBits(value);
    AppliedIsGood(s.(enable := value & ENABLE), saved);
  }

  lemma BootedIsGood(stored: Option<Cfg>, loaded: bool, saved: bool)
    requires stored.Some? ==> GoodCfg(stored.value)
    ensures Good(Booted(stored, loaded, saved))
  {
    if stored.Some? && loaded {
      BootRestoresProfile(stored.value, saved);
    }
  }

  lemma ChangeKeepsGood(s: Settings, c: Change)
    requires Good(s) && Legal(c)
    ensures Good(Change1(s, c))
  {
    if c.SetConfig? {
      ConfiguredIsGood(s, c.value, c.saved, c.erased);
    } else if c.Reboot? {
      BootedIsGood(s.stored, c.loaded, c.saved);
    }
  }

  /** A history of writes and reboots; in every state it reaches the string registers end in NUL. */
  function Changed(s: Settings, cs: seq<Change>): (r: Settings)
    requires Good(s) && AllLegal(cs)
    ensures Good(r)
    decreases |cs|
  {
    if cs == [] then s
    else
      var before := Changed(s, cs[..|cs| - 1]);
      ChangeKeepsGood(before, cs[|cs| - 1]);
      Change1(before, cs[|cs| - 1])
  }

  /** The profile of the last APPLY with ENABLE_WIFI, unless a CLEAR came with it or after it. */
  function LastProfile(s: Settings, cs: seq<Change>): Option<Cfg>
    requires Good(s) && AllLegal(cs)
    decreases |cs|
  {
    if cs == [] then s.stored
    else
      var front, c := cs[..|cs| - 1], cs[|cs| - 1];
      if c.SetConfig? && Has(c.value, CLEAR) then None
      else if c.SetConfig? && Has(c.value, APPLY) && Has(c.value, ENABLE_WIFI) then
        Some(Snapshot(Changed(s, front).(enable := c.value & ENABLE)))
      else LastProfile(s, front)
  }

  lemma StoredStep(s: Settings, c: Change)
    requires Good(s) && Legal(c) && Faultless(c)
    ensures Change1(s, c).stored ==
              if c.SetConfig? && Has(c.value, CLEAR) then None
              else if c.SetConfig? && Has(c.value, APPLY) && Has(c.value, ENABLE_WIFI)
              then Some(Snapshot(s.(enable := c.value & ENABLE)))
              else s.stored
  {
    if c.SetConfig? {
      EnableBits(c.value);
    } else if c.Reboot? && s.stored.Some? {
      BootRestoresProfile(s.stored.value, c.saved);
    }
  }

  /**
   * Over any history of writes and reboots in which flash does not fail, the stored profile is the
   * last one applied and not cleared.
   */
  lemma {:induction false} StoredIsLastProfile(s: Settings, cs: seq<Change>)
    requires Good(s) && AllLegal(cs) && AllFaultless(cs)
    ensures Changed(s, cs).stored == LastProfile(s, cs)
    decreases |cs|
  {
    if cs != [] {
      var front, c := cs[..|cs| - 1], cs[|cs| - 1];
      assert c in cs;
      StoredIsLastProfile(s, front);
      StoredStep(Changed(s, front), c);
    }
  }

  /** After a reboot the registers show that profile, with the password blank; without one they are the defaults. */
  lemma RebootShowsLastProfile(s: Settings, cs: seq<Change>)
    requires Good(s) && AllLegal(cs) && AllFaultless(cs)
    ensures var profile := LastProfile(s, cs);
            var after := Changed(s, cs + [Reboot(true, true)]);
            && after.stored == profile
            && after.password == Zeros(PASSWORD_LENGTH)
            && (profile.None? ==> after == Defaults(None))
            && (profile.Some? ==>
                  && after.ssid == profile.value.ssid && after.serverIp == profile.value.serverIp
                  && after.port == Le16(profile.value.port) && after.enable == profile.value.enable)
  {
    StoredIsLastProfile(s, cs);
    var all := cs + [Reboot(true, true)];
    assert all[..|all| - 1] == cs;
    var before := Changed(s, cs);
    if before.stored.Some? {
      BootRestoresProfile(before.stored.value, true);
    }
  }

  /**
   * disconnect() forgets what apply() stored: a reboot after both brings the profile back if and only
   * if the erase has failed.
   */
  lemma DisconnectForgetsIff(s: Settings, erased: bool)
    requires Good(s) && Has(s.enable, ENABLE_WIFI)
    ensures var left := Disconnected(Applied(s, true), erased);
            && (left.stored == None <==> erased)
            && (erased ==> Booted(left.stored, true, true) == Defaults(None))
            && (!erased ==> Booted(left.stored, true, true).ssid == s.ssid
                            && Booted(left.stored, true, true).enable == s.enable)
  {
    var profile := Snapshot(s);
    assert GoodCfg(profile) && profile.ssid == s.ssid;
    BootRestoresProfile(profile, true);
  }
}
