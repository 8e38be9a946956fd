/** The network manager's profile: registers, the working copy and the one slot in flash. */
module NetworkManager {
  import opened Basics
  import opened CoreRegisters
  import opened NetworkSettings

  const PERSIST_VERSION: uint32 := 1

  /** The flash entry; one of another size or layout cannot be read. */
  datatype Slot = Empty | Unreadable | Blob(version: uint32, cfg: Cfg)

  predicate Sized(c: Cfg) {
    |c.ssid| == SSID_LENGTH && |c.password| == PASSWORD_LENGTH && |c.serverIp| == SERVER_IP_LENGTH
  }

  function StoredIn(slot: Slot): Option<Cfg> {
    if slot.Blob? && slot.version == PERSIST_VERSION then Some(slot.cfg) else None
  }

  /** Only an entry of version 1 is a profile. */
  lemma OnlyVersionOne(slot: Slot)
    ensures StoredIn(slot).Some? <==> slot.Blob? && slot.version == 1
    ensures StoredIn(slot).Some? ==> slot == Blob(1, StoredIn(slot).value)
  {
  }

  predicate SlotOk(slot: Slot) { StoredIn(slot).Some? ==> Sized(StoredIn(slot).value) }

  class Manager {
    const regs: RegValues
    var cfg: Cfg
    var slot: Slot

    constructor (regs: RegValues, slot: Slot)
      requires regs.Valid() && SlotOk(slot)
      ensures Valid() && this.regs == regs && this.slot == slot
    {
      this.regs, this.slot := regs, slot;
      cfg := Cfg(Zeros(SSID_LENGTH), Zeros(PASSWORD_LENGTH), Zeros(SERVER_IP_LENGTH), 0, 0);
    }

    ghost predicate Valid()
      reads `slot
    {
      regs.Valid() && SlotOk(slot)
    }

    ghost function View(): Settings
      reads `slot, regs`netConfig, regs.netSsid, regs.netPassword, regs.netServerIp, regs.netServerPort
    {
      Settings(regs.netSsid[..], regs.netPassword[..], regs.netServerIp[..], regs.netServerPort[..],
               regs.netConfig & ENABLE, StoredIn(slot))
    }

    /** Opening, writing or committing may fail; what counts is whether the entry was replaced. */
    method SaveCfg() returns (saved: bool)
      modifies `slot
      ensures slot == if saved then Blob(PERSIST_VERSION, cfg) else old(slot)
    {
      saved := *;
      if saved {
        slot := Blob(PERSIST_VERSION, cfg);
      }
    }

    method LoadCfg() returns (out: Option<Cfg>, loaded: bool)
      ensures out == if StoredIn(slot).Some? && loaded then Some(EnsureTerminated(StoredIn(slot).value)) else None
    {
      loaded, out := *, None;
      if loaded && slot.Blob? && slot.version == PERSIST_VERSION {
        out := Some(EnsureTerminated(slot.cfg));
      }
    }

    method EraseCfg() returns (erased: bool)
      modifies `slot
      ensures slot == if erased then Empty else old(slot)
    {
      erased := *;
      if erased {
        slot := Empty;
      }
    }

    method ApplyCfgToRegs(c: Cfg)
      requires Valid() && Sized(c)
      modifies regs`netConfig, regs.netSsid, regs.netPassword, regs.netServerIp, regs.netServerPort
      ensures Valid() && View() == Restored(old(View()), c)
      ensures regs.netConfig == c.enable & ENABLE
    {
      CopyInto(regs.netSsid, c.ssid);
      CopyInto(regs.netPassword, c.password);
      CopyInto(regs.netServerIp, c.serverIp);
      regs.netServerPort[0], regs.netServerPort[1] := c.port % 256, c.port / 256;
      regs.netConfig := c.enable & ENABLE;
      EnableBits(c.enable);
      assert regs.netServerPort[..] == Le16(c.port);
    }

    /** The configuration part of apply(): snapshot, consume the password, save. */
    method Apply() returns (saved: bool)
      requires Valid()
      modifies `cfg, `slot, regs.netPassword
      ensures Valid() && View() == Applied(old(View()), saved)
      ensures cfg == if Has(old(View()).enable, ENABLE_WIFI) then Snapshot(old(View())) else old(cfg)
    {
      EnableBits(regs.netConfig);
      saved := false;
      if !Has(regs.netConfig, ENABLE_WIFI) {
        return;
      }
      cfg := EnsureTerminated(Cfg(regs.netSsid[..], regs.netPassword[..], regs.netServerIp[..],
                                  FromLe16(regs.netServerPort[..]), regs.netConfig & ENABLE));
      CopyInto(regs.netPassword, Zeros(PASSWORD_LENGTH));
      saved := SaveCfg();
    }

    /** The configuration part of disconnect(). */
    method Disconnect() returns (erased: bool)
      requires Valid()
      modifies `slot
      ensures Valid() && View() == Disconnected(old(View()), erased) && slot == if erased then Empty else old(slot)
    {
      erased := EraseCfg();
    }

    /** The end of init(): restore the stored profile and apply it if it enables Wi-Fi. */
    method Restore() returns (loaded: bool, saved: bool)
      requires Valid() && View() == Defaults(StoredIn(slot)) && regs.netConfig == 0
      modifies `cfg, `slot, regs`netConfig, regs.netSsid, regs.netPassword, regs.netServerIp, regs.netServerPort
      ensures Valid() && View() == Booted(old(StoredIn(slot)), loaded, saved)
      ensures regs.netConfig == View().enable
    {
      var restored;
      restored, loaded := LoadCfg();
      saved := false;
      if restored.Some? {
        EnableBits(restored.value.enable);
        ApplyCfgToRegs(restored.value);
        if Has(restored.value.enable, ENABLE_WIFI) {
          saved := Apply();
        }
      }
    }
  }
}
