// One proxied host: its counters, and when they make it overloaded or idle.

module Hosts {
  import opened Words

  // The settings of the balancer, global in the source.
  datatype Config = Config(
    probeNum: int,
    initSucc: uint32,
    initErr: uint32,
    errRate: real,
    succRate: real,
    conErrLimit: int32,
    conSuccLimit: int32,
    windowErrRate: real,
    idleTimeout: int,
    overloadTimeout: int,
    updateTimeout: int)

  datatype Host = Host(
    ip: uint32,
    port: int32,
    vsucc: nat,
    verr: nat,
    rsucc: nat,
    rerr: nat,
    conSucc: nat,
    conErr: nat,
    overload: bool,
    idleTs: int,
    overloadTs: int)

  // ---------- What the operations compute ----------

  function Idled(cfg: Config, h: Host, now: int): Host {
    h.(vsucc := cfg.initSucc, verr := 0, rsucc := 0, rerr := 0, conSucc := 0, conErr := 0,
       overload := false, idleTs := now)
  }

  function Overloaded(cfg: Config, h: Host, now: int): Host {
    h.(vsucc := 0, verr := cfg.initErr, rsucc := 0, rerr := 0, conSucc := 0, conErr := 0,
       overload := true, overloadTs := now)
  }

  function Rate(part: nat, rest: nat): real
    requires part + rest > 0
  {
    part as real / (part + rest) as real
  }

  predicate WindowBad(cfg: Config, h: Host) {
    h.rsucc + h.rerr != 0 && Rate(h.rerr, h.rsucc) >= cfg.windowErrRate
  }

  // The counters after one more call result.
  function Tally(h: Host, ok: bool): (t: Host)
    ensures t.vsucc + t.verr == h.vsucc + h.verr + 1
  {
    if ok then h.(vsucc := h.vsucc + 1, rsucc := h.rsucc + 1, conSucc := h.conSucc + 1, conErr := 0)
    else h.(verr := h.verr + 1, rerr := h.rerr + 1, conErr := h.conErr + 1, conSucc := 0)
  }

  predicate TooManyErrors(cfg: Config, h: Host)
    requires h.vsucc + h.verr > 0
  {
    Rate(h.verr, h.vsucc) > cfg.errRate || h.conErr >= AsUint32(cfg.conErrLimit)
  }

  predicate EnoughSuccesses(cfg: Config, h: Host)
    requires h.vsucc + h.verr > 0
  {
    Rate(h.vsucc, h.verr) > cfg.succRate || h.conSucc >= AsUint32(cfg.conSuccLimit)
  }

  // What a report does to the host once it is tallied.
  datatype Move = Stay | NewWindow | Trip | Recover

  function Judge(cfg: Config, h: Host, ok: bool, now: int): Move
    requires h.vsucc + h.verr > 0
  {
    if !h.overload && !ok && TooManyErrors(cfg, h) then Trip
    else if h.overload && ok && EnoughSuccesses(cfg, h) then Recover
    else if !h.overload then
      if now - h.idleTs >= cfg.idleTimeout then
        if WindowBad(cfg, h) then Trip else NewWindow
      else Stay
    else if now - h.overloadTs >= cfg.overloadTimeout then Recover
    else Stay
  }

  function Moved(cfg: Config, h: Host, move: Move, now: int): Host {
    match move
    case Stay => h
    case Trip => Overloaded(cfg, h, now)
    case _ => Idled(cfg, h, now)
  }

  // One report on one host.
  function Reported(cfg: Config, h: Host, ok: bool, now: int): Host {
    var t := Tally(h, ok);
    Moved(cfg, t, Judge(cfg, t, ok, now), now)
  }

  // ---------- The object ----------

  class HostInfo {
    const ip: uint32
    const port: int32
    var vsucc: nat
    var verr: nat
    var rsucc: nat
    var rerr: nat
    var conSucc: nat
    var conErr: nat
    var overload: bool
    var idleTs: int
    var overloadTs: int

    function View(): Host
      reads this
    {
      Host(ip, port, vsucc, verr, rsucc, rerr, conSucc, conErr, overload, idleTs, overloadTs)
    }

    // The two times are not set by the constructor; they are whatever memory holds.
    constructor (ip: uint32, port: int32, initSucc: uint32, idleTs: int, overloadTs: int)
      ensures View() == Host(ip, port, initSucc, 0, 0, 0, 0, 0, false, idleTs, overloadTs)
    {
      this.ip, this.port := ip, port;
      vsucc, verr, rsucc, rerr, conSucc, conErr := initSucc, 0, 0, 0, 0, 0;
      overload := false;
      this.idleTs, this.overloadTs := idleTs, overloadTs;
    }

    method SetIdle(cfg: Config, now: int)
      modifies this
      ensures View() == Idled(cfg, old(View()), now)
    {
      vsucc := cfg.initSucc;
      verr := 0;
      rsucc := 0;
      rerr := 0;
      conSucc := 0;
      conErr := 0;
      overload := false;
      idleTs := now;
    }

    method SetOverload(cfg: Config, now: int)
      modifies this
      ensures View() == Overloaded(cfg, old(View()), now)
    {
      vsucc := 0;
      verr := cfg.initErr;
      rsucc := 0;
      rerr := 0;
      conErr := 0;
      conSucc := 0;
      overload := true;
      overloadTs := now;
    }

    predicate CheckWindow(cfg: Config)
      reads this
      ensures CheckWindow(cfg) <==> WindowBad(cfg, View())
    {
      if rsucc + rerr == 0 then false
      else rerr as real / (rsucc + rerr) as real >= cfg.windowErrRate
    }

    method Count(ok: bool)
      modifies this
      ensures View() == Tally(old(View()), ok)
    {
      if ok {
        vsucc := vsucc + 1;
        rsucc := rsucc + 1;
        conSucc := conSucc + 1;
        conErr := 0;
      } else {
        verr := verr + 1;
        rerr := rerr + 1;
        conErr := conErr + 1;
        conSucc := 0;
      }
    }
  }
}
