/**
 The relay's configuration record, the functional settings that fill it in,
 the lazy session-bus connection (`configError`), construction
 (`NewDBusHTTPRelay`) and the listen address.
 */
module RelayService {
  import opened Wrappers
  import Text

  /** The identity of a session-bus connection handle. */
  datatype Conn = Conn(id: nat)

  /** The relay's connection field: a nil pointer, or a live handle. */
  datatype ConnState = Disconnected | Connected(conn: Conn)

  /** Where structured log entries go: the no-op logger, or a named sink. */
  datatype Logger = NopLogger | Sink(name: string)

  /** The relay: logger, listen host and port, bus connection and signal address. */
  datatype Relay = Relay(
    log: Logger,
    host: string,
    port: int,
    bus: ConnState,
    destination: string,
    path: string,
    iface: string,
    member: string)

  /** The relay construction starts from: a no-op logger and every other field at its zero value. */
  const Unconfigured := Relay(NopLogger, "", 0, Disconnected, "", "", "", "")

  /** One functional setting; each overwrites exactly one field of the relay. */
  datatype Setting =
    | RelayLog(logger: Logger)
    | RelayDestinationBus(conn: ConnState)
    | RelayHost(host: string)
    | RelayPort(port: int)
    | RelayDest(dest: string)
    | RelayPath(path: string)
    | RelayInterface(interfaceName: string)
    | RelayMethod(member: string)

  /** The fields of a relay, named so that settings can be related to them. */
  datatype Field = LogField | HostField | PortField | BusField | DestField | PathField | InterfaceField | MethodField

  /** A field's content, whatever its type. */
  datatype FieldValue = LoggerValue(logger: Logger) | TextValue(text: string) | IntValue(n: int) | BusValue(state: ConnState)

  function Get(r: Relay, f: Field): FieldValue {
    match f
    case LogField => LoggerValue(r.log)
    case HostField => TextValue(r.host)
    case PortField => IntValue(r.port)
    case BusField => BusValue(r.bus)
    case DestField => TextValue(r.destination)
    case PathField => TextValue(r.path)
    case InterfaceField => TextValue(r.iface)
    case MethodField => TextValue(r.member)
  }

  /** The field a setting writes. */
  function FieldOf(s: Setting): Field {
    match s
    case RelayLog(_) => LogField
    case RelayDestinationBus(_) => BusField
    case RelayHost(_) => HostField
    case RelayPort(_) => PortField
    case RelayDest(_) => DestField
    case RelayPath(_) => PathField
    case RelayInterface(_) => InterfaceField
    case RelayMethod(_) => MethodField
  }

  /** The value a setting writes. */
  function ValueOf(s: Setting): FieldValue {
    match s
    case RelayLog(l) => LoggerValue(l)
    case RelayDestinationBus(c) => BusValue(c)
    case RelayHost(h) => TextValue(h)
    case RelayPort(p) => IntValue(p)
    case RelayDest(d) => TextValue(d)
    case RelayPath(p) => TextValue(p)
    case RelayInterface(i) => TextValue(i)
    case RelayMethod(m) => TextValue(m)
  }

  /** Applies one setting: its field takes the setting's value and no other field changes. */
  function Apply(r: Relay, s: Setting): (r': Relay)
    ensures Get(r', FieldOf(s)) == ValueOf(s)
    ensures forall f :: f != FieldOf(s) ==> Get(r', f) == Get(r, f)
  {
    match s
    case RelayLog(l) => r.(log := l)
    case RelayDestinationBus(c) => r.(bus := c)
    case RelayHost(h) => r.(host := h)
    case RelayPort(p) => r.(port := p)
    case RelayDest(d) => r.(destination := d)
    case RelayPath(p) => r.(path := p)
    case RelayInterface(i) => r.(iface := i)
    case RelayMethod(m) => r.(member := m)
  }

  /**
   The value field `f` ends with after the settings `ss`, found by scanning
   them from the last one back: the value of the last setting that writes `f`,
   or `initial` when none does.
   */
  function FinalValue(ss: seq<Setting>, f: Field, initial: FieldValue): FieldValue
    decreases |ss|
  {
    if ss == [] then initial
    else if FieldOf(ss[|ss| - 1]) == f then ValueOf(ss[|ss| - 1])
    else FinalValue(ss[..|ss| - 1], f, initial)
  }

  /** Scanning back over a first setting and then the rest is scanning the rest from that setting's outcome. */
  lemma {:induction false} FinalValueCons(s: Setting, rest: seq<Setting>, f: Field, initial: FieldValue)
    ensures FinalValue([s] + rest, f, initial)
         == FinalValue(rest, f, if FieldOf(s) == f then ValueOf(s) else initial)
    decreases |rest|
  {
    if rest != [] {
      var ss := [s] + rest;
      assert ss[|ss| - 1] == rest[|rest| - 1];
      assert ss[..|ss| - 1] == [s] + rest[..|rest| - 1];
      FinalValueCons(s, rest[..|rest| - 1], f, initial);
    }
  }

  /**
   Applies the settings left to right, as the construction loop does; every
   field ends with the value of the last setting that writes it, or keeps its
   value when none does.
   */
  function ApplySettings(r: Relay, ss: seq<Setting>): (r': Relay)
    ensures forall f :: Get(r', f) == FinalValue(ss, f, Get(r, f))
    decreases |ss|
  {
    if ss == [] then r
    else
      var r1 := Apply(r, ss[0]);
      var r' := ApplySettings(r1, ss[1..]);
      assert ss == [ss[0]] + ss[1..];
      assert forall f :: Get(r', f) == FinalValue(ss, f, Get(r, f)) by {
        forall f
          ensures Get(r', f) == FinalValue(ss, f, Get(r, f))
        {
          FinalValueCons(ss[0], ss[1..], f, Get(r, f));
        }
      }
      r'
  }

  /** A field no setting writes keeps its value. */
  lemma {:induction false} UnsetFieldKept(r: Relay, ss: seq<Setting>, f: Field)
    requires forall i :: 0 <= i < |ss| ==> FieldOf(ss[i]) != f
    ensures Get(ApplySettings(r, ss), f) == Get(r, f)
  {
    UnsetFinalValue(ss, f, Get(r, f));
  }

  lemma {:induction false} UnsetFinalValue(ss: seq<Setting>, f: Field, initial: FieldValue)
    requires forall i :: 0 <= i < |ss| ==> FieldOf(ss[i]) != f
    ensures FinalValue(ss, f, initial) == initial
    decreases |ss|
  {
    if ss != [] {
      UnsetFinalValue(ss[..|ss| - 1], f, initial);
    }
  }

  /** The last setting that writes a field decides its value. */
  lemma {:induction false} LastSettingWins(r: Relay, ss: seq<Setting>, i: nat)
    requires i < |ss|
    requires forall j :: i < j < |ss| ==> FieldOf(ss[j]) != FieldOf(ss[i])
    ensures Get(ApplySettings(r, ss), FieldOf(ss[i])) == ValueOf(ss[i])
  {
    LastFinalValue(ss, i, Get(r, FieldOf(ss[i])));
  }

  lemma {:induction false} LastFinalValue(ss: seq<Setting>, i: nat, initial: FieldValue)
    requires i < |ss|
    requires forall j :: i < j < |ss| ==> FieldOf(ss[j]) != FieldOf(ss[i])
    ensures FinalValue(ss, FieldOf(ss[i]), initial) == ValueOf(ss[i])
    decreases |ss|
  {
    if i < |ss| - 1 {
      assert ss[..|ss| - 1][i] == ss[i];
      LastFinalValue(ss[..|ss| - 1], i, initial);
    }
  }

  /** The message `configError` wraps a failed dial with. */
  const SessionBusError := "could not fetch dbus SessionBus"

  /** What ensuring a connection leaves behind: the relay, the error if any, and whether a dial happened. */
  datatype Ensured = Ensured(relay: Relay, err: Option<string>, dialed: bool)

  /**
   `configError`: keeps an existing connection without dialing; otherwise dials
   the session bus once, whose outcome is `dial`, storing the handle on success
   and wrapping the cause on failure.
   */
  function ConfigError(r: Relay, dial: Result<Conn, string>): (e: Ensured)
    ensures e.dialed <==> r.bus.Disconnected?
    ensures e.err.None? <==> e.relay.bus.Connected?
    ensures r.bus.Connected? ==> e.relay == r && e.err.None?
    ensures e.relay.(bus := r.bus) == r
    ensures e.dialed && dial.Success? ==> e.relay.bus == Connected(dial.value)
    ensures e.err.Some? ==> dial.Failure? && e.err.value == SessionBusError + ": " + dial.error
    ensures e.dialed && dial.Failure? ==> e.relay == r && e.err == Some(SessionBusError + ": " + dial.error)
  {
    if r.bus.Connected? then Ensured(r, None, false)
    else match dial
      case Success(c) => Ensured(r.(bus := Connected(c)), None, true)
      case Failure(cause) => Ensured(r, Some(SessionBusError + ": " + cause), true)
  }

  /** Once a connection is held, ensuring it again returns the same relay, succeeds, and never dials. */
  lemma ConfigErrorIdempotent(r: Relay, first: Result<Conn, string>, second: Result<Conn, string>)
    requires ConfigError(r, first).err.None?
    ensures ConfigError(ConfigError(r, first).relay, second) == Ensured(ConfigError(r, first).relay, None, false)
  {
  }

  /** The outcome of construction: the relay or the error, and whether the session bus was dialed. */
  datatype Construction = Construction(relay: Result<Relay, string>, dialed: bool)

  /**
   `NewDBusHTTPRelay`: starts from a no-op logger, applies the settings in order,
   then runs exactly one `configError`; its failure means no relay.
   */
  function NewRelay(settings: seq<Setting>, dial: Result<Conn, string>): (c: Construction)
    ensures c.dialed <==> ApplySettings(Unconfigured, settings).bus.Disconnected?
    ensures c.relay.Success? ==> c.relay.value.bus.Connected?
    ensures c.relay.Success? ==> c.relay.value.(bus := Disconnected) == ApplySettings(Unconfigured, settings).(bus := Disconnected)
    ensures c.relay.Failure? <==> c.dialed && dial.Failure?
    ensures c.relay.Failure? ==> c.relay.error == SessionBusError + ": " + dial.error
    ensures c.relay.Success? && c.dialed ==> dial.Success? && c.relay.value.bus == Connected(dial.value)
    ensures c.relay.Success? && !c.dialed ==> c.relay.value.bus == ApplySettings(Unconfigured, settings).bus
  {
    var e := ConfigError(ApplySettings(Unconfigured, settings), dial);
    match e.err
    case Some(msg) => Construction(Failure(msg), e.dialed)
    case None => Construction(Success(e.relay), e.dialed)
  }

  /** Every field other than the connection is exactly what the settings made it. */
  lemma NewRelayKeepsSettings(settings: seq<Setting>, dial: Result<Conn, string>, f: Field)
    requires NewRelay(settings, dial).relay.Success?
    requires f != BusField
    ensures Get(NewRelay(settings, dial).relay.value, f) == Get(ApplySettings(Unconfigured, settings), f)
  {
  }

  /** An injected bus that no later setting replaces is kept: construction succeeds without dialing. */
  lemma NewRelayWithInjectedBus(settings: seq<Setting>, dial: Result<Conn, string>, i: nat, conn: Conn)
    requires i < |settings| && settings[i] == RelayDestinationBus(Connected(conn))
    requires forall j :: i < j < |settings| ==> FieldOf(settings[j]) != BusField
    ensures !NewRelay(settings, dial).dialed
    ensures NewRelay(settings, dial).relay.Success?
    ensures NewRelay(settings, dial).relay.value.bus == Connected(conn)
  {
    LastSettingWins(Unconfigured, settings, i);
  }

  /** Without a logger setting, the relay logs to the no-op logger. */
  lemma NewRelayDefaultsToNopLogger(settings: seq<Setting>, dial: Result<Conn, string>)
    requires forall i :: 0 <= i < |settings| ==> FieldOf(settings[i]) != LogField
    requires NewRelay(settings, dial).relay.Success?
    ensures NewRelay(settings, dial).relay.value.log == NopLogger
  {
    UnsetFieldKept(Unconfigured, settings, LogField);
    NewRelayKeepsSettings(settings, dial, LogField);
  }

  /** Without an injected bus, construction dials once; a failed dial is reported and no relay results. */
  lemma NewRelayWithoutBus(settings: seq<Setting>, dial: Result<Conn, string>)
    requires forall i :: 0 <= i < |settings| ==> FieldOf(settings[i]) != BusField
    ensures NewRelay(settings, dial).dialed
    ensures dial.Success? ==> NewRelay(settings, dial).relay == Success(ApplySettings(Unconfigured, settings).(bus := Connected(dial.value)))
    ensures dial.Failure? ==> NewRelay(settings, dial).relay == Failure(SessionBusError + ": " + dial.error)
  {
    var applied := ApplySettings(Unconfigured, settings);
    UnsetFieldKept(Unconfigured, settings, BusField);
    assert applied.bus == Disconnected;
    var e := ConfigError(applied, dial);
    assert NewRelay(settings, dial).dialed == e.dialed;
  }

  /**
   `ListenAddr`: the host, a colon, and the port in decimal. The address splits
   back at its last colon into the host and a numeral that reads as the port,
   whatever colons the host itself holds.
   */
  function ListenAddr(r: Relay): (a: string)
    ensures Text.SplitAtLastColon(a) == Some((r.host, Text.FormatInt(r.port)))
  {
    Text.SplitJoin(r.host, Text.FormatInt(r.port));
    r.host + ":" + Text.FormatInt(r.port)
  }
}
