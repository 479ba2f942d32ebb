/**
 * The diald-top server as a state machine: the port queue, the three descriptor records, the
 * monitor pipe and the access list, with one function for each routine that changes them.
 * What the operating system answers is an input; every call with an outside effect is an event.
 */
module ServerModel {
  import opened Common
  import opened Authenticate
  import opened Selection
  import Conffile
  import Ident

  /** The bits of `port_t.flag`. */
  datatype Flags = Flags(read: bool, write: bool, monitor: bool)

  /** `port_t`; `userid` is `None` for the null pointer of a port without ident. */
  datatype Port = Port(fd: nat, addr: Ip, flags: Flags, userid: Option<string>)

  datatype Event =
    | Read(fd: nat)
    | Write(fd: nat, data: string)
    | WriteFailed(fd: nat, data: string)
    | Close(closed: int)
    | ControlLine(sender: Port, line: string)
    | ControlMonitor(line: string)
    | OpenFailed

  datatype State = State(
    ports: seq<Port>,
    pd: Fds, ps: Fds, fs: Fds,
    monitorcount: int, monitorfd: int, controlfd: int,
    aq: seq<Conf>,
    trace: seq<Event>)

  // ---- inputs ------------------------------------------------------------------------------

  /**
   * What `read` returns on a client socket (nothing: end of file or an error), and what `open`
   * offers and `tmpnam` names should the line start the monitor pipe.
   */
  datatype Incoming = Incoming(data: string, offer: int, fifo: string)

  /** A chunk from the monitor pipe; `epipe` numbers the writes of its round that fail with EPIPE. */
  datatype Chunk = Chunk(data: string, epipe: set<nat>)

  /** A new connection; `ident` is the reply buffer, or `None` when the ident server is unreachable. */
  datatype Connection = Connection(fd: nat, addr: Ip, ident: Option<string>)

  // ---- port-queue.c ------------------------------------------------------------------------

  function FdSet(ports: seq<Port>): set<nat> {
    set p | p in ports :: p.fd
  }

  function Monitors(ports: seq<Port>): seq<Port> {
    if ports == [] then []
    else if ports[0].flags.monitor then [ports[0]] + Monitors(ports[1..])
    else Monitors(ports[1..])
  }

  function Ready(ports: seq<Port>, sel: set<nat>): seq<Port> {
    if ports == [] then []
    else if ports[0].fd in sel then [ports[0]] + Ready(ports[1..], sel)
    else Ready(ports[1..], sel)
  }

  function Without(ports: seq<Port>, k: nat): seq<Port>
    requires k < |ports|
  {
    ports[..k] + ports[k + 1..]
  }

  /** The first node whose port compares equal, or the length of the list. */
  function IndexOf(ports: seq<Port>, p: Port): (k: nat)
    ensures k <= |ports|
    ensures k < |ports| ==> ports[k] == p
    ensures forall j :: 0 <= j < k ==> ports[j] != p
  {
    if ports == [] || ports[0] == p then 0 else 1 + IndexOf(ports[1..], p)
  }

  function Emit(s: State, e: Event): State {
    s.(trace := s.trace + [e])
  }

  function Enqueue(s: State, p: Port): State {
    s.(ports := [p] + s.ports,
       ps := s.ps.(fullcount := s.ps.fullcount + 1,
                   full := s.ps.full + {p.fd},
                   maxfd := if p.fd > s.ps.maxfd then p.fd else s.ps.maxfd))
  }

  function Unlisted(s: State, k: nat): State
    requires k < |s.ports|
  {
    var fd := s.ports[k].fd;
    s.(ports := Without(s.ports, k),
       ps := s.ps.(fullcount := s.ps.fullcount - 1,
                   full := s.ps.full - {fd},
                   maxfd := Adjusted(s.ps.full - {fd}, s.ps.maxfd, fd)))
  }

  function ClosePort(s: State, p: Port): State {
    if p.fd !in s.ps.full then s
    else
      var s1 := Emit(s.(monitorcount := if p.flags.monitor then s.monitorcount - 1 else s.monitorcount),
                     Close(p.fd));
      var k := IndexOf(s.ports, p);
      if k < |s.ports| then Unlisted(s1, k) else s1
  }

  datatype Command = StopMonitor | StartMonitor | Quit | Other

  function Classify(line: string): Command {
    if StartsIgnoringCase(line, "monitor off\r") || StartsIgnoringCase(line, "monitor\r") then StopMonitor
    else if StartsIgnoringCase(line, "monitor ") then StartMonitor
    else if StartsIgnoringCase(line, "close") then Quit
    else Other
  }

  function Denial(line: string): string {
    "MESSAGE\nYou have no control access: Command \"" + Ident.SkipSpaces(Ident.FirstLine(line)) + "\" ignored\n"
  }

  function SetMonitor(s: State, k: nat, on: bool): State
    requires k < |s.ports|
  {
    var p := s.ports[k];
    s.(ports := s.ports[k := p.(flags := p.flags.(monitor := on))],
       monitorcount := if on then s.monitorcount + 1 else s.monitorcount - 1)
  }

  function ParseIncoming(s: State, k: nat, inc: Incoming): State
    requires k < |s.ports|
  {
    var p := s.ports[k];
    match Classify(inc.data)
    case StopMonitor => if p.flags.monitor then SetMonitor(s, k, false) else s
    case StartMonitor =>
      if p.flags.monitor then s
      else
        var s1 := SetMonitor(s, k, true);
        if s1.fs.fullcount == 0 then MonitorOpen(s1, inc.offer, inc.fifo) else s1
    case Quit => ClosePort(s, p)
    case Other =>
      if p.flags.write then Emit(s, ControlLine(p, inc.data)) else Emit(s, Write(p.fd, Denial(inc.data)))
  }

  /** What `read` on descriptor `fd` returns in this pass. */
  function Arrived(env: map<nat, Incoming>, fd: nat): string {
    if fd in env then env[fd].data else ""
  }

  /** Serving the port closes it. */
  predicate Leaves(p: Port, env: map<nat, Incoming>) {
    Arrived(env, p.fd) == "" || Classify(Arrived(env, p.fd)) == Quit
  }

  /** One ready port in the loop of `port_server`. */
  function ServeAt(s: State, k: nat, env: map<nat, Incoming>): State
    requires k < |s.ports|
  {
    var p := s.ports[k];
    var s1 := Emit(s, Read(p.fd));
    if Arrived(env, p.fd) == "" then ClosePort(s1, p) else ParseIncoming(s1, k, env[p.fd])
  }

  /**
   * The loop of `port_server` from list position `k` with `budget` ready ports still to come. A
   * port that closed leaves its position to its successor.
   */
  function Walk(s: State, k: nat, budget: int, env: map<nat, Incoming>): State
    decreases budget, |s.ports| - k
  {
    if k >= |s.ports| || budget <= 0 then s
    else if s.ports[k].fd !in s.ps.sel then Walk(s, k + 1, budget, env)
    else Walk(ServeAt(s, k, env), if Leaves(s.ports[k], env) then k else k + 1, budget - 1, env)
  }

  function PortServer(s: State, env: map<nat, Incoming>): State {
    Walk(s, 0, s.ps.selcount, env)
  }

  // ---- fifo-server.c -----------------------------------------------------------------------

  predicate InUse(s: State, fd: int) {
    fd in s.pd.full || fd in s.ps.full || fd in s.fs.full || fd == s.controlfd
  }

  /** The answer of `open`: a descriptor that is not in use, or -1. */
  function Opened(s: State, offer: int): int {
    if offer >= 0 && !InUse(s, offer) then offer else -1
  }

  function MonitorOpen(s: State, offer: int, fifo: string): State {
    if s.monitorfd != -1 then s
    else
      var fd := Opened(s, offer);
      if fd == -1 then Emit(s, OpenFailed)
      else Emit(s, ControlMonitor("monitor " + fifo + "\n")).(
        monitorfd := fd, fs := s.fs.(fullcount := 1, full := {fd}, maxfd := fd))
  }

  function MonitorClose(s: State): State {
    if s.monitorfd == -1 then s
    else Emit(s, Close(s.monitorfd)).(monitorfd := -1, fs := NO_FDS)
  }

  /**
   * The inner loop of `fifo_server` from list position `c` after `i` writes. `prev` is never
   * updated there, so after a failed write the loop starts again at the head of the list.
   */
  function FanOut(s: State, c: nat, i: nat, chunk: Chunk): State
    decreases s.monitorcount - i, |s.ports| - c
  {
    if c >= |s.ports| || i >= s.monitorcount then s
    else
      var p := s.ports[c];
      if !p.flags.monitor then FanOut(s, c + 1, i, chunk)
      else if i in chunk.epipe then
        FanOut(ClosePort(Emit(s, WriteFailed(p.fd, chunk.data)), p), 0, i + 1, chunk)
      else FanOut(Emit(s, Write(p.fd, chunk.data)), c + 1, i + 1, chunk)
  }

  /** The outer loop: chunk after chunk until the pipe runs dry or the last monitor is gone. */
  function Pump(s: State, chunks: seq<Chunk>): State
    decreases |chunks|
  {
    if chunks == [] || chunks[0].data == "" then s
    else
      var s1 := FanOut(s, 0, 0, chunks[0]);
      if s1.monitorcount == 0 then s1 else Pump(s1, chunks[1..])
  }

  function FifoServer(s: State, chunks: seq<Chunk>): State {
    if s.ps.fullcount == 0 || s.monitorcount == 0 then MonitorClose(s) else Pump(s, chunks)
  }

  // ---- port-daemon.c -----------------------------------------------------------------------

  const NO_IDENT_MESSAGE := "MESSAGE\nUnauthorized Access -- Monitor only (no ident)\n"

  function Greeting(userid: string, addr: Ip, full: bool): string {
    "MESSAGE\nUser " + userid + "@" + Conffile.Dotted(addr) + " connected -- " +
    (if full then "Full access\n" else "Monitor access\n")
  }

  function UserOf(conn: Connection): Option<string> {
    if conn.ident.None? then None else Some(Ident.UserIdOf(conn.ident.value))
  }

  /** The port of a new connection: everybody may read, those on the list may write. */
  function NewPort(aq: seq<Conf>, conn: Connection): Port {
    Port(conn.fd, conn.addr, Flags(true, Check(aq, UserOf(conn), conn.addr), false), UserOf(conn))
  }

  function GreetingFor(aq: seq<Conf>, conn: Connection): string {
    if conn.ident.None? then NO_IDENT_MESSAGE
    else Greeting(Ident.UserIdOf(conn.ident.value), conn.addr, Check(aq, UserOf(conn), conn.addr))
  }

  function PortDaemon(s: State, conn: Connection): State {
    Enqueue(Emit(s, Write(conn.fd, GreetingFor(s.aq, conn))), NewPort(s.aq, conn))
  }

  // ---- authenticate.c ----------------------------------------------------------------------

  function ReloadMessage(full: bool): string {
    if full then "MESSAGE\nServer configuration reloaded - full access granted\n"
    else "MESSAGE\nServer configuration reloaded - read-only access granted\n"
  }

  function Reauthenticated(aq: seq<Conf>, p: Port): Port {
    p.(flags := p.flags.(read := true, write := Check(aq, p.userid, p.addr)))
  }

  /** One port in the loop of `reauthenticate_users`. */
  function RenewedAt(s: State, k: nat): State
    requires k < |s.ports|
  {
    var p := Reauthenticated(s.aq, s.ports[k]);
    Emit(s.(ports := s.ports[k := p]), Write(p.fd, ReloadMessage(p.flags.write)))
  }

  /** `reauthenticate_users` from list position `k`, with a null user id that matches nothing. */
  function Reauthenticate(s: State, k: nat): State
    decreases |s.ports| - k
  {
    if k >= |s.ports| then s else Reauthenticate(RenewedAt(s, k), k + 1)
  }

  /** The same as far as the process gets: nothing is left of it when a null user id is compared. */
  function Reloaded(s: State, k: nat): Option<State>
    decreases |s.ports| - k
  {
    if k >= |s.ports| then Some(s)
    else if Search(s.aq, s.ports[k].userid, s.ports[k].addr).NullDereference? then None
    else Reloaded(RenewedAt(s, k), k + 1)
  }

  /** The list a configuration file leaves: nothing when it cannot be opened. */
  function Configured(conf: Option<string>, unset: Ip): seq<Conf> {
    if conf.None? then []
    else match Conffile.ParseConf(conf.value, unset)
      case Accepted(confs) => Added(confs)
      case SyntaxError => []
  }

  function RereadConf(s: State, conf: Option<string>, unset: Ip): State {
    Reauthenticate(s.(aq := Configured(conf, unset)), 0)
  }

  // ---- diald-top-server.c ------------------------------------------------------------------

  /** `demux_fds` handing out the descriptors `d`. */
  function Demux(s: State, d: set<nat>): State {
    s.(pd := Dispatched(s.pd, d), ps := Dispatched(s.ps, d), fs := Dispatched(s.fs, d))
  }

  function Accepting(s: State, conn: Connection): State {
    if s.pd.selcount != 0 then PortDaemon(s, conn) else s
  }

  function Serving(s: State, env: map<nat, Incoming>): State {
    if s.ps.selcount != 0 then PortServer(s, env) else s
  }

  function Pumping(s: State, chunks: seq<Chunk>): State {
    if s.fs.selcount != 0 then FifoServer(s, chunks) else s
  }

  /** One pass of the main loop, or a SIGHUP between two passes. */
  datatype Step =
    | Pass(d: set<nat>, conn: Connection, env: map<nat, Incoming>, chunks: seq<Chunk>)
    | Hangup(conf: Option<string>, unset: Ip)

  function Next(s: State, step: Step): State {
    match step
    case Hangup(conf, unset) => RereadConf(s, conf, unset)
    case Pass(d, conn, env, chunks) =>
      Pumping(Serving(Accepting(Demux(s, d), conn), env), chunks)
  }

  /** `accept` answers with a descriptor that is not in use, and an ident reply ends its line. */
  predicate Acceptable(s: State, conn: Connection) {
    !InUse(s, conn.fd) && (conn.ident.Some? ==> Ident.Terminated(conn.ident.value, 0))
  }

  /**
   * What the operating system and the files can do: a connection is acceptable when there is one,
   * and a configuration file with a syntax error ends the process, so that no step follows it.
   */
  predicate Possible(s: State, step: Step) {
    match step
    case Hangup(conf, unset) => conf.Some? ==> Conffile.ParseConf(conf.value, unset).Accepted?
    case Pass(d, conn, env, chunks) =>
      s.pd.full * d != {} ==> Acceptable(s, conn)
  }

  /** The state before the main loop. */
  function Initial(listenfd: nat, controlfd: int, conf: Option<string>, unset: Ip): State {
    State([], Fds(1, {listenfd}, listenfd, 0, {}), NO_FDS, NO_FDS, 0, -1, controlfd, Configured(conf, unset), [])
  }

  /** The state after a run of steps, the latest last. */
  function After(s: State, steps: seq<Step>): State {
    if steps == [] then s else Next(After(s, steps[..|steps| - 1]), steps[|steps| - 1])
  }

  predicate PossibleRun(s: State, steps: seq<Step>) {
    forall n :: 0 <= n < |steps| ==> Possible(After(s, steps[..n]), steps[n])
  }
}
