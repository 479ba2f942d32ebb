/** The bookkeeping, pipe and access-right invariants of the server, kept by every step of every run. */
module ServerInvariant {
  import opened Common
  import opened Authenticate
  import opened Selection
  import opened ServerModel
  import Conffile
  import Ident

  predicate Distinct(ports: seq<Port>) {
    forall i, j :: 0 <= i < j < |ports| ==> ports[i].fd != ports[j].fd
  }

  /** The counters and descriptor sets describe exactly the listed ports. */
  predicate Books(s: State) {
    && Distinct(s.ports)
    && s.ps.fullcount == |s.ports|
    && s.ps.full == FdSet(s.ports)
    && IsMax(s.ps.maxfd, s.ps.full)
    && s.monitorcount == |Monitors(s.ports)|
  }

  /** The record of the FIFO server and `monitorfd` say the same about the pipe. */
  predicate Pipe(s: State) {
    if s.monitorfd == -1 then s.fs.fullcount == 0 && s.fs.full == {} && s.fs.maxfd == -1
    else s.monitorfd >= 0 && s.fs.fullcount == 1 && s.fs.full == {s.monitorfd} && s.fs.maxfd == s.monitorfd
  }

  /** Monitors without an open pipe are there only after `open` has failed. */
  predicate Watched(s: State) {
    s.monitorcount > 0 && s.monitorfd == -1 ==> OpenFailed in s.trace
  }

  predicate Listening(s: State) {
    s.pd.fullcount == 1 && s.pd.maxfd >= 0 && s.pd.full == {s.pd.maxfd}
  }

  /** The write flag of every listed port is the answer of `auth_check` under the current list. */
  predicate Rights(s: State) {
    forall p :: p in s.ports ==> p.flags.write == Check(s.aq, p.userid, p.addr)
  }

  predicate Inv(s: State) {
    Books(s) && Pipe(s) && Watched(s) && Listening(s) && Rights(s) && Apart(s.pd.full, s.ps.full, s.fs.full)
  }

  // ---- what a stretch of a step may do to the control FIFO ---------------------------------

  /** A client's line on the control FIFO comes from a user the list grants. */
  predicate Allowed(aq: seq<Conf>, e: Event) {
    e.ControlLine? ==> Check(aq, e.sender.userid, e.sender.addr)
  }

  /** From `s` to `t` the list stays, events are only appended, and each of them is allowed. */
  predicate Audited(s: State, t: State) {
    && s.aq == t.aq
    && s.trace <= t.trace
    && forall i :: |s.trace| <= i < |t.trace| ==> Allowed(s.aq, t.trace[i])
  }

  lemma AuditedThen(s: State, t: State, u: State)
    requires Audited(s, t) && Audited(t, u)
    ensures Audited(s, u)
  {}

  // ---- list facts --------------------------------------------------------------------------

  lemma {:induction false} MonitorsConcat(a: seq<Port>, b: seq<Port>)
    ensures Monitors(a + b) == Monitors(a) + Monitors(b)
  {
    if a == [] {
      assert a + b == b;
    } else {
      assert (a + b)[1..] == a[1..] + b;
      MonitorsConcat(a[1..], b);
    }
  }

  lemma MonitorsOne(p: Port, rest: seq<Port>)
    ensures Monitors([p] + rest) == (if p.flags.monitor then [p] else []) + Monitors(rest)
  {}

  /** The monitors of a list split at position `k`. */
  lemma MonitorsAt(ports: seq<Port>, k: nat)
    requires k < |ports|
    ensures Monitors(ports) ==
            Monitors(ports[..k]) + ((if ports[k].flags.monitor then [ports[k]] else []) + Monitors(ports[k + 1..]))
  {
    var rest := [ports[k]] + ports[k + 1..];
    SplitAt(ports, k);
    MonitorsConcat(ports[..k], rest);
    MonitorsOne(ports[k], ports[k + 1..]);
  }

  lemma SplitAt(ports: seq<Port>, k: nat)
    requires k < |ports|
    ensures ports == ports[..k] + ([ports[k]] + ports[k + 1..])
  {}

  lemma MonitorsWithout(ports: seq<Port>, k: nat)
    requires k < |ports|
    ensures |Monitors(Without(ports, k))| == |Monitors(ports)| - if ports[k].flags.monitor then 1 else 0
  {
    MonitorsAt(ports, k);
    MonitorsConcat(ports[..k], ports[k + 1..]);
  }

  lemma MonitorsReplaced(ports: seq<Port>, k: nat, p: Port)
    requires k < |ports|
    ensures |Monitors(ports[k := p])| ==
            |Monitors(ports)| - (if ports[k].flags.monitor then 1 else 0) + (if p.flags.monitor then 1 else 0)
  {
    MonitorsAt(ports, k);
    var q := ports[k := p];
    MonitorsAt(q, k);
    assert q[..k] == ports[..k] && q[k + 1..] == ports[k + 1..];
  }

  lemma FdSetWithout(ports: seq<Port>, k: nat)
    requires k < |ports| && Distinct(ports)
    ensures Distinct(Without(ports, k))
    ensures FdSet(Without(ports, k)) == FdSet(ports) - {ports[k].fd}
    ensures forall p :: p in Without(ports, k) ==> p in ports
  {}

  lemma FdSetReplaced(ports: seq<Port>, k: nat, p: Port)
    requires k < |ports| && p.fd == ports[k].fd
    ensures FdSet(ports[k := p]) == FdSet(ports)
    ensures Distinct(ports) ==> Distinct(ports[k := p])
  {
    var q := ports[k := p];
    forall fd | fd in FdSet(ports)
      ensures fd in FdSet(q)
    {
      var i :| 0 <= i < |ports| && ports[i].fd == fd;
      assert q[i] in q && q[i].fd == fd;
    }
  }

  // ---- single operations -------------------------------------------------------------------

  /** Closing a listed port unlinks exactly that port and keeps the books. */
  lemma {:induction false} ClosePortAt(s: State, k: nat)
    requires Books(s) && k < |s.ports|
    ensures var p, t := s.ports[k], ClosePort(s, s.ports[k]);
            && t == Unlisted(Emit(s, Close(p.fd)), k).(monitorcount := t.monitorcount)
            && t.monitorcount == s.monitorcount - (if p.flags.monitor then 1 else 0)
            && Books(t)
  {
    var p := s.ports[k];
    assert IndexOf(s.ports, p) == k by {
      assert s.ports[IndexOf(s.ports, p)].fd == p.fd;
    }
    MonitorsWithout(s.ports, k);
    FdSetWithout(s.ports, k);
    AdjustedIsMax(s.ps.full, s.ps.maxfd, p.fd);
  }

  lemma ClosePortInv(s: State, k: nat)
    requires Inv(s) && k < |s.ports|
    ensures var t := ClosePort(s, s.ports[k]); Inv(t) && Audited(s, t)
  {
    ClosePortAt(s, k);
    FdSetWithout(s.ports, k);
  }

  lemma EmitInv(s: State, e: Event)
    requires Inv(s) && Allowed(s.aq, e)
    ensures Inv(Emit(s, e)) && Audited(s, Emit(s, e))
  {}

  lemma EnqueueInv(s: State, p: Port)
    requires Inv(s) && !InUse(s, p.fd)
    requires !p.flags.monitor && p.flags.write == Check(s.aq, p.userid, p.addr)
    ensures Inv(Enqueue(s, p)) && Audited(s, Enqueue(s, p))
  {}

  lemma PortDaemonInv(s: State, conn: Connection)
    requires Inv(s) && !InUse(s, conn.fd)
    ensures Inv(PortDaemon(s, conn)) && Audited(s, PortDaemon(s, conn))
  {
    var s1 := Emit(s, Write(conn.fd, GreetingFor(s.aq, conn)));
    EmitInv(s, Write(conn.fd, GreetingFor(s.aq, conn)));
    EnqueueInv(s1, NewPort(s.aq, conn));
    AuditedThen(s, s1, PortDaemon(s, conn));
  }

  lemma SetMonitorBooks(s: State, k: nat, on: bool)
    requires Books(s) && k < |s.ports| && s.ports[k].flags.monitor != on
    ensures Books(SetMonitor(s, k, on))
  {
    var p := s.ports[k].(flags := s.ports[k].flags.(monitor := on));
    MonitorsReplaced(s.ports, k, p);
    FdSetReplaced(s.ports, k, p);
  }

  /** Turning the flag on leaves only the pipe to be looked after. */
  lemma StartMonitorInv(s: State, k: nat, offer: int, fifo: string)
    requires Inv(s) && k < |s.ports| && !s.ports[k].flags.monitor
    ensures var s1 := SetMonitor(s, k, true);
            var t := if s1.fs.fullcount == 0 then MonitorOpen(s1, offer, fifo) else s1;
            Inv(t) && Audited(s, t)
  {
    SetMonitorBooks(s, k, true);
    var s1 := SetMonitor(s, k, true);
    assert Rights(s1);
    if s1.fs.fullcount == 0 {
      var t := MonitorOpen(s1, offer, fifo);
      if Opened(s1, offer) == -1 {
        assert t.trace[|s.trace|] == OpenFailed;
      }
    }
  }

  lemma StopMonitorInv(s: State, k: nat)
    requires Inv(s) && k < |s.ports| && s.ports[k].flags.monitor
    ensures Inv(SetMonitor(s, k, false)) && Audited(s, SetMonitor(s, k, false))
  {
    SetMonitorBooks(s, k, false);
    assert Rights(SetMonitor(s, k, false));
  }

  lemma ParseIncomingInv(s: State, k: nat, inc: Incoming)
    requires Inv(s) && k < |s.ports|
    ensures Inv(ParseIncoming(s, k, inc)) && Audited(s, ParseIncoming(s, k, inc))
  {
    var p := s.ports[k];
    match Classify(inc.data) {
      case StopMonitor => if p.flags.monitor { StopMonitorInv(s, k); }
      case StartMonitor => if !p.flags.monitor { StartMonitorInv(s, k, inc.offer, inc.fifo); }
      case Quit => ClosePortInv(s, k);
      case Other =>
        EmitInv(s, if p.flags.write then ControlLine(p, inc.data) else Write(p.fd, Denial(inc.data)));
    }
  }

  lemma ServeAtInv(s: State, k: nat, env: map<nat, Incoming>)
    requires Inv(s) && k < |s.ports|
    ensures Inv(ServeAt(s, k, env)) && Audited(s, ServeAt(s, k, env))
  {
    var fd := s.ports[k].fd;
    var s1 := Emit(s, Read(fd));
    EmitInv(s, Read(fd));
    if Arrived(env, fd) == "" {
      ClosePortInv(s1, k);
    } else {
      ParseIncomingInv(s1, k, env[fd]);
    }
    AuditedThen(s, s1, ServeAt(s, k, env));
  }

  // ---- loops -------------------------------------------------------------------------------

  lemma {:induction false} WalkInv(s: State, k: nat, budget: int, env: map<nat, Incoming>)
    requires Inv(s)
    ensures Inv(Walk(s, k, budget, env)) && Audited(s, Walk(s, k, budget, env))
    decreases budget, |s.ports| - k, 1
  {
    if k >= |s.ports| || budget <= 0 {
    } else if s.ports[k].fd !in s.ps.sel {
      WalkInv(s, k + 1, budget, env);
    } else {
      var t := ServeAt(s, k, env);
      var j := if Leaves(s.ports[k], env) then k else k + 1;
      ServeAtInv(s, k, env);
      WalkOnInv(s, k, budget, env, t, j);
    }
  }

  lemma {:induction false} WalkOnInv(s: State, k: nat, budget: int, env: map<nat, Incoming>, t: State, j: nat)
    requires Inv(t) && Audited(s, t) && budget > 0
    ensures Inv(Walk(t, j, budget - 1, env)) && Audited(s, Walk(t, j, budget - 1, env))
    decreases budget, |s.ports| - k, 0
  {
    WalkInv(t, j, budget - 1, env);
    AuditedThen(s, t, Walk(t, j, budget - 1, env));
  }

  /** A failed write and the close it causes. */
  lemma FailedWriteInv(s: State, c: nat, data: string)
    requires Inv(s) && c < |s.ports|
    ensures var t := ClosePort(Emit(s, WriteFailed(s.ports[c].fd, data)), s.ports[c]);
            Inv(t) && Audited(s, t) && t.monitorcount <= s.monitorcount
  {
    var s1 := Emit(s, WriteFailed(s.ports[c].fd, data));
    ClosePortInv(s1, c);
    AuditedThen(s, s1, ClosePort(s1, s.ports[c]));
  }

  /** Every pattern of failing writes ends, and every close on the way keeps the invariant. */
  lemma {:induction false} FanOutInv(s: State, c: nat, i: nat, chunk: Chunk)
    requires Inv(s)
    ensures Inv(FanOut(s, c, i, chunk)) && Audited(s, FanOut(s, c, i, chunk))
    decreases s.monitorcount - i, |s.ports| - c, 1
  {
    if c >= |s.ports| || i >= s.monitorcount {
    } else if !s.ports[c].flags.monitor {
      FanOutInv(s, c + 1, i, chunk);
    } else if i in chunk.epipe {
      FailedWriteInv(s, c, chunk.data);
      FanOutOn(s, c, i, chunk, ClosePort(Emit(s, WriteFailed(s.ports[c].fd, chunk.data)), s.ports[c]), 0);
    } else {
      EmitInv(s, Write(s.ports[c].fd, chunk.data));
      FanOutOn(s, c, i, chunk, Emit(s, Write(s.ports[c].fd, chunk.data)), c + 1);
    }
  }

  lemma {:induction false} FanOutOn(s: State, c: nat, i: nat, chunk: Chunk, t: State, c1: nat)
    requires Inv(t) && Audited(s, t) && t.monitorcount <= s.monitorcount && i < s.monitorcount
    ensures Inv(FanOut(t, c1, i + 1, chunk)) && Audited(s, FanOut(t, c1, i + 1, chunk))
    decreases s.monitorcount - i, |s.ports| - c, 0
  {
    FanOutInv(t, c1, i + 1, chunk);
    AuditedThen(s, t, FanOut(t, c1, i + 1, chunk));
  }

  lemma {:induction false} PumpInv(s: State, chunks: seq<Chunk>)
    requires Inv(s)
    ensures Inv(Pump(s, chunks)) && Audited(s, Pump(s, chunks))
    decreases |chunks|
  {
    if chunks == [] || chunks[0].data == "" {
    } else {
      var t := FanOut(s, 0, 0, chunks[0]);
      FanOutInv(s, 0, 0, chunks[0]);
      PumpInv(t, chunks[1..]);
      AuditedThen(s, t, Pump(t, chunks[1..]));
    }
  }

  lemma FifoServerInv(s: State, chunks: seq<Chunk>)
    requires Inv(s)
    ensures Inv(FifoServer(s, chunks)) && Audited(s, FifoServer(s, chunks))
  {
    if s.ps.fullcount == 0 || s.monitorcount == 0 {
      assert s.monitorcount == 0;
    } else {
      PumpInv(s, chunks);
    }
  }

  function ReloadEvent(aq: seq<Conf>, p: Port): Event {
    Write(p.fd, ReloadMessage(Check(aq, p.userid, p.addr)))
  }

  function ReloadEvents(aq: seq<Conf>, ports: seq<Port>): (r: seq<Event>)
    ensures |r| == |ports| && forall i :: 0 <= i < |r| ==> r[i].Write? && r[i].fd == ports[i].fd
  {
    if ports == [] then [] else [ReloadEvent(aq, ports[0])] + ReloadEvents(aq, ports[1..])
  }

  lemma ReloadEventsStep(s: State, k: nat)
    requires k < |s.ports|
    ensures var s1 := RenewedAt(s, k);
            s1.trace + ReloadEvents(s1.aq, s1.ports[k + 1..]) == s.trace + ReloadEvents(s.aq, s.ports[k..])
  {
    var s1 := RenewedAt(s, k);
    var rest := ReloadEvents(s.aq, s.ports[k + 1..]);
    assert s1.ports[k + 1..] == s.ports[k + 1..] == s.ports[k..][1..];
    Assoc(s.trace, [s1.trace[|s.trace|]], rest);
  }

  /**
   * Reauthentication rewrites every port's rights in place, tells every port once, in list
   * order, and touches nothing else.
   */
  lemma {:induction false} ReauthenticateAll(s: State, k: nat)
    requires k <= |s.ports|
    ensures var t := Reauthenticate(s, k);
            && t == s.(ports := t.ports, trace := s.trace + ReloadEvents(s.aq, s.ports[k..]))
            && |t.ports| == |s.ports|
            && (forall i :: 0 <= i < k ==> t.ports[i] == s.ports[i])
            && (forall i :: k <= i < |s.ports| ==> t.ports[i] == Reauthenticated(s.aq, s.ports[i]))
    decreases |s.ports| - k
  {
    if k == |s.ports| {
    } else {
      var s1 := RenewedAt(s, k);
      ReauthenticateAll(s1, k + 1);
      ReloadEventsStep(s, k);
    }
  }

  predicate HasNullUser(ports: seq<Port>) {
    exists i :: 0 <= i < |ports| && ports[i].userid.None?
  }

  lemma {:induction false} ReloadedFrom(s: State, k: nat)
    requires k <= |s.ports|
    ensures Reloaded(s, k) ==
            if s.aq != [] && HasNullUser(s.ports[k..]) then None else Some(Reauthenticate(s, k))
    decreases |s.ports| - k
  {
    if k == |s.ports| {
    } else {
      var p, s1 := s.ports[k], RenewedAt(s, k);
      SearchMeaning(s.aq, p.userid, p.addr);
      ReloadedFrom(s1, k + 1);
      assert s1.ports[k + 1..] == s.ports[k + 1..];
      NullUserStep(s.ports, k);
    }
  }

  lemma NullUserStep(ports: seq<Port>, k: nat)
    requires k < |ports|
    ensures HasNullUser(ports[k..]) <==> ports[k].userid.None? || HasNullUser(ports[k + 1..])
  {
    var a, b := ports[k..], ports[k + 1..];
    assert a[0] == ports[k];
    assert forall i :: 0 <= i < |b| ==> a[i + 1] == b[i];
    if HasNullUser(a) {
      var i :| 0 <= i < |a| && a[i].userid.None?;
      assert i == 0 || b[i - 1].userid.None?;
    }
  }

  /** The process survives checking its ports again exactly when no null user id meets an entry. */
  lemma ReloadSurvivesIff(s: State)
    ensures Reloaded(s, 0) ==
            if s.aq != [] && HasNullUser(s.ports) then None else Some(Reauthenticate(s, 0))
  {
    ReloadedFrom(s, 0);
    assert s.ports[0..] == s.ports;
  }

  /**
   * With a file in any layout: a reload ends the process exactly when a port without ident is
   * listed and the file has an entry.
   */
  lemma ReloadEndsProcessIff(s: State, ls: seq<Conffile.Layout>, unset: Ip)
    requires ls != [] && forall l :: l in ls ==> Conffile.ValidLayout(l)
    ensures Reloaded(s.(aq := Configured(Some(Conffile.Print(ls)), unset)), 0).None? <==>
            HasNullUser(s.ports) && Conffile.Confs(ls) != []
  {
    Conffile.ConfRoundTrip(ls, unset);
    ReloadSurvivesIff(s.(aq := Configured(Some(Conffile.Print(ls)), unset)));
  }

  lemma {:induction false} MonitorsKept(a: seq<Port>, b: seq<Port>)
    requires |a| == |b| && forall i :: 0 <= i < |a| ==> a[i].flags.monitor == b[i].flags.monitor
    ensures |Monitors(a)| == |Monitors(b)|
  {
    if a == [] {
    } else {
      MonitorsKept(a[1..], b[1..]);
    }
  }

  lemma FdSetKept(a: seq<Port>, b: seq<Port>)
    requires |a| == |b| && forall i :: 0 <= i < |a| ==> a[i].fd == b[i].fd
    ensures FdSet(a) == FdSet(b)
  {}

  /** Ports that keep descriptor and monitor flag keep the books in order. */
  lemma RelabelledBooks(s: State, t: State)
    requires Books(s) && t.ps == s.ps && t.monitorcount == s.monitorcount && |t.ports| == |s.ports|
    requires forall i :: 0 <= i < |s.ports| ==>
               t.ports[i].fd == s.ports[i].fd && t.ports[i].flags.monitor == s.ports[i].flags.monitor
    ensures Books(t)
  {
    MonitorsKept(s.ports, t.ports);
    FdSetKept(s.ports, t.ports);
  }

  lemma RenewedInv(s: State, t: State)
    requires Inv(s) && t == s.(aq := t.aq, ports := t.ports, trace := t.trace)
    requires s.trace <= t.trace && |t.ports| == |s.ports|
    requires forall i :: 0 <= i < |s.ports| ==> t.ports[i] == Reauthenticated(t.aq, s.ports[i])
    ensures Inv(t)
  {
    RelabelledBooks(s, t);
    assert Rights(t);
  }

  lemma {:induction false} ReauthenticateAllPorts(s: State, t: State)
    requires t == Reauthenticate(s, 0)
    ensures t == s.(ports := t.ports, trace := s.trace + ReloadEvents(s.aq, s.ports))
    ensures |t.ports| == |s.ports|
    ensures forall i :: 0 <= i < |s.ports| ==> t.ports[i] == Reauthenticated(s.aq, s.ports[i])
  {
    assert s.ports[0..] == s.ports;
    ReauthenticateAll(s, 0);
  }

  lemma {:induction false} ReauthenticateInv(s: State, s1: State, t: State)
    requires Inv(s) && s1 == s.(aq := s1.aq) && t == Reauthenticate(s1, 0)
    ensures Inv(t) && t.aq == s1.aq && t.trace == s.trace + ReloadEvents(t.aq, s.ports)
  {
    ReauthenticateAllPorts(s1, t);
    RenewedInv(s, t);
  }

  lemma RereadConfInv(s: State, conf: Option<string>, unset: Ip)
    requires Inv(s)
    ensures var t := RereadConf(s, conf, unset);
            && Inv(t)
            && t.aq == Configured(conf, unset)
            && t.trace == s.trace + ReloadEvents(t.aq, s.ports)
  {
    var s1 := s.(aq := Configured(conf, unset));
    ReauthenticateInv(s, s1, Reauthenticate(s1, 0));
  }

  lemma DemuxInv(s: State, d: set<nat>)
    requires Inv(s)
    ensures Inv(Demux(s, d)) && Audited(s, Demux(s, d))
  {}

  lemma AcceptingInv(s: State, conn: Connection)
    requires Inv(s) && (s.pd.selcount != 0 ==> !InUse(s, conn.fd))
    ensures Inv(Accepting(s, conn)) && Audited(s, Accepting(s, conn))
  {
    if s.pd.selcount != 0 {
      PortDaemonInv(s, conn);
    }
  }

  lemma ServingInv(s: State, env: map<nat, Incoming>)
    requires Inv(s)
    ensures Inv(Serving(s, env)) && Audited(s, Serving(s, env))
  {
    WalkInv(s, 0, s.ps.selcount, env);
  }

  lemma PumpingInv(s: State, chunks: seq<Chunk>)
    requires Inv(s)
    ensures Inv(Pumping(s, chunks)) && Audited(s, Pumping(s, chunks))
  {
    FifoServerInv(s, chunks);
  }

  lemma PassInv(s: State, s0: State, conn: Connection, env: map<nat, Incoming>, chunks: seq<Chunk>)
    requires Inv(s0) && Audited(s, s0) && (s0.pd.selcount != 0 ==> !InUse(s0, conn.fd))
    ensures var t := Pumping(Serving(Accepting(s0, conn), env), chunks); Inv(t) && Audited(s, t)
  {
    var s1 := Accepting(s0, conn);
    AcceptingInv(s0, conn);
    AuditedThen(s, s0, s1);
    var s2 := Serving(s1, env);
    ServingInv(s1, env);
    AuditedThen(s, s1, s2);
    PumpingInv(s2, chunks);
    AuditedThen(s, s2, Pumping(s2, chunks));
  }

  /** One pass or one reload keeps the invariant and lets only granted lines through. */
  lemma NextInv(s: State, step: Step)
    requires Inv(s) && Possible(s, step)
    ensures Inv(Next(s, step))
    ensures step.Pass? ==> Audited(s, Next(s, step))
    ensures step.Hangup? ==> Next(s, step).trace == s.trace + ReloadEvents(Next(s, step).aq, s.ports)
  {
    match step {
      case Hangup(conf, unset) =>
        RereadConfInv(s, conf, unset);
      case Pass(d, conn, env, chunks) =>
        DemuxInv(s, d);
        PassInv(s, Demux(s, d), conn, env, chunks);
    }
  }

  // ---- whole runs --------------------------------------------------------------------------

  lemma InitialInv(listenfd: nat, controlfd: int, conf: Option<string>, unset: Ip)
    ensures Inv(Initial(listenfd, controlfd, conf, unset))
  {}

  lemma PossiblePrefix(s: State, steps: seq<Step>, m: nat)
    requires m <= |steps| && PossibleRun(s, steps)
    ensures PossibleRun(s, steps[..m])
  {
    forall n | 0 <= n < m
      ensures Possible(After(s, steps[..m][..n]), steps[..m][n])
    {
      assert steps[..m][..n] == steps[..n];
    }
  }

  lemma {:induction false} AfterInv(s: State, steps: seq<Step>)
    requires Inv(s) && PossibleRun(s, steps)
    ensures Inv(After(s, steps))
  {
    if steps == [] {
    } else {
      var n := |steps| - 1;
      PossiblePrefix(s, steps, n);
      AfterInv(s, steps[..n]);
      NextInv(After(s, steps[..n]), steps[n]);
    }
  }

  /**
   * In every state the server can reach, the counters and descriptor sets describe the listed
   * ports, the pipe record describes the pipe, and the write flags are the current rights.
   */
  lemma {:induction false} EveryReachableState(listenfd: nat, controlfd: int, conf: Option<string>, unset: Ip, steps: seq<Step>)
    requires PossibleRun(Initial(listenfd, controlfd, conf, unset), steps)
    ensures Inv(After(Initial(listenfd, controlfd, conf, unset), steps))
  {
    InitialInv(listenfd, controlfd, conf, unset);
    AfterInv(Initial(listenfd, controlfd, conf, unset), steps);
  }

  lemma AfterOneMore(s: State, steps: seq<Step>, n: nat)
    requires n < |steps|
    ensures After(s, steps[..n + 1]) == Next(After(s, steps[..n]), steps[n])
  {
    assert steps[..n + 1][..n] == steps[..n];
  }

  /**
   * A connection whose ident reply has fewer than three colons, such as every ERROR reply, is
   * read-only under any configuration file, and so is one without ident.
   */
  lemma {:induction false} UnidentifiedIsReadOnly(conf: Option<string>, unset: Ip, conn: Connection)
    requires conf.Some? ==> Conffile.ParseConf(conf.value, unset).Accepted?
    requires conn.ident.Some? ==> Ident.Colons(Ident.FirstLine(conn.ident.value)) < 3
    ensures !NewPort(Configured(conf, unset), conn).flags.write
  {
    UnidentifiedUser(conn);
    EmptyUserRefused(conf, unset, conn.addr);
    WriteNeedsRight(Configured(conf, unset), conn, UserOf(conn));
  }

  lemma {:induction false} WriteNeedsRight(aq: seq<Conf>, conn: Connection, userid: Option<string>)
    requires userid == UserOf(conn) && !Check(aq, userid, conn.addr)
    ensures !NewPort(aq, conn).flags.write
  {}

  lemma {:induction false} UnidentifiedUser(conn: Connection)
    requires conn.ident.Some? ==> Ident.Colons(Ident.FirstLine(conn.ident.value)) < 3
    ensures UserOf(conn) == None || UserOf(conn) == Some("")
  {
    if conn.ident.Some? {
      Ident.ShortReplyIsEmpty(conn.ident.value);
    }
  }

  lemma {:induction false} EmptyUserRefused(conf: Option<string>, unset: Ip, ip: Ip)
    requires conf.Some? ==> Conffile.ParseConf(conf.value, unset).Accepted?
    ensures !Check(Configured(conf, unset), None, ip) && !Check(Configured(conf, unset), Some(""), ip)
  {
    if conf.Some? {
      Conffile.EmptyUserNeverGranted(conf.value, unset, ip);
    }
  }

  /** If no `open` of the pipe ever failed in a run, the pipe is open whenever somebody monitors. */
  lemma {:induction false} PipeOpenWhileMonitored(listenfd: nat, controlfd: int, conf: Option<string>, unset: Ip, steps: seq<Step>)
    requires PossibleRun(Initial(listenfd, controlfd, conf, unset), steps)
    requires OpenFailed !in After(Initial(listenfd, controlfd, conf, unset), steps).trace
    ensures var t := After(Initial(listenfd, controlfd, conf, unset), steps);
            t.monitorcount > 0 ==> t.monitorfd != -1 && t.fs.full == {t.monitorfd} && t.fs.fullcount == 1
  {
    EveryReachableState(listenfd, controlfd, conf, unset, steps);
  }
}
