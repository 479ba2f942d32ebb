/** What one call of `port_server` does, for every input: the list it leaves and the events it causes. */
module PortWalks {
  import opened Common
  import opened Selection
  import opened ServerModel
  import opened ServerInvariant

  // ---- events ------------------------------------------------------------------------------

  /** Everything but the opening of the monitor pipe is done for a client. */
  predicate IsClient(e: Event) {
    !e.ControlMonitor? && !e.OpenFailed?
  }

  /** The client events from position `from` of the trace on. */
  function Clients(trace: seq<Event>, from: nat): seq<Event> {
    if |trace| <= from then []
    else
      var n := |trace| - 1;
      Clients(trace[..n], from) + if IsClient(trace[n]) then [trace[n]] else []
  }

  lemma {:induction false} ClientsSplit(trace: seq<Event>, from: nat, mid: nat)
    requires from <= mid <= |trace|
    ensures Clients(trace, from) == Clients(trace[..mid], from) + Clients(trace, mid)
  {
    if mid == |trace| {
      assert trace[..mid] == trace;
    } else {
      var n := |trace| - 1;
      ClientsSplit(trace[..n], from, mid);
      assert trace[..n][..mid] == trace[..mid];
      Assoc(Clients(trace[..mid], from), Clients(trace[..n], mid), if IsClient(trace[n]) then [trace[n]] else []);
    }
  }

  lemma {:induction false} ClientsHas(trace: seq<Event>, from: nat, i: nat)
    requires from <= i < |trace| && IsClient(trace[i])
    ensures trace[i] in Clients(trace, from)
  {
    if i == |trace| - 1 {
    } else {
      ClientsHas(trace[..|trace| - 1], from, i);
    }
  }

  /** From `s` to `t` the trace grows, and its new client events are exactly `es`. */
  predicate Adds(s: State, t: State, es: seq<Event>) {
    s.trace <= t.trace && Clients(t.trace, |s.trace|) == es
  }

  lemma AddsNothing(s: State, t: State)
    requires t.trace == s.trace
    ensures Adds(s, t, [])
  {}

  lemma AddsOne(s: State, t: State, e: Event)
    requires t.trace == s.trace + [e]
    ensures Adds(s, t, if IsClient(e) then [e] else [])
  {
    assert t.trace[..|s.trace|] == s.trace;
  }

  lemma AddsThen(s: State, t: State, u: State, a: seq<Event>, b: seq<Event>)
    requires Adds(s, t, a) && Adds(t, u, b)
    ensures Adds(s, u, a + b)
  {
    ClientsSplit(u.trace, |s.trace|, |t.trace|);
    assert u.trace[..|t.trace|] == t.trace;
  }

  // ---- what a line asks for ----------------------------------------------------------------

  predicate AsksStop(line: string) {
    Begins(line, "monitor off\r") || Begins(line, "monitor\r")
  }

  /** "monitor" and anything but the "off" that ends it. */
  predicate AsksStart(line: string) {
    Begins(line, "monitor ") && !Begins(line, "monitor off\r")
  }

  /** Nothing was read, or a line that asks to be disconnected. */
  predicate AsksEnd(line: string) {
    line == "" || Begins(line, "close")
  }

  lemma BeginsAt(line: string, word: string, k: nat)
    requires Begins(line, word) && k < |word|
    ensures SameLetter(line[k], word[k])
  {
    assert line[..|word|][k] == line[k];
  }

  /** A line is at most one of the three. */
  lemma AsksOneThing(line: string)
    ensures !(AsksStop(line) && AsksStart(line)) && !(AsksStop(line) && AsksEnd(line)) && !(AsksStart(line) && AsksEnd(line))
  {
    if Begins(line, "close") {
      BeginsAt(line, "close", 0);
    }
    if Begins(line, "monitor ") {
      BeginsAt(line, "monitor ", 0);
      BeginsAt(line, "monitor ", 7);
    }
    if Begins(line, "monitor\r") {
      BeginsAt(line, "monitor\r", 0);
      BeginsAt(line, "monitor\r", 7);
    }
    if Begins(line, "monitor off\r") {
      BeginsAt(line, "monitor off\r", 0);
    }
  }

  /** The four comparisons of `parse_incoming`, in their order, tell what the text asks for. */
  lemma ClassifyMeaning(line: string)
    requires line != ""
    ensures Classify(line) == StopMonitor <==> AsksStop(line)
    ensures Classify(line) == StartMonitor <==> AsksStart(line)
    ensures Classify(line) == Quit <==> AsksEnd(line)
  {
    PrefixMeaning(line, "monitor off\r");
    PrefixMeaning(line, "monitor\r");
    PrefixMeaning(line, "monitor ");
    PrefixMeaning(line, "close");
    AsksOneThing(line);
  }

  lemma LeavesMeaning(p: Port, env: map<nat, Incoming>)
    ensures Leaves(p, env) <==> AsksEnd(Arrived(env, p.fd))
  {
    if Arrived(env, p.fd) != "" {
      ClassifyMeaning(Arrived(env, p.fd));
    }
  }

  // ---- one port ----------------------------------------------------------------------------

  /** What is left of a ready port in the list after it was served: itself or nothing. */
  function Kept(p: Port, env: map<nat, Incoming>): seq<Port> {
    var line := Arrived(env, p.fd);
    if AsksEnd(line) then []
    else if AsksStop(line) then [p.(flags := p.flags.(monitor := false))]
    else if AsksStart(line) then [p.(flags := p.flags.(monitor := true))]
    else [p]
  }

  /** What the server does for a line: close, forward it, deny it, or only change the monitor flag. */
  function Answer(p: Port, env: map<nat, Incoming>): seq<Event> {
    var line := Arrived(env, p.fd);
    if AsksEnd(line) then [Close(p.fd)]
    else if AsksStop(line) || AsksStart(line) then []
    else if p.flags.write then [ControlLine(p, line)]
    else [Write(p.fd, Denial(line))]
  }

  /** `t` is `s` with position `k` replaced by what serving leaves of it, after the answer to its line. */
  predicate ServesOne(s: State, k: nat, env: map<nat, Incoming>, t: State)
    requires k < |s.ports|
  {
    && Books(t)
    && t.ps.sel == s.ps.sel
    && t.ports == s.ports[..k] + Kept(s.ports[k], env) + s.ports[k + 1..]
    && Adds(s, t, Answer(s.ports[k], env))
  }

  lemma UnlistedServes(s: State, k: nat, env: map<nat, Incoming>, t: State)
    requires k < |s.ports| && Kept(s.ports[k], env) == [] && Answer(s.ports[k], env) == [Close(s.ports[k].fd)]
    requires Books(t) && t == Unlisted(Emit(s, Close(s.ports[k].fd)), k).(monitorcount := t.monitorcount)
    ensures ServesOne(s, k, env, t)
  {
    AddsOne(s, t, Close(s.ports[k].fd));
    assert s.ports[..k] + [] + s.ports[k + 1..] == Without(s.ports, k);
  }

  lemma CloseServes(s: State, k: nat, env: map<nat, Incoming>)
    requires Books(s) && k < |s.ports| && AsksEnd(Arrived(env, s.ports[k].fd))
    ensures ServesOne(s, k, env, ClosePort(s, s.ports[k]))
  {
    ClosePortAt(s, k);
    UnlistedServes(s, k, env, ClosePort(s, s.ports[k]));
  }

  lemma StayServes(s: State, k: nat, env: map<nat, Incoming>, t: State)
    requires Books(s) && k < |s.ports| && Kept(s.ports[k], env) == [s.ports[k]]
    requires t == s.(trace := t.trace) && Adds(s, t, Answer(s.ports[k], env))
    ensures ServesOne(s, k, env, t)
  {
    assert s.ports[..k] + [s.ports[k]] + s.ports[k + 1..] == s.ports;
  }

  lemma SetMonitorServes(s: State, k: nat, on: bool, env: map<nat, Incoming>)
    requires Books(s) && k < |s.ports| && s.ports[k].flags.monitor != on && Answer(s.ports[k], env) == []
    requires Kept(s.ports[k], env) == [s.ports[k].(flags := s.ports[k].flags.(monitor := on))]
    ensures ServesOne(s, k, env, SetMonitor(s, k, on))
  {
    SetMonitorBooks(s, k, on);
    AddsNothing(s, SetMonitor(s, k, on));
    assert SetMonitor(s, k, on).ports == s.ports[..k] + Kept(s.ports[k], env) + s.ports[k + 1..];
  }

  lemma MonitorOpenServes(s: State, k: nat, env: map<nat, Incoming>, s1: State, inc: Incoming)
    requires k < |s.ports| && Answer(s.ports[k], env) == [] && ServesOne(s, k, env, s1) && s1.trace == s.trace
    ensures ServesOne(s, k, env, MonitorOpen(s1, inc.offer, inc.fifo))
  {
    var t := MonitorOpen(s1, inc.offer, inc.fifo);
    if s1.monitorfd == -1 {
      AddsOne(s, t, t.trace[|s.trace|]);
    }
  }

  lemma ParseIncomingServes(s: State, k: nat, env: map<nat, Incoming>)
    requires Books(s) && k < |s.ports| && Arrived(env, s.ports[k].fd) != ""
    ensures ServesOne(s, k, env, ParseIncoming(s, k, env[s.ports[k].fd]))
  {
    var p := s.ports[k];
    var inc := env[p.fd];
    ClassifyMeaning(inc.data);
    match Classify(inc.data) {
      case StopMonitor =>
        if p.flags.monitor {
          SetMonitorServes(s, k, false, env);
        } else {
          AddsNothing(s, s);
          StayServes(s, k, env, s);
        }
      case StartMonitor =>
        if p.flags.monitor {
          AddsNothing(s, s);
          StayServes(s, k, env, s);
        } else {
          SetMonitorServes(s, k, true, env);
          MonitorOpenServes(s, k, env, SetMonitor(s, k, true), inc);
        }
      case Quit =>
        CloseServes(s, k, env);
      case Other =>
        var e := if p.flags.write then ControlLine(p, inc.data) else Write(p.fd, Denial(inc.data));
        AddsOne(s, Emit(s, e), e);
        StayServes(s, k, env, Emit(s, e));
    }
  }

  /** All events of one ready port. */
  function PortEvents(p: Port, env: map<nat, Incoming>): seq<Event> {
    [Read(p.fd)] + Answer(p, env)
  }

  /**
   * `t` is `s` after serving position `k`: exactly that port's events, and the walk goes on at
   * position `j`, with everything that was behind `k` still ahead.
   */
  predicate Advances(s: State, k: nat, env: map<nat, Incoming>, t: State, j: nat)
    requires k < |s.ports|
  {
    && Books(t)
    && t.ps.sel == s.ps.sel
    && j <= |t.ports|
    && t.ports[..j] == s.ports[..k] + Kept(s.ports[k], env)
    && t.ports[j..] == s.ports[k + 1..]
    && Adds(s, t, PortEvents(s.ports[k], env))
  }

  lemma ServeAtAdvances(s: State, k: nat, env: map<nat, Incoming>)
    requires Books(s) && k < |s.ports|
    ensures Advances(s, k, env, ServeAt(s, k, env), if Leaves(s.ports[k], env) then k else k + 1)
  {
    var p, t := s.ports[k], ServeAt(s, k, env);
    var s1 := Emit(s, Read(p.fd));
    LeavesMeaning(p, env);
    AddsOne(s, s1, Read(p.fd));
    if Arrived(env, p.fd) == "" {
      CloseServes(s1, k, env);
    } else {
      ParseIncomingServes(s1, k, env);
    }
    AddsThen(s, s1, t, [Read(p.fd)], Answer(p, env));
    assert |Kept(p, env)| == if Leaves(p, env) then 0 else 1;
  }

  /**
   * What serving a port does, told by what was read from it. Nothing or "close": the port is
   * closed and gone. "monitor off" or "monitor" and a carriage return: it stays and monitors no
   * more. Another line after "monitor" and a blank: it stays and monitors. Any other line: it
   * stays as it is, and the line goes to the control FIFO if it may write, and is denied otherwise.
   */
  lemma ServedLine(s: State, k: nat, env: map<nat, Incoming>)
    requires Books(s) && k < |s.ports|
    ensures var p, t := s.ports[k], ServeAt(s, k, env);
            var line := Arrived(env, p.fd);
            if line == "" || Begins(line, "close") then
              t.ports == Without(s.ports, k) && Adds(s, t, [Read(p.fd), Close(p.fd)])
            else if Begins(line, "monitor off\r") || Begins(line, "monitor\r") then
              t.ports == s.ports[k := p.(flags := p.flags.(monitor := false))] && Adds(s, t, [Read(p.fd)])
            else if Begins(line, "monitor ") then
              t.ports == s.ports[k := p.(flags := p.flags.(monitor := true))] && Adds(s, t, [Read(p.fd)])
            else
              && t.ports == s.ports
              && Adds(s, t, [Read(p.fd), if p.flags.write then ControlLine(p, line) else Write(p.fd, Denial(line))])
  {
    ServeAtAdvances(s, k, env);
    ServedInPlace(s, k, env, ServeAt(s, k, env), if Leaves(s.ports[k], env) then k else k + 1);
  }

  lemma ServedInPlace(s: State, k: nat, env: map<nat, Incoming>, t: State, j: nat)
    requires k < |s.ports| && Advances(s, k, env, t, j)
    ensures var p := s.ports[k];
            && t.ports == (if Kept(p, env) == [] then Without(s.ports, k) else s.ports[k := Kept(p, env)[0]])
            && Adds(s, t, [Read(p.fd)] + Answer(p, env))
  {
    assert t.ports == t.ports[..j] + t.ports[j..];
    PutBack(s.ports, k, Kept(s.ports[k], env), t.ports);
  }

  lemma PutBack(ports: seq<Port>, k: nat, kept: seq<Port>, all: seq<Port>)
    requires k < |ports| && |kept| <= 1 && all == ports[..k] + kept + ports[k + 1..]
    ensures all == if kept == [] then Without(ports, k) else ports[k := kept[0]]
  {
    if kept == [] {
      assert ports[..k] + [] == ports[..k];
    }
  }

  /** Any spelling of a word, with anything behind it, begins with the word. */
  lemma SpellingBegins(w: string, word: string, rest: string)
    requires Spells(w, word)
    ensures Begins(w + rest, word)
  {
    assert (w + rest)[..|word|] == w;
  }

  /**
   * The first monitor opens the pipe and asks diald, by name, to write to it; a pipe that is
   * open already is left alone, and one that cannot be opened is given up.
   */
  lemma StartOpensPipe(s: State, k: nat, env: map<nat, Incoming>)
    requires Inv(s) && k < |s.ports| && !s.ports[k].flags.monitor && AsksStart(Arrived(env, s.ports[k].fd))
    ensures var p, t := s.ports[k], ServeAt(s, k, env);
            var inc := env[p.fd];
            if s.monitorfd != -1 then
              t.trace == s.trace + [Read(p.fd)] && t.monitorfd == s.monitorfd && t.fs == s.fs
            else if inc.offer >= 0 && !InUse(s, inc.offer) then
              && t.trace == s.trace + [Read(p.fd), ControlMonitor("monitor " + inc.fifo + "\n")]
              && t.monitorfd == inc.offer && t.fs.full == {inc.offer} && t.fs.fullcount == 1
            else
              t.trace == s.trace + [Read(p.fd), OpenFailed] && t.monitorfd == -1 && t.fs == s.fs
  {
    var line := Arrived(env, s.ports[k].fd);
    AsksOneThing(line);
    ClassifyMeaning(line);
  }

  // ---- the walk ----------------------------------------------------------------------------

  /** The list after every ready port was served, position by position. */
  function Served(ports: seq<Port>, sel: set<nat>, env: map<nat, Incoming>): seq<Port> {
    if ports == [] then []
    else (if ports[0].fd in sel then Kept(ports[0], env) else [ports[0]]) + Served(ports[1..], sel, env)
  }

  /** The events of the ready ports, in list order. */
  function ServedEvents(ports: seq<Port>, sel: set<nat>, env: map<nat, Incoming>): seq<Event> {
    if ports == [] then []
    else if ports[0].fd in sel then PortEvents(ports[0], env) + ServedEvents(ports[1..], sel, env)
    else ServedEvents(ports[1..], sel, env)
  }

  lemma ServedStep(ports: seq<Port>, k: nat, sel: set<nat>, env: map<nat, Incoming>)
    requires k < |ports|
    ensures ports[k].fd in sel ==>
              Ready(ports[k..], sel) == [ports[k]] + Ready(ports[k + 1..], sel)
              && Served(ports[k..], sel, env) == Kept(ports[k], env) + Served(ports[k + 1..], sel, env)
              && ServedEvents(ports[k..], sel, env) == PortEvents(ports[k], env) + ServedEvents(ports[k + 1..], sel, env)
    ensures ports[k].fd !in sel ==>
              Ready(ports[k..], sel) == Ready(ports[k + 1..], sel)
              && Served(ports[k..], sel, env) == [ports[k]] + Served(ports[k + 1..], sel, env)
              && ServedEvents(ports[k..], sel, env) == ServedEvents(ports[k + 1..], sel, env)
  {
    assert ports[k..][1..] == ports[k + 1..];
  }

  predicate WalkOutcome(s: State, k: nat, env: map<nat, Incoming>, t: State)
    requires k <= |s.ports|
  {
    && Books(t)
    && t.ports == s.ports[..k] + Served(s.ports[k..], s.ps.sel, env)
    && Adds(s, t, ServedEvents(s.ports[k..], s.ps.sel, env))
  }

  /** Serving position `k` and then walking on from the right place is walking from `k`. */
  lemma WalkOutcomeStep(s: State, k: nat, env: map<nat, Incoming>, s1: State, j: nat, t: State)
    requires k < |s.ports| && s.ports[k].fd in s.ps.sel
    requires Advances(s, k, env, s1, j) && WalkOutcome(s1, j, env, t)
    ensures WalkOutcome(s, k, env, t)
  {
    var p, sel := s.ports[k], s.ps.sel;
    var rest := s.ports[k + 1..];
    ServedStep(s.ports, k, sel, env);
    AddsThen(s, s1, t, PortEvents(p, env), ServedEvents(rest, sel, env));
    Assoc(s.ports[..k], Kept(p, env), Served(rest, sel, env));
  }

  lemma WalkOutcomeSkip(s: State, k: nat, env: map<nat, Incoming>, t: State)
    requires k < |s.ports| && s.ports[k].fd !in s.ps.sel
    requires WalkOutcome(s, k + 1, env, t)
    ensures WalkOutcome(s, k, env, t)
  {
    ServedStep(s.ports, k, s.ps.sel, env);
    Assoc(s.ports[..k], [s.ports[k]], Served(s.ports[k + 1..], s.ps.sel, env));
    assert s.ports[..k + 1] == s.ports[..k] + [s.ports[k]];
  }

  lemma WalkOutcomeDone(s: State, k: nat, env: map<nat, Incoming>)
    requires Books(s) && k <= |s.ports| && Ready(s.ports[k..], s.ps.sel) == []
    ensures WalkOutcome(s, k, env, s)
  {
    NothingReady(s.ports[k..], s.ps.sel, env);
    AddsNothing(s, s);
    assert s.ports[..k] + s.ports[k..] == s.ports;
  }

  lemma {:induction false} WalkEffect(s: State, k: nat, budget: int, env: map<nat, Incoming>)
    requires Books(s) && k <= |s.ports|
    requires budget >= |Ready(s.ports[k..], s.ps.sel)|
    ensures WalkOutcome(s, k, env, Walk(s, k, budget, env))
    decreases budget, |s.ports| - k, 1
  {
    if k == |s.ports| || budget <= 0 {
      WalkOutcomeDone(s, k, env);
    } else if s.ports[k].fd !in s.ps.sel {
      ServedStep(s.ports, k, s.ps.sel, env);
      WalkEffect(s, k + 1, budget, env);
      WalkOutcomeSkip(s, k, env, Walk(s, k + 1, budget, env));
    } else {
      ServeAtAdvances(s, k, env);
      WalkReady(s, k, budget, env, ServeAt(s, k, env), if Leaves(s.ports[k], env) then k else k + 1);
    }
  }

  lemma {:induction false} WalkReady(s: State, k: nat, budget: int, env: map<nat, Incoming>, s1: State, j: nat)
    requires k < |s.ports| && s.ports[k].fd in s.ps.sel && Advances(s, k, env, s1, j)
    requires budget > 0 && budget >= |Ready(s.ports[k..], s.ps.sel)|
    ensures WalkOutcome(s, k, env, Walk(s1, j, budget - 1, env))
    decreases budget, |s.ports| - k, 0
  {
    ServedStep(s.ports, k, s.ps.sel, env);
    WalkEffect(s1, j, budget - 1, env);
    WalkOutcomeStep(s, k, env, s1, j, Walk(s1, j, budget - 1, env));
  }

  lemma {:induction false} NothingReady(ports: seq<Port>, sel: set<nat>, env: map<nat, Incoming>)
    requires Ready(ports, sel) == []
    ensures Served(ports, sel, env) == ports && ServedEvents(ports, sel, env) == []
  {
    if ports == [] {
    } else {
      NothingReady(ports[1..], sel, env);
    }
  }

  lemma {:induction false} ReadyCount(ports: seq<Port>, sel: set<nat>)
    requires Distinct(ports)
    ensures |Ready(ports, sel)| == |FdSet(ports) * sel|
  {
    if ports == [] {
    } else {
      var fd, rest := ports[0].fd, ports[1..];
      ReadyCount(rest, sel);
      assert fd !in FdSet(rest);
      assert FdSet(ports) == {fd} + FdSet(rest);
      if fd in sel {
        assert FdSet(ports) * sel == {fd} + FdSet(rest) * sel;
      } else {
        assert FdSet(ports) * sel == FdSet(rest) * sel;
      }
    }
  }

  /** A connection accepted in this pass is not among the ready ports; `selcount` counts the others. */
  lemma ReadyAfterAccepting(s: State, d: set<nat>, conn: Connection)
    requires Inv(s) && Inv(Accepting(Demux(s, d), conn))
    ensures var s1 := Accepting(Demux(s, d), conn);
            s1.ps.sel == FdSet(s.ports) * d && s1.ps.selcount == |Ready(s1.ports, s1.ps.sel)|
  {
    var s1 := Accepting(Demux(s, d), conn);
    assert s.ps.full <= s1.ps.full;
    assert FdSet(s1.ports) * s1.ps.sel == s1.ps.sel;
    ReadyCount(s1.ports, s1.ps.sel);
  }

  /**
   * `port_server` in any pass. The ready ports are served in list order, each once: it is read,
   * and what it sent is answered as `Answer` says, so a line is forwarded to the control FIFO
   * exactly once if its port may write. No other port is touched, each served port stays in its
   * place or is gone, and the loop's stop at `selcount` skips nobody, whichever ports close.
   */
  lemma PortServerServesReady(s: State, d: set<nat>, conn: Connection, env: map<nat, Incoming>)
    requires Inv(s) && Possible(s, Pass(d, conn, env, []))
    ensures var s1 := Accepting(Demux(s, d), conn);
            var t := PortServer(s1, env);
            && s1.ps.selcount == |Ready(s1.ports, s1.ps.sel)|
            && s1.ps.sel == FdSet(s.ports) * d
            && t.ports == Served(s1.ports, s1.ps.sel, env)
            && Adds(s1, t, ServedEvents(s1.ports, s1.ps.sel, env))
  {
    DemuxInv(s, d);
    AcceptingInv(Demux(s, d), conn);
    ReadyAfterAccepting(s, d, conn);
    var s1 := Accepting(Demux(s, d), conn);
    assert s1.ports[0..] == s1.ports;
    WalkEffect(s1, 0, s1.ps.selcount, env);
  }
}
