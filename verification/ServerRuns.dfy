/** Whole passes and whole runs of the server: who reaches the control FIFO, and when the pipe closes. */
module ServerRuns {
  import opened Common
  import opened Authenticate
  import opened Selection
  import opened ServerModel
  import opened ServerInvariant
  import opened PortWalks

  // ---- the control FIFO --------------------------------------------------------------------

  /** Nothing a client sent goes to the control FIFO between `s` and `t`. */
  predicate Quiet(s: State, t: State) {
    s.trace <= t.trace && forall i :: |s.trace| <= i < |t.trace| ==> !t.trace[i].ControlLine?
  }

  lemma QuietThen(s: State, t: State, u: State)
    requires Quiet(s, t) && Quiet(t, u)
    ensures Quiet(s, u)
  {
    assert forall i :: 0 <= i < |t.trace| ==> u.trace[i] == t.trace[i];
  }

  lemma {:induction false} FanOutIsQuiet(s: State, c: nat, i: nat, chunk: Chunk)
    ensures Quiet(s, FanOut(s, c, i, chunk))
    decreases s.monitorcount - i, |s.ports| - c
  {
    if c >= |s.ports| || i >= s.monitorcount {
    } else if !s.ports[c].flags.monitor {
      FanOutIsQuiet(s, c + 1, i, chunk);
    } else if i in chunk.epipe {
      var t := ClosePort(Emit(s, WriteFailed(s.ports[c].fd, chunk.data)), s.ports[c]);
      FanOutIsQuiet(t, 0, i + 1, chunk);
      QuietThen(s, t, FanOut(t, 0, i + 1, chunk));
    } else {
      var t := Emit(s, Write(s.ports[c].fd, chunk.data));
      FanOutIsQuiet(t, c + 1, i + 1, chunk);
      QuietThen(s, t, FanOut(t, c + 1, i + 1, chunk));
    }
  }

  lemma {:induction false} PumpIsQuiet(s: State, chunks: seq<Chunk>)
    ensures Quiet(s, Pump(s, chunks))
    decreases |chunks|
  {
    if chunks == [] || chunks[0].data == "" {
    } else {
      var t := FanOut(s, 0, 0, chunks[0]);
      FanOutIsQuiet(s, 0, 0, chunks[0]);
      PumpIsQuiet(t, chunks[1..]);
      QuietThen(s, t, Pump(t, chunks[1..]));
    }
  }

  lemma PumpingIsQuiet(s: State, chunks: seq<Chunk>)
    ensures Quiet(s, Pumping(s, chunks))
  {
    PumpIsQuiet(s, chunks);
  }

  /** A line forwarded by a walk is what a ready port, listed with the right to write, has sent. */
  lemma {:induction false} ForwardedLine(ports: seq<Port>, sel: set<nat>, env: map<nat, Incoming>, e: Event)
    requires e in ServedEvents(ports, sel, env) && e.ControlLine?
    ensures e.sender in ports && e.sender.fd in sel && e.sender.flags.write
    ensures e.line == Arrived(env, e.sender.fd) != ""
  {
    if ports[0].fd in sel && e in PortEvents(ports[0], env) {
    } else {
      ForwardedLine(ports[1..], sel, env, e);
    }
  }

  lemma AcceptingIsQuiet(s: State, d: set<nat>, conn: Connection)
    ensures var s1 := Accepting(Demux(s, d), conn); Quiet(s, s1) && s1.aq == s.aq && s1.ps.sel <= d
  {}

  lemma ServingIsPortServer(s: State, env: map<nat, Incoming>)
    ensures s.ps.selcount == 0 ==> PortServer(s, env) == s
    ensures Serving(s, env) == PortServer(s, env)
  {}

  /** From `s` over `s1`, before the clients are served, and `s2` behind them, to the end `t` of a pass. */
  lemma ForwardedInPass(s: State, s1: State, s2: State, t: State, env: map<nat, Incoming>, i: nat)
    requires Quiet(s, s1) && Rights(s1) && Adds(s1, s2, ServedEvents(s1.ports, s1.ps.sel, env)) && Quiet(s2, t)
    requires |s.trace| <= i < |t.trace| && t.trace[i].ControlLine?
    ensures var e := t.trace[i];
            && e.sender in s1.ports && e.sender.fd in s1.ps.sel
            && e.line == Arrived(env, e.sender.fd)
            && Check(s1.aq, e.sender.userid, e.sender.addr)
  {
    assert s2.trace[..|s1.trace|] == s1.trace && t.trace[..|s2.trace|] == s2.trace;
    assert |s1.trace| <= i < |s2.trace| && s2.trace[i] == t.trace[i];
    ClientsHas(s2.trace, |s1.trace|, i);
    ForwardedLine(s1.ports, s1.ps.sel, env, t.trace[i]);
  }

  /** In one pass: where a client's line on the control FIFO comes from. */
  lemma PassForwards(s: State, d: set<nat>, conn: Connection, env: map<nat, Incoming>, chunks: seq<Chunk>, i: nat)
    requires Inv(s) && Possible(s, Pass(d, conn, env, chunks))
    requires var t := Next(s, Pass(d, conn, env, chunks)); |s.trace| <= i < |t.trace| && t.trace[i].ControlLine?
    ensures var s1, e := Accepting(Demux(s, d), conn), Next(s, Pass(d, conn, env, chunks)).trace[i];
            && e.sender in s1.ports && e.sender.fd in d
            && e.line == Arrived(env, e.sender.fd)
            && Check(s.aq, e.sender.userid, e.sender.addr)
  {
    var s1 := Accepting(Demux(s, d), conn);
    DemuxInv(s, d);
    AcceptingInv(Demux(s, d), conn);
    AcceptingIsQuiet(s, d, conn);
    PortServerServesReady(s, d, conn, env);
    ServingIsPortServer(s1, env);
    PumpingIsQuiet(PortServer(s1, env), chunks);
    ForwardedInPass(s, s1, PortServer(s1, env), Pumping(PortServer(s1, env), chunks), env, i);
  }

  /**
   * Over whole runs: a client's line that step `n` puts on the control FIFO is put there by a
   * pass, word for word as one of the ports listed and ready in that pass sent it, and the access
   * list in force at that step grants that port's user the port's address. A reload puts none there.
   */
  lemma {:induction false} ControlFifoIsGuarded(listenfd: nat, controlfd: int, conf: Option<string>, unset: Ip,
                                                steps: seq<Step>, n: nat, i: nat)
    requires n < |steps| && PossibleRun(Initial(listenfd, controlfd, conf, unset), steps)
    requires var s0 := Initial(listenfd, controlfd, conf, unset);
             && |After(s0, steps[..n]).trace| <= i < |After(s0, steps[..n + 1]).trace|
             && After(s0, steps[..n + 1]).trace[i].ControlLine?
    ensures var s0 := Initial(listenfd, controlfd, conf, unset);
            var s, e := After(s0, steps[..n]), After(s0, steps[..n + 1]).trace[i];
            && steps[n].Pass?
            && e.sender in Accepting(Demux(s, steps[n].d), steps[n].conn).ports
            && e.sender.fd in steps[n].d
            && e.line == Arrived(steps[n].env, e.sender.fd)
            && Check(s.aq, e.sender.userid, e.sender.addr)
            && After(s0, steps[..n + 1]).aq == s.aq
  {
    var s0 := Initial(listenfd, controlfd, conf, unset);
    var s := After(s0, steps[..n]);
    PossiblePrefix(s0, steps, n);
    AfterOneMore(s0, steps, n);
    EveryReachableState(listenfd, controlfd, conf, unset, steps[..n]);
    NextInv(s, steps[n]);
    if steps[n].Pass? {
      PassForwards(s, steps[n].d, steps[n].conn, steps[n].env, steps[n].chunks, i);
    }
  }

  // ---- the end of the pipe -----------------------------------------------------------------

  /** Clients can open the pipe, but neither close nor replace it. */
  lemma {:induction false} WalkKeepsPipe(s: State, k: nat, budget: int, env: map<nat, Incoming>)
    requires s.monitorfd != -1
    ensures Walk(s, k, budget, env).monitorfd == s.monitorfd && Walk(s, k, budget, env).fs == s.fs
    decreases budget, |s.ports| - k
  {
    if k >= |s.ports| || budget <= 0 {
    } else if s.ports[k].fd !in s.ps.sel {
      WalkKeepsPipe(s, k + 1, budget, env);
    } else {
      WalkKeepsPipe(ServeAt(s, k, env), if Leaves(s.ports[k], env) then k else k + 1, budget - 1, env);
    }
  }

  /**
   * In any pass: if the pipe is ready and nobody monitors once the clients are served, the pass
   * closes the pipe, resets its record and ends without another write to any client.
   */
  lemma IdlePipeCloses(s: State, d: set<nat>, conn: Connection, env: map<nat, Incoming>, chunks: seq<Chunk>)
    requires Inv(s) && Possible(s, Pass(d, conn, env, chunks))
    requires var s2 := Serving(Accepting(Demux(s, d), conn), env); s2.fs.selcount != 0 && s2.monitorcount == 0
    ensures var s2, t := Serving(Accepting(Demux(s, d), conn), env), Next(s, Pass(d, conn, env, chunks));
            && s.monitorfd != -1
            && t == s2.(monitorfd := -1, fs := NO_FDS, trace := s2.trace + [Close(s.monitorfd)])
  {
    var s1 := Accepting(Demux(s, d), conn);
    if s.monitorfd == -1 {
      DemuxInv(s, d);
      AcceptingInv(Demux(s, d), conn);
      WalkWithoutPipe(s1, 0, s1.ps.selcount, env);
    } else {
      WalkKeepsPipe(s1, 0, s1.ps.selcount, env);
    }
  }

  /** Opening the pipe in a pass does not make it ready in that pass. */
  lemma {:induction false} WalkWithoutPipe(s: State, k: nat, budget: int, env: map<nat, Incoming>)
    ensures Walk(s, k, budget, env).fs.selcount == s.fs.selcount
    decreases budget, |s.ports| - k
  {
    if k >= |s.ports| || budget <= 0 {
    } else if s.ports[k].fd !in s.ps.sel {
      WalkWithoutPipe(s, k + 1, budget, env);
    } else {
      WalkWithoutPipe(ServeAt(s, k, env), if Leaves(s.ports[k], env) then k else k + 1, budget - 1, env);
    }
  }
}
