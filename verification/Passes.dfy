/**
 * A whole pass of the main loop: what becomes of the list, and every event for a client in
 * order, for every answer of the operating system.
 */
module Passes {
  import opened Common
  import opened Authenticate
  import opened Selection
  import opened ServerModel
  import opened ServerInvariant
  import opened PortWalks
  import Deliveries
  import opened FanOuts
  import opened Rounds
  import opened ServerRuns

  lemma {:induction false} AddsEvents(s: State, t: State, es: seq<Event>)
    requires t.trace == s.trace + es && forall e :: e in es ==> IsClient(e)
    ensures Adds(s, t, es)
    decreases |es|
  {
    if es == [] {
      assert s.trace + [] == s.trace;
    } else {
      var n := |es| - 1;
      var mid := s.(trace := s.trace + es[..n]);
      AddsEvents(s, mid, es[..n]);
      assert t.trace == mid.trace + [es[n]] && es == es[..n] + [es[n]];
      AddsOne(mid, t, es[n]);
      AddsThen(s, mid, t, es[..n], [es[n]]);
    }
  }

  lemma {:induction false} RoundIsForClients(fds: seq<nat>, pos: nat, i: nat, chunk: Chunk)
    ensures forall e :: e in RoundEvents(fds, pos, i, chunk) ==> IsClient(e)
    decreases |fds| - i
  {
    if pos >= |fds| || i >= |fds| {
    } else if i in chunk.epipe {
      RoundIsForClients(Deliveries.Dropped(fds, pos), 0, i + 1, chunk);
    } else {
      RoundIsForClients(fds, pos + 1, i + 1, chunk);
    }
  }

  lemma {:induction false} PumpIsForClients(fds: seq<nat>, chunks: seq<Chunk>)
    ensures forall e :: e in PumpEvents(fds, chunks) ==> IsClient(e)
    decreases |chunks|
  {
    if chunks == [] || chunks[0].data == "" || fds == [] {
    } else {
      RoundIsForClients(fds, 0, 0, chunks[0]);
      PumpIsForClients(RoundLeft(fds, 0, 0, chunks[0].epipe), chunks[1..]);
    }
  }

  // ---- the three dispatches ----------------------------------------------------------------

  /** The ports a pass lists before it serves them. */
  function Listed(s: State, d: set<nat>, conn: Connection): seq<Port> {
    (if s.pd.full * d == {} then [] else [NewPort(s.aq, conn)]) + s.ports
  }

  function Greeted(s: State, d: set<nat>, conn: Connection): seq<Event> {
    if s.pd.full * d == {} then [] else [Write(conn.fd, GreetingFor(s.aq, conn))]
  }

  lemma AcceptingEffect(s: State, d: set<nat>, conn: Connection)
    ensures var s1 := Accepting(Demux(s, d), conn);
            && s1.ports == Listed(s, d, conn)
            && s1.trace == s.trace + Greeted(s, d, conn)
            && s1.fs == Dispatched(s.fs, d)
            && Adds(s, s1, Greeted(s, d, conn))
  {
    var s1 := Accepting(Demux(s, d), conn);
    if s.pd.full * d == {} {
      assert [] + s.ports == s.ports && s.trace + [] == s.trace;
      AddsNothing(s, s1);
    } else {
      AddsOne(s, s1, Write(conn.fd, GreetingFor(s.aq, conn)));
    }
  }

  /** The list and the events of the pipe's turn, over the list the clients' turn has left. */
  function Pumped(ports: seq<Port>, piped: bool, chunks: seq<Chunk>): seq<Port> {
    if !piped then ports else Staying(ports, PumpLeft(FdsOf(Monitors(ports)), chunks))
  }

  function PipeEvents(ports: seq<Port>, monitorfd: int, piped: bool, chunks: seq<Chunk>): seq<Event> {
    if !piped then []
    else if Monitors(ports) == [] then [Close(monitorfd)]
    else PumpEvents(FdsOf(Monitors(ports)), chunks)
  }

  lemma NobodyLeaves(ports: seq<Port>, chunks: seq<Chunk>)
    requires Monitors(ports) == []
    ensures Staying(ports, PumpLeft(FdsOf(Monitors(ports)), chunks)) == ports
  {
    StayingMonitors(ports);
  }

  lemma PumpingEffect(s: State, monitorfd: int, chunks: seq<Chunk>)
    requires Books(s) && (s.fs.selcount != 0 ==> s.monitorfd == monitorfd != -1)
    ensures var t := Pumping(s, chunks);
            && t.ports == Pumped(s.ports, s.fs.selcount != 0, chunks)
            && Adds(s, t, PipeEvents(s.ports, monitorfd, s.fs.selcount != 0, chunks))
  {
    var t := Pumping(s, chunks);
    if s.fs.selcount == 0 {
      AddsNothing(s, t);
    } else if s.monitorcount == 0 {
      NobodyLeaves(s.ports, chunks);
      AddsOne(s, t, Close(monitorfd));
    } else {
      var fds := FdsOf(Monitors(s.ports));
      FifoServerRounds(s, chunks);
      PumpIsForClients(fds, chunks);
      AddsEvents(s, t, PumpEvents(fds, chunks));
    }
  }

  /** Serving the clients does not touch a pipe that is ready. */
  lemma ServingKeepsReadyPipe(s: State, s1: State, d: set<nat>, env: map<nat, Incoming>)
    requires Pipe(s) && s1.fs == Dispatched(s.fs, d) && s1.monitorfd == s.monitorfd
    ensures var s2 := PortServer(s1, env);
            && (s2.fs.selcount != 0 <==> s.fs.full * d != {})
            && (s2.fs.selcount != 0 ==> s2.monitorfd == s.monitorfd != -1)
  {
    WalkWithoutPipe(s1, 0, s1.ps.selcount, env);
    if s.monitorfd != -1 {
      WalkKeepsPipe(s1, 0, s1.ps.selcount, env);
    }
  }

  // ---- the pass ----------------------------------------------------------------------------

  /** A pass up to the pipe's turn: `s1` with the new port listed, `s2` with the clients served. */
  lemma BeforePipe(s: State, d: set<nat>, conn: Connection, env: map<nat, Incoming>) returns (s1: State, s2: State)
    requires Inv(s) && Possible(s, Pass(d, conn, env, []))
    ensures s1 == Accepting(Demux(s, d), conn) && s2 == Serving(s1, env) && Books(s2)
    ensures s2.ports == Served(Listed(s, d, conn), FdSet(s.ports) * d, env)
    ensures Adds(s, s1, Greeted(s, d, conn))
    ensures Adds(s1, s2, ServedEvents(Listed(s, d, conn), FdSet(s.ports) * d, env))
    ensures s2.fs.selcount != 0 <==> s.fs.full * d != {}
    ensures s2.fs.selcount != 0 ==> s2.monitorfd == s.monitorfd != -1
  {
    s1 := Accepting(Demux(s, d), conn);
    s2 := PortServer(s1, env);
    DemuxInv(s, d);
    AcceptingInv(Demux(s, d), conn);
    AcceptingEffect(s, d, conn);
    PortServerServesReady(s, d, conn, env);
    ServingIsPortServer(s1, env);
    ServingInv(s1, env);
    ServingKeepsReadyPipe(s, s1, d, env);
  }

  /**
   * One pass, for every answer of the operating system. If the listener is ready, the new port
   * goes to the head of the list and is greeted. Then every port of the old list that is ready
   * is served, in list order. Then, if the pipe was ready, it is closed when nobody monitors,
   * and otherwise its chunks go out round by round. There are no other events for clients.
   */
  lemma PassEffect(s: State, d: set<nat>, conn: Connection, env: map<nat, Incoming>, chunks: seq<Chunk>)
    requires Inv(s) && Possible(s, Pass(d, conn, env, chunks))
    ensures var t, sel, piped := Next(s, Pass(d, conn, env, chunks)), FdSet(s.ports) * d, s.fs.full * d != {};
            var served := Served(Listed(s, d, conn), sel, env);
            && t.ports == Pumped(served, piped, chunks)
            && Adds(s, t, Greeted(s, d, conn) + ServedEvents(Listed(s, d, conn), sel, env) +
                          PipeEvents(served, s.monitorfd, piped, chunks))
  {
    var s1, s2 := BeforePipe(s, d, conn, env);
    PassParts(s, s1, s2, chunks, Greeted(s, d, conn), ServedEvents(Listed(s, d, conn), FdSet(s.ports) * d, env));
  }

  lemma PassParts(s: State, s1: State, s2: State, chunks: seq<Chunk>, greeted: seq<Event>, answers: seq<Event>)
    requires Adds(s, s1, greeted) && Adds(s1, s2, answers) && Books(s2)
    requires s2.fs.selcount != 0 ==> s2.monitorfd == s.monitorfd != -1
    ensures var t, piped := Pumping(s2, chunks), s2.fs.selcount != 0;
            && t.ports == Pumped(s2.ports, piped, chunks)
            && Adds(s, t, greeted + answers + PipeEvents(s2.ports, s.monitorfd, piped, chunks))
  {
    var t, piped := Pumping(s2, chunks), s2.fs.selcount != 0;
    PumpingEffect(s2, s.monitorfd, chunks);
    AddsThen(s, s1, s2, greeted, answers);
    AddsThen(s, s2, t, greeted + answers, PipeEvents(s2.ports, s.monitorfd, piped, chunks));
  }

  /**
   * The pipe's turn without failing writes: what was read goes out chunk by chunk, each once to
   * each port that monitors once the clients are served. A pipe that is not ready gets no turn.
   */
  lemma PassFansOut(s: State, d: set<nat>, conn: Connection, env: map<nat, Incoming>, chunks: seq<Chunk>)
    requires Inv(s) && Possible(s, Pass(d, conn, env, chunks))
    requires var s2 := Serving(Accepting(Demux(s, d), conn), env);
             forall k, i :: 0 <= k < |chunks| && 0 <= i < s2.monitorcount ==> i !in chunks[k].epipe
    ensures var s2, t := Serving(Accepting(Demux(s, d), conn), env), Next(s, Pass(d, conn, env, chunks));
            && s2.ports == Served(Listed(s, d, conn), FdSet(s.ports) * d, env)
            && (s.fs.full * d == {} ==> t == s2)
            && (s.fs.full * d != {} && s2.monitorcount > 0 ==>
                  t == s2.(trace := s2.trace + ChunkWrites(Monitors(s2.ports), chunks)))
  {
    var s1, s2 := BeforePipe(s, d, conn, env);
    PumpingClean(s2, chunks);
  }

  lemma PumpingClean(s: State, chunks: seq<Chunk>)
    requires Books(s) && forall k, i :: 0 <= k < |chunks| && 0 <= i < s.monitorcount ==> i !in chunks[k].epipe
    ensures s.fs.selcount == 0 ==> Pumping(s, chunks) == s
    ensures s.fs.selcount != 0 && s.monitorcount > 0 ==>
              Pumping(s, chunks) == s.(trace := s.trace + ChunkWrites(Monitors(s.ports), chunks))
  {
    if s.fs.selcount != 0 && s.monitorcount > 0 {
      FifoServerClean(s, chunks);
    }
  }
}
