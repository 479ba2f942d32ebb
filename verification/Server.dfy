/**
 * The server program itself: the routines of server/ updating the port queue, the descriptor
 * records and the counters in place. Every method is proved to do what the state machine of
 * ServerModel does, and to keep its invariant.
 */
module Server {
  import opened Common
  import opened Authenticate
  import opened Selection
  import opened ServerModel
  import opened ServerInvariant
  import opened PortList
  import Conffile
  import Ident

  class Server {
    const queue: PortQueue
    const pd: ThreadFds
    const ps: ThreadFds
    const fs: ThreadFds
    const muxed: ThreadFds
    const access: AccessList
    const controlfd: int
    var monitorcount: int
    var monitorfd: int
    ghost var trace: seq<Event>

    ghost predicate WellFormed()
      reads this, queue, queue.repr
    {
      queue.Valid() && pd != ps && pd != fs && ps != fs && muxed !in {pd, ps, fs}
    }

    ghost function Abs(): State
      reads this, queue, pd, ps, fs, access
    {
      State(queue.ports, pd.View(), ps.View(), fs.View(), monitorcount, monitorfd, controlfd, access.aq, trace)
    }

    ghost predicate Valid()
      reads this, queue, queue.repr, pd, ps, fs, access
    {
      WellFormed() && Inv(Abs())
    }

    /** `main` before its loop. */
    constructor (listenfd: nat, controlfd: int, conf: Option<string>, unset: Ip)
      requires conf.Some? ==> Conffile.ParseConf(conf.value, unset).Accepted?
      ensures Valid() && Abs() == Initial(listenfd, controlfd, conf, unset)
      ensures fresh(queue) && fresh(queue.repr)
      ensures fresh(pd) && fresh(ps) && fresh(fs) && fresh(muxed) && fresh(access)
    {
      var list := new AccessList();
      if conf.Some? {
        list.AddAll(Conffile.ParseConf(conf.value, unset).confs);
      }
      access := list;
      queue := new PortQueue();
      pd := new ThreadFds.Watching(listenfd);
      ps := new ThreadFds();
      fs := new ThreadFds();
      muxed := new ThreadFds();
      this.controlfd := controlfd;
      monitorcount, monitorfd := 0, -1;
      trace := [];
      new;
      InitialInv(listenfd, controlfd, conf, unset);
    }

    /** An effect outside the server. */
    ghost method Log(e: Event)
      requires WellFormed()
      modifies this`trace
      ensures WellFormed()
      ensures Abs() == Emit(old(Abs()), e)
    {
      trace := trace + [e];
    }

    // ---- port-queue.c ----------------------------------------------------------------------

    method PortEnqueue(p: Port)
      requires WellFormed()
      modifies queue, ps
      ensures WellFormed() && fresh(queue.repr - old(queue.repr))
      ensures Abs() == Enqueue(old(Abs()), p)
    {
      queue.Push(p);
      ps.fullcount := ps.fullcount + 1;
      ps.full := ps.full + {p.fd};
      ps.maxfd := if p.fd > ps.maxfd then p.fd else ps.maxfd;
    }

    /** Takes a node out of the queue and its descriptor out of the record. */
    method Dequeue(prev: Node?, curr: Node, ghost k: nat)
      requires WellFormed() && k < |queue.nodes|
      requires queue.nodes[k] == curr && prev == queue.NodeBefore(k)
      modifies queue, queue.repr`next, ps
      ensures WellFormed() && queue.repr == old(queue.repr)
      ensures Abs() == Unlisted(old(Abs()), k)
      ensures queue.nodes == old(queue.nodes)[..k] + old(queue.nodes)[k + 1..]
    {
      var fd := curr.port.fd;
      queue.Unlink(prev, curr, k);
      ps.fullcount := ps.fullcount - 1;
      ps.full := ps.full - {fd};
      ps.maxfd := AdjustMaxfd(ps, fd);
    }

    method ClosePort(p: Port) returns (ghost k: nat)
      requires WellFormed()
      modifies this`monitorcount, this`trace, queue, queue.repr`next, ps
      ensures WellFormed() && queue.repr == old(queue.repr)
      ensures Abs() == ServerModel.ClosePort(old(Abs()), p)
      ensures k == IndexOf(old(queue.ports), p) <= |old(queue.nodes)|
      ensures p.fd in old(ps.full) && k < |old(queue.nodes)| ==>
                queue.nodes == old(queue.nodes)[..k] + old(queue.nodes)[k + 1..]
    {
      k := IndexOf(queue.ports, p);
      if p.fd !in ps.full {
        return;
      }
      if p.flags.monitor {
        monitorcount := monitorcount - 1;
      }
      Log(Close(p.fd));
      var prev, curr := queue.Find(p);
      if curr != null {
        Dequeue(prev, curr, k);
      }
    }

    /** `close_port` on the node at position `k`, which a listed port always finds first. */
    method CloseAt(curr: Node, ghost k: nat)
      requires Valid() && k < |queue.nodes| && queue.nodes[k] == curr
      modifies this`monitorcount, this`trace, queue, queue.repr`next, ps
      ensures Valid() && queue.repr == old(queue.repr)
      ensures Abs() == ServerModel.ClosePort(old(Abs()), old(queue.ports)[k])
      ensures queue.nodes == old(queue.nodes)[..k] + old(queue.nodes)[k + 1..]
    {
      ghost var s, p := Abs(), curr.port;
      ClosePortInv(s, k);
      ListedPlace(s, k);
      ghost var place := ClosePort(curr.port);
      assert Abs() == ServerModel.ClosePort(s, p) && p == s.ports[k] && place == k;
    }

    /** `parse_incoming` for the lines that leave the port open. */
    method ParseLine(curr: Node, ghost k: nat, inc: Incoming)
      requires WellFormed() && k < |queue.nodes| && queue.nodes[k] == curr
      requires Classify(inc.data) != Quit
      modifies this, queue`ports, curr`port, fs
      ensures WellFormed() && queue.nodes == old(queue.nodes) && queue.repr == old(queue.repr)
      ensures Abs() == ServerModel.ParseIncoming(old(Abs()), k, inc)
    {
      if StartsIgnoringCase(inc.data, "monitor off\r") || StartsIgnoringCase(inc.data, "monitor\r") {
        if curr.port.flags.monitor {
          queue.SetFlags(curr, k, curr.port.flags.(monitor := false));
          monitorcount := monitorcount - 1;
        }
      } else if StartsIgnoringCase(inc.data, "monitor ") {
        if !curr.port.flags.monitor {
          queue.SetFlags(curr, k, curr.port.flags.(monitor := true));
          monitorcount := monitorcount + 1;
          if fs.fullcount == 0 {
            MonitorOpen(inc.offer, inc.fifo);
          }
        }
      } else if curr.port.flags.write {
        Log(ControlLine(curr.port, inc.data));
      } else {
        Log(Write(curr.port.fd, Denial(inc.data)));
      }
    }

    /** `parse_incoming`; the answer says whether the port was closed. */
    method ParseIncoming(curr: Node, ghost k: nat, inc: Incoming) returns (closed: bool)
      requires Valid() && k < |queue.nodes| && queue.nodes[k] == curr
      modifies this, queue, queue.repr, ps, fs
      ensures Valid() && queue.repr == old(queue.repr)
      ensures Abs() == ServerModel.ParseIncoming(old(Abs()), k, inc)
      ensures closed == (Classify(inc.data) == Quit)
      ensures queue.nodes == if closed then old(queue.nodes)[..k] + old(queue.nodes)[k + 1..] else old(queue.nodes)
    {
      ParseIncomingInv(Abs(), k, inc);
      closed := !StartsIgnoringCase(inc.data, "monitor off\r") && !StartsIgnoringCase(inc.data, "monitor\r") &&
                !StartsIgnoringCase(inc.data, "monitor ") && StartsIgnoringCase(inc.data, "close");
      if closed {
        CloseAt(curr, k);
      } else {
        ParseLine(curr, k, inc);
      }
    }

    /** The body of the `port_server` loop for a ready port. */
    method ServePort(curr: Node, ghost k: nat, env: map<nat, Incoming>) returns (closed: bool)
      requires Valid() && k < |queue.nodes| && queue.nodes[k] == curr
      modifies this, queue, queue.repr, ps, fs
      ensures Valid() && queue.repr == old(queue.repr)
      ensures Abs() == ServeAt(old(Abs()), k, env)
      ensures closed == Leaves(old(queue.ports)[k], env)
      ensures queue.nodes == if closed then old(queue.nodes)[..k] + old(queue.nodes)[k + 1..] else old(queue.nodes)
    {
      EmitInv(Abs(), Read(curr.port.fd));
      var line := if curr.port.fd in env then env[curr.port.fd].data else "";
      Log(Read(curr.port.fd));
      if |line| > 0 {
        closed := ParseIncoming(curr, k, env[curr.port.fd]);
      } else {
        CloseAt(curr, k);
        closed := true;
      }
    }

    /** The same, as a step of the walk with `budget` ready ports to come. */
    method ServeInWalk(prev: Node?, curr: Node, ghost k: nat, env: map<nat, Incoming>, ghost budget: int)
      returns (prev1: Node?, ghost j: nat)
      requires Valid() && k < |queue.nodes| && queue.nodes[k] == curr && prev == queue.NodeBefore(k)
      requires curr.port.fd in ps.sel && budget > 0
      modifies this, queue, queue.repr, ps, fs
      ensures Valid() && queue.repr == old(queue.repr)
      ensures j <= |queue.nodes| && prev1 == queue.NodeBefore(j)
      ensures Walk(Abs(), j, budget - 1, env) == Walk(old(Abs()), k, budget, env)
    {
      WalkServes(Abs(), k, budget, env);
      var closed := ServePort(curr, k, env);
      prev1, j := if closed then prev else curr, if closed then k else k + 1;
    }

    /**
     * One turn of the `port_server` loop: serve `curr` if it is ready, then step on. A port that
     * was closed leaves `prev` where it is; the next port is the one behind `prev`.
     */
    method VisitPort(prev: Node?, curr: Node, ghost k: nat, env: map<nat, Incoming>, ghost budget: int)
      returns (prev1: Node?, curr1: Node?, served: nat, ghost j: nat, ghost left: int)
      requires Valid() && k < |queue.nodes| && queue.nodes[k] == curr && prev == queue.NodeBefore(k)
      requires budget > 0
      modifies this, queue, queue.repr, ps, fs
      ensures Valid() && queue.repr == old(queue.repr)
      ensures j <= |queue.nodes| && prev1 == queue.NodeBefore(j) && curr1 == queue.NodeAt(j)
      ensures left == budget - served && Walk(Abs(), j, left, env) == Walk(old(Abs()), k, budget, env)
      ensures served == 0 ==> j == k + 1 && queue.nodes == old(queue.nodes)
    {
      if curr.port.fd in ps.sel {
        prev1, j := ServeInWalk(prev, curr, k, env, budget);
        served, left := 1, budget - 1;
      } else {
        WalkSkips(Abs(), k, budget, env);
        served, left := 0, budget;
        prev1, j := curr, k + 1;
      }
      curr1 := Behind(prev1, j);
    }

    /** The port behind `prev`, or the first one. */
    method Behind(prev: Node?, ghost j: nat) returns (curr: Node?)
      requires WellFormed() && j <= |queue.nodes| && prev == queue.NodeBefore(j)
      ensures curr == queue.NodeAt(j)
    {
      curr := if prev != null then prev.next else queue.pq;
    }

    method PortServer(env: map<nat, Incoming>)
      requires Valid()
      modifies this, queue, queue.repr, ps, fs
      ensures Valid() && queue.repr == old(queue.repr)
      ensures Abs() == ServerModel.PortServer(old(Abs()), env)
    {
      ghost var outcome := Walk(Abs(), 0, ps.selcount, env);
      var count := ps.selcount;
      var curr, prev: Node? := queue.pq, null;
      var i := 0;
      ghost var k: nat, left := 0, count;
      while curr != null && i < count
        invariant Valid() && queue.repr == old(queue.repr)
        invariant k <= |queue.nodes| && curr == queue.NodeAt(k) && prev == queue.NodeBefore(k)
        invariant left == count - i && Walk(Abs(), k, left, env) == outcome
        decreases left, |queue.nodes| - k
      {
        var served;
        prev, curr, served, k, left := VisitPort(prev, curr, k, env, left);
        i := i + served;
      }
      WalkEnds(Abs(), k, left, env);
    }

    // ---- fifo-server.c ---------------------------------------------------------------------

    method MonitorOpen(offer: int, fifo: string)
      requires pd != fs && ps != fs
      modifies this`monitorfd, this`trace, fs
      ensures Abs() == ServerModel.MonitorOpen(old(Abs()), offer, fifo)
    {
      if monitorfd != -1 {
        return;
      }
      var free := offer !in pd.full && offer !in ps.full && offer !in fs.full && offer != controlfd;
      monitorfd := if offer >= 0 && free then offer else -1;
      if monitorfd == -1 {
        trace := trace + [OpenFailed];
        return;
      }
      trace := trace + [ControlMonitor("monitor " + fifo + "\n")];
      fs.fullcount := 1;
      fs.full := {monitorfd};
      fs.maxfd := monitorfd;
    }

    method MonitorClose()
      requires pd != fs && ps != fs
      modifies this`monitorfd, this`trace, fs
      ensures Abs() == ServerModel.MonitorClose(old(Abs()))
    {
      if monitorfd == -1 {
        return;
      }
      trace := trace + [Close(monitorfd)];
      monitorfd := -1;
      fs.fullcount, fs.selcount := 0, 0;
      fs.full, fs.sel := {}, {};
      fs.maxfd := -1;
    }

    /** A write to a monitor that fails with EPIPE closes its port. */
    method DropMonitor(curr: Node, ghost c: nat, data: string)
      requires Valid() && c < |queue.nodes| && queue.nodes[c] == curr
      modifies this, queue, queue.repr, ps
      ensures Valid() && queue.repr == old(queue.repr)
      ensures Abs() == ServerModel.ClosePort(Emit(old(Abs()), WriteFailed(old(queue.ports)[c].fd, data)), old(queue.ports)[c])
      ensures monitorcount <= old(monitorcount)
    {
      EmitInv(Abs(), WriteFailed(curr.port.fd, data));
      Log(WriteFailed(curr.port.fd, data));
      CloseAt(curr, c);
    }

    /** The inner loop of `fifo_server`. Its `prev` stays null. */
    method FanOutChunk(chunk: Chunk)
      requires Valid()
      modifies this, queue, queue.repr, ps
      ensures Valid() && queue.repr == old(queue.repr)
      ensures Abs() == FanOut(old(Abs()), 0, 0, chunk)
    {
      var prev: Node? := null;
      var curr, i := queue.pq, 0;
      ghost var c: nat := 0;
      while curr != null && i < monitorcount
        invariant Valid() && queue.repr == old(queue.repr)
        invariant c <= |queue.nodes| && curr == queue.NodeAt(c) && prev == null
        invariant FanOut(Abs(), c, i, chunk) == FanOut(old(Abs()), 0, 0, chunk)
        decreases monitorcount - i, |queue.nodes| - c
      {
        var restart := false;
        if curr.port.flags.monitor {
          if i in chunk.epipe {
            DropMonitor(curr, c, chunk.data);
            curr := prev;
            restart := true;
          } else {
            EmitInv(Abs(), Write(curr.port.fd, chunk.data));
            Log(Write(curr.port.fd, chunk.data));
          }
          i := i + 1;
        }
        curr := if curr != null then curr.next else queue.pq;
        c := if restart then 0 else c + 1;
      }
    }

    /** The outer loop of `fifo_server`. */
    method PumpChunks(chunks: seq<Chunk>)
      requires Valid()
      modifies this, queue, queue.repr, ps
      ensures Valid() && queue.repr == old(queue.repr)
      ensures Abs() == Pump(old(Abs()), chunks)
    {
      var n, more := 0, true;
      while more
        invariant Valid() && queue.repr == old(queue.repr)
        invariant n <= |chunks|
        invariant (if more then Pump(Abs(), chunks[n..]) else Abs()) == Pump(old(Abs()), chunks)
        decreases more, |chunks| - n
      {
        var len := if n < |chunks| then |chunks[n].data| else 0;
        if len > 0 {
          FanOutChunk(chunks[n]);
          assert chunks[n..][1..] == chunks[n + 1..];
          n := n + 1;
        }
        more := len > 0 && monitorcount != 0;
      }
    }

    method FifoServer(chunks: seq<Chunk>)
      requires Valid()
      modifies this, queue, queue.repr, ps, fs
      ensures Valid() && queue.repr == old(queue.repr)
      ensures Abs() == ServerModel.FifoServer(old(Abs()), chunks)
    {
      FifoServerInv(Abs(), chunks);
      if ps.fullcount == 0 || monitorcount == 0 {
        MonitorClose();
      } else {
        PumpChunks(chunks);
      }
    }

    // ---- port-daemon.c ---------------------------------------------------------------------

    /** The rights of a new connection and the greeting that tells them. */
    method Authorize(conn: Connection) returns (port: Port, greeting: string)
      requires conn.ident.Some? ==> Ident.Terminated(conn.ident.value, 0)
      ensures port == NewPort(access.aq, conn) && greeting == GreetingFor(access.aq, conn)
    {
      if conn.ident.None? {
        greeting := NO_IDENT_MESSAGE;
        port := Port(conn.fd, conn.addr, Flags(true, false, false), None);
      } else {
        var userid := ReadIdent(conn.ident.value);
        var verdict := access.AuthCheck(Some(userid), conn.addr);
        SearchMeaning(access.aq, Some(userid), conn.addr);
        var granted := verdict.Granted?;
        greeting := Greeting(userid, conn.addr, granted);
        port := Port(conn.fd, conn.addr, Flags(true, granted, false), Some(userid));
      }
    }

    method PortDaemon(conn: Connection)
      requires Valid() && Acceptable(Abs(), conn)
      modifies this`trace, queue, ps
      ensures Valid() && fresh(queue.repr - old(queue.repr))
      ensures Abs() == ServerModel.PortDaemon(old(Abs()), conn)
    {
      ghost var s := Abs();
      PortDaemonInv(s, conn);
      var port, greeting := Authorize(conn);
      Log(Write(conn.fd, greeting));
      PortEnqueue(port);
      assert Abs() == Enqueue(Emit(s, Write(conn.fd, greeting)), port);
    }

    /** The reply in the line buffer of `port_daemon`, and the id taken from it. */
    method ReadIdent(reply: string) returns (userid: string)
      requires Ident.Terminated(reply, 0)
      ensures userid == Ident.UserIdOf(reply)
    {
      var line := new char[|reply|](i requires 0 <= i < |reply| => reply[i]);
      assert line[..] == reply;
      userid := Ident.ReadUserid(line);
    }

    // ---- authenticate.c --------------------------------------------------------------------

    method SetFlags(curr: Node, ghost k: nat, flags: Flags)
      requires WellFormed() && k < |queue.nodes| && queue.nodes[k] == curr
      modifies queue, queue.repr
      ensures WellFormed() && queue.nodes == old(queue.nodes) && queue.repr == old(queue.repr)
      ensures Abs() == old(Abs()).(ports := old(queue.ports)[k := old(queue.ports)[k].(flags := flags)])
    {
      queue.SetFlags(curr, k, flags);
    }

    /** One port in the loop of `reauthenticate_users`; comparing a null user id ends the process. */
    method ReauthenticateAt(curr: Node, ghost k: nat) returns (alive: bool)
      requires WellFormed() && k < |queue.nodes| && queue.nodes[k] == curr
      modifies this, queue, queue.repr
      ensures WellFormed() && queue.nodes == old(queue.nodes) && queue.repr == old(queue.repr)
      ensures Reloaded(old(Abs()), k) == if alive then Reloaded(Abs(), k + 1) else None
    {
      var verdict := access.AuthCheck(curr.port.userid, curr.port.addr);
      alive := !verdict.NullDereference?;
      if alive {
        SearchMeaning(access.aq, curr.port.userid, curr.port.addr);
        Renew(curr, k, verdict.Granted?);
      }
    }

    /** The new rights of a port, and the message that tells them. */
    method Renew(curr: Node, ghost k: nat, granted: bool)
      requires WellFormed() && k < |queue.nodes| && queue.nodes[k] == curr
      requires granted == Check(access.aq, curr.port.userid, curr.port.addr)
      modifies this, queue, queue.repr
      ensures WellFormed() && queue.nodes == old(queue.nodes) && queue.repr == old(queue.repr)
      ensures Abs() == RenewedAt(old(Abs()), k)
    {
      var flags := curr.port.flags.(read := false, write := false);
      SetFlags(curr, k, flags.(read := true, write := granted));
      Log(Write(curr.port.fd, ReloadMessage(granted)));
    }

    method ReauthenticateUsers() returns (alive: bool)
      requires WellFormed()
      modifies this, queue, queue.repr
      ensures WellFormed()
      ensures Reloaded(old(Abs()), 0) == if alive then Some(Abs()) else None
    {
      ghost var outcome := Reloaded(Abs(), 0);
      var curr := queue.pq;
      ghost var k: nat := 0;
      alive := true;
      while curr != null && alive
        invariant WellFormed() && queue.repr == old(queue.repr)
        invariant k <= |queue.nodes| && curr == queue.NodeAt(k)
        invariant outcome == if alive then Reloaded(Abs(), k) else None
        decreases |queue.nodes| - k
      {
        alive := ReauthenticateAt(curr, k);
        curr := curr.next;
        k := k + 1;
      }
    }

    /** `reread_conf` up to the new list: forget the old one and read the file. */
    method ReadConf(conf: Option<string>, unset: Ip)
      requires WellFormed() && Possible(Abs(), Hangup(conf, unset))
      modifies access
      ensures WellFormed()
      ensures Abs() == old(Abs()).(aq := Configured(conf, unset))
    {
      access.Clear();
      if conf.Some? {
        access.AddAll(Conffile.ParseConf(conf.value, unset).confs);
      }
    }

    /**
     * `reread_conf`, the SIGHUP handler. It ends the process when a port without ident is listed
     * and the new list has an entry, and on a syntax error.
     */
    method RereadConf(conf: Option<string>, unset: Ip) returns (alive: bool)
      requires Valid() && Possible(Abs(), Hangup(conf, unset))
      modifies this, queue, queue.repr, access
      ensures alive <==> Configured(conf, unset) == [] || !HasNullUser(old(queue.ports))
      ensures alive ==> Valid() && Abs() == Next(old(Abs()), Hangup(conf, unset))
    {
      ghost var s, s1 := Abs(), Abs().(aq := Configured(conf, unset));
      ReadConf(conf, unset);
      alive := ReauthenticateUsers();
      ReloadSurvivesIff(s1);
      RereadConfInv(s, conf, unset);
    }

    // ---- diald-top-server.c ----------------------------------------------------------------

    /** `do_select`, with the answer of `select` and the initial value of the loop's `count`. */
    method RunSelect(ready: set<nat>, result: int, count0: int) returns (ghost d: set<nat>)
      requires WellFormed()
      requires IsMax(pd.maxfd, pd.full) && IsMax(ps.maxfd, ps.full) && IsMax(fs.maxfd, fs.full)
      requires result == -1 || (result == |ready| && ready <= pd.full + ps.full + fs.full)
      modifies pd, ps, fs, muxed
      ensures WellFormed()
      ensures IsLowest(d, Offered(old(pd.View()), old(ps.View()), old(fs.View()), ready, result), result - count0)
      ensures Abs() == Demux(old(Abs()), d)
    {
      d := DoSelect(pd, ps, fs, muxed, ready, result, count0);
    }

    /** The same in the running server, whose records have their true maxima. */
    method SelectDescriptors(ready: set<nat>, result: int, count0: int) returns (ghost d: set<nat>)
      requires Valid()
      requires result == -1 || (result == |ready| && ready <= pd.full + ps.full + fs.full)
      modifies pd, ps, fs, muxed
      ensures Valid()
      ensures IsLowest(d, Offered(old(pd.View()), old(ps.View()), old(fs.View()), ready, result), result - count0)
      ensures Abs() == Demux(old(Abs()), d)
    {
      d := RunSelect(ready, result, count0);
      DemuxInv(old(Abs()), d);
    }

    /** The dispatch of the main loop on the new connections. */
    method AcceptReady(conn: Connection)
      requires Valid() && (pd.selcount != 0 ==> Acceptable(Abs(), conn))
      modifies this`trace, queue, ps
      ensures Valid() && fresh(queue.repr - old(queue.repr))
      ensures Abs() == Accepting(old(Abs()), conn)
    {
      if pd.selcount != 0 {
        PortDaemon(conn);
      }
    }

    /** The dispatch of the main loop on clients and monitor pipe. */
    method ServeReady(env: map<nat, Incoming>, chunks: seq<Chunk>)
      requires Valid()
      modifies this, queue, queue.repr, ps, fs
      ensures Valid()
      ensures Abs() == Pumping(Serving(old(Abs()), env), chunks)
    {
      if ps.selcount != 0 {
        PortServer(env);
      }
      if fs.selcount != 0 {
        FifoServer(chunks);
      }
    }

    /** The body of the main loop after `do_select`. */
    method Dispatch(conn: Connection, env: map<nat, Incoming>, chunks: seq<Chunk>)
      requires Valid() && (pd.selcount != 0 ==> Acceptable(Abs(), conn))
      modifies this, queue, queue.repr, ps, fs
      ensures Valid()
      ensures Abs() == Pumping(Serving(Accepting(old(Abs()), conn), env), chunks)
    {
      AcceptReady(conn);
      ServeReady(env, chunks);
    }

    /** One pass of the main loop, with the answers of `select`, `accept`, `read` and `write`. */
    method PassOnce(ready: set<nat>, result: int, count0: int,
                    conn: Connection, env: map<nat, Incoming>, chunks: seq<Chunk>)
      returns (ghost d: set<nat>)
      requires Valid()
      requires pd.full * Offered(pd.View(), ps.View(), fs.View(), ready, result) != {} ==> Acceptable(Abs(), conn)
      requires result == -1 || (result == |ready| && ready <= pd.full + ps.full + fs.full)
      modifies this, queue, queue.repr, pd, ps, fs, muxed
      ensures Valid()
      ensures IsLowest(d, Offered(old(pd.View()), old(ps.View()), old(fs.View()), ready, result), result - count0)
      ensures Abs() == Next(old(Abs()), Pass(d, conn, env, chunks))
    {
      d := SelectDescriptors(ready, result, count0);
      Dispatch(conn, env, chunks);
    }
  }

  /** The walk passes over a port that is not ready. */
  lemma WalkSkips(s: State, k: nat, budget: int, env: map<nat, Incoming>)
    requires k < |s.ports| && s.ports[k].fd !in s.ps.sel && budget > 0
    ensures Walk(s, k + 1, budget, env) == Walk(s, k, budget, env)
  {}

  /** The walk serves a port that is ready. */
  lemma WalkServes(s: State, k: nat, budget: int, env: map<nat, Incoming>)
    requires k < |s.ports| && s.ports[k].fd in s.ps.sel && budget > 0
    ensures Walk(s, k, budget, env) ==
            Walk(ServeAt(s, k, env), if Leaves(s.ports[k], env) then k else k + 1, budget - 1, env)
  {}

  lemma WalkEnds(s: State, k: nat, budget: int, env: map<nat, Incoming>)
    requires k >= |s.ports| || budget <= 0
    ensures Walk(s, k, budget, env) == s
  {}

  /** A listed port is found at its own place. */
  lemma ListedPlace(s: State, k: nat)
    requires Books(s) && k < |s.ports|
    ensures IndexOf(s.ports, s.ports[k]) == k && s.ports[k].fd in s.ps.full
  {}
}
