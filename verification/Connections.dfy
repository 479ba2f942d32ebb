/**
 * From the text of the configuration file and of the ident reply to the rights of a port: what a
 * new connection gets, and what a reload changes.
 */
module Connections {
  import opened Common
  import opened Authenticate
  import opened Selection
  import opened ServerModel
  import opened ServerInvariant
  import opened PortWalks
  import opened Rounds
  import opened FanOuts
  import opened Passes
  import opened Conffile
  import opened Ident

  predicate ValidFile(ls: seq<Layout>) {
    ls != [] && forall l :: l in ls ==> ValidLayout(l)
  }

  /** Some entry of the file names the user and the address. */
  predicate Entitled(ls: seq<Layout>, userid: Option<string>, addr: Ip) {
    userid.Some? && exists c :: c in Confs(ls) && Grants(c, userid.value, addr)
  }

  /** The rights under a file are its entries, whatever its layout. */
  lemma FileGrants(ls: seq<Layout>, unset: Ip, userid: Option<string>, addr: Ip)
    requires ValidFile(ls)
    ensures Check(Configured(Some(Print(ls)), unset), userid, addr) <==> Entitled(ls, userid, addr)
  {
    ConfRoundTrip(ls, unset);
    if userid.Some? {
      CheckMeaning(Confs(ls), userid.value, addr);
    }
  }

  /** A file that cannot be opened grants nobody anything. */
  lemma NoFileNoRights(unset: Ip, userid: Option<string>, addr: Ip)
    ensures !Check(Configured(None, unset), userid, addr)
  {}

  // ---- the list in force -------------------------------------------------------------------

  /** The file read last: by the latest reload, or at the start. */
  function LatestFile(conf: Option<string>, unset: Ip, steps: seq<Step>): (Option<string>, Ip) {
    if steps == [] then (conf, unset)
    else
      var step := steps[|steps| - 1];
      if step.Hangup? then (step.conf, step.unset) else LatestFile(conf, unset, steps[..|steps| - 1])
  }

  /** In every run the access list is the one of the file read last. */
  lemma {:induction false} ListInForce(listenfd: nat, controlfd: int, conf: Option<string>, unset: Ip, steps: seq<Step>)
    requires PossibleRun(Initial(listenfd, controlfd, conf, unset), steps)
    ensures var (file, u) := LatestFile(conf, unset, steps);
            After(Initial(listenfd, controlfd, conf, unset), steps).aq == Configured(file, u)
    decreases |steps|
  {
    var s0 := Initial(listenfd, controlfd, conf, unset);
    if steps == [] {
    } else {
      var n := |steps| - 1;
      PossiblePrefix(s0, steps, n);
      ListInForce(listenfd, controlfd, conf, unset, steps[..n]);
      EveryReachableState(listenfd, controlfd, conf, unset, steps[..n]);
      StepKeepsList(After(s0, steps[..n]), steps[n]);
    }
  }

  lemma StepKeepsList(s: State, step: Step)
    requires Inv(s) && Possible(s, step)
    ensures Next(s, step).aq == if step.Hangup? then Configured(step.conf, step.unset) else s.aq
  {
    NextInv(s, step);
    if step.Hangup? {
      RereadConfInv(s, step.conf, step.unset);
    }
  }

  // ---- a new connection --------------------------------------------------------------------

  /** What the new port is told, as text. */
  function Welcome(id: string, addr: Ip, full: bool): string {
    if full then "MESSAGE\nUser " + id + "@" + Dotted(addr) + " connected -- Full access\n"
    else "MESSAGE\nUser " + id + "@" + Dotted(addr) + " connected -- Monitor access\n"
  }

  /** The port of an identified user, and of one without ident. */
  predicate ConnectedAs(p: Port, conn: Connection, userid: Option<string>, write: bool) {
    p.fd == conn.fd && p.addr == conn.addr && p.userid == userid && p.flags == Flags(true, write, false)
  }

  lemma NewPortRights(s: State, conn: Connection, ls: seq<Layout>, unset: Ip, r: Reply)
    requires ValidFile(ls) && s.aq == Configured(Some(Print(ls)), unset)
    requires ValidReply(r) && conn.ident == Some(ReplyText(r))
    ensures ConnectedAs(NewPort(s.aq, conn), conn, Some(r.id), Entitled(ls, Some(r.id), conn.addr))
    ensures GreetingFor(s.aq, conn) == Welcome(r.id, conn.addr, Entitled(ls, Some(r.id), conn.addr))
  {
    IdentRoundTrip(r);
    FileGrants(ls, unset, Some(r.id), conn.addr);
    WelcomeText(r.id, conn.addr, Entitled(ls, Some(r.id), conn.addr));
  }

  lemma WelcomeText(id: string, addr: Ip, full: bool)
    ensures Greeting(id, addr, full) == Welcome(id, addr, full)
  {
    var who := "MESSAGE\nUser " + id + "@" + Dotted(addr);
    assert who + " connected -- " + "Full access\n" == who + " connected -- Full access\n";
    assert who + " connected -- " + "Monitor access\n" == who + " connected -- Monitor access\n";
  }

  /** A port whose descriptor is not ready is served as it is; one that does not monitor survives the pipe's turn. */
  lemma HeadStays(p: Port, ports: seq<Port>, sel: set<nat>, env: map<nat, Incoming>, piped: bool, chunks: seq<Chunk>)
    requires p.fd !in sel && !p.flags.monitor
    ensures var all := Pumped(Served([p] + ports, sel, env), piped, chunks);
            all != [] && all[0] == p
  {
    assert ([p] + ports)[1..] == ports;
    assert Served([p] + ports, sel, env) == [p] + Served(ports, sel, env);
  }

  /**
   * A user who connects. In any pass that finds the listener ready, with the list of any file in
   * any layout and any well-formed ident reply: behind the pass the head of the list is the new
   * port with the id of the reply, it may write if and only if an entry of the file grants it, it
   * does not monitor, and the first thing that happens for a client is the greeting that says so.
   */
  lemma UserConnects(s: State, d: set<nat>, conn: Connection, env: map<nat, Incoming>, chunks: seq<Chunk>,
                     ls: seq<Layout>, unset: Ip, r: Reply)
    requires Inv(s) && Possible(s, Pass(d, conn, env, chunks)) && s.pd.full * d != {}
    requires ValidFile(ls) && s.aq == Configured(Some(Print(ls)), unset)
    requires ValidReply(r) && conn.ident == Some(ReplyText(r))
    ensures var t, entitled := Next(s, Pass(d, conn, env, chunks)), Entitled(ls, Some(r.id), conn.addr);
            && t.ports != [] && ConnectedAs(t.ports[0], conn, Some(r.id), entitled)
            && |s.trace| < |t.trace| && t.trace[|s.trace|] == Write(conn.fd, Welcome(r.id, conn.addr, entitled))
  {
    NewPortRights(s, conn, ls, unset, r);
    HeadOfPass(s, d, conn, env, chunks);
  }

  /** A connection without ident may only read and monitor, whatever the file. */
  lemma StrangerConnects(s: State, d: set<nat>, conn: Connection, env: map<nat, Incoming>, chunks: seq<Chunk>)
    requires Inv(s) && Possible(s, Pass(d, conn, env, chunks)) && s.pd.full * d != {}
    requires conn.ident == None
    ensures var t := Next(s, Pass(d, conn, env, chunks));
            && t.ports != [] && ConnectedAs(t.ports[0], conn, None, false)
            && |s.trace| < |t.trace|
            && t.trace[|s.trace|] == Write(conn.fd, "MESSAGE\nUnauthorized Access -- Monitor only (no ident)\n")
  {
    HeadOfPass(s, d, conn, env, chunks);
  }

  lemma HeadOfPass(s: State, d: set<nat>, conn: Connection, env: map<nat, Incoming>, chunks: seq<Chunk>)
    requires Inv(s) && Possible(s, Pass(d, conn, env, chunks)) && s.pd.full * d != {}
    ensures var t := Next(s, Pass(d, conn, env, chunks));
            && t.ports != [] && t.ports[0] == NewPort(s.aq, conn)
            && s.trace + [Write(conn.fd, GreetingFor(s.aq, conn))] <= t.trace
  {
    var s1 := Accepting(Demux(s, d), conn);
    PassEffect(s, d, conn, env, chunks);
    HeadStays(NewPort(s.aq, conn), s.ports, FdSet(s.ports) * d, env, s.fs.full * d != {}, chunks);
    DemuxInv(s, d);
    AcceptingInv(Demux(s, d), conn);
    AcceptingEffect(s, d, conn);
    ServingInv(s1, env);
    PumpingInv(Serving(s1, env), chunks);
  }

  // ---- a reload ----------------------------------------------------------------------------

  function Notice(full: bool): string {
    if full then "MESSAGE\nServer configuration reloaded - full access granted\n"
    else "MESSAGE\nServer configuration reloaded - read-only access granted\n"
  }

  /**
   * A reload of a file in any layout: every listed port keeps its place, its monitor flag and its
   * id, may write if and only if an entry of the new file grants it, and is told so, once, in
   * list order. Nothing else changes but the list.
   */
  lemma {:induction false} ReloadRenews(s: State, ls: seq<Layout>, unset: Ip)
    requires ValidFile(ls)
    ensures var t := Next(s, Hangup(Some(Print(ls)), unset));
            && |t.ports| == |s.ports| && |t.trace| == |s.trace| + |s.ports| && s.trace <= t.trace
            && t == s.(ports := t.ports, trace := t.trace, aq := t.aq)
            && forall i :: 0 <= i < |s.ports| ==>
                 var p := s.ports[i];
                 var entitled := Entitled(ls, p.userid, p.addr);
                 && t.ports[i] == p.(flags := Flags(true, entitled, p.flags.monitor))
                 && t.trace[|s.trace| + i] == Write(p.fd, Notice(entitled))
  {
    var s1 := s.(aq := Configured(Some(Print(ls)), unset));
    var t := Reauthenticate(s1, 0);
    ReauthenticateAllPorts(s1, t);
    forall i | 0 <= i < |s.ports|
      ensures var p := s.ports[i];
              var entitled := Entitled(ls, p.userid, p.addr);
              && t.ports[i] == p.(flags := Flags(true, entitled, p.flags.monitor))
              && t.trace[|s.trace| + i] == Write(p.fd, Notice(entitled))
    {
      var p := s.ports[i];
      FileGrants(ls, unset, p.userid, p.addr);
      PortRenewed(s1, t, i, Entitled(ls, p.userid, p.addr));
    }
  }

  lemma {:induction false} PortRenewed(s: State, t: State, i: nat, entitled: bool)
    requires i < |s.ports| && |t.ports| == |s.ports| && t.trace == s.trace + ReloadEvents(s.aq, s.ports)
    requires t.ports[i] == Reauthenticated(s.aq, s.ports[i])
    requires entitled == Check(s.aq, s.ports[i].userid, s.ports[i].addr)
    ensures var p := s.ports[i];
            && t.ports[i] == p.(flags := Flags(true, entitled, p.flags.monitor))
            && t.trace[|s.trace| + i] == Write(p.fd, Notice(entitled))
  {
    ReloadEventAt(s.aq, s.ports, i);
  }

  lemma {:induction false} ReloadEventAt(aq: seq<Conf>, ports: seq<Port>, i: nat)
    requires i < |ports|
    ensures ReloadEvents(aq, ports)[i] == ReloadEvent(aq, ports[i])
  {
    if i == 0 {
    } else {
      ReloadEventAt(aq, ports[1..], i - 1);
    }
  }

  // ---- a line that is denied ---------------------------------------------------------------

  /** The denial quotes the line, without the blanks before it and the line end behind it. */
  lemma DenialQuotesLine(spaces: string, text: string, rest: string)
    requires (forall i :: 0 <= i < |spaces| ==> spaces[i] == ' ') && OnOneLine(text) && (text != "" ==> text[0] != ' ')
    requires rest != "" ==> IsLineEnd(rest[0])
    ensures Denial(spaces + text + rest) ==
            "MESSAGE\nYou have no control access: Command \"" + text + "\" ignored\n"
  {
    OneLineConcat(spaces, text);
    LineBefore(spaces + text, rest);
    StrippedLine(spaces, text);
  }
}
