/** What a fan-out round of `fifo_server` delivers, for every list of ports and every pattern of failing writes. */
module FanOuts {
  import opened Common
  import opened Selection
  import opened ServerModel
  import opened ServerInvariant
  import opened Deliveries

  /** One successful write of `data` to each port, in order. */
  function Writes(ports: seq<Port>, data: string): seq<Event> {
    if ports == [] then [] else [Write(ports[0].fd, data)] + Writes(ports[1..], data)
  }

  lemma MonitorsStep(ports: seq<Port>, c: nat)
    requires c < |ports|
    ensures Monitors(ports[c..]) ==
            if ports[c].flags.monitor then [ports[c]] + Monitors(ports[c + 1..]) else Monitors(ports[c + 1..])
  {}

  lemma WritesCons(p: Port, rest: seq<Port>, data: string)
    ensures Writes([p] + rest, data) == [Write(p.fd, data)] + Writes(rest, data)
  {}

  /** Without a failing write, each monitor gets the chunk once, in list order, and nobody else does. */
  lemma {:induction false} FanOutClean(s: State, c: nat, i: nat, chunk: Chunk)
    requires c <= |s.ports| && i + |Monitors(s.ports[c..])| == s.monitorcount
    requires forall j :: i <= j < s.monitorcount ==> j !in chunk.epipe
    ensures FanOut(s, c, i, chunk) == s.(trace := s.trace + Writes(Monitors(s.ports[c..]), chunk.data))
    decreases |s.ports| - c
  {
    if c == |s.ports| || i >= s.monitorcount {
      assert s.trace + [] == s.trace;
    } else {
      var p := s.ports[c];
      var rest := Monitors(s.ports[c + 1..]);
      MonitorsStep(s.ports, c);
      if !p.flags.monitor {
        FanOutClean(s, c + 1, i, chunk);
      } else {
        FanOutClean(Emit(s, Write(p.fd, chunk.data)), c + 1, i + 1, chunk);
        WritesCons(p, rest, chunk.data);
        Assoc(s.trace, [Write(p.fd, chunk.data)], Writes(rest, chunk.data));
      }
    }
  }

  /** The monitors from `c` on got the chunk in order, but for the last, which failed and is gone. */
  predicate LastFailed(s: State, c: nat, t: State, data: string)
    requires c <= |s.ports|
  {
    var ms := Monitors(s.ports[c..]);
    ms != [] &&
    var last := ms[|ms| - 1];
    && t.trace == s.trace + Writes(ms[..|ms| - 1], data) + [WriteFailed(last.fd, data), Close(last.fd)]
    && exists k :: c <= k < |s.ports| && s.ports[k] == last && t.ports == Without(s.ports, k)
  }

  lemma {:induction false} LastFailedPastWrite(s: State, c: nat, s1: State, t: State, data: string)
    requires c < |s.ports| && s.ports[c].flags.monitor && s1 == Emit(s, Write(s.ports[c].fd, data))
    requires LastFailed(s1, c + 1, t, data)
    ensures LastFailed(s, c, t, data)
  {
    MonitorsStep(s.ports, c);
    WritesButLast(s.trace, s.ports[c], Monitors(s.ports[c + 1..]), data);
  }

  lemma {:induction false} LastFailedHere(s: State, c: nat, t: State, data: string)
    requires c < |s.ports| && s.ports[c].flags.monitor && Monitors(s.ports[c + 1..]) == []
    requires t.trace == s.trace + [WriteFailed(s.ports[c].fd, data), Close(s.ports[c].fd)]
    requires t.ports == Without(s.ports, c)
    ensures LastFailed(s, c, t, data)
  {
    var p := s.ports[c];
    MonitorsStep(s.ports, c);
    assert [p] + [] == [p] && [p][..0] == [] && s.trace + [] == s.trace;
  }

  /** When only the last monitor's write fails, all others still get the chunk once, in order. */
  lemma {:induction false} FanOutLastFails(s: State, c: nat, i: nat, chunk: Chunk)
    requires Books(s) && c <= |s.ports|
    requires i + |Monitors(s.ports[c..])| == s.monitorcount && i < s.monitorcount
    requires forall j :: i <= j < s.monitorcount ==> (j in chunk.epipe <==> j == s.monitorcount - 1)
    ensures LastFailed(s, c, FanOut(s, c, i, chunk), chunk.data)
    decreases |s.ports| - c
  {
    if c == |s.ports| {
    } else {
      MonitorsStep(s.ports, c);
      if !s.ports[c].flags.monitor {
        FanOutLastFails(s, c + 1, i, chunk);
      } else if i == s.monitorcount - 1 {
        FanOutEndsOnLast(s, c, i, chunk);
        LastFailedHere(s, c, FanOut(s, c, i, chunk), chunk.data);
      } else {
        var s1 := Emit(s, Write(s.ports[c].fd, chunk.data));
        FanOutLastFails(s1, c + 1, i + 1, chunk);
        LastFailedPastWrite(s, c, s1, FanOut(s1, c + 1, i + 1, chunk), chunk.data);
      }
    }
  }

  lemma WritesButLast(trace: seq<Event>, p: Port, rest: seq<Port>, data: string)
    requires rest != []
    ensures var ms := [p] + rest;
            trace + Writes(ms[..|ms| - 1], data) == trace + [Write(p.fd, data)] + Writes(rest[..|rest| - 1], data)
  {
    var ms, ahead := [p] + rest, rest[..|rest| - 1];
    assert ms[..|ms| - 1] == [p] + ahead;
    WritesCons(p, ahead, data);
    Assoc(trace, [Write(p.fd, data)], Writes(ahead, data));
  }

  lemma FanOutEndsOnLast(s: State, c: nat, i: nat, chunk: Chunk)
    requires Books(s) && c < |s.ports| && s.ports[c].flags.monitor
    requires i == s.monitorcount - 1 && i in chunk.epipe
    ensures var t, p := FanOut(s, c, i, chunk), s.ports[c];
            && t.trace == s.trace + [WriteFailed(p.fd, chunk.data), Close(p.fd)]
            && t.ports == Without(s.ports, c)
  {}

  // ---- the count that decides the failing rounds -------------------------------------------

  function WriteCount(trace: seq<Event>): nat {
    if trace == [] then 0
    else
      var n := |trace| - 1;
      WriteCount(trace[..n]) + if trace[n].Write? then 1 else 0
  }

  lemma WriteCountEmit(trace: seq<Event>, e: Event)
    ensures WriteCount(trace + [e]) == WriteCount(trace) + if e.Write? then 1 else 0
  {}

  /** A failed write closes its port; it adds no successful write and takes one monitor away. */
  lemma FailedWrite(s: State, c: nat, data: string)
    requires Books(s) && c < |s.ports| && s.ports[c].flags.monitor
    ensures var t := ClosePort(Emit(s, WriteFailed(s.ports[c].fd, data)), s.ports[c]);
            && Books(t) && t.monitorcount == s.monitorcount - 1
            && WriteCount(t.trace) == WriteCount(s.trace)
            && s.trace <= t.trace
  {
    var p := s.ports[c];
    var s1 := Emit(s, WriteFailed(p.fd, data));
    ClosePortAt(s1, c);
    WriteCountEmit(s.trace, WriteFailed(p.fd, data));
    WriteCountEmit(s1.trace, Close(p.fd));
  }

  /** The writes left in a round, failed ones included, are at most `monitorcount - i`. */
  lemma {:induction false} WriteBudget(s: State, c: nat, i: nat, chunk: Chunk)
    requires Books(s)
    ensures var t := FanOut(s, c, i, chunk);
            && Books(t) && s.trace <= t.trace
            && WriteCount(t.trace) - WriteCount(s.trace) + (s.monitorcount - t.monitorcount) <=
               if i <= s.monitorcount then s.monitorcount - i else 0
    decreases s.monitorcount - i, |s.ports| - c, 1
  {
    if c >= |s.ports| || i >= s.monitorcount {
    } else if !s.ports[c].flags.monitor {
      WriteBudget(s, c + 1, i, chunk);
    } else if i in chunk.epipe {
      FailedWrite(s, c, chunk.data);
      WriteBudgetOn(s, c, i, chunk, ClosePort(Emit(s, WriteFailed(s.ports[c].fd, chunk.data)), s.ports[c]), 0);
    } else {
      var e := Write(s.ports[c].fd, chunk.data);
      WriteCountEmit(s.trace, e);
      WriteBudgetOn(s, c, i, chunk, Emit(s, e), c + 1);
    }
  }

  lemma {:induction false} WriteBudgetOn(s: State, c: nat, i: nat, chunk: Chunk, s1: State, c1: nat)
    requires Books(s1) && s.trace <= s1.trace && i < s.monitorcount && s1.monitorcount <= s.monitorcount
    requires WriteCount(s1.trace) - WriteCount(s.trace) + (s.monitorcount - s1.monitorcount) == 1
    ensures var t := FanOut(s1, c1, i + 1, chunk);
            && Books(t) && s.trace <= t.trace
            && WriteCount(t.trace) - WriteCount(s.trace) + (s.monitorcount - t.monitorcount) <= s.monitorcount - i
    decreases s.monitorcount - i, |s.ports| - c, 0
  {
    WriteBudget(s1, c1, i + 1, chunk);
  }

  /** A failure before the last monitor leaves fewer successful writes than surviving monitors. */
  lemma {:induction false} TooFewWrites(s: State, c: nat, i: nat, chunk: Chunk, bad: nat)
    requires Books(s) && c <= |s.ports| && i + |Monitors(s.ports[c..])| == s.monitorcount
    requires i <= bad < s.monitorcount - 1 && bad in chunk.epipe
    ensures var t := FanOut(s, c, i, chunk);
            i + WriteCount(t.trace) - WriteCount(s.trace) < t.monitorcount
    decreases |s.ports| - c
  {
    if c == |s.ports| {
    } else {
      MonitorsStep(s.ports, c);
      if !s.ports[c].flags.monitor {
        TooFewWrites(s, c + 1, i, chunk, bad);
      } else if i in chunk.epipe {
        TooFewAfterFailure(s, c, i, chunk);
      } else {
        var e := Write(s.ports[c].fd, chunk.data);
        WriteCountEmit(s.trace, e);
        TooFewWrites(Emit(s, e), c + 1, i + 1, chunk, bad);
      }
    }
  }

  lemma TooFewAfterFailure(s: State, c: nat, i: nat, chunk: Chunk)
    requires Books(s) && c < |s.ports| && s.ports[c].flags.monitor
    requires i < s.monitorcount - 1 && i in chunk.epipe
    ensures var t := FanOut(s, c, i, chunk);
            i + WriteCount(t.trace) - WriteCount(s.trace) < t.monitorcount
  {
    FailedWrite(s, c, chunk.data);
    WriteBudget(ClosePort(Emit(s, WriteFailed(s.ports[c].fd, chunk.data)), s.ports[c]), 0, i + 1, chunk);
  }

  /** The descriptors written to from position `from` of the trace on. */
  function Written(trace: seq<Event>, from: nat): set<nat> {
    if |trace| <= from then {}
    else
      var n := |trace| - 1;
      Written(trace[..n], from) + if trace[n].Write? then {trace[n].fd} else {}
  }

  lemma {:induction false} WrittenHas(trace: seq<Event>, from: nat, i: nat)
    requires from <= i < |trace| && trace[i].Write?
    ensures trace[i].fd in Written(trace, from)
  {
    if i == |trace| - 1 {
    } else {
      WrittenHas(trace[..|trace| - 1], from, i);
    }
  }

  lemma {:induction false} WrittenCount(trace: seq<Event>, from: nat)
    requires from <= |trace|
    ensures |Written(trace, from)| <= WriteCount(trace) - WriteCount(trace[..from])
  {
    if from == |trace| {
      assert trace[..from] == trace;
    } else {
      WrittenCount(trace[..|trace| - 1], from);
      WrittenStep(trace, from);
      assert trace[..|trace| - 1][..from] == trace[..from];
    }
  }

  lemma WrittenStep(trace: seq<Event>, from: nat)
    requires from < |trace|
    ensures var n := |trace| - 1;
            |Written(trace, from)| - |Written(trace[..n], from)| <= WriteCount(trace) - WriteCount(trace[..n])
  {}

  lemma {:induction false} MonitorFds(ports: seq<Port>)
    requires Distinct(ports)
    ensures forall p :: p in Monitors(ports) ==> p in ports
    ensures |FdSet(Monitors(ports))| == |Monitors(ports)|
  {
    if ports == [] {
    } else {
      var ms := Monitors(ports[1..]);
      MonitorFds(ports[1..]);
      if ports[0].flags.monitor {
        assert FdSet([ports[0]] + ms) == {ports[0].fd} + FdSet(ms);
        assert ports[0].fd !in FdSet(ms);
      }
    }
  }

  lemma MissedByCount(few: set<nat>, many: set<nat>) returns (x: nat)
    requires |few| < |many|
    ensures x in many && x !in few
  {
    if many <= few {
      SubsetSize(many, few);
      assert false;
    }
    x :| x in many && x !in few;
  }

  /** Every port that still monitors after the round has been sent the chunk in it. */
  predicate ReachesAll(s: State, t: State, data: string) {
    forall p :: p in Monitors(t.ports) ==> exists i :: |s.trace| <= i < |t.trace| && t.trace[i] == Write(p.fd, data)
  }

  lemma WritesAreThere(ports: seq<Port>, data: string, j: nat)
    requires j < |ports|
    ensures |Writes(ports, data)| == |ports| && Writes(ports, data)[j] == Write(ports[j].fd, data)
  {
    if j > 0 {
      WritesAreThere(ports[1..], data, j - 1);
    } else if |ports| > 1 {
      WritesAreThere(ports[1..], data, 0);
    }
  }

  /** A failing write before the last monitor makes some surviving monitor miss the chunk. */
  lemma EarlyFailureMissesOne(s: State, chunk: Chunk, bad: nat)
    requires Books(s) && bad < s.monitorcount - 1 && bad in chunk.epipe
    ensures !ReachesAll(s, FanOut(s, 0, 0, chunk), chunk.data)
  {
    var t := FanOut(s, 0, 0, chunk);
    assert s.ports[0..] == s.ports;
    TooFewWrites(s, 0, 0, chunk, bad);
    WriteBudget(s, 0, 0, chunk);
    assert t.trace[..|s.trace|] == s.trace;
    WrittenCount(t.trace, |s.trace|);
    MonitorFds(t.ports);
    var fd := MissedByCount(Written(t.trace, |s.trace|), FdSet(Monitors(t.ports)));
    var p :| p in Monitors(t.ports) && p.fd == fd;
    forall i | |s.trace| <= i < |t.trace|
      ensures t.trace[i] != Write(p.fd, chunk.data)
    {
      if t.trace[i].Write? {
        WrittenHas(t.trace, |s.trace|, i);
      }
    }
  }

  /** Ports that were all written to have been reached. */
  lemma WrittenAreReached(s: State, t: State, served: seq<Port>, data: string)
    requires s.trace + Writes(served, data) <= t.trace
    requires forall p :: p in Monitors(t.ports) ==> p in served
    ensures ReachesAll(s, t, data)
  {
    forall p | p in Monitors(t.ports)
      ensures exists i :: |s.trace| <= i < |t.trace| && t.trace[i] == Write(p.fd, data)
    {
      var j :| 0 <= j < |served| && served[j] == p;
      WritesAreThere(served, data, j);
      assert t.trace[|s.trace| + j] == Write(p.fd, data);
    }
  }

  /**
   * Without an early failure each monitor is sent the chunk exactly once, in list order, and
   * nobody else is; a last monitor whose write fails is closed.
   */
  lemma LateFailureReachesAll(s: State, chunk: Chunk)
    requires Books(s)
    requires forall i :: 0 <= i < s.monitorcount - 1 ==> i !in chunk.epipe
    ensures ReachesAll(s, FanOut(s, 0, 0, chunk), chunk.data)
    ensures var t, ms := FanOut(s, 0, 0, chunk), Monitors(s.ports);
            var n := |ms|;
            t.trace == if n == 0 || n - 1 !in chunk.epipe then s.trace + Writes(ms, chunk.data)
                       else s.trace + Writes(ms[..n - 1], chunk.data) +
                            [WriteFailed(ms[n - 1].fd, chunk.data), Close(ms[n - 1].fd)]
  {
    var t, ms := FanOut(s, 0, 0, chunk), Monitors(s.ports);
    var n := |ms|;
    assert s.ports[0..] == s.ports;
    if n == 0 || n - 1 !in chunk.epipe {
      FanOutClean(s, 0, 0, chunk);
      WrittenAreReached(s, t, ms, chunk.data);
    } else {
      FanOutLastFails(s, 0, 0, chunk);
      var k :| 0 <= k < |s.ports| && s.ports[k] == ms[n - 1] && t.ports == Without(s.ports, k);
      MonitorsButLast(s.ports, k);
      WrittenAreReached(s, t, ms[..n - 1], chunk.data);
    }
  }

  /** The last monitor has no monitor behind it. */
  lemma NoMonitorBehindLast(ports: seq<Port>, k: nat)
    requires Distinct(ports) && k < |ports| && Monitors(ports) != []
    requires ports[k] == Monitors(ports)[|Monitors(ports)| - 1]
    ensures Monitors(ports[k + 1..]) == []
  {
    var b := Monitors(ports[k + 1..]);
    MonitorFds(ports[k + 1..]);
    forall q | q in b
      ensures q != ports[k]
    {
      var i :| 0 <= i < |ports[k + 1..]| && q == ports[k + 1..][i];
    }
    assert b == [] || b[|b| - 1] in b;
    MonitorsAt(ports, k);
  }

  lemma MonitorsButLast(ports: seq<Port>, k: nat)
    requires Distinct(ports) && k < |ports| && Monitors(ports) != []
    requires ports[k] == Monitors(ports)[|Monitors(ports)| - 1]
    ensures Monitors(Without(ports, k)) == Monitors(ports)[..|Monitors(ports)| - 1]
  {
    NoMonitorBehindLast(ports, k);
    MonitorFlags(ports);
    MonitorsAt(ports, k);
    MonitorsConcat(ports[..k], ports[k + 1..]);
  }

  lemma {:induction false} MonitorFlags(ports: seq<Port>)
    ensures forall p :: p in Monitors(ports) ==> p.flags.monitor
  {
    if ports == [] {
    } else {
      MonitorFlags(ports[1..]);
    }
  }

  /**
   * The exact condition for a fan-out round: every monitor that survives it has been sent the
   * chunk if and only if none of the writes before the last monitor's fails with EPIPE.
   */
  lemma FanOutReachesAllIff(s: State, chunk: Chunk)
    requires Books(s)
    ensures ReachesAll(s, FanOut(s, 0, 0, chunk), chunk.data) <==>
            forall i :: 0 <= i < s.monitorcount - 1 ==> i !in chunk.epipe
  {
    if forall i :: 0 <= i < s.monitorcount - 1 ==> i !in chunk.epipe {
      LateFailureReachesAll(s, chunk);
    } else {
      var bad: nat :| bad < s.monitorcount - 1 && bad in chunk.epipe;
      EarlyFailureMissesOne(s, chunk, bad);
    }
  }

  // ---- a whole call without failures -------------------------------------------------------

  /** One round of writes for each chunk, up to the first empty one. */
  function ChunkWrites(ports: seq<Port>, chunks: seq<Chunk>): seq<Event> {
    if chunks == [] || chunks[0].data == "" then []
    else Writes(ports, chunks[0].data) + ChunkWrites(ports, chunks[1..])
  }

  lemma {:induction false} PumpClean(s: State, chunks: seq<Chunk>)
    requires s.monitorcount == |Monitors(s.ports)| > 0
    requires forall k, i :: 0 <= k < |chunks| && 0 <= i < s.monitorcount ==> i !in chunks[k].epipe
    ensures Pump(s, chunks) == s.(trace := s.trace + ChunkWrites(Monitors(s.ports), chunks))
    decreases |chunks|
  {
    if chunks == [] || chunks[0].data == "" {
      assert s.trace + [] == s.trace;
    } else {
      var ms := Monitors(s.ports);
      var w := Writes(ms, chunks[0].data);
      assert s.ports[0..] == s.ports;
      FanOutClean(s, 0, 0, chunks[0]);
      PumpClean(s.(trace := s.trace + w), chunks[1..]);
      Assoc(s.trace, w, ChunkWrites(ms, chunks[1..]));
    }
  }

  /**
   * Without failures, and with somebody monitoring, a call of `fifo_server` sends chunk after
   * chunk until the pipe runs dry, each once to each monitor in list order, and changes nothing else.
   */
  lemma FifoServerClean(s: State, chunks: seq<Chunk>)
    requires Books(s) && s.monitorcount > 0
    requires forall k, i :: 0 <= k < |chunks| && 0 <= i < s.monitorcount ==> i !in chunks[k].epipe
    ensures FifoServer(s, chunks) == s.(trace := s.trace + ChunkWrites(Monitors(s.ports), chunks))
  {
    PumpClean(s, chunks);
  }

  // ---- who gets a chunk twice --------------------------------------------------------------

  function FdsOf(ports: seq<Port>): (fds: seq<nat>)
    ensures |fds| == |ports| && forall i :: 0 <= i < |ports| ==> fds[i] == ports[i].fd
  {
    seq(|ports|, i requires 0 <= i < |ports| => ports[i].fd)
  }

  /** The descriptors sent `data` from position `from` of the trace on, in order. */
  function Sent(trace: seq<Event>, from: nat, data: string): seq<nat> {
    if |trace| <= from then []
    else
      var e := trace[|trace| - 1];
      Sent(trace[..|trace| - 1], from, data) + if e.Write? && e.data == data then [e.fd] else []
  }

  lemma SentEmit(trace: seq<Event>, from: nat, data: string, e: Event)
    requires from <= |trace|
    ensures Sent(trace + [e], from, data) ==
            Sent(trace, from, data) + if e.Write? && e.data == data then [e.fd] else []
  {
    assert (trace + [e])[..|trace|] == trace;
  }

  lemma {:induction false} MonitorsDistinct(ports: seq<Port>)
    requires Distinct(ports)
    ensures Distinct(Monitors(ports))
  {
    if ports == [] {
    } else {
      MonitorsDistinct(ports[1..]);
      MonitorFds(ports[1..]);
      assert forall q :: q in Monitors(ports[1..]) ==> q in ports[1..] && q.fd != ports[0].fd;
    }
  }

  /** Where list position `c` stands among the monitors. */
  function Rank(ports: seq<Port>, c: nat): nat
    requires c <= |ports|
  {
    |Monitors(ports[..c])|
  }

  lemma RankStep(ports: seq<Port>, c: nat)
    requires c < |ports|
    ensures Rank(ports, c + 1) == Rank(ports, c) + if ports[c].flags.monitor then 1 else 0
    ensures ports[c].flags.monitor ==> Rank(ports, c) < |Monitors(ports)| && Monitors(ports)[Rank(ports, c)] == ports[c]
  {
    assert ports[..c + 1] == ports[..c] + [ports[c]];
    MonitorsConcat(ports[..c], [ports[c]]);
    MonitorsAt(ports, c);
  }

  lemma DroppedMonitor(ports: seq<Port>, c: nat)
    requires c < |ports| && ports[c].flags.monitor
    ensures Rank(ports, c) < |Monitors(ports)|
    ensures FdsOf(Monitors(Without(ports, c))) == Dropped(FdsOf(Monitors(ports)), Rank(ports, c))
  {
    MonitorsAt(ports, c);
    MonitorsConcat(ports[..c], ports[c + 1..]);
    var k, ms, rest := Rank(ports, c), Monitors(ports), Monitors(Without(ports, c));
    assert rest == ms[..k] + ms[k + 1..];
    assert FdsOf(rest) == FdsOf(ms)[..k] + FdsOf(ms)[k + 1..];
  }

  /** A failed write sends nothing and drops its monitor. */
  lemma SentNothing(s: State, c: nat, from: nat, data: string) returns (t: State)
    requires Books(s) && c < |s.ports| && s.ports[c].flags.monitor && from <= |s.trace|
    ensures t == ClosePort(Emit(s, WriteFailed(s.ports[c].fd, data)), s.ports[c])
    ensures Books(t) && t.monitorcount == s.monitorcount - 1 && from <= |t.trace|
    ensures t.ports == Without(s.ports, c) && Sent(t.trace, from, data) == Sent(s.trace, from, data)
  {
    var p := s.ports[c];
    var s1 := Emit(s, WriteFailed(p.fd, data));
    ClosePortAt(s1, c);
    t := ClosePort(s1, p);
    SentEmit(s.trace, from, data, WriteFailed(p.fd, data));
    SentEmit(s1.trace, from, data, Close(p.fd));
  }

  /** The loop over the linked list delivers as the loop over the monitors' descriptors does. */
  lemma {:induction false} FanOutDelivers(s: State, c: nat, i: nat, chunk: Chunk, from: nat)
    requires Books(s) && c <= |s.ports| && from <= |s.trace|
    ensures Sent(FanOut(s, c, i, chunk).trace, from, chunk.data) ==
            Sent(s.trace, from, chunk.data) +
            Delivered(FdsOf(Monitors(s.ports)), Rank(s.ports, c), i, chunk.epipe)
    decreases s.monitorcount - i, |s.ports| - c, 1
  {
    if c == |s.ports| || i >= s.monitorcount {
      var sent := Sent(s.trace, from, chunk.data);
      assert s.ports[..|s.ports|] == s.ports;
      assert sent + [] == sent;
    } else {
      RankStep(s.ports, c);
      if !s.ports[c].flags.monitor {
        FanOutDelivers(s, c + 1, i, chunk, from);
      } else if i in chunk.epipe {
        DeliversPastFailure(s, c, i, chunk, from);
      } else {
        DeliversPastWrite(s, c, i, chunk, from);
      }
    }
  }

  lemma {:induction false} DeliversPastFailure(s: State, c: nat, i: nat, chunk: Chunk, from: nat)
    requires Books(s) && c < |s.ports| && s.ports[c].flags.monitor && from <= |s.trace|
    requires i < s.monitorcount && i in chunk.epipe
    ensures var t := ClosePort(Emit(s, WriteFailed(s.ports[c].fd, chunk.data)), s.ports[c]);
            Sent(FanOut(t, 0, i + 1, chunk).trace, from, chunk.data) ==
            Sent(s.trace, from, chunk.data) +
            Delivered(FdsOf(Monitors(s.ports)), Rank(s.ports, c), i, chunk.epipe)
    decreases s.monitorcount - i, |s.ports| - c, 0
  {
    var t := SentNothing(s, c, from, chunk.data);
    DroppedMonitor(s.ports, c);
    FanOutDelivers(t, 0, i + 1, chunk, from);
  }

  lemma {:induction false} DeliversPastWrite(s: State, c: nat, i: nat, chunk: Chunk, from: nat)
    requires Books(s) && c < |s.ports| && s.ports[c].flags.monitor && from <= |s.trace|
    requires i < s.monitorcount && i !in chunk.epipe
    ensures Sent(FanOut(Emit(s, Write(s.ports[c].fd, chunk.data)), c + 1, i + 1, chunk).trace, from, chunk.data) ==
            Sent(s.trace, from, chunk.data) +
            Delivered(FdsOf(Monitors(s.ports)), Rank(s.ports, c), i, chunk.epipe)
    decreases s.monitorcount - i, |s.ports| - c, 0
  {
    var fd, fds, sent := s.ports[c].fd, FdsOf(Monitors(s.ports)), Sent(s.trace, from, chunk.data);
    RankStep(s.ports, c);
    SentEmit(s.trace, from, chunk.data, Write(fd, chunk.data));
    FanOutDelivers(Emit(s, Write(fd, chunk.data)), c + 1, i + 1, chunk, from);
    Assoc(sent, [fd], Delivered(fds, Rank(s.ports, c) + 1, i + 1, chunk.epipe));
  }

  /** The round that led from `s` to `t` sent `data` to `fd` at two different times. */
  predicate SentTwice(s: State, t: State, fd: nat, data: string) {
    exists i, j :: |s.trace| <= i < j < |t.trace| && t.trace[i] == t.trace[j] == Write(fd, data)
  }

  lemma {:induction false} SentOnce(trace: seq<Event>, from: nat, data: string, x: nat)
    ensures x in Sent(trace, from, data) <==> exists i :: from <= i < |trace| && trace[i] == Write(x, data)
  {
    if |trace| <= from {
    } else {
      var n := |trace| - 1;
      SentOnce(trace[..n], from, data, x);
      assert forall i :: 0 <= i < n ==> trace[..n][i] == trace[i];
    }
  }

  lemma {:induction false} SentTwiceAt(trace: seq<Event>, from: nat, data: string, x: nat)
    ensures Twice(Sent(trace, from, data), x) <==>
            exists i, j :: from <= i < j < |trace| && trace[i] == trace[j] == Write(x, data)
  {
    if |trace| <= from {
    } else {
      var n := |trace| - 1;
      var d := Sent(trace[..n], from, data);
      SentTwiceAt(trace[..n], from, data, x);
      SentOnce(trace[..n], from, data, x);
      assert forall i :: 0 <= i < n ==> trace[..n][i] == trace[i];
      if trace[n].Write? && trace[n].data == data {
        TwiceSnoc(d, trace[n].fd, x);
      } else {
        assert d + [] == d;
      }
    }
  }

  lemma SentInRound(s: State, chunk: Chunk)
    requires Books(s)
    ensures var d, t := Delivered(FdsOf(Monitors(s.ports)), 0, 0, chunk.epipe), FanOut(s, 0, 0, chunk);
            forall fd :: SentTwice(s, t, fd, chunk.data) <==> Twice(d, fd)
  {
    var t := FanOut(s, 0, 0, chunk);
    FanOutDelivers(s, 0, 0, chunk, |s.trace|);
    var d := Delivered(FdsOf(Monitors(s.ports)), 0, 0, chunk.epipe);
    assert [] + d == d;
    forall fd
      ensures SentTwice(s, t, fd, chunk.data) <==> Twice(d, fd)
    {
      SentTwiceAt(t.trace, |s.trace|, chunk.data, fd);
    }
  }

  /**
   * The first monitor is sent the chunk twice exactly when the first failing write is neither
   * the first nor one of the last two and the write after it succeeds.
   */
  lemma FirstMonitorServedTwiceIff(s: State, chunk: Chunk)
    requires Books(s) && s.monitorcount > 0
    ensures SentTwice(s, FanOut(s, 0, 0, chunk), Monitors(s.ports)[0].fd, chunk.data) <==>
            RestartsInTime(s.monitorcount, chunk.epipe)
  {
    SentInRound(s, chunk);
    MonitorsDistinct(s.ports);
    FirstTwiceIff(FdsOf(Monitors(s.ports)), chunk.epipe);
  }

  /**
   * Somebody is sent the chunk twice exactly when, for some `r`, a successful write `j` of the
   * round comes right behind `r` failed writes that come right behind `r` successful ones. The
   * round has a write `j` when `j` and the failures before it stay below the number of monitors.
   */
  lemma SomebodyServedTwiceIff(s: State, chunk: Chunk)
    requires Books(s)
    ensures (exists fd :: SentTwice(s, FanOut(s, 0, 0, chunk), fd, chunk.data)) <==>
            exists j: nat, r: nat :: Balanced(j, r, chunk.epipe) && j + |Failures(chunk.epipe, j)| < s.monitorcount
  {
    var fds := FdsOf(Monitors(s.ports));
    SentInRound(s, chunk);
    MonitorsDistinct(s.ports);
    AnyTwiceIff(fds, chunk.epipe);
    forall j: nat
      ensures Lost(chunk.epipe, j) == |Failures(chunk.epipe, j)|
    {
      LostCounts(chunk.epipe, j);
    }
  }
}
