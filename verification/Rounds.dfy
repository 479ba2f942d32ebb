/**
 * Whole fan-out rounds and whole calls of `fifo_server` under any failures: their exact events,
 * and who is left in the list behind them.
 */
module Rounds {
  import opened Common
  import opened Selection
  import opened ServerModel
  import opened ServerInvariant
  import opened Deliveries
  import opened FanOuts

  /** The events of a round over the monitors' descriptors, from position `pos` on after `i` writes. */
  function RoundEvents(fds: seq<nat>, pos: nat, i: nat, chunk: Chunk): seq<Event>
    decreases |fds| - i
  {
    if pos >= |fds| || i >= |fds| then []
    else if i in chunk.epipe then
      [WriteFailed(fds[pos], chunk.data), Close(fds[pos])] + RoundEvents(Dropped(fds, pos), 0, i + 1, chunk)
    else [Write(fds[pos], chunk.data)] + RoundEvents(fds, pos + 1, i + 1, chunk)
  }

  /** The descriptors that still monitor behind it. */
  function RoundLeft(fds: seq<nat>, pos: nat, i: nat, fails: set<nat>): (r: seq<nat>)
    ensures forall x :: x in r ==> x in fds
    decreases |fds| - i
  {
    if pos >= |fds| || i >= |fds| then fds
    else if i in fails then RoundLeft(Dropped(fds, pos), 0, i + 1, fails)
    else RoundLeft(fds, pos + 1, i + 1, fails)
  }

  /** The descriptors of the successful writes, in order. */
  function WriteFds(es: seq<Event>): seq<nat> {
    if es == [] then [] else (if es[0].Write? then [es[0].fd] else []) + WriteFds(es[1..])
  }

  /** The successful writes of a round are its deliveries. */
  lemma {:induction false} RoundWrites(fds: seq<nat>, pos: nat, i: nat, chunk: Chunk)
    ensures WriteFds(RoundEvents(fds, pos, i, chunk)) == Delivered(fds, pos, i, chunk.epipe)
    decreases |fds| - i
  {
    if pos >= |fds| || i >= |fds| {
    } else if i in chunk.epipe {
      var rest := RoundEvents(Dropped(fds, pos), 0, i + 1, chunk);
      var es := RoundEvents(fds, pos, i, chunk);
      RoundWrites(Dropped(fds, pos), 0, i + 1, chunk);
      assert es[1..] == [Close(fds[pos])] + rest && es[1..][1..] == rest;
    } else {
      RoundWrites(fds, pos + 1, i + 1, chunk);
      assert RoundEvents(fds, pos, i, chunk)[1..] == RoundEvents(fds, pos + 1, i + 1, chunk);
    }
  }

  // ---- the list behind a round -------------------------------------------------------------

  /** The ports that do not monitor, and the monitors among `left`. */
  function Staying(ports: seq<Port>, left: seq<nat>): seq<Port> {
    if ports == [] then []
    else (if ports[0].flags.monitor && ports[0].fd !in left then [] else [ports[0]]) + Staying(ports[1..], left)
  }

  lemma {:induction false} StayingAll(ports: seq<Port>, left: seq<nat>)
    requires forall p :: p in ports && p.flags.monitor ==> p.fd in left
    ensures Staying(ports, left) == ports
  {
    if ports == [] {
    } else {
      StayingAll(ports[1..], left);
    }
  }

  lemma {:induction false} StayingConcat(a: seq<Port>, b: seq<Port>, left: seq<nat>)
    ensures Staying(a + b, left) == Staying(a, left) + Staying(b, left)
  {
    if a == [] {
      assert a + b == b;
    } else {
      assert (a + b)[1..] == a[1..] + b;
      StayingConcat(a[1..], b, left);
      Assoc(if a[0].flags.monitor && a[0].fd !in left then [] else [a[0]], Staying(a[1..], left), Staying(b, left));
    }
  }

  lemma {:induction false} StayingTwice(ports: seq<Port>, mid: seq<nat>, left: seq<nat>)
    requires forall x :: x in left ==> x in mid
    ensures Staying(Staying(ports, mid), left) == Staying(ports, left)
  {
    if ports == [] {
    } else {
      StayingTwice(ports[1..], mid, left);
      var rest := Staying(ports[1..], mid);
      assert ([ports[0]] + rest)[1..] == rest && [] + rest == rest;
    }
  }

  lemma {:induction false} StayingWithout(ports: seq<Port>, c: nat, left: seq<nat>)
    requires c < |ports| && ports[c].flags.monitor && ports[c].fd !in left
    ensures Staying(Without(ports, c), left) == Staying(ports, left)
  {
    StayingConcat(ports[..c], ports[c + 1..], left);
    StayingConcat(ports[..c], [ports[c]] + ports[c + 1..], left);
    SplitAt(ports, c);
    assert ([ports[c]] + ports[c + 1..])[1..] == ports[c + 1..];
  }

  lemma {:induction false} MonitorListed(ports: seq<Port>, p: Port)
    requires p in ports && p.flags.monitor
    ensures p.fd in FdsOf(Monitors(ports))
  {
    var i :| 0 <= i < |ports| && ports[i] == p;
    RankStep(ports, i);
    assert FdsOf(Monitors(ports))[Rank(ports, i)] == p.fd;
  }

  lemma {:induction false} StayingMonitors(ports: seq<Port>)
    ensures Staying(ports, FdsOf(Monitors(ports))) == ports
  {
    forall p | p in ports && p.flags.monitor
      ensures p.fd in FdsOf(Monitors(ports))
    {
      MonitorListed(ports, p);
    }
    StayingAll(ports, FdsOf(Monitors(ports)));
  }

  // ---- a round -----------------------------------------------------------------------------

  /** From `s` to `t` exactly the events `es` happened, and of the monitors exactly `left` are left. */
  predicate Leads(s: State, t: State, es: seq<Event>, left: seq<nat>) {
    && Books(t)
    && t == s.(ports := t.ports, ps := t.ps, monitorcount := t.monitorcount, trace := t.trace)
    && t.trace == s.trace + es
    && t.ports == Staying(s.ports, left)
    && FdsOf(Monitors(t.ports)) == left
  }

  lemma LeadsNowhere(s: State)
    requires Books(s)
    ensures Leads(s, s, [], FdsOf(Monitors(s.ports)))
  {
    StayingMonitors(s.ports);
    assert s.trace + [] == s.trace;
  }

  lemma LeadsPastWrite(s: State, e: Event, t: State, es: seq<Event>, left: seq<nat>)
    requires Leads(Emit(s, e), t, es, left)
    ensures Leads(s, t, [e] + es, left)
  {
    Assoc(s.trace, [e], es);
  }

  lemma LeadsPastFailure(s: State, c: nat, s1: State, t: State, first: seq<Event>, es: seq<Event>, left: seq<nat>)
    requires c < |s.ports| && s.ports[c].flags.monitor && s.ports[c].fd !in left
    requires s1 == s.(ports := Without(s.ports, c), ps := s1.ps, monitorcount := s1.monitorcount, trace := s.trace + first)
    requires Leads(s1, t, es, left)
    ensures Leads(s, t, first + es, left)
  {
    StayingWithout(s.ports, c, left);
    Assoc(s.trace, first, es);
  }

  /** The failed write at position `c` and the close it causes. */
  lemma FailureAt(s: State, c: nat, data: string) returns (t: State)
    requires Books(s) && c < |s.ports| && s.ports[c].flags.monitor
    ensures t == ClosePort(Emit(s, WriteFailed(s.ports[c].fd, data)), s.ports[c])
    ensures Books(t) && t.monitorcount == s.monitorcount - 1
    ensures t == s.(ports := Without(s.ports, c), ps := t.ps, monitorcount := t.monitorcount,
                    trace := s.trace + [WriteFailed(s.ports[c].fd, data), Close(s.ports[c].fd)])
  {
    var p := s.ports[c];
    var s1 := Emit(s, WriteFailed(p.fd, data));
    ClosePortAt(s1, c);
    t := ClosePort(s1, p);
    Assoc(s.trace, [WriteFailed(p.fd, data)], [Close(p.fd)]);
  }

  /** What a round does from any list position and any number of writes made. */
  lemma {:induction false} FanOutRound(s: State, c: nat, i: nat, chunk: Chunk)
    requires Books(s) && c <= |s.ports|
    ensures var fds, pos := FdsOf(Monitors(s.ports)), Rank(s.ports, c);
            Leads(s, FanOut(s, c, i, chunk), RoundEvents(fds, pos, i, chunk), RoundLeft(fds, pos, i, chunk.epipe))
    decreases s.monitorcount - i, |s.ports| - c, 1
  {
    if c == |s.ports| || i >= s.monitorcount {
      assert s.ports[..|s.ports|] == s.ports;
      LeadsNowhere(s);
    } else {
      RankStep(s.ports, c);
      if !s.ports[c].flags.monitor {
        FanOutRound(s, c + 1, i, chunk);
      } else if i in chunk.epipe {
        RoundPastFailure(s, c, i, chunk);
      } else {
        RoundPastWrite(s, c, i, chunk);
      }
    }
  }

  lemma {:induction false} RoundPastFailure(s: State, c: nat, i: nat, chunk: Chunk)
    requires Books(s) && c < |s.ports| && s.ports[c].flags.monitor && i < s.monitorcount && i in chunk.epipe
    ensures var t := ClosePort(Emit(s, WriteFailed(s.ports[c].fd, chunk.data)), s.ports[c]);
            var fds, pos := FdsOf(Monitors(s.ports)), Rank(s.ports, c);
            Leads(s, FanOut(t, 0, i + 1, chunk), RoundEvents(fds, pos, i, chunk), RoundLeft(fds, pos, i, chunk.epipe))
    decreases s.monitorcount - i, |s.ports| - c, 0
  {
    var fds, pos := FdsOf(Monitors(s.ports)), Rank(s.ports, c);
    RankStep(s.ports, c);
    var rest, fd := Dropped(fds, pos), s.ports[c].fd;
    var t := FailureAt(s, c, chunk.data);
    DroppedMonitor(s.ports, c);
    FanOutRound(t, 0, i + 1, chunk);
    MonitorsDistinct(s.ports);
    UniqueDropped(fds, pos);
    LeadsPastFailure(s, c, t, FanOut(t, 0, i + 1, chunk), [WriteFailed(fd, chunk.data), Close(fd)],
                     RoundEvents(rest, 0, i + 1, chunk), RoundLeft(rest, 0, i + 1, chunk.epipe));
  }

  lemma {:induction false} RoundPastWrite(s: State, c: nat, i: nat, chunk: Chunk)
    requires Books(s) && c < |s.ports| && s.ports[c].flags.monitor && i < s.monitorcount && i !in chunk.epipe
    ensures var t := Emit(s, Write(s.ports[c].fd, chunk.data));
            var fds, pos := FdsOf(Monitors(s.ports)), Rank(s.ports, c);
            Leads(s, FanOut(t, c + 1, i + 1, chunk), RoundEvents(fds, pos, i, chunk), RoundLeft(fds, pos, i, chunk.epipe))
    decreases s.monitorcount - i, |s.ports| - c, 0
  {
    var fds, pos := FdsOf(Monitors(s.ports)), Rank(s.ports, c);
    var e := Write(s.ports[c].fd, chunk.data);
    RankStep(s.ports, c);
    FanOutRound(Emit(s, e), c + 1, i + 1, chunk);
    LeadsPastWrite(s, e, FanOut(Emit(s, e), c + 1, i + 1, chunk), RoundEvents(fds, pos + 1, i + 1, chunk),
                   RoundLeft(fds, pos + 1, i + 1, chunk.epipe));
  }

  // ---- a call ------------------------------------------------------------------------------

  /** Round after round, each over the monitors the one before has left, until the pipe runs dry or nobody is left. */
  function PumpEvents(fds: seq<nat>, chunks: seq<Chunk>): seq<Event>
    decreases |chunks|
  {
    if chunks == [] || chunks[0].data == "" || fds == [] then []
    else RoundEvents(fds, 0, 0, chunks[0]) + PumpEvents(RoundLeft(fds, 0, 0, chunks[0].epipe), chunks[1..])
  }

  function PumpLeft(fds: seq<nat>, chunks: seq<Chunk>): (r: seq<nat>)
    ensures forall x :: x in r ==> x in fds
    decreases |chunks|
  {
    if chunks == [] || chunks[0].data == "" || fds == [] then fds
    else PumpLeft(RoundLeft(fds, 0, 0, chunks[0].epipe), chunks[1..])
  }

  lemma LeadsThen(s: State, t: State, u: State, a: seq<Event>, mid: seq<nat>, b: seq<Event>, left: seq<nat>)
    requires Leads(s, t, a, mid) && Leads(t, u, b, left) && forall x :: x in left ==> x in mid
    ensures Leads(s, u, a + b, left)
  {
    StayingTwice(s.ports, mid, left);
    Assoc(s.trace, a, b);
  }

  lemma {:induction false} PumpRounds(s: State, chunks: seq<Chunk>)
    requires Books(s) && s.monitorcount > 0
    ensures var fds := FdsOf(Monitors(s.ports));
            Leads(s, Pump(s, chunks), PumpEvents(fds, chunks), PumpLeft(fds, chunks))
    decreases |chunks|
  {
    var fds := FdsOf(Monitors(s.ports));
    if chunks == [] || chunks[0].data == "" {
      LeadsNowhere(s);
    } else {
      var t := FanOut(s, 0, 0, chunks[0]);
      assert Rank(s.ports, 0) == 0;
      FanOutRound(s, 0, 0, chunks[0]);
      PumpOn(s, t, chunks, RoundEvents(fds, 0, 0, chunks[0]), RoundLeft(fds, 0, 0, chunks[0].epipe));
    }
  }

  lemma {:induction false} PumpOn(s: State, t: State, chunks: seq<Chunk>, es: seq<Event>, left: seq<nat>)
    requires chunks != [] && Leads(s, t, es, left)
    ensures Leads(s, if t.monitorcount == 0 then t else Pump(t, chunks[1..]),
                  es + PumpEvents(left, chunks[1..]), PumpLeft(left, chunks[1..]))
    decreases |chunks|, 0
  {
    if t.monitorcount == 0 {
      assert es + [] == es;
    } else {
      PumpRounds(t, chunks[1..]);
      LeadsThen(s, t, Pump(t, chunks[1..]), es, left, PumpEvents(left, chunks[1..]), PumpLeft(left, chunks[1..]));
    }
  }

  /** What a call of `fifo_server` does when somebody monitors. */
  lemma FifoServerRounds(s: State, chunks: seq<Chunk>)
    requires Books(s) && s.monitorcount > 0
    ensures var fds := FdsOf(Monitors(s.ports));
            Leads(s, FifoServer(s, chunks), PumpEvents(fds, chunks), PumpLeft(fds, chunks))
  {
    PumpRounds(s, chunks);
  }
}
