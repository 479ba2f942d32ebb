/**
 * The client's reverse-DNS cache as a finite map, with the load reports that gate its queries:
 * client/resolve.c and `do_load` of client/parser.c.
 */
module ResolveModel {
  import opened Common

  const HASHSIZE: nat := 65536
  const MAX_QUERY_LOAD := 200
  const HOSTREC_EXPIRE := 60 * 60 * 24 * 2

  function Xor(x: bv8, y: bv8): (n: nat)
    ensures n < 256
  {
    (x ^ y) as nat
  }

  /** The bucket of an address. */
  function Hash(addr: Ip): (h: nat)
    ensures h < HASHSIZE
  {
    Xor(addr.a, addr.c) + Xor(addr.b, addr.d) * 256
  }

  lemma SameOctet(n: nat, p: bv8, q: bv8)
    requires n == p as nat && n == q as nat
    ensures p == q
  {
    assert n as bv8 == p;
  }

  lemma XorCancels(x: bv8, y: bv8, z: bv8)
    requires x ^ y == x ^ z
    ensures y == z
  {
    assert x ^ (x ^ y) == y && x ^ (x ^ z) == z;
  }

  lemma XorTells(x: bv8, y: bv8, z: bv8)
    requires Xor(x, y) == Xor(x, z)
    ensures y == z
  {
    SameOctet(Xor(x, y), x ^ y, x ^ z);
    XorCancels(x, y, z);
  }

  lemma SameDigits(p: nat, q: nat, r: nat, t: nat)
    requires p < 256 && r < 256 && p + q * 256 == r + t * 256
    ensures p == r && q == t
  {}

  lemma SameXors(x: Ip, y: Ip)
    requires Hash(x) == Hash(y)
    ensures Xor(x.a, x.c) == Xor(y.a, y.c) && Xor(x.b, x.d) == Xor(y.b, y.d)
  {
    SameDigits(Xor(x.a, x.c), Xor(x.b, x.d), Xor(y.a, y.c), Xor(y.b, y.d));
  }

  /** Of the 65536 addresses of a network no two share a bucket, so together they use all of them. */
  lemma HashSpreads(x: Ip, y: Ip)
    requires x.a == y.a && x.b == y.b && Hash(x) == Hash(y)
    ensures x == y
  {
    SameXors(x, y);
    XorTells(x.a, x.c, y.c);
    XorTells(x.b, x.d, y.d);
  }

  /** What `gethostbyaddr` answers: a name with its local abbreviation, a definite no, or a failure. */
  datatype Answer = Found(name: string, short: string) | NoSuchHost | TryAgain

  /** The remembered part of a `struct hostrec`. */
  datatype Host = Host(name: string, trunc: string, time: int)

  /** One call of `gethostbyaddr`, made for the text `text` at time `time`. */
  datatype Lookup = Lookup(ip: Ip, text: string, answer: Answer, time: int)

  datatype Cache = Cache(
    hosts: map<Ip, Host>,
    rx: seq<int>, tx: seq<int>,
    state: string, now: int,
    numeric: bool, short: bool,
    log: seq<Lookup>)

  /** A request: the text, its value if it is an address, and what a lookup would answer. */
  datatype Query = Query(text: string, ip: Option<Ip>, answer: Answer)

  datatype Event =
    | Load(txtotal: int, rxtotal: int)
    | LinkState(name: string)
    | Clock(time: int)
    | ToggleNumeric
    | ToggleShort
    | Resolve(query: Query)

  const START := Cache(map[], [0, 0, 0], [0, 0, 0], "", 0, false, false, [])

  /** The query gate as coded: the second sum adds the last receive load, not the last transmit load. */
  predicate GateOpen(state: string, rx: seq<int>, tx: seq<int>)
    requires |rx| == |tx| == 3
  {
    && state == "UP"
    && rx[0] + rx[1] + rx[2] < MAX_QUERY_LOAD
    && tx[0] + tx[1] + rx[2] < MAX_QUERY_LOAD
  }

  predicate WellFormed(c: Cache) {
    |c.rx| == |c.tx| == 3
  }

  /** What a lookup leaves in the cache, if anything. */
  function Remembered(l: Lookup): Option<Host> {
    match l.answer
    case Found(name, short) => Some(Host(name, short, l.time))
    case NoSuchHost => Some(Host(l.text, l.text, l.time))
    case TryAgain => None
  }

  function Shown(c: Cache, h: Host): string {
    if c.short then h.trunc else h.name
  }

  /** The call looks the address up rather than using the table. */
  predicate Asks(c: Cache, ip: Ip)
    requires WellFormed(c)
  {
    (ip !in c.hosts || c.now - c.hosts[ip].time > HOSTREC_EXPIRE) && GateOpen(c.state, c.rx, c.tx)
  }

  function Asked(c: Cache, ip: Ip, q: Query): (Cache, string) {
    var l := Lookup(ip, q.text, q.answer, c.now);
    var c1 := c.(log := c.log + [l]);
    match Remembered(l)
    case None => (c1, q.text)
    case Some(h) =>
      (c1.(hosts := c.hosts[ip := h]), if q.answer.Found? then Shown(c, h) else q.text)
  }

  function ResolveQuery(c: Cache, q: Query): (Cache, string)
    requires WellFormed(c)
  {
    if q.ip.None? || c.numeric then (c, q.text)
    else if Asks(c, q.ip.value) then Asked(c, q.ip.value, q)
    else if q.ip.value in c.hosts then (c, Shown(c, c.hosts[q.ip.value]))
    else (c, q.text)
  }

  function Next(c: Cache, e: Event): (r: Cache)
    requires WellFormed(c)
    ensures WellFormed(r)
  {
    match e
    case Load(txtotal, rxtotal) => c.(rx := [c.rx[1], c.rx[2], rxtotal], tx := [c.tx[1], c.tx[2], txtotal])
    case LinkState(name) => c.(state := name)
    case Clock(time) => c.(now := time)
    case ToggleNumeric => c.(numeric := !c.numeric)
    case ToggleShort => c.(short := !c.short)
    case Resolve(q) => ResolveQuery(c, q).0
  }

  /** The cache after a run of events, the latest last. */
  function After(events: seq<Event>): (r: Cache)
    ensures WellFormed(r)
  {
    if events == [] then START else Next(After(events[..|events| - 1]), events[|events| - 1])
  }

  // ---- the cache against its history -------------------------------------------------------

  predicate Definite(l: Lookup) {
    !l.answer.TryAgain?
  }

  /** Number `j` of the log is the latest lookup of `ip` with a definite answer. */
  predicate IsLatest(log: seq<Lookup>, ip: Ip, j: nat) {
    && j < |log| && log[j].ip == ip && Definite(log[j])
    && forall m :: j < m < |log| && log[m].ip == ip ==> !Definite(log[m])
  }

  predicate NeverAnswered(log: seq<Lookup>, ip: Ip) {
    forall m :: 0 <= m < |log| && log[m].ip == ip ==> !Definite(log[m])
  }

  /** What a lookup promises to show from then on: the address itself when it has no name. */
  function NameFor(l: Lookup, short: bool): string {
    match l.answer
    case Found(name, abbreviation) => if short then abbreviation else name
    case NoSuchHost => l.text
    case TryAgain => l.text
  }

  /** A table entry shows what the lookup promised, and is as old as the lookup. */
  predicate Recalls(h: Host, l: Lookup) {
    h.name == NameFor(l, false) && h.trunc == NameFor(l, true) && h.time == l.time
  }

  /** The table has an entry for exactly the addresses with a definite answer, and it recalls the latest. */
  ghost predicate Faithful(c: Cache) {
    && (forall ip :: ip in c.hosts <==> !NeverAnswered(c.log, ip))
    && (forall ip, j: nat :: ip in c.hosts && IsLatest(c.log, ip, j) ==> Recalls(c.hosts[ip], c.log[j]))
  }

  lemma {:induction false} SomeIsLatest(log: seq<Lookup>, ip: Ip) returns (j: nat)
    requires !NeverAnswered(log, ip)
    ensures IsLatest(log, ip, j)
  {
    var n := |log| - 1;
    if log[n].ip == ip && Definite(log[n]) {
      j := n;
    } else {
      j := SomeIsLatest(log[..n], ip);
    }
  }

  lemma OnlyOneIsLatest(log: seq<Lookup>, ip: Ip, j: nat, k: nat)
    requires IsLatest(log, ip, j) && IsLatest(log, ip, k)
    ensures j == k
  {}

  /** One more lookup. */
  lemma LatestStep(log: seq<Lookup>, l: Lookup, ip: Ip)
    ensures var more := log + [l];
            if l.ip == ip && Definite(l) then
              !NeverAnswered(more, ip) && forall j: nat :: IsLatest(more, ip, j) <==> j == |log|
            else
              && (NeverAnswered(more, ip) <==> NeverAnswered(log, ip))
              && forall j: nat :: IsLatest(more, ip, j) <==> IsLatest(log, ip, j)
  {
    var more := log + [l];
    assert more[|log|] == l;
    assert forall m :: 0 <= m < |log| ==> more[m] == log[m];
  }

  lemma LookupIsLogged(c: Cache, ip: Ip, q: Query)
    ensures Asked(c, ip, q).0.log == c.log + [Lookup(ip, q.text, q.answer, c.now)]
  {}

  lemma AskedFaithful(c: Cache, ip: Ip, q: Query)
    requires Faithful(c)
    ensures Faithful(Asked(c, ip, q).0)
  {
    var l := Lookup(ip, q.text, q.answer, c.now);
    var t := Asked(c, ip, q).0;
    forall a
      ensures a in t.hosts <==> !NeverAnswered(t.log, a)
    {
      LatestStep(c.log, l, a);
    }
    forall a, j: nat | a in t.hosts && IsLatest(t.log, a, j)
      ensures Recalls(t.hosts[a], t.log[j])
    {
      LatestStep(c.log, l, a);
    }
  }

  lemma {:induction false} AlwaysFaithful(events: seq<Event>)
    ensures Faithful(After(events))
  {
    if events == [] {
    } else {
      var before, e := events[..|events| - 1], events[|events| - 1];
      var c := After(before);
      AlwaysFaithful(before);
      if e.Resolve? && e.query.ip.Some? && !c.numeric && Asks(c, e.query.ip.value) {
        AskedFaithful(c, e.query.ip.value, e.query);
      }
    }
  }

  // ---- the gate against the reports --------------------------------------------------------

  /** The load reports of a run, oldest first, after three zeros. */
  function Reports(events: seq<Event>): (r: seq<(int, int)>)
    ensures |r| >= 3
  {
    if events == [] then [(0, 0), (0, 0), (0, 0)]
    else
      var e := events[|events| - 1];
      Reports(events[..|events| - 1]) + if e.Load? then [(e.txtotal, e.rxtotal)] else []
  }

  /** The last announced link state. */
  function LinkNow(events: seq<Event>): string {
    if events == [] then ""
    else
      var e := events[|events| - 1];
      if e.LinkState? then e.name else LinkNow(events[..|events| - 1])
  }

  /** The gate in terms of what was reported: the last three receive loads, two transmit loads before the last. */
  predicate GateByHistory(events: seq<Event>) {
    var r := Reports(events);
    var n := |r|;
    && LinkNow(events) == "UP"
    && r[n - 3].1 + r[n - 2].1 + r[n - 1].1 < MAX_QUERY_LOAD
    && r[n - 3].0 + r[n - 2].0 + r[n - 1].1 < MAX_QUERY_LOAD
  }

  /** The last three reports, as the gate arrays hold them. */
  predicate HoldsReports(c: Cache, r: seq<(int, int)>)
    requires WellFormed(c) && |r| >= 3
  {
    var n := |r|;
    && c.tx == [r[n - 3].0, r[n - 2].0, r[n - 1].0]
    && c.rx == [r[n - 3].1, r[n - 2].1, r[n - 1].1]
  }

  lemma NextReports(c: Cache, e: Event, r: seq<(int, int)>)
    requires WellFormed(c) && |r| >= 3 && HoldsReports(c, r)
    ensures HoldsReports(Next(c, e), r + if e.Load? then [(e.txtotal, e.rxtotal)] else [])
    ensures Next(c, e).state == if e.LinkState? then e.name else c.state
  {}

  lemma {:induction false} LoadsAreTheLastReports(events: seq<Event>)
    ensures HoldsReports(After(events), Reports(events))
    ensures After(events).state == LinkNow(events)
  {
    if events == [] {
    } else {
      var before, e := events[..|events| - 1], events[|events| - 1];
      LoadsAreTheLastReports(before);
      NextReports(After(before), e, Reports(before));
    }
  }

  /**
   * For every run of the client and every further request for an address that is not looked up:
   * if no lookup of it was ever answered, the address itself is shown; otherwise what the latest
   * answered lookup promised, and that lookup is older than two days only if the gate, fed by
   * the link state and the last three load reports, was shut.
   */
  lemma CachedNameIsLatest(events: seq<Event>, q: Query)
    requires q.ip.Some? && !After(events).numeric
    requires ResolveQuery(After(events), q).0 == After(events)
    ensures var c, shown := After(events), ResolveQuery(After(events), q).1;
            if NeverAnswered(c.log, q.ip.value) then shown == q.text && !GateByHistory(events)
            else exists j: nat :: && IsLatest(c.log, q.ip.value, j)
                                  && shown == NameFor(c.log[j], c.short)
                                  && (c.now - c.log[j].time > HOSTREC_EXPIRE ==> !GateByHistory(events))
  {
    var c, ip := After(events), q.ip.value;
    AlwaysFaithful(events);
    LoadsAreTheLastReports(events);
    assert GateByHistory(events) == GateOpen(c.state, c.rx, c.tx);
    LookupIsLogged(c, ip, q);
    if !NeverAnswered(c.log, ip) {
      var j := SomeIsLatest(c.log, ip);
      assert Recalls(c.hosts[ip], c.log[j]);
    }
  }

  /** A request that does look up shows the fresh name, or the address when there is none. */
  lemma FreshNameIsShown(events: seq<Event>, q: Query)
    requires q.ip.Some? && !After(events).numeric
    requires ResolveQuery(After(events), q).0 != After(events)
    ensures var c, r := After(events), ResolveQuery(After(events), q);
            var l := Lookup(q.ip.value, q.text, q.answer, c.now);
            && GateByHistory(events)
            && r.0.log == c.log + [l]
            && r.1 == NameFor(l, c.short)
            && forall ip, j: nat :: ip != q.ip.value ==> (IsLatest(r.0.log, ip, j) <==> IsLatest(c.log, ip, j))
  {
    var c := After(events);
    var l := Lookup(q.ip.value, q.text, q.answer, c.now);
    LoadsAreTheLastReports(events);
    assert GateByHistory(events) == GateOpen(c.state, c.rx, c.tx);
    forall ip, j: nat | ip != q.ip.value
      ensures IsLatest(c.log + [l], ip, j) <==> IsLatest(c.log, ip, j)
    {
      LatestStep(c.log, l, ip);
    }
  }

  /** A text that is no address, and any text in numeric mode, is shown as it is and leaves no trace. */
  lemma LeftAsItIs(c: Cache, q: Query)
    requires WellFormed(c) && (q.ip.None? || c.numeric)
    ensures ResolveQuery(c, q) == (c, q.text)
  {}

  /** The last time the clock showed. */
  function TimeNow(events: seq<Event>): int {
    if events == [] then 0
    else
      var e := events[|events| - 1];
      if e.Clock? then e.time else TimeNow(events[..|events| - 1])
  }

  function Times(events: seq<Event>, e: Event): nat {
    if events == [] then 0
    else Times(events[..|events| - 1], e) + if events[|events| - 1] == e then 1 else 0
  }

  /** Clock and switches are what the run made of them: a switch is on after an odd number of toggles. */
  lemma {:induction false} SettingsByHistory(events: seq<Event>)
    ensures After(events).now == TimeNow(events)
    ensures After(events).numeric <==> Times(events, ToggleNumeric) % 2 == 1
    ensures After(events).short <==> Times(events, ToggleShort) % 2 == 1
  {
    if events == [] {
    } else {
      var before := events[..|events| - 1];
      SettingsByHistory(before);
      NextSettings(After(before), events[|events| - 1]);
    }
  }

  lemma NextSettings(c: Cache, e: Event)
    requires WellFormed(c)
    ensures var t := Next(c, e);
            && t.now == (if e.Clock? then e.time else c.now)
            && t.numeric == (if e == ToggleNumeric then !c.numeric else c.numeric)
            && t.short == (if e == ToggleShort then !c.short else c.short)
  {}

  // ---- the gate as it is meant -------------------------------------------------------------

  /** No queries while the last three loads of either direction add up to the limit. */
  predicate IntendedGate(events: seq<Event>) {
    var r := Reports(events);
    var n := |r|;
    && LinkNow(events) == "UP"
    && r[n - 3].1 + r[n - 2].1 + r[n - 1].1 < MAX_QUERY_LOAD
    && r[n - 3].0 + r[n - 2].0 + r[n - 1].0 < MAX_QUERY_LOAD
  }

  /** What the two transmit loads before the last leave of the limit. */
  function Margin(events: seq<Event>): int {
    var r := Reports(events);
    MAX_QUERY_LOAD - r[|r| - 3].0 - r[|r| - 2].0
  }

  /** The link is up and the receive loads alone would let a query through. */
  predicate ReceiveQuiet(events: seq<Event>) {
    var r := Reports(events);
    var n := |r|;
    LinkNow(events) == "UP" && r[n - 3].1 + r[n - 2].1 + r[n - 1].1 < MAX_QUERY_LOAD
  }

  /** The address has no definite answer, or its latest is overdue. */
  ghost predicate Wanted(c: Cache, ip: Ip) {
    || NeverAnswered(c.log, ip)
    || exists j: nat :: IsLatest(c.log, ip, j) && c.now - c.log[j].time > HOSTREC_EXPIRE
  }

  lemma WantedInTable(c: Cache, ip: Ip)
    requires Faithful(c)
    ensures Wanted(c, ip) <==> ip !in c.hosts || c.now - c.hosts[ip].time > HOSTREC_EXPIRE
  {
    if ip in c.hosts {
      var j := SomeIsLatest(c.log, ip);
      assert Recalls(c.hosts[ip], c.log[j]);
      forall k: nat | IsLatest(c.log, ip, k)
        ensures k == j
      {
        OnlyOneIsLatest(c.log, ip, j, k);
      }
    }
  }

  /** In every run an address is looked up exactly when the name is wanted and the gate is open. */
  lemma LooksUpIff(events: seq<Event>, q: Query)
    requires q.ip.Some? && !After(events).numeric
    ensures var c := After(events);
            ResolveQuery(c, q).0.log != c.log <==> GateByHistory(events) && Wanted(c, q.ip.value)
  {
    var c := After(events);
    AlwaysFaithful(events);
    LoadsAreTheLastReports(events);
    WantedInTable(c, q.ip.value);
    assert GateByHistory(events) == GateOpen(c.state, c.rx, c.tx);
    LookupIsLogged(c, q.ip.value, q);
  }

  /** The log is the history of the lookups: a request adds its own when it is looked up, nothing else adds or drops any. */
  lemma LogGrows(events: seq<Event>, e: Event)
    ensures var c := After(events);
            After(events + [e]).log ==
            if e.Resolve? && e.query.ip.Some? && !c.numeric && GateByHistory(events) && Wanted(c, e.query.ip.value)
            then c.log + [Lookup(e.query.ip.value, e.query.text, e.query.answer, c.now)] else c.log
  {
    var c := After(events);
    assert (events + [e])[..|events|] == events;
    if e.Resolve? && e.query.ip.Some? && !c.numeric {
      LooksUpIff(events, e.query);
      LookupIsLogged(c, e.query.ip.value, e.query);
    }
  }

  /**
   * The last report `(tx, rx)` decides where the gate goes wrong. A lookup goes out although the
   * line is loaded exactly when the margin is above `rx` but not above `tx`; one is held back
   * although the line is free exactly when it is above `tx` but not above `rx`.
   */
  lemma GateGoesWrong(events: seq<Event>, q: Query)
    requires q.ip.Some? && !After(events).numeric && Wanted(After(events), q.ip.value)
    ensures var c, r := After(events), Reports(events);
            var (tx, rx) := r[|r| - 1];
            var sent := ResolveQuery(c, q).0.log != c.log;
            && (sent && !IntendedGate(events) <==> ReceiveQuiet(events) && rx < Margin(events) <= tx)
            && (!sent && IntendedGate(events) <==> ReceiveQuiet(events) && tx < Margin(events) <= rx)
  {
    LooksUpIff(events, q);
  }

  /** Exactly when the gate as coded is the gate as meant. */
  lemma GateAgreesIff(events: seq<Event>)
    ensures var r := Reports(events);
            var (tx, rx) := r[|r| - 1];
            GateByHistory(events) == IntendedGate(events) <==>
            (ReceiveQuiet(events) ==> (Margin(events) <= rx <==> Margin(events) <= tx))
  {}

  /** However heavy the first transmit load reported after the link came up, the next address is looked up. */
  lemma OverloadIsIgnored(txtotal: int, q: Query)
    requires txtotal >= MAX_QUERY_LOAD && q.ip.Some?
    ensures var events := [LinkState("UP"), Load(txtotal, 0)];
            && !IntendedGate(events)
            && ResolveQuery(After(events), q).0.log == [Lookup(q.ip.value, q.text, q.answer, 0)]
  {
    var up := [LinkState("UP")];
    var events := up + [Load(txtotal, 0)];
    assert events == [LinkState("UP"), Load(txtotal, 0)];
    assert up[..0] == [] && events[..1] == up;
    assert Reports([]) == [(0, 0), (0, 0), (0, 0)];
    assert Reports(events) == [(0, 0), (0, 0), (0, 0), (txtotal, 0)];
    assert After([]) == START;
    assert After(up) == START.(state := "UP");
    assert After(events) == START.(state := "UP", tx := [0, 0, txtotal]);
    LookupIsLogged(After(events), q.ip.value, q);
  }
}
