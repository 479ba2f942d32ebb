/** The chained hash table of client/resolve.c and the routines that use it, in place. */
module Resolve {
  import opened Common
  import opened ResolveModel

  /** `struct hostrec`. A new record holds whatever its memory held: `junk`. */
  class HostRec {
    var addr: Ip
    var name: string
    var trunc: string
    var next: HostRec?
    var time: int

    constructor (junk: Ip, next: HostRec?)
      ensures this.addr == junk && this.next == next
    {
      addr, name, trunc, time := junk, "", "", 0;
      this.next := next;
    }

    method Assign(addr: Ip, name: string, trunc: string, time: int)
      modifies this`addr, this`name, this`trunc, this`time
      ensures this.addr == addr && Value() == Host(name, trunc, time)
    {
      this.name := name;
      this.trunc := trunc;
      this.addr := addr;
      this.time := time;
    }

    function Value(): Host
      reads this
    {
      Host(name, trunc, time)
    }
  }

  ghost function Head(chain: seq<HostRec>, i: nat): HostRec? {
    if i < |chain| then chain[i] else null
  }

  class HostTable {
    const hosthash: array<HostRec?>
    ghost var chains: seq<seq<HostRec>>
    ghost var owner: map<Ip, HostRec>
    /** The finite map the table stands for. */
    ghost var hosts: map<Ip, Host>
    ghost var repr: set<HostRec>

    /** Each bucket's pointers run through its chain. */
    ghost predicate Linked()
      reads this, hosthash, repr
    {
      && hosthash.Length == |chains| == HASHSIZE
      && (forall h, r :: 0 <= h < HASHSIZE && r in chains[h] ==> r in repr)
      && (forall h :: 0 <= h < HASHSIZE ==> hosthash[h] == Head(chains[h], 0))
      && (forall h, i {:trigger chains[h][i].next} :: 0 <= h < HASHSIZE && 0 <= i < |chains[h]| ==>
            chains[h][i].next == Head(chains[h], i + 1))
    }

    /**
     * Leaving the record `skip` aside: every record lies in the bucket of its address and is the
     * only record of that address, and every owned address has its record.
     */
    ghost predicate Sound(skip: HostRec?)
      requires Linked()
      reads this, hosthash, repr
    {
      && (forall h, r :: 0 <= h < HASHSIZE && r in chains[h] && r != skip ==>
            Hash(r.addr) == h && r.addr in owner && owner[r.addr] == r)
      && owner.Keys == hosts.Keys
      && (forall a :: a in owner ==>
            owner[a] in chains[Hash(a)] && owner[a] != skip && owner[a].addr == a && owner[a].Value() == hosts[a])
    }

    /** The record lies in the bucket `h` and in no other. */
    ghost predicate OnlyIn(hr: HostRec, h: nat)
      requires Linked() && h < HASHSIZE
      reads this, hosthash, repr
    {
      hr in chains[h] && forall g :: 0 <= g < HASHSIZE && hr in chains[g] ==> g == h
    }

    ghost predicate Valid()
      reads this, hosthash, repr
    {
      Linked() && Sound(null)
    }

    constructor ()
      ensures Valid() && hosts == map[] && fresh(hosthash) && repr == {}
    {
      hosthash := new HostRec?[HASHSIZE](_ => null);
      chains := seq(HASHSIZE, _ => []);
      owner, hosts, repr := map[], map[], {};
    }

    /** The walk shared by `gettab` and `probetab`. */
    method FindRecord(addr: Ip) returns (hr: HostRec?)
      requires Valid()
      ensures hr == if addr in owner then owner[addr] else null
    {
      ghost var chain := chains[Hash(addr)];
      hr := hosthash[Hash(addr)];
      ghost var i := 0;
      while hr != null
        invariant 0 <= i <= |chain| && hr == Head(chain, i)
        invariant forall j :: 0 <= j < i ==> chain[j].addr != addr
        decreases |chain| - i
      {
        assert hr in chain;
        if hr.addr == addr {
          return;
        }
        hr := hr.next;
        i := i + 1;
      }
    }

    /** `probetab` is membership in the map. */
    method Probetab(addr: Ip) returns (found: bool)
      requires Valid()
      ensures found == (addr in hosts)
    {
      var hr := FindRecord(addr);
      found := hr != null;
    }

    /** Puts a record that points to the head of bucket `h` in front of it. */
    method LinkFirst(h: nat, hr: HostRec)
      requires Linked() && h < HASHSIZE && hr !in repr && hr.next == hosthash[h]
      modifies this`chains, this`repr, hosthash
      ensures Linked()
      ensures chains == old(chains)[h := [hr] + old(chains)[h]] && repr == old(repr) + {hr}
    {
      hosthash[h] := hr;
      chains := chains[h := [hr] + chains[h]];
      repr := repr + {hr};
    }

    /** A new record at the head of the bucket of `addr`; its address is not set yet. */
    method NewRecord(addr: Ip, junk: Ip) returns (hr: HostRec)
      requires Valid() && addr !in owner
      modifies this`chains, this`repr, hosthash
      ensures Linked() && Sound(hr)
      ensures fresh(hr) && OnlyIn(hr, Hash(addr)) && repr == old(repr) + {hr}
    {
      hr := new HostRec(junk, hosthash[Hash(addr)]);
      LinkFirst(Hash(addr), hr);
      assert forall h, r :: 0 <= h < HASHSIZE && r != hr ==> (r in chains[h] <==> r in old(chains)[h]);
    }

    /** `gettab`: the record of a known address, or a new record, still without its address. */
    method Gettab(addr: Ip, junk: Ip) returns (hr: HostRec)
      requires Valid()
      modifies this`chains, this`repr, hosthash
      ensures Linked() && OnlyIn(hr, Hash(addr))
      ensures addr in owner ==> Sound(null) && hr == owner[addr] && repr == old(repr)
      ensures addr !in owner ==> Sound(hr) && fresh(hr) && repr == old(repr) + {hr}
    {
      var found := FindRecord(addr);
      if found != null {
        hr := found;
      } else {
        hr := NewRecord(addr, junk);
      }
    }

    /**
     * The assignments of `resolve` to a record of `addr`. Afterwards the table is in order again,
     * whatever address the record held before.
     */
    method Fill(hr: HostRec, addr: Ip, name: string, trunc: string, now: int)
      requires Linked() && OnlyIn(hr, Hash(addr)) && Sound(hr) && addr !in owner
      modifies this`owner, this`hosts, hr`addr, hr`name, hr`trunc, hr`time
      ensures Valid()
      ensures hosts == old(hosts)[addr := Host(name, trunc, now)]
    {
      hr.Assign(addr, name, trunc, now);
      owner, hosts := owner[addr := hr], hosts[addr := Host(name, trunc, now)];
    }

    /** The same assignments to the record of a known address. */
    method StoreKnown(known: HostRec, addr: Ip, name: string, trunc: string, now: int)
      requires Valid() && addr in owner && owner[addr] == known
      modifies this`hosts, known`addr, known`name, known`trunc, known`time
      ensures Valid()
      ensures hosts == old(hosts)[addr := Host(name, trunc, now)]
    {
      assert known.addr == addr && forall a :: a in owner && a != addr ==> owner[a] != known;
      known.Assign(addr, name, trunc, now);
      hosts := hosts[addr := Host(name, trunc, now)];
    }

    /** No walk happens between `gettab` and the assignments, so the unset address is never looked at. */
    method StoreNew(addr: Ip, name: string, trunc: string, now: int, junk: Ip)
      requires Valid() && addr !in owner
      modifies this, hosthash
      ensures Valid() && fresh(repr - old(repr))
      ensures hosts == old(hosts)[addr := Host(name, trunc, now)]
    {
      var hr := Gettab(addr, junk);
      Fill(hr, addr, name, trunc, now);
    }
  }

  /** The client globals `resolve` depends on. */
  class Resolver {
    const table: HostTable
    const rxload: array<int>
    const txload: array<int>
    var state: string
    var now: int
    var numeric: bool
    var short: bool
    ghost var log: seq<Lookup>

    ghost predicate Valid()
      reads this, table, table.hosthash, table.repr
    {
      table.Valid() && rxload.Length == txload.Length == 3 && rxload != txload
    }

    ghost function Abs(): Cache
      reads this, table, rxload, txload
    {
      Cache(table.hosts, rxload[..], txload[..], state, now, numeric, short, log)
    }

    constructor ()
      ensures Valid() && Abs() == START
    {
      table := new HostTable();
      rxload := new int[3](_ => 0);
      txload := new int[3](_ => 0);
      state, now, numeric, short, log := "", 0, false, false, [];
      new;
      assert rxload[..] == [0, 0, 0] && txload[..] == [0, 0, 0];
    }

    /** `do_load`: the three slots shift by one. */
    method DoLoad(itxtotal: int, irxtotal: int)
      requires Valid()
      modifies rxload, txload
      ensures Valid()
      ensures Abs() == Next(old(Abs()), Load(itxtotal, irxtotal))
    {
      Shift(rxload, irxtotal);
      Shift(txload, itxtotal);
    }

    static method Shift(load: array<int>, latest: int)
      requires load.Length == 3
      modifies load
      ensures load[..] == [old(load[1]), old(load[2]), latest]
    {
      load[0] := load[1];
      load[1] := load[2];
      load[2] := latest;
    }

    /** The condition of `resolve` on link state and loads. */
    method MayQuery() returns (open: bool)
      requires Valid()
      ensures open == GateOpen(state, rxload[..], txload[..])
    {
      open := state == "UP" &&
              rxload[0] + rxload[1] + rxload[2] < MAX_QUERY_LOAD &&
              txload[0] + txload[1] + rxload[2] < MAX_QUERY_LOAD;
    }

    method Remember(known: HostRec?, addr: Ip, name: string, trunc: string, junk: Ip)
      requires Valid() && known == if addr in table.owner then table.owner[addr] else null
      modifies table, table.hosthash, table.repr
      ensures Valid()
      ensures Abs() == old(Abs()).(hosts := old(table.hosts)[addr := Host(name, trunc, now)])
    {
      if known == null {
        table.StoreNew(addr, name, trunc, now, junk);
      } else {
        table.StoreKnown(known, addr, name, trunc, now);
      }
    }

    /** The branch of `resolve` that calls `gethostbyaddr`. */
    method Ask(known: HostRec?, addr: Ip, q: Query, junk: Ip) returns (shown: string)
      requires Valid() && known == if addr in table.owner then table.owner[addr] else null
      modifies this`log, table, table.hosthash, table.repr
      ensures Valid()
      ensures (Abs(), shown) == Asked(old(Abs()), addr, q)
    {
      match q.answer {
        case TryAgain =>
          shown := q.text;
        case NoSuchHost =>
          Remember(known, addr, q.text, q.text, junk);
          shown := q.text;
        case Found(name, abbreviation) =>
          Remember(known, addr, name, abbreviation, junk);
          shown := if short then abbreviation else name;
      }
      log := log + [Lookup(addr, q.text, q.answer, now)];
    }

    /** `resolve`. `junk` is what fresh memory would hold in the address field of a new record. */
    method ResolveName(q: Query, junk: Ip) returns (shown: string)
      requires Valid()
      modifies this`log, table, table.hosthash, table.repr
      ensures Valid()
      ensures (Abs(), shown) == ResolveQuery(old(Abs()), q)
    {
      if q.ip.None? || numeric {
        return q.text;
      }
      var known := Known(q.ip.value);
      var open := MayQuery();
      if (known == null || now - known.time > HOSTREC_EXPIRE) && open {
        shown := Ask(known, q.ip.value, q, junk);
      } else if known == null {
        shown := q.text;
      } else {
        shown := if short then known.trunc else known.name;
      }
    }

    /** The record of an address the table knows. */
    method Known(addr: Ip) returns (known: HostRec?)
      requires Valid()
      ensures known == if addr in table.owner then table.owner[addr] else null
      ensures known == null <==> addr !in table.hosts
      ensures known != null ==> known in table.repr && known.Value() == table.hosts[addr]
    {
      known := null;
      var found := table.Probetab(addr);
      if found {
        known := table.FindRecord(addr);
      }
    }
  }
}
