/** The descriptor records of server/fds.h and the multiplexing of server/selection.c. */
module Selection {

  /** The value of one `thread_fds_t`. */
  datatype Fds = Fds(fullcount: int, full: set<nat>, maxfd: int, selcount: int, sel: set<nat>)

  const NO_FDS := Fds(0, {}, -1, 0, {})

  predicate Bounds(m: int, s: set<nat>) {
    forall x :: x in s ==> x <= m
  }

  /** `m` is the largest descriptor of `s`, or -1 when there is none. */
  predicate IsMax(m: int, s: set<nat>) {
    if s == {} then m == -1 else m in s && Bounds(m, s)
  }

  /** The largest element of `s` not above `n`, or -1. */
  function Highest(s: set<nat>, n: int): (m: int)
    ensures -1 <= m && (m >= 0 ==> m in s && m <= n)
    ensures forall x :: x in s && x <= n ==> x <= m
    decreases n + 1
  {
    if n < 0 then -1 else if n in s then n else Highest(s, n - 1)
  }

  /** The answer of `adjust_maxfd` for a record whose descriptor `fd` has just been cleared. */
  function Adjusted(full: set<nat>, maxfd: int, fd: int): int {
    if maxfd != fd then maxfd else Highest(full, maxfd)
  }

  /** Recomputing the maximum only when the cleared descriptor was the maximum is enough. */
  lemma AdjustedIsMax(full: set<nat>, maxfd: int, fd: nat)
    requires IsMax(maxfd, full) && fd in full
    ensures IsMax(Adjusted(full - {fd}, maxfd, fd), full - {fd})
  {}

  /** `d` holds the `k` lowest descriptors of `ready` (all of them when there are fewer). */
  predicate IsLowest(d: set<nat>, ready: set<nat>, k: int) {
    && d <= ready
    && |d| == (if k <= 0 then 0 else if k <= |ready| then k else |ready|)
    && forall x, y :: x in d && y in ready - d ==> x < y
  }

  /** A record after `demux_fds` has handed it the descriptors `d`. */
  function Dispatched(f: Fds, d: set<nat>): Fds {
    f.(sel := f.full * d, selcount := |f.full * d|)
  }

  class ThreadFds {
    var fullcount: int
    var full: set<nat>
    var maxfd: int
    var selcount: int
    var sel: set<nat>

    function View(): Fds
      reads this
    {
      Fds(fullcount, full, maxfd, selcount, sel)
    }

    constructor ()
      ensures View() == NO_FDS
    {
      fullcount, full, maxfd, selcount, sel := 0, {}, -1, 0, {};
    }

    /** A record that watches one descriptor. */
    constructor Watching(fd: nat)
      ensures View() == Fds(1, {fd}, fd, 0, {})
    {
      fullcount, full, maxfd, selcount, sel := 1, {fd}, fd, 0, {};
    }
  }

  method AdjustMaxfd(fds: ThreadFds, currfd: int) returns (max: int)
    ensures max == Adjusted(fds.full, fds.maxfd, currfd)
  {
    if fds.maxfd != currfd {
      return fds.maxfd;
    }
    max := -1;
    var i := 0;
    while i <= fds.maxfd
      invariant 0 <= i && (i <= fds.maxfd + 1 || i == 0)
      invariant max == Highest(fds.full, i - 1)
    {
      if i in fds.full {
        max := i;
      }
      i := i + 1;
    }
    NoneBelowZero(fds.full, fds.maxfd);
  }

  lemma NoneBelowZero(s: set<nat>, n: int)
    ensures n < 0 ==> Highest(s, n) == Highest(s, -1)
  {}

  ghost function Below(s: set<nat>, i: int): set<nat> {
    set x | x in s && x < i
  }

  lemma BelowNext(s: set<nat>, i: nat)
    ensures i in s ==> Below(s, i + 1) == Below(s, i) + {i} && |Below(s, i + 1)| == |Below(s, i)| + 1
    ensures i !in s ==> Below(s, i + 1) == Below(s, i)
  {}

  /** One of the three loops of `mux_fds`. */
  method MuxOne(src: ThreadFds, muxed: ThreadFds)
    requires src != muxed
    requires Bounds(src.maxfd, src.full)
    modifies muxed
    ensures muxed.full == old(muxed.full) + src.full
    ensures muxed.fullcount == old(muxed.fullcount) + |src.full|
    ensures muxed.maxfd == if src.maxfd > old(muxed.maxfd) then src.maxfd else old(muxed.maxfd)
    ensures muxed.selcount == old(muxed.selcount) && muxed.sel == old(muxed.sel)
  {
    var i, max := 0, src.maxfd;
    while i <= max
      invariant 0 <= i
      invariant muxed.full == old(muxed.full) + Below(src.full, i)
      invariant muxed.fullcount == old(muxed.fullcount) + |Below(src.full, i)|
      invariant muxed.maxfd == old(muxed.maxfd)
      invariant muxed.selcount == old(muxed.selcount) && muxed.sel == old(muxed.sel)
    {
      BelowNext(src.full, i);
      if i in src.full {
        muxed.full := muxed.full + {i};
        muxed.fullcount := muxed.fullcount + 1;
      }
      i := i + 1;
    }
    assert Below(src.full, i) == src.full;
    muxed.maxfd := if src.maxfd > muxed.maxfd then src.maxfd else muxed.maxfd;
  }

  /** No descriptor is in two of the three records. */
  predicate Apart(pd: set<nat>, ps: set<nat>, fs: set<nat>) {
    pd !! ps && pd !! fs && ps !! fs
  }

  method MuxFds(pd: ThreadFds, ps: ThreadFds, fs: ThreadFds, muxed: ThreadFds)
    requires muxed !in {pd, ps, fs}
    requires IsMax(pd.maxfd, pd.full) && IsMax(ps.maxfd, ps.full) && IsMax(fs.maxfd, fs.full)
    modifies muxed
    ensures muxed.full == pd.full + ps.full + fs.full
    ensures muxed.fullcount == |pd.full| + |ps.full| + |fs.full|
    ensures IsMax(muxed.maxfd, muxed.full)
  {
    muxed.maxfd := -1;
    muxed.fullcount := 0;
    muxed.full := {};
    MuxOne(pd, muxed);
    MuxOne(ps, muxed);
    MuxOne(fs, muxed);
  }

  /** The body of the `demux_fds` loop for one record. */
  method SelectOne(fds: ThreadFds, i: nat, ghost d: set<nat>)
    requires fds.View() == Dispatched(fds.View(), d) && i !in d
    modifies fds
    ensures fds.View() == Dispatched(old(fds.View()), d + {i})
  {
    if i in fds.full {
      assert fds.full * (d + {i}) == fds.full * d + {i};
      fds.sel := fds.sel + {i};
      fds.selcount := fds.selcount + 1;
    } else {
      assert fds.full * (d + {i}) == fds.full * d;
    }
  }

  /**
   * `demux_fds`, with the value `count` happens to hold on entry (the program never sets it).
   * The descriptors handed out are the lowest ones of the set `select` left in `muxed.full`.
   */
  method DemuxFds(pd: ThreadFds, ps: ThreadFds, fs: ThreadFds, muxed: ThreadFds, count0: int)
    returns (ghost d: set<nat>)
    requires pd != ps && pd != fs && ps != fs && muxed !in {pd, ps, fs}
    requires Bounds(muxed.maxfd, muxed.full)
    modifies pd, ps, fs
    ensures IsLowest(d, muxed.full, muxed.selcount - count0)
    ensures pd.View() == Dispatched(old(pd.View()), d)
    ensures ps.View() == Dispatched(old(ps.View()), d)
    ensures fs.View() == Dispatched(old(fs.View()), d)
  {
    pd.sel, ps.sel, fs.sel := {}, {}, {};
    pd.selcount, ps.selcount, fs.selcount := 0, 0, 0;
    var i, count := 0, count0;
    d := {};
    while i <= muxed.maxfd && count < muxed.selcount
      invariant 0 <= i
      invariant d == Below(muxed.full, i)
      invariant count == count0 + |d|
      invariant d == {} || count <= muxed.selcount
      invariant pd.View() == Dispatched(old(pd.View()), d)
      invariant ps.View() == Dispatched(old(ps.View()), d)
      invariant fs.View() == Dispatched(old(fs.View()), d)
      decreases muxed.maxfd - i
    {
      BelowNext(muxed.full, i);
      if i in muxed.full {
        SelectOne(pd, i, d);
        SelectOne(ps, i, d);
        SelectOne(fs, i, d);
        count := count + 1;
        d := d + {i};
      }
      i := i + 1;
    }
    LowestBelow(muxed.full, i, muxed.maxfd, muxed.selcount - count0);
  }

  lemma SubsetSize(a: set<nat>, b: set<nat>)
    requires a <= b
    ensures |a| <= |b|
    ensures |a| == |b| <==> a == b
  {
    assert b == a + (b - a);
  }

  lemma LowestBelow(ready: set<nat>, i: int, maxfd: int, k: int)
    requires Bounds(maxfd, ready)
    requires Below(ready, i) == {} || |Below(ready, i)| <= k
    requires i > maxfd || |Below(ready, i)| >= k
    ensures IsLowest(Below(ready, i), ready, k)
  {
    SubsetSize(Below(ready, i), ready);
    if i > maxfd {
      assert Below(ready, i) == ready;
    }
  }

  /**
   * `do_select`: `result` and `ready` are the answer of `select`. On failure (-1) the set it was
   * given is left as it was.
   */
  method DoSelect(pd: ThreadFds, ps: ThreadFds, fs: ThreadFds, muxed: ThreadFds,
                  ready: set<nat>, result: int, count0: int) returns (ghost d: set<nat>)
    requires pd != ps && pd != fs && ps != fs && muxed !in {pd, ps, fs}
    requires IsMax(pd.maxfd, pd.full) && IsMax(ps.maxfd, ps.full) && IsMax(fs.maxfd, fs.full)
    requires result == -1 || (result == |ready| && ready <= pd.full + ps.full + fs.full)
    modifies pd, ps, fs, muxed
    ensures IsLowest(d, Offered(old(pd.View()), old(ps.View()), old(fs.View()), ready, result), result - count0)
    ensures pd.View() == Dispatched(old(pd.View()), d)
    ensures ps.View() == Dispatched(old(ps.View()), d)
    ensures fs.View() == Dispatched(old(fs.View()), d)
  {
    MuxFds(pd, ps, fs, muxed);
    muxed.selcount := result;
    if result != -1 {
      muxed.full := ready;
    }
    d := DemuxFds(pd, ps, fs, muxed, count0);
  }

  /** The descriptors `demux_fds` finds in the set it scans. */
  function Offered(pd: Fds, ps: Fds, fs: Fds, ready: set<nat>, result: int): set<nat> {
    if result == -1 then pd.full + ps.full + fs.full else ready
  }

  // ---- what the dispatch means -------------------------------------------------------------

  /**
   * With `select` answering `|ready|`, exactly the ready descriptors are handed out if and only
   * if `count` starts at zero or below (or nothing is ready).
   */
  lemma DispatchExact(d: set<nat>, ready: set<nat>, count0: int)
    requires IsLowest(d, ready, |ready| - count0)
    ensures d == ready <==> count0 <= 0 || ready == {}
  {
    SubsetSize(d, ready);
  }

  /** A failed `select` hands out nothing if and only if `count` starts at -1 or above. */
  lemma DispatchNothingOnError(d: set<nat>, watched: set<nat>, count0: int)
    requires IsLowest(d, watched, -1 - count0)
    ensures d == {} <==> count0 >= -1 || watched == {}
  {}

  /** The three shares of a dispatch are disjoint and add up to what was dispatched. */
  lemma DispatchAddsUp(pd: Fds, ps: Fds, fs: Fds, d: set<nat>)
    requires Apart(pd.full, ps.full, fs.full)
    requires d <= pd.full + ps.full + fs.full
    ensures Dispatched(pd, d).selcount + Dispatched(ps, d).selcount + Dispatched(fs, d).selcount == |d|
  {
    var a, b, c := pd.full * d, ps.full * d, fs.full * d;
    assert d == a + b + c;
    assert |a + b| == |a| + |b|;
    assert |a + b + c| == |a + b| + |c|;
  }

  /**
   * A select round with `count` starting at 0: each record's share is its own descriptors among
   * the ready ones, the shares add up to the answer, and a failure dispatches nothing.
   */
  lemma SelectRound(pd: Fds, ps: Fds, fs: Fds, ready: set<nat>, result: int, d: set<nat>)
    requires Apart(pd.full, ps.full, fs.full)
    requires result == -1 || (result == |ready| && ready <= pd.full + ps.full + fs.full)
    requires IsLowest(d, Offered(pd, ps, fs, ready, result), result)
    ensures result >= 0 ==> forall f :: f in {pd, ps, fs} ==>
              Dispatched(f, d).sel == f.full * ready && Dispatched(f, d).selcount == |f.full * ready|
    ensures result >= 0 ==>
              Dispatched(pd, d).selcount + Dispatched(ps, d).selcount + Dispatched(fs, d).selcount == result
    ensures result == -1 ==> forall f :: f in {pd, ps, fs} ==> Dispatched(f, d).selcount == 0
  {
    if result >= 0 {
      DispatchExact(d, ready, 0);
      DispatchAddsUp(pd, ps, fs, d);
    }
  }
}
