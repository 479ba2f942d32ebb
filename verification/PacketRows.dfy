/**
 * The packet list of the client: screen geometry (client/screen.c), the row format
 * (client/pipe.c) and the filling of the rows by one QUEUE frame (client/parser.c).
 */
module PacketRows {
  import opened Common

  const HEAD_LINES := 9
  const MAXBUFS := 256
  const BUFSIZE := 512

  // ---- one row -----------------------------------------------------------------------------

  function Spaces(n: nat): (s: string)
    ensures |s| == n && All(IsInText, s)
  {
    seq(n, _ => ' ')
  }

  /** `%-n.ns`. */
  function PadRight(s: string, n: nat): (r: string)
    ensures |r| == n
    ensures All(IsInText, s) ==> All(IsInText, r)
  {
    if |s| >= n then s[..n] else s + Spaces(n - |s|)
  }

  /** `%n.ns`. */
  function PadLeft(s: string, n: nat): (r: string)
    ensures |r| == n
    ensures All(IsInText, s) ==> All(IsInText, r)
  {
    if |s| >= n then s[..n] else Spaces(n - |s|) + s
  }

  /** A field shows its text from the left or from the right, blanks in the rest, and is cut when it is too long. */
  lemma PaddedText(s: string, n: nat)
    ensures |s| > n ==> PadRight(s, n) == PadLeft(s, n) == s[..n]
    ensures |s| <= n ==> PadRight(s, n)[..|s|] == s && forall i :: |s| <= i < n ==> PadRight(s, n)[i] == ' '
    ensures |s| <= n ==> PadLeft(s, n)[n - |s|..] == s && forall i :: 0 <= i < n - |s| ==> PadLeft(s, n)[i] == ' '
  {}

  /** The arguments of `sprintf` in `do_packet`, after name and service lookup. */
  datatype Packet = Packet(protocol: string, dest: string, destport: string,
                           source: string, sourceport: string, ttl: string)

  predicate IsText(p: Packet) {
    && All(IsInText, p.protocol) && All(IsInText, p.dest) && All(IsInText, p.destport)
    && All(IsInText, p.source) && All(IsInText, p.sourceport) && All(IsInText, p.ttl)
  }

  /** Host and service of one end of a packet. */
  function End(host: string, port: string, w: nat): (r: string)
    ensures |r| == w + 9
    ensures All(IsInText, host) && All(IsInText, port) ==> All(IsInText, r)
  {
    PadLeft(host, w) + "/" + PadRight(port, 8)
  }

  /** The line the format makes of a packet when it was built for address fields of width `w`. */
  function Line(p: Packet, w: nat): string {
    (PadRight(p.protocol, 4) + " ") + (End(p.dest, p.destport, w) + " ") +
    (End(p.source, p.sourceport, w) + "  ") + (p.ttl + "\n")
  }

  lemma LineLength(p: Packet, w: nat)
    ensures |Line(p, w)| == 27 + 2 * w + |p.ttl|
    ensures IsText(p) ==> All(IsInText, Line(p, w))
  {}

  /** `%ns`: at least `n` characters, right-aligned. */
  function AtLeast(s: string, n: nat): string {
    if |s| >= n then s else Spaces(n - |s|) + s
  }

  /** The header line of `screen_init`. */
  function Header(w: nat): string {
    (PadRight("Type", 4) + " ") + (AtLeast("Destination", w) + Spaces(10)) + (AtLeast("Source", w) + Spaces(11)) + "TTL"
  }

  lemma FourBlocks(a: string, b: string, c: string, d: string)
    ensures var s := a + b + c + d;
            && s[..|a|] == a && s[|a|..|a| + |b|] == b
            && s[|a| + |b|..|a| + |b| + |c|] == c && s[|a| + |b| + |c|..] == d
  {}

  lemma SubSlice(s: string, i: nat, j: nat, a: nat, b: nat)
    requires i <= j <= |s| && a <= b <= j - i
    ensures s[i..j][a..b] == s[i + a..i + b]
  {
    var t := s[i..j];
    assert forall k :: 0 <= k < b - a ==> t[a..b][k] == t[a + k] == s[i + a + k];
  }

  lemma EndParts(host: string, port: string, w: nat, behind: string)
    ensures var e := End(host, port, w) + behind;
            && e[..w] == PadLeft(host, w) && e[w..w + 1] == "/"
            && e[w + 1..w + 9] == PadRight(port, 8) && e[w + 9..] == behind
  {
    FourBlocks(PadLeft(host, w), "/", PadRight(port, 8), behind);
  }

  /** The fields of one end of a packet. */
  lemma EndColumns(line: string, at: nat, host: string, port: string, w: nat, behind: string, end: nat)
    requires end == at + w + 9 + |behind| <= |line| && line[at..end] == End(host, port, w) + behind
    ensures line[at..at + w] == PadLeft(host, w) && line[at + w..at + w + 1] == "/"
    ensures line[at + w + 1..at + w + 9] == PadRight(port, 8)
    ensures line[at + w + 9..end] == behind
  {
    EndParts(host, port, w, behind);
    SubSlice(line, at, end, 0, w);
    SubSlice(line, at, end, w, w + 1);
    SubSlice(line, at, end, w + 1, w + 9);
    SubSlice(line, at, end, w + 9, end - at);
  }

  /** Every field of a line stands in these columns, whatever the packet. */
  lemma FieldColumns(p: Packet, w: nat)
    ensures var line := Line(p, w);
            && |line| == 27 + 2 * w + |p.ttl|
            && line[..5] == PadRight(p.protocol, 4) + " "
            && line[5..5 + w] == PadLeft(p.dest, w) && line[5 + w..6 + w] == "/"
            && line[6 + w..14 + w] == PadRight(p.destport, 8) && line[14 + w..15 + w] == " "
            && line[15 + w..15 + 2 * w] == PadLeft(p.source, w) && line[15 + 2 * w..16 + 2 * w] == "/"
            && line[16 + 2 * w..24 + 2 * w] == PadRight(p.sourceport, 8)
            && line[24 + 2 * w..26 + 2 * w] == "  "
            && line[26 + 2 * w..] == p.ttl + "\n"
  {
    var line, dest, source := Line(p, w), End(p.dest, p.destport, w), End(p.source, p.sourceport, w);
    FourBlocks(PadRight(p.protocol, 4) + " ", dest + " ", source + "  ", p.ttl + "\n");
    EndColumns(line, 5, p.dest, p.destport, w, " ", 15 + w);
    EndColumns(line, 15 + w, p.source, p.sourceport, w, "  ", 26 + 2 * w);
  }

  /** The titles of the header stand over those columns. */
  predicate Aligned(w: nat) {
    var h := Header(w);
    && |h| == 29 + 2 * w
    && h[5..5 + w] == PadLeft("Destination", w)
    && h[15 + w..15 + 2 * w] == PadLeft("Source", w)
    && h[26 + 2 * w..] == "TTL"
  }

  lemma HeaderLength(w: nat)
    ensures |Header(w)| == 29 + (if w >= 11 then w else 11) + (if w >= 6 then w else 6)
  {}

  lemma WideHeader(w: nat)
    requires w >= 11
    ensures |Header(w)| == 29 + 2 * w
    ensures Header(w)[5..15 + w] == PadLeft("Destination", w) + Spaces(10)
    ensures Header(w)[15 + w..26 + 2 * w] == PadLeft("Source", w) + Spaces(11)
    ensures Header(w)[26 + 2 * w..] == "TTL"
  {
    FourBlocks(PadRight("Type", 4) + " ", AtLeast("Destination", w) + Spaces(10),
               AtLeast("Source", w) + Spaces(11), "TTL");
  }

  lemma SliceStart(s: string, i: nat, j: nat, a: string, b: string)
    requires i <= j <= |s| && s[i..j] == a + b
    ensures i + |a| <= |s| && s[i..i + |a|] == a
  {
    assert |a + b| == j - i;
    assert s[i..i + |a|] == s[i..j][..|a|];
  }

  /** The titles stand over the fields if and only if the fields are as wide as the word "Destination". */
  lemma RowsAlignWithHeader(w: nat)
    ensures Aligned(w) <==> w >= 11
  {
    HeaderLength(w);
    if w >= 11 {
      WideHeader(w);
      SliceStart(Header(w), 5, 15 + w, PadLeft("Destination", w), Spaces(10));
      SliceStart(Header(w), 15 + w, 26 + 2 * w, PadLeft("Source", w), Spaces(11));
    }
  }

  /** `ip_width` for a screen of `cols` columns; the division truncates. */
  function IpWidth(cols: nat): int {
    if cols >= 36 then (cols - 36) / 2 else -((36 - cols) / 2)
  }

  /** On the screen: titles and fields line up from 58 columns on, and on no narrower screen. */
  lemma ScreenAligns(cols: nat)
    ensures IpWidth(cols) >= 0 && Aligned(IpWidth(cols)) <==> cols >= 58
  {
    if IpWidth(cols) >= 0 {
      RowsAlignWithHeader(IpWidth(cols));
    }
  }

  /**
   * With an 8-character time-to-live and a format built for this screen, a line is
   * 35 + 2 * ip_width characters, at most one less than the screen is wide, and fits `buf`.
   */
  lemma LineFits(p: Packet, cols: nat)
    requires 36 <= cols <= 513 && |p.ttl| == 8
    ensures |Line(p, IpWidth(cols))| == 35 + 2 * IpWidth(cols) <= cols - 1
    ensures |Line(p, IpWidth(cols))| < BUFSIZE
  {}

  /** `strncpy(dst, src, n)`. */
  function Strncpy(dst: string, src: string, n: nat): (r: string)
    requires n <= |dst|
    ensures |r| == |dst| && r[n..] == dst[n..]
  {
    if |src| >= n then src[..n] + dst[n..] else src + seq(n - |src|, _ => NUL) + dst[n..]
  }

  /** What a row of `cols + 1` characters shows of a line when its last character is `last`. */
  function Clipped(line: string, cols: nat, last: char): string {
    if |line| < cols then line else if last == NUL then line[..cols] else line[..cols] + [last]
  }

  lemma StoredText(dst: string, line: string, cols: nat)
    requires |dst| == cols + 1 && All(IsInText, line)
    ensures Text(Strncpy(dst, line, cols)) == Clipped(line, cols, dst[cols])
    ensures Strncpy(dst, line, cols)[cols] == dst[cols]
  {
    var r := Strncpy(dst, line, cols);
    if |line| < cols {
      RunIs(IsInText, r, |line|);
    } else if dst[cols] == NUL {
      RunIs(IsInText, r, cols);
    } else {
      RunIs(IsInText, r, cols + 1);
    }
  }

  /** The copy terminates the row, and the row shows the whole line, if and only if the line is shorter than the row. */
  lemma StoredRowIsComplete(dst: string, line: string, cols: nat)
    requires |dst| == cols + 1 && All(IsInText, line)
    ensures NUL in Strncpy(dst, line, cols)[..cols] <==> |line| < cols
    ensures forall i :: |line| <= i < cols ==> Strncpy(dst, line, cols)[i] == NUL
    ensures |line| < cols ==> Text(Strncpy(dst, line, cols)) == line
  {
    var r := Strncpy(dst, line, cols);
    StoredText(dst, line, cols);
    if |line| < cols {
      assert r[..cols][|line|] == NUL;
    } else {
      assert r[..cols] == line[..cols];
      assert forall i :: 0 <= i < cols ==> IsInText(line[i]);
    }
  }

  /**
   * After a resize the format still has the old address width, while rows have the new size. A
   * row is then terminated if and only if the screen did not get narrower, or lost a single
   * column of an odd width; and then it shows the whole line.
   */
  lemma {:induction false} RowAfterResize(p: Packet, oldcols: nat, cols: nat, dst: string)
    requires IsText(p) && |p.ttl| == 8 && 36 <= oldcols && |dst| == cols + 1
    ensures var line := Line(p, IpWidth(oldcols));
            && (NUL in Strncpy(dst, line, cols)[..cols] <==>
                cols >= oldcols || (cols == oldcols - 1 && oldcols % 2 == 1))
            && (NUL in Strncpy(dst, line, cols)[..cols] ==> Text(Strncpy(dst, line, cols)) == line)
  {
    LineLength(p, IpWidth(oldcols));
    StoredRowIsComplete(dst, Line(p, IpWidth(oldcols)), cols);
  }

  // ---- the screen --------------------------------------------------------------------------

  class Screen {
    var lines: nat
    var cols: nat
    /** The address width `init_fifo` put into `format`. */
    var formatWidth: int
    var numbuff: nat
    var count: nat
    /** The row buffers, `cols + 1` characters each. */
    var scrbuff: seq<string>

    ghost predicate Valid()
      reads this
    {
      && numbuff == |scrbuff| == (if lines + 1 <= MAXBUFS then lines + 1 else MAXBUFS)
      && forall i :: 0 <= i < |scrbuff| ==> |scrbuff[i]| == cols + 1
    }

    /** `screen_init` followed by `init_fifo`; `memory` is what the allocated rows hold. */
    constructor (lines: nat, cols: nat, memory: seq<string>)
      requires |memory| >= MAXBUFS && forall i :: 0 <= i < |memory| ==> |memory[i]| == cols + 1
      ensures Valid() && this.lines == lines && this.cols == cols
      ensures formatWidth == IpWidth(cols) && count == 0
      ensures forall i :: 0 <= i < numbuff ==> Text(scrbuff[i]) == ""
    {
      this.lines, this.cols, this.formatWidth := lines, cols, IpWidth(cols);
      count := 0;
      var rows: seq<string> := [];
      while |rows| <= lines && |rows| < MAXBUFS
        invariant |rows| <= MAXBUFS && |rows| <= lines + 1
        invariant forall i :: 0 <= i < |rows| ==> |rows[i]| == cols + 1 && rows[i][0] == NUL
        decreases MAXBUFS - |rows|
      {
        rows := rows + [memory[|rows|][0 := NUL]];
      }
      scrbuff := rows;
      numbuff := |rows|;
    }

    /** `do_queue`: forget the packets of the last frame. */
    method DoQueue()
      requires Valid()
      modifies this`count, this`scrbuff
      ensures Valid() && count == 0
      ensures forall i :: 0 <= i < numbuff ==> Text(scrbuff[i]) == ""
    {
      count := 0;
      var i := 0;
      while i < numbuff
        invariant Valid() && count == 0 && i <= numbuff
        invariant forall j :: 0 <= j < i ==> Text(scrbuff[j]) == ""
      {
        scrbuff := scrbuff[i := scrbuff[i][0 := NUL]];
        i := i + 1;
      }
    }

    /** Line and row of packet number `i` stay within their arrays. */
    ghost predicate Safe(p: Packet, i: nat)
      requires formatWidth >= 0
      reads this
    {
      |Line(p, formatWidth)| < BUFSIZE && (i <= lines - HEAD_LINES ==> i < numbuff)
    }

    method DoPacket(p: Packet)
      requires Valid() && formatWidth >= 0 && Safe(p, count)
      modifies this`count, this`scrbuff
      ensures Valid() && count == old(count) + 1
      ensures scrbuff == if old(count) > lines - HEAD_LINES then old(scrbuff)
                         else old(scrbuff)[old(count) := Strncpy(old(scrbuff)[old(count)], Line(p, formatWidth), cols)]
    {
      if count <= lines - HEAD_LINES {
        var buf := Line(p, formatWidth);
        scrbuff := scrbuff[count := Strncpy(scrbuff[count], buf, cols)];
      }
      count := count + 1;
    }

    /** What `do_packet` makes the rows show. */
    method StorePacket(p: Packet)
      requires Valid() && formatWidth >= 0 && Safe(p, count) && IsText(p)
      modifies this`count, this`scrbuff
      ensures Valid() && count == old(count) + 1
      ensures forall i :: 0 <= i < numbuff ==>
                && scrbuff[i][cols] == old(scrbuff)[i][cols]
                && Text(scrbuff[i]) == if i == old(count) <= lines - HEAD_LINES
                                       then Clipped(Line(p, formatWidth), cols, scrbuff[i][cols])
                                       else Text(old(scrbuff)[i])
    {
      LineLength(p, formatWidth);
      if count <= lines - HEAD_LINES {
        StoredText(scrbuff[count], Line(p, formatWidth), cols);
      }
      DoPacket(p);
    }

    /**
     * One QUEUE frame. Afterwards `count` is the number of packets, the first LINES - 8 of them
     * are in the rows in order, and every other row is empty.
     */
    method ReceiveFrame(packets: seq<Packet>)
      requires Valid() && (packets != [] ==> formatWidth >= 0)
      requires forall i :: 0 <= i < |packets| ==> IsText(packets[i]) && Safe(packets[i], i)
      modifies this`count, this`scrbuff
      ensures Valid() && count == |packets|
      ensures forall i :: 0 <= i < numbuff ==>
                Text(scrbuff[i]) == if i < |packets| && i < lines - HEAD_LINES + 1
                                    then Clipped(Line(packets[i], formatWidth), cols, scrbuff[i][cols]) else ""
    {
      DoQueue();
      var n := 0;
      while n < |packets|
        invariant Valid() && count == n <= |packets|
        invariant forall i :: 0 <= i < numbuff ==>
                    Text(scrbuff[i]) == if i < n && i < lines - HEAD_LINES + 1
                                        then Clipped(Line(packets[i], formatWidth), cols, scrbuff[i][cols]) else ""
      {
        StorePacket(packets[n]);
        n := n + 1;
      }
    }

    /** Up to 264 lines and 36 to 513 columns every frame is safe, and its rows show whole lines. */
    lemma FramesAreSafe(packets: seq<Packet>)
      requires Valid() && lines < MAXBUFS + HEAD_LINES && 36 <= cols <= 513 && formatWidth == IpWidth(cols)
      requires forall p :: p in packets ==> |p.ttl| == 8
      ensures forall i, last :: 0 <= i < |packets| ==>
                Safe(packets[i], i) && Clipped(Line(packets[i], formatWidth), cols, last) == Line(packets[i], formatWidth)
    {
      forall i | 0 <= i < |packets|
        ensures Safe(packets[i], i) && |Line(packets[i], formatWidth)| < cols
      {
        LineFits(packets[i], cols);
      }
    }

    /** The redisplay loop of `read_fifo`: what is printed, row by row. */
    method Redisplay() returns (shown: seq<string>)
      requires Valid()
      ensures if count == 0 then shown == ["No packets queued\n"]
              else |shown| == (if count < numbuff then count else numbuff)
                   && forall i :: 0 <= i < |shown| ==> shown[i] == Text(scrbuff[i])
    {
      if count == 0 {
        return ["No packets queued\n"];
      }
      shown := [];
      var i := 0;
      while i < numbuff && i < count
        invariant i == |shown| <= numbuff && i <= count
        invariant forall j :: 0 <= j < i ==> shown[j] == Text(scrbuff[j])
      {
        shown := shown + [Text(scrbuff[i])];
        i := i + 1;
      }
    }
  }
}
