/**
 * The user id in an ident reply: `clean_userid` and `reap_userid` of server/port-daemon.c,
 * for the replies of section 5 of RFC 1413.
 */
module Ident {
  import opened Common

  predicate IsInReply(c: char) { c != '\n' && c != '\r' && c != NUL }
  predicate IsSpace(c: char) { c == ' ' }
  predicate IsInField(c: char) { c != ':' }

  /** The buffer up to the first line end or NUL. */
  function FirstLine(s: string): string { s[..Run(IsInReply, s)] }

  function SkipSpaces(s: string): string { s[Run(IsSpace, s)..] }

  /** What follows the first colon, or nothing. */
  function AfterColon(s: string): string {
    var n := Run(IsInField, s);
    if n < |s| then s[n + 1..] else ""
  }

  /** The text `reap_userid` points to when it is given a C string. */
  function Reap(s: string): string {
    SkipSpaces(FirstLine(AfterColon(AfterColon(AfterColon(s)))))
  }

  /** The id taken from the reply buffer, which `clean_userid` has already cut to one line. */
  function UserIdOf(buffer: string): string {
    Reap(FirstLine(buffer))
  }

  // ---- the two routines on the reply buffer ------------------------------------------------

  /** A buffer in which the scans that start at `p` stop. */
  predicate Terminated(s: string, p: nat) {
    exists z :: p <= z < |s| && !IsInReply(s[z])
  }

  /** The text from a position of a C string on is the rest of the string. */
  lemma {:induction false} TextTail(s: string, k: nat)
    requires k <= |Text(s)| < |s| && s[|Text(s)|] == NUL
    ensures Text(s[k..]) == Text(s)[k..]
  {
    var n, rest := |Text(s)|, s[k..];
    assert rest[n - k] == NUL;
    assert forall i :: 0 <= i < n - k ==> rest[i] == Text(s)[k + i] && IsInText(rest[i]);
    RunIs(IsInText, rest, n - k);
    assert rest[..n - k] == Text(s)[k..];
  }

  /** Where a scan over a field stops. */
  lemma {:induction false} AfterScan(s: string, j: nat)
    requires j <= |Text(s)| < |s| && s[|Text(s)|] == NUL
    requires forall i :: 0 <= i < j ==> IsInField(s[i])
    requires s[j] == ':' || s[j] == NUL
    ensures AfterColon(Text(s)) == Text(s[if s[j] != NUL then j + 1 else j..])
  {
    var text := Text(s);
    assert j < |text| ==> text[j] == s[j] && IsInText(s[j]);
    RunIs(IsInField, text, j);
    TextTail(s, if s[j] != NUL then j + 1 else j);
  }

  /** The same in a buffer. */
  lemma {:induction false} AfterScanAt(buf: string, p: nat, q: nat)
    requires p <= q < |buf| && q - p <= |TextAt(buf, p)| < |buf| - p
    requires forall i :: 0 <= i < q - p ==> IsInField(buf[p..][i])
    requires buf[q] == ':' || buf[q] == NUL
    ensures var r := if buf[q] != NUL then q + 1 else q;
            r < |buf| && NulTerminated(buf, r) && TextAt(buf, r) == AfterColon(TextAt(buf, p))
  {
    var s := buf[p..];
    var z := p + |Text(s)|;
    assert s[q - p] == buf[q] && s[|Text(s)|] == buf[z] == NUL;
    AfterScan(s, q - p);
    assert buf[q..] == s[q - p..];
    assert buf[q + 1..] == s[q - p + 1..];
  }

  /** The scan over one field: to its colon or to the end of the text. */
  method FieldEnd(line: array<char>, p: nat) returns (q: nat)
    requires p < line.Length && NulTerminated(line[..], p)
    ensures p <= q < line.Length && q - p <= |TextAt(line[..], p)| < line.Length - p
    ensures forall i :: 0 <= i < q - p ==> IsInField(line[..][p..][i])
    ensures line[q] == ':' || line[q] == NUL
  {
    ghost var s := line[..][p..];
    ghost var z :| p <= z < line.Length && line[..][z] == NUL;
    TextBound(s, z - p);
    q := p;
    while line[q] != ':' && line[q] != NUL
      invariant p <= q <= p + |Text(s)|
      invariant forall i :: 0 <= i < q - p ==> IsInField(s[i])
      decreases p + |Text(s)| - q
    {
      assert s[q - p] == line[q];
      q := q + 1;
    }
  }

  /** One of the three scans of `reap_userid`: over a field and its colon. */
  method SkipField(line: array<char>, p: nat) returns (q: nat)
    requires p < line.Length && NulTerminated(line[..], p)
    ensures p <= q < line.Length && NulTerminated(line[..], q)
    ensures TextAt(line[..], q) == AfterColon(TextAt(line[..], p))
  {
    q := FieldEnd(line, p);
    AfterScanAt(line[..], p, q);
    if line[q] != NUL {
      q := q + 1;
    }
  }

  /** The text left after cutting `s` at its line end and skipping its leading spaces. */
  lemma {:induction false} CleanedText(s: string, n: nat, cut: string, j: nat)
    requires n == |FirstLine(s)| < |s| && cut == s[n := NUL] && j == Run(IsSpace, cut)
    ensures j <= n && Text(cut[j..]) == SkipSpaces(FirstLine(s))
  {
    assert cut[n] == NUL && j <= n;
    assert forall i :: 0 <= i < n ==> FirstLine(s)[i] == cut[i];
    RunIs(IsSpace, FirstLine(s), j);
    assert forall i :: 0 <= i < n - j ==> cut[j..][i] == s[j + i] && IsInReply(s[j + i]);
    RunIs(IsInText, cut[j..], n - j);
    assert cut[j..][..n - j] == FirstLine(s)[j..];
  }

  lemma CutSlice(buf: string, p: nat, end: nat)
    requires p <= end < |buf|
    ensures buf[end := NUL][p..] == buf[p..][end - p := NUL] && NulTerminated(buf[end := NUL], p)
  {
    assert buf[end := NUL][end] == NUL;
  }

  lemma {:induction false} TextOfTail(s: string, p: nat, j: nat)
    requires p + j <= |s|
    ensures TextAt(s, p + j) == Text(s[p..][j..])
  {
    assert s[p..][j..] == s[p + j..];
  }

  lemma {:induction false} CleanedPart(s: string, n: nat, tail: string, cut: string, p: nat, j: nat)
    requires n == |FirstLine(s)| < |s| && tail == s[n := NUL] && j == Run(IsSpace, tail)
    requires p <= |cut| && tail == cut[p..]
    ensures j <= n && TextAt(cut, p + j) == SkipSpaces(FirstLine(s))
  {
    CleanedText(s, n, tail, j);
    TextOfTail(cut, p, j);
  }

  /** The same in a buffer. */
  lemma {:induction false} CleanedAt(buf: string, p: nat, end: nat, cut: string, res: nat)
    requires p <= end < |buf| && end == p + |FirstLine(buf[p..])| && cut == buf[end := NUL]
    requires res == p + Run(IsSpace, cut[p..])
    ensures p <= res <= end && TextAt(cut, res) == SkipSpaces(FirstLine(buf[p..]))
  {
    CleanedPart(buf[p..], end - p, cut[p..], cut, p, res - p) by {
      CutSlice(buf, p, end);
    }
  }

  /** The first position from `p` on that is not a space. */
  method SkipBlanks(line: array<char>, p: nat) returns (res: nat)
    requires p < line.Length && NulTerminated(line[..], p)
    ensures res == p + Run(IsSpace, line[..][p..]) < line.Length
  {
    ghost var s := line[..][p..];
    ghost var z :| p <= z < line.Length && line[..][z] == NUL;
    res := p;
    while line[res] == ' '
      invariant p <= res <= z
      invariant forall i :: 0 <= i < res - p ==> IsSpace(s[i])
      decreases z - res
    {
      assert s[res - p] == line[res];
      res := res + 1;
    }
    assert s[res - p] == line[res];
    RunIs(IsSpace, s, res - p);
  }

  /** Where the line that starts at `p` ends. */
  method LineEnd(line: array<char>, p: nat) returns (end: nat)
    requires p < line.Length && Terminated(line[..], p)
    ensures end == p + |FirstLine(line[..][p..])| < line.Length
  {
    ghost var s := line[..][p..];
    ghost var z :| p <= z < line.Length && !IsInReply(line[..][z]);
    end := p;
    while line[end] != '\n' && line[end] != '\r' && line[end] != NUL
      invariant p <= end <= z
      invariant forall i :: 0 <= i < end - p ==> IsInReply(s[i])
      decreases z - end
    {
      assert s[end - p] == line[end];
      end := end + 1;
    }
    assert s[end - p] == line[end];
    RunIs(IsInReply, s, end - p);
  }

  /** Cuts the line at `p` to one line, in place, and returns where its first non-space is. */
  method CleanUserid(line: array<char>, p: nat) returns (res: nat)
    requires p < line.Length && Terminated(line[..], p)
    modifies line
    ensures p <= res < line.Length && NulTerminated(line[..], res)
    ensures p + |FirstLine(old(line[..])[p..])| < line.Length
    ensures line[..] == old(line[..])[p + |FirstLine(old(line[..])[p..])| := NUL]
    ensures TextAt(line[..], res) == SkipSpaces(FirstLine(old(line[..])[p..]))
  {
    ghost var buf := line[..];
    var end := LineEnd(line, p);
    line[end] := NUL;
    ghost var cut := line[..];
    assert cut == buf[end := NUL];
    CutSlice(buf, p, end);
    res := SkipBlanks(line, p);
    CleanedAt(buf, p, end, cut, res);
    assert cut[end] == NUL;
  }

  /** `reap_userid` on a NUL-terminated buffer. */
  method ReapUserid(line: array<char>) returns (res: nat)
    requires line.Length > 0 && NulTerminated(line[..], 0)
    modifies line
    ensures res < line.Length && NulTerminated(line[..], res)
    ensures TextAt(line[..], res) == Reap(Text(old(line[..])))
  {
    assert line[..][0..] == line[..];
    var p := SkipField(line, 0);
    p := SkipField(line, p);
    p := SkipField(line, p);
    LineOfText(line[..][p..]);
    ghost var z :| p <= z < line.Length && line[..][z] == NUL;
    assert !IsInReply(line[..][z]);
    res := CleanUserid(line, p);
  }

  /** The first line of a buffer and of the C string in it are the same. */
  lemma LineOfText(s: string)
    ensures FirstLine(s) == FirstLine(Text(s))
  {}

  /** `strdup` of the C string at `p`. */
  method CopyText(line: array<char>, p: nat) returns (text: string)
    requires p < line.Length && NulTerminated(line[..], p)
    ensures text == TextAt(line[..], p)
  {
    ghost var s := line[..][p..];
    ghost var z :| p <= z < line.Length && line[..][z] == NUL;
    var q := p;
    while line[q] != NUL
      invariant p <= q <= z
      invariant forall i :: 0 <= i < q - p ==> IsInText(s[i])
      decreases z - q
    {
      assert s[q - p] == line[q];
      q := q + 1;
    }
    assert s[q - p] == line[q];
    RunIs(IsInText, s, q - p);
    text := line[p..q];
  }

  /** What `port_daemon` does with the reply: clean it, then reap the id out of it. */
  method ReadUserid(line: array<char>) returns (userid: string)
    requires line.Length > 0 && Terminated(line[..], 0)
    modifies line
    ensures userid == UserIdOf(old(line[..]))
  {
    assert line[..][0..] == line[..];
    var p := CleanUserid(line, 0);
    CutText(old(line[..]));
    p := ReapUserid(line);
    userid := CopyText(line, p);
  }

  /** Writing a NUL at the line end leaves the first line as the C string of the buffer. */
  lemma CutText(s: string)
    requires |FirstLine(s)| < |s|
    ensures Text(s[|FirstLine(s)| := NUL]) == FirstLine(s)
    ensures NulTerminated(s[|FirstLine(s)| := NUL], 0)
  {
    var n := |FirstLine(s)|;
    RunIs(IsInText, s[n := NUL], n);
    assert s[n := NUL][n] == NUL;
  }

  // ---- properties --------------------------------------------------------------------------

  predicate IsLineEnd(c: char) { c == '\r' || c == '\n' || c == '\0' }

  /** A text that stays on its line. */
  predicate OnOneLine(s: string) {
    forall i :: 0 <= i < |s| ==> !IsLineEnd(s[i])
  }

  /** The parts of a USERID reply, the character that ends its line, and what the buffer holds behind it. */
  datatype Reply = Reply(ports: string, kind: string, system: string, spaces: string, id: string, end: char, more: string)

  /** Port pair, reply type and system have no colon; the id may have some. */
  predicate ValidReply(r: Reply) {
    && OnOneLine(r.ports) && OnOneLine(r.kind) && OnOneLine(r.system) && OnOneLine(r.id)
    && ':' !in r.ports && ':' !in r.kind && ':' !in r.system
    && (forall i :: 0 <= i < |r.spaces| ==> r.spaces[i] == ' ') && (r.id != "" ==> r.id[0] != ' ')
    && IsLineEnd(r.end)
  }

  function ReplyLine(r: Reply): string {
    r.ports + (":" + (r.kind + (":" + (r.system + (":" + (r.spaces + r.id))))))
  }

  function ReplyText(r: Reply): string {
    ReplyLine(r) + ([r.end] + r.more)
  }

  lemma AfterField(f: string, rest: string)
    requires ':' !in f
    ensures AfterColon(f + (":" + rest)) == rest
  {
    assert All(IsInField, f);
    RunOf(IsInField, f, ":" + rest);
    assert (f + (":" + rest))[|f| + 1..] == rest;
  }

  lemma LineBefore(line: string, rest: string)
    requires OnOneLine(line) && (rest != "" ==> IsLineEnd(rest[0]))
    ensures FirstLine(line + rest) == line
  {
    assert All(IsInReply, line);
    RunOf(IsInReply, line, rest);
  }

  lemma StrippedLine(spaces: string, text: string)
    requires (forall i :: 0 <= i < |spaces| ==> spaces[i] == ' ') && (text != "" ==> text[0] != ' ')
    ensures SkipSpaces(spaces + text) == text
  {
    assert All(IsSpace, spaces);
    RunOf(IsSpace, spaces, text);
  }

  lemma OneLineConcat(a: string, b: string)
    requires OnOneLine(a) && OnOneLine(b)
    ensures OnOneLine(a + b)
  {}

  lemma ReplyIsOneLine(r: Reply)
    requires ValidReply(r)
    ensures OnOneLine(r.spaces + r.id) && OnOneLine(ReplyLine(r))
  {
    var tail := r.spaces + r.id;
    OneLineConcat(r.spaces, r.id);
    OneLineConcat(":", tail);
    OneLineConcat(r.system, ":" + tail);
    OneLineConcat(":", r.system + (":" + tail));
    OneLineConcat(r.kind, ":" + (r.system + (":" + tail)));
    OneLineConcat(":", r.kind + (":" + (r.system + (":" + tail))));
    OneLineConcat(r.ports, ":" + (r.kind + (":" + (r.system + (":" + tail)))));
  }

  /**
   * A USERID reply gives back its user id, with the colons inside it, whatever blanks precede it,
   * whichever of carriage return, newline and NUL ends the line, and whatever follows it.
   */
  lemma IdentRoundTrip(r: Reply)
    requires ValidReply(r)
    ensures UserIdOf(ReplyText(r)) == r.id
  {
    var tail := r.spaces + r.id;
    ReplyIsOneLine(r);
    LineBefore(ReplyLine(r), [r.end] + r.more);
    AfterField(r.ports, r.kind + (":" + (r.system + (":" + tail))));
    AfterField(r.kind, r.system + (":" + tail));
    AfterField(r.system, tail);
    LineBefore(tail, "");
    assert tail + "" == tail;
    StrippedLine(r.spaces, r.id);
  }

  function Colons(s: string): nat {
    if s == "" then 0 else (if s[0] == ':' then 1 else 0) + Colons(s[1..])
  }

  lemma {:induction false} AfterColonColons(s: string)
    ensures Colons(s) == 0 ==> AfterColon(s) == ""
    ensures Colons(s) > 0 ==> Colons(AfterColon(s)) == Colons(s) - 1
  {
    if s == "" || s[0] == ':' {
    } else {
      AfterColonColons(s[1..]);
      assert Run(IsInField, s) == 1 + Run(IsInField, s[1..]);
      if Run(IsInField, s) < |s| {
        assert s[Run(IsInField, s) + 1..] == s[1..][Run(IsInField, s[1..]) + 1..];
      }
    }
  }

  /** A line with fewer than three colons, such as every ERROR reply, yields the empty id. */
  lemma ShortReplyIsEmpty(buffer: string)
    requires Colons(FirstLine(buffer)) < 3
    ensures UserIdOf(buffer) == ""
  {
    var s := FirstLine(buffer);
    AfterColonColons(s);
    AfterColonColons(AfterColon(s));
    AfterColonColons(AfterColon(AfterColon(s)));
    assert AfterColon("") == "";
  }
}
