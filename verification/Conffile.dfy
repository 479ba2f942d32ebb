/**
 * The configuration file: the token rules of server/conffile.l and the grammar of
 * server/conffile.y, from the text of the file to the calls of `auth_add`.
 */
module Conffile {
  import opened Common
  import opened Authenticate

  datatype Token = UserId(text: string) | Address(text: string) | Newline

  /** What one `yyparse` does: the `auth_add` calls in order, or `yyerror`, which ends the process. */
  datatype Parsed = Accepted(confs: seq<Conf>) | SyntaxError

  // ---- token rules -------------------------------------------------------------------------

  /** `[a-zA-z]`: the upper range runs to lower-case z, so it holds `[ \ ] ^ _` and the backquote. */
  predicate IsLetter(c: char) { 'A' <= c <= 'z' }
  predicate IsDigit(c: char) { '0' <= c <= '9' }
  predicate IsIdChar(c: char) { IsLetter(c) || IsDigit(c) }
  predicate IsBlank(c: char) { c == ' ' || c == '\t' || c == ',' }
  predicate IsInLine(c: char) { c != '\n' }

  /** The length of `[0-9]{1,3}"."` at the start of `s`, or 0. */
  function DottedOctet(s: string): (n: nat)
    ensures n <= |s|
  {
    var n := Run(IsDigit, s);
    if 1 <= n <= 3 && n < |s| && s[n] == '.' then n + 1 else 0
  }

  /** `k` dotted octets followed by a last octet of at most three digits: the length matched, or 0. */
  function GroupsLength(s: string, k: nat): (n: nat)
    ensures n <= |s|
  {
    if k == 0 then
      var n := Run(IsDigit, s);
      if n <= 3 then n else 3
    else
      var i := DottedOctet(s);
      var n := GroupsLength(s[i..], k - 1);
      if i == 0 || n == 0 then 0 else i + n
  }

  /** The length of the longest match of the IP rule at the start of `s`, or 0. */
  function IpLength(s: string): (n: nat)
    ensures n <= |s|
  {
    GroupsLength(s, 3)
  }

  /**
   * The token stream. A comment runs to a newline that must be there; a character that starts no
   * rule is echoed by the scanner's default rule and produces no token.
   */
  function Lex(s: string): seq<Token>
    decreases |s|
  {
    if s == "" then []
    else if s[0] == '\n' then [Newline] + Lex(s[1..])
    else if IsLetter(s[0]) then
      var n := Run(IsIdChar, s);
      assert n > 0;
      [UserId(s[..n])] + Lex(s[n..])
    else if IpLength(s) > 0 then [Address(s[..IpLength(s)])] + Lex(s[IpLength(s)..])
    else if s[0] == '#' && Run(IsInLine, s) < |s| then
      assert Run(IsInLine, s) > 0;
      Lex(s[Run(IsInLine, s)..])
    else Lex(s[1..])
  }

  // ---- inet_pton ---------------------------------------------------------------------------

  function DigitValue(c: char): (n: nat)
    requires IsDigit(c)
    ensures n < 10
  {
    (c as int) - ('0' as int)
  }

  /** A canonical decimal octet: one to three digits, no leading zero, at most 255. */
  function OctetNumber(s: string): (r: Option<nat>)
    ensures r.Some? ==> r.value < 256
  {
    if !(1 <= |s| <= 3 && All(IsDigit, s)) then None
    else if |s| == 1 then Some(DigitValue(s[0]))
    else if s[0] == '0' then None
    else
      var v := if |s| == 2 then 10 * DigitValue(s[0]) + DigitValue(s[1])
               else 100 * DigitValue(s[0]) + 10 * DigitValue(s[1]) + DigitValue(s[2]);
      if v <= 255 then Some(v) else None
  }

  /** `k` octets separated by dots and nothing else. */
  function Octets(s: string, k: nat): (r: Option<seq<nat>>)
    requires k > 0
    ensures r.Some? ==> |r.value| == k && forall i :: 0 <= i < k ==> r.value[i] < 256
  {
    if k == 1 then
      match OctetNumber(s)
      case None => None
      case Some(v) => Some([v])
    else
      var n := Run(IsDigit, s);
      if !(n < |s| && s[n] == '.') then None
      else match (OctetNumber(s[..n]), Octets(s[n + 1..], k - 1))
        case (Some(v), Some(vs)) => Some([v] + vs)
        case _ => None
  }

  function InetPton(s: string): Option<Ip> {
    match Octets(s, 4)
    case None => None
    case Some(v) => Some(Ip(v[0] as bv8, v[1] as bv8, v[2] as bv8, v[3] as bv8))
  }

  /** The value of `ip: _IP`: when the conversion fails, `addr` keeps whatever it held, `unset`. */
  function AddressValue(text: string, unset: Ip): Ip {
    match InetPton(text)
    case None => unset
    case Some(ip) => ip
  }

  // ---- grammar -----------------------------------------------------------------------------

  /** `started` tells whether a `newline` symbol has been reduced already. */
  function ParseTokens(toks: seq<Token>, started: bool, unset: Ip): Parsed {
    if toks == [] then (if started then Accepted([]) else SyntaxError)
    else if toks[0].Newline? then ParseTokens(toks[1..], true, unset)
    else if |toks| >= 4 && toks[0].UserId? && toks[1].Address? && toks[2].Address? && toks[3].Newline? then
      var c := Conf(toks[0].text, AddressValue(toks[1].text, unset), AddressValue(toks[2].text, unset));
      match ParseTokens(toks[4..], true, unset)
      case Accepted(confs) => Accepted([c] + confs)
      case SyntaxError => SyntaxError
    else SyntaxError
  }

  function ParseConf(text: string, unset: Ip): Parsed {
    ParseTokens(Lex(text), false, unset)
  }

  // ---- printing ----------------------------------------------------------------------------

  function DigitChar(n: nat): char
    requires n < 10
  {
    '0' + n as char
  }

  /** `%d` of an octet. */
  function DecimalNumber(n: nat): string
    requires n < 256
  {
    if n < 10 then [DigitChar(n)]
    else if n < 100 then [DigitChar(n / 10), DigitChar(n % 10)]
    else [DigitChar(n / 100), DigitChar(n / 10 % 10), DigitChar(n % 10)]
  }

  function Decimal(x: bv8): string {
    DecimalNumber(x as nat)
  }

  function JoinDots(a: string, b: string, c: string, d: string): string {
    a + ("." + (b + ("." + (c + ("." + d)))))
  }

  /** Dotted decimal, as `inet_ntoa` prints it. */
  function Dotted(ip: Ip): string {
    JoinDots(Decimal(ip.a), Decimal(ip.b), Decimal(ip.c), Decimal(ip.d))
  }

  /** One line of a configuration file as its author may lay it out. */
  datatype Layout =
    | Empty(lead: string, comment: Option<string>)
    | Entry(lead: string, conf: Conf, gap1: string, gap2: string, tail: string, comment: Option<string>)

  predicate ValidUserId(u: string) {
    u != "" && IsLetter(u[0]) && All(IsIdChar, u)
  }

  /** One of the 26 letters, capital or small, or one of the six characters between the two alphabets. */
  predicate IsIdLetter(c: char) {
    'a' <= c <= 'z' || 'A' <= c <= 'Z' || c in {'[', '\\', ']', '^', '_', '`'}
  }

  /** What the USERID rule takes for a user id: letters, the six characters a slip lets in, and digits but in front. */
  lemma UserIdCharacters(u: string)
    ensures ValidUserId(u) <==>
            u != "" && IsIdLetter(u[0]) && forall i :: 0 <= i < |u| ==> IsIdLetter(u[i]) || '0' <= u[i] <= '9'
  {
    assert forall i :: 0 <= i < |u| ==> (IsIdChar(u[i]) <==> IsIdLetter(u[i]) || '0' <= u[i] <= '9');
  }

  predicate ValidLayout(l: Layout) {
    && All(IsBlank, l.lead)
    && (l.comment.Some? ==> All(IsInLine, l.comment.value))
    && (l.Entry? ==>
          && ValidUserId(l.conf.userid)
          && l.gap1 != "" && l.gap2 != ""
          && All(IsBlank, l.gap1) && All(IsBlank, l.gap2) && All(IsBlank, l.tail))
  }

  function PrintComment(c: Option<string>): string {
    if c.None? then "\n" else "#" + c.value + "\n"
  }

  function PrintLine(l: Layout): string {
    match l
    case Empty(lead, comment) => lead + PrintComment(comment)
    case Entry(lead, c, gap1, gap2, tail, comment) =>
      lead + (c.userid + (gap1 + (Dotted(c.ip) + (gap2 + (Dotted(c.netmask) + (tail + PrintComment(comment)))))))
  }

  function Print(ls: seq<Layout>): string {
    if ls == [] then "" else PrintLine(ls[0]) + Print(ls[1..])
  }

  function Confs(ls: seq<Layout>): seq<Conf> {
    if ls == [] then []
    else (if ls[0].Entry? then [ls[0].conf] else []) + Confs(ls[1..])
  }

  // ---- round trip --------------------------------------------------------------------------

  predicate IsField(f: string) {
    1 <= |f| <= 3 && All(IsDigit, f)
  }

  lemma DecimalRoundTrip(n: nat)
    requires n < 256
    ensures IsField(DecimalNumber(n)) && OctetNumber(DecimalNumber(n)) == Some(n)
  {
    DigitRoundTrip(n % 10);
    DigitRoundTrip(n / 10 % 10);
    DigitRoundTrip(n / 100);
    assert n == 100 * (n / 100) + 10 * (n / 10 % 10) + n % 10;
    assert n < 100 ==> n / 10 % 10 == n / 10;
  }

  lemma DigitRoundTrip(n: nat)
    requires n < 10
    ensures IsDigit(DigitChar(n)) && DigitValue(DigitChar(n)) == n
    ensures DigitChar(n) == '0' <==> n == 0
  {}

  lemma {:induction false} OctetsStep(d: string, x: nat, rest: string, k: nat, v: seq<nat>)
    requires IsField(d) && OctetNumber(d) == Some(x)
    requires k > 0 && Octets(rest, k) == Some(v)
    ensures Octets(d + ("." + rest), k + 1) == Some([x] + v)
  {
    RunOf(IsDigit, d, "." + rest);
    OctetsUnfold(d + ("." + rest), d, rest, k);
  }

  lemma {:induction false} OctetsUnfold(s: string, d: string, rest: string, k: nat)
    requires s == d + ("." + rest) && Run(IsDigit, s) == |d| && k > 0
    ensures Octets(s, k + 1) == match (OctetNumber(d), Octets(rest, k))
                                case (Some(v), Some(vs)) => Some([v] + vs)
                                case _ => None
  {
    assert s[..|d|] == d && s[|d| + 1..] == rest && s[|d|] == '.';
  }

  lemma {:induction false} OctetsLast(d: string, x: nat)
    requires OctetNumber(d) == Some(x)
    ensures Octets(d, 1) == Some([x])
  {}

  lemma {:induction false} OctetsJoin(a: string, b: string, c: string, d: string, w: nat, x: nat, y: nat, z: nat)
    requires IsField(a) && IsField(b) && IsField(c)
    requires OctetNumber(a) == Some(w) && OctetNumber(b) == Some(x) && OctetNumber(c) == Some(y) && OctetNumber(d) == Some(z)
    ensures Octets(JoinDots(a, b, c, d), 4) == Some([w] + ([x] + ([y] + [z])))
  {
    var s2 := c + ("." + d);
    var s3 := b + ("." + s2);
    OctetsLast(d, z);
    OctetsStep(c, y, d, 1, [z]);
    OctetsStep(b, x, s2, 2, [y] + [z]);
    OctetsStep(a, w, s3, 3, [x] + ([y] + [z]));
  }

  lemma {:induction false} OctetsOf(w: nat, x: nat, y: nat, z: nat)
    requires w < 256 && x < 256 && y < 256 && z < 256
    ensures Octets(JoinDots(DecimalNumber(w), DecimalNumber(x), DecimalNumber(y), DecimalNumber(z)), 4) ==
            Some([w, x, y, z])
  {
    DecimalRoundTrip(w);
    DecimalRoundTrip(x);
    DecimalRoundTrip(y);
    DecimalRoundTrip(z);
    OctetsJoin(DecimalNumber(w), DecimalNumber(x), DecimalNumber(y), DecimalNumber(z), w, x, y, z);
    assert [w] + ([x] + ([y] + [z])) == [w, x, y, z];
  }

  /** Printing an address and reading it back is the identity. */
  lemma DottedRoundTrip(ip: Ip)
    ensures InetPton(Dotted(ip)) == Some(ip)
  {
    OctetsOf(ip.a as nat, ip.b as nat, ip.c as nat, ip.d as nat);
  }

  /** A text that `inet_pton` takes is the text it prints: no leading zeros, no octet above 255. */
  lemma {:induction false} DottedOnly(s: string, ip: Ip)
    requires InetPton(s) == Some(ip)
    ensures s == Dotted(ip)
  {
    var a, b, c, d := OctetsSplit(s);
    JoinedNumbers(a, b, c, d, Octets(s, 4).value);
  }

  lemma NumberPrinted(d: string, v: nat)
    requires OctetNumber(d) == Some(v)
    ensures v < 256 && DecimalNumber(v) == d
  {
    var k := |d|;
    assert DigitChar(DigitValue(d[0])) == d[0];
    if k == 2 {
      assert v / 10 == DigitValue(d[0]) && v % 10 == DigitValue(d[1]);
    } else if k == 3 {
      assert v / 100 == DigitValue(d[0]) && v / 10 % 10 == DigitValue(d[1]) && v % 10 == DigitValue(d[2]);
    }
  }

  /** One octet off the front. */
  lemma {:induction false} OctetsFront(s: string, k: nat) returns (d: string, rest: string, vs: seq<nat>)
    requires k > 1 && Octets(s, k).Some?
    ensures s == d + ("." + rest) && Octets(rest, k - 1) == Some(vs)
    ensures OctetNumber(d).Some? && Octets(s, k).value == [OctetNumber(d).value] + vs
  {
    var n := Run(IsDigit, s);
    d, rest := s[..n], s[n + 1..];
    vs := Octets(rest, k - 1).value;
    assert s[n] == '.' && s == d + ("." + rest);
  }

  lemma {:induction false} OctetsSplit(s: string) returns (a: string, b: string, c: string, d: string)
    requires Octets(s, 4).Some?
    ensures s == JoinDots(a, b, c, d)
    ensures OctetNumber(a).Some? && OctetNumber(b).Some? && OctetNumber(c).Some? && OctetNumber(d).Some?
    ensures Octets(s, 4).value ==
            [OctetNumber(a).value] + ([OctetNumber(b).value] + ([OctetNumber(c).value] + [OctetNumber(d).value]))
  {
    var s2, s3, v2, v3, v4;
    a, s2, v2 := OctetsFront(s, 4);
    b, s3, v3 := OctetsFront(s2, 3);
    c, d, v4 := OctetsFront(s3, 2);
  }

  lemma NextOctet(y: bv8, n: nat)
    requires n == y as nat && n < 255
    ensures (y + 1) as nat == n + 1
  {}

  lemma {:induction false} SomeOctet(v: nat) returns (y: bv8)
    requires v < 256
    ensures y as nat == v
  {
    if v == 0 {
      y := 0;
    } else {
      var z := SomeOctet(v - 1);
      NextOctet(z, v - 1);
      y := z + 1;
    }
  }

  lemma OctetIs(n: nat, p: bv8)
    requires n == p as nat
    ensures n < 256 && n as bv8 == p
  {}

  lemma OctetBack(v: nat)
    requires v < 256
    ensures (v as bv8) as nat == v
  {
    var y := SomeOctet(v);
    OctetIs(v, y);
  }

  lemma {:induction false} DecimalBack(d: string, v: nat)
    requires OctetNumber(d) == Some(v)
    ensures v < 256 && Decimal(v as bv8) == d
  {
    NumberPrinted(d, v);
    OctetBack(v);
  }

  lemma {:induction false} JoinedNumbers(a: string, b: string, c: string, d: string, v: seq<nat>)
    requires |v| == 4 && OctetNumber(a) == Some(v[0]) && OctetNumber(b) == Some(v[1])
    requires OctetNumber(c) == Some(v[2]) && OctetNumber(d) == Some(v[3])
    ensures JoinDots(a, b, c, d) ==
            JoinDots(Decimal(v[0] as bv8), Decimal(v[1] as bv8), Decimal(v[2] as bv8), Decimal(v[3] as bv8))
  {
    DecimalBack(a, v[0]);
    DecimalBack(b, v[1]);
    DecimalBack(c, v[2]);
    DecimalBack(d, v[3]);
  }

  lemma GroupsLengthStep(d: string, more: string, k: nat)
    requires IsField(d)
    requires GroupsLength(more, k) > 0
    ensures GroupsLength(d + ("." + more), k + 1) == |d| + 1 + GroupsLength(more, k)
  {
    DottedOctetOf(d, more);
    assert (d + ("." + more))[|d| + 1..] == more;
  }

  lemma DottedOctetOf(d: string, more: string)
    requires IsField(d)
    ensures DottedOctet(d + ("." + more)) == |d| + 1
  {
    RunOf(IsDigit, d, "." + more);
  }

  lemma JoinDotsThen(a: string, b: string, c: string, d: string, rest: string)
    ensures JoinDots(a, b, c, d) + rest == a + ("." + (b + ("." + (c + ("." + (d + rest))))))
  {}

  lemma LastOctet(d: string, rest: string)
    requires IsField(d) && (|d| == 3 || rest == "" || !IsDigit(rest[0]))
    ensures GroupsLength(d + rest, 0) == |d|
  {
    if rest == "" || !IsDigit(rest[0]) {
      RunOf(IsDigit, d, rest);
    } else {
      var s := d + rest;
      assert IsDigit(s[0]) && IsDigit(s[1]) && IsDigit(s[2]);
      assert Run(IsDigit, s) >= 3;
    }
  }

  lemma AddressLength(a: string, b: string, c: string, d: string, rest: string)
    requires IsField(a) && IsField(b) && IsField(c) && IsField(d)
    requires |d| == 3 || rest == "" || !IsDigit(rest[0])
    ensures IpLength(JoinDots(a, b, c, d) + rest) == |JoinDots(a, b, c, d)|
  {
    LastOctet(d, rest);
    GroupsLengthStep(c, d + rest, 0);
    GroupsLengthStep(b, c + ("." + (d + rest)), 1);
    GroupsLengthStep(a, b + ("." + (c + ("." + (d + rest)))), 2);
    JoinDotsThen(a, b, c, d, rest);
  }

  /** Four groups of one to three digits are an address; a digit too many behind them is not part of it. */
  lemma {:induction false} LexAddressText(a: string, b: string, c: string, d: string, rest: string)
    requires IsField(a) && IsField(b) && IsField(c) && IsField(d)
    requires |d| == 3 || rest == "" || !IsDigit(rest[0])
    ensures Lex(JoinDots(a, b, c, d) + rest) == [Address(JoinDots(a, b, c, d))] + Lex(rest)
  {
    var t := JoinDots(a, b, c, d);
    var s := t + rest;
    AddressLength(a, b, c, d, rest);
    assert IsDigit(s[0]) by {
      assert s[0] == a[0];
    }
    assert s[..|t|] == t && s[|t|..] == rest;
  }

  lemma LexAddress(ip: Ip, rest: string)
    requires rest == "" || !IsDigit(rest[0])
    ensures Lex(Dotted(ip) + rest) == [Address(Dotted(ip))] + Lex(rest)
  {
    DecimalRoundTrip(ip.a as nat);
    DecimalRoundTrip(ip.b as nat);
    DecimalRoundTrip(ip.c as nat);
    DecimalRoundTrip(ip.d as nat);
    LexAddressText(Decimal(ip.a), Decimal(ip.b), Decimal(ip.c), Decimal(ip.d), rest);
  }

  lemma {:induction false} LexUserId(u: string, rest: string)
    requires ValidUserId(u)
    requires rest == "" || !IsIdChar(rest[0])
    ensures Lex(u + rest) == [UserId(u)] + Lex(rest)
  {
    var s := u + rest;
    RunOf(IsIdChar, u, rest);
    assert s[..|u|] == u && s[|u|..] == rest;
  }

  lemma NoDigitNoAddress(s: string)
    requires s != "" && !IsDigit(s[0])
    ensures IpLength(s) == 0
  {}

  lemma {:induction false} LexBlanks(w: string, rest: string)
    requires All(IsBlank, w)
    ensures Lex(w + rest) == Lex(rest)
  {
    if w == "" {
      assert w + rest == rest;
    } else {
      var s := w + rest;
      assert s[0] == w[0] && s[1..] == w[1..] + rest;
      NoDigitNoAddress(s);
      LexBlanks(w[1..], rest);
    }
  }

  lemma LexNewline(rest: string)
    ensures Lex("\n" + rest) == [Newline] + Lex(rest)
  {}

  lemma LexCommentText(text: string, line: string)
    requires All(IsInLine, text)
    requires line != "" && line[0] == '\n'
    ensures Lex("#" + text + line) == Lex(line)
  {
    var s := "#" + text + line;
    RunOf(IsInLine, "#" + text, line);
    NoDigitNoAddress(s);
    assert s[|text| + 1..] == line;
  }

  lemma LexComment(c: Option<string>, rest: string)
    requires c.Some? ==> All(IsInLine, c.value)
    ensures Lex(PrintComment(c) + rest) == [Newline] + Lex(rest)
  {
    LexNewline(rest);
    if c.Some? {
      LexCommentText(c.value, "\n" + rest);
      assert PrintComment(c) + rest == "#" + c.value + ("\n" + rest);
    }
  }

  function TokensOf(l: Layout): seq<Token> {
    if l.Empty? then [Newline]
    else [UserId(l.conf.userid), Address(Dotted(l.conf.ip)), Address(Dotted(l.conf.netmask)), Newline]
  }

  lemma {:induction false} LexAddressField(ip: Ip, gap: string, rest: string)
    requires All(IsBlank, gap)
    requires gap != "" || (rest != "" && !IsDigit(rest[0]))
    ensures Lex(Dotted(ip) + (gap + rest)) == [Address(Dotted(ip))] + Lex(rest)
  {
    LexAddress(ip, gap + rest);
    LexBlanks(gap, rest);
  }

  lemma LexUserIdField(u: string, gap: string, rest: string)
    requires ValidUserId(u)
    requires gap != "" && All(IsBlank, gap)
    ensures Lex(u + (gap + rest)) == [UserId(u)] + Lex(rest)
  {
    LexUserId(u, gap + rest);
    LexBlanks(gap, rest);
  }

  lemma EntryText(l: Layout, rest: string)
    requires l.Entry?
    ensures PrintLine(l) + rest ==
            l.lead + (l.conf.userid + (l.gap1 + (Dotted(l.conf.ip) + (l.gap2 +
            (Dotted(l.conf.netmask) + (l.tail + (PrintComment(l.comment) + rest)))))))
  {
    var s7 := l.tail + PrintComment(l.comment);
    var s5 := l.gap2 + (Dotted(l.conf.netmask) + s7);
    var s3 := l.gap1 + (Dotted(l.conf.ip) + s5);
    Assoc(l.tail, PrintComment(l.comment), rest);
    AssocTwice(l.gap2, Dotted(l.conf.netmask), s7, rest);
    AssocTwice(l.gap1, Dotted(l.conf.ip), s5, rest);
    AssocTwice(l.lead, l.conf.userid, s3, rest);
  }

  lemma AssocTwice(a: string, b: string, c: string, rest: string)
    ensures (a + (b + c)) + rest == a + (b + (c + rest))
  {}

  lemma {:induction false} LexNetmask(l: Layout, rest: string)
    requires ValidLayout(l) && l.Entry?
    ensures Lex(Dotted(l.conf.netmask) + (l.tail + (PrintComment(l.comment) + rest))) ==
            [Address(Dotted(l.conf.netmask)), Newline] + Lex(rest)
  {
    CommentStart(l.comment, rest);
    LexAddressField(l.conf.netmask, l.tail, PrintComment(l.comment) + rest);
    LexComment(l.comment, rest);
    OneBefore(Address(Dotted(l.conf.netmask)), Newline, Lex(rest));
  }

  lemma CommentStart(c: Option<string>, rest: string)
    ensures var s := PrintComment(c) + rest; s != "" && !IsDigit(s[0])
  {}

  lemma OneBefore(a: Token, b: Token, rest: seq<Token>)
    ensures [a] + ([b] + rest) == [a, b] + rest
  {}

  lemma {:induction false} LexAddresses(l: Layout, rest: string)
    requires ValidLayout(l) && l.Entry?
    ensures Lex(Dotted(l.conf.ip) + (l.gap2 + (Dotted(l.conf.netmask) + (l.tail + (PrintComment(l.comment) + rest))))) ==
            [Address(Dotted(l.conf.ip)), Address(Dotted(l.conf.netmask)), Newline] + Lex(rest)
  {
    LexAddressField(l.conf.ip, l.gap2, Dotted(l.conf.netmask) + (l.tail + (PrintComment(l.comment) + rest)));
    LexNetmask(l, rest);
    OneMore(Address(Dotted(l.conf.ip)), Address(Dotted(l.conf.netmask)), Newline, Lex(rest));
  }

  lemma OneMore(a: Token, b: Token, c: Token, rest: seq<Token>)
    ensures [a] + ([b, c] + rest) == [a, b, c] + rest
  {}

  lemma LexEntry(l: Layout, rest: string)
    requires ValidLayout(l) && l.Entry?
    ensures Lex(PrintLine(l) + rest) == TokensOf(l) + Lex(rest)
  {
    var addresses := Dotted(l.conf.ip) + (l.gap2 + (Dotted(l.conf.netmask) + (l.tail + (PrintComment(l.comment) + rest))));
    calc {
      Lex(PrintLine(l) + rest);
    ==  { EntryText(l, rest); }
      Lex(l.lead + (l.conf.userid + (l.gap1 + addresses)));
    ==  { LexBlanks(l.lead, l.conf.userid + (l.gap1 + addresses)); }
      Lex(l.conf.userid + (l.gap1 + addresses));
    ==  { LexUserIdField(l.conf.userid, l.gap1, addresses); }
      [UserId(l.conf.userid)] + Lex(addresses);
    ==  { LexAddresses(l, rest); }
      TokensOf(l) + Lex(rest);
    }
  }

  lemma {:induction false} LexLine(l: Layout, rest: string)
    requires ValidLayout(l)
    ensures Lex(PrintLine(l) + rest) == TokensOf(l) + Lex(rest)
  {
    if l.Entry? {
      LexEntry(l, rest);
    } else {
      assert PrintLine(l) + rest == l.lead + (PrintComment(l.comment) + rest);
      LexBlanks(l.lead, PrintComment(l.comment) + rest);
      LexComment(l.comment, rest);
    }
  }

  lemma ParseLine(l: Layout, toks: seq<Token>, started: bool, unset: Ip)
    ensures ParseTokens(TokensOf(l) + toks, started, unset) ==
            match ParseTokens(toks, true, unset)
            case SyntaxError => SyntaxError
            case Accepted(confs) => Accepted((if l.Entry? then [l.conf] else []) + confs)
  {
    var all := TokensOf(l) + toks;
    if l.Entry? {
      DottedRoundTrip(l.conf.ip);
      DottedRoundTrip(l.conf.netmask);
      assert all[4..] == toks;
    } else {
      assert all[1..] == toks;
      assert forall confs: seq<Conf> :: [] + confs == confs;
    }
  }

  /** What the lines and the text behind them give together. */
  function Joined(confs: seq<Conf>, rest: Parsed): Parsed {
    match rest
    case SyntaxError => SyntaxError
    case Accepted(more) => Accepted(confs + more)
  }

  lemma {:induction false} ParsePrinted(ls: seq<Layout>, rest: string, started: bool, unset: Ip)
    requires forall l :: l in ls ==> ValidLayout(l)
    ensures ParseTokens(Lex(Print(ls) + rest), started, unset) ==
            Joined(Confs(ls), ParseTokens(Lex(rest), started || ls != [], unset))
  {
    if ls == [] {
      assert Print(ls) + rest == rest;
      assert forall more: seq<Conf> :: [] + more == more;
    } else {
      var text := Print(ls[1..]) + rest;
      assert Print(ls) + rest == PrintLine(ls[0]) + text;
      LexLine(ls[0], text);
      ParseLine(ls[0], Lex(text), started, unset);
      ParsePrinted(ls[1..], rest, true, unset);
      var first, more := if ls[0].Entry? then [ls[0].conf] else [], Confs(ls[1..]);
      forall x: seq<Conf>
        ensures first + (more + x) == (first + more) + x
      {
        Assoc(first, more, x);
      }
    }
  }

  /**
   * The round trip: any list of entries, laid out with any blanks, tabs, commas, comments and
   * empty lines, is read back as exactly those entries in order. Only the file without a single
   * line is a syntax error.
   */
  lemma {:induction false} ConfRoundTrip(ls: seq<Layout>, unset: Ip)
    requires forall l :: l in ls ==> ValidLayout(l)
    ensures ParseConf(Print(ls), unset) == if ls == [] then SyntaxError else Accepted(Confs(ls))
  {
    ParsePrinted(ls, "", false, unset);
    assert Print(ls) + "" == Print(ls);
    assert Confs(ls) + [] == Confs(ls);
  }

  // ---- addresses that are none -------------------------------------------------------------

  lemma {:induction false} LexOddAddress(a: string, b: string, c: string, d: string, mask: Ip)
    requires IsField(a) && IsField(b) && IsField(c) && IsField(d)
    ensures Lex(JoinDots(a, b, c, d) + (" " + (Dotted(mask) + "\n"))) ==
            [Address(JoinDots(a, b, c, d)), Address(Dotted(mask)), Newline]
  {
    var rest := Dotted(mask) + "\n";
    LexAddressText(a, b, c, d, " " + rest);
    LexBlanks(" ", rest);
    LexAddress(mask, "\n");
    LexNewline("");
    assert "\n" + "" == "\n" && Lex("") == [];
  }

  /**
   * Four groups of digits always pass the scanner. When they are a printed address, the entry
   * has that address; when they are none, as with leading zeros or a group above 255, the entry
   * has whatever the variable held before.
   */
  lemma {:induction false} OddAddress(u: string, a: string, b: string, c: string, d: string, mask: Ip, unset: Ip)
    requires ValidUserId(u) && IsField(a) && IsField(b) && IsField(c) && IsField(d)
    ensures var text := JoinDots(a, b, c, d);
            var r := ParseConf(u + (" " + (text + (" " + (Dotted(mask) + "\n")))), unset);
            && (forall ip :: text == Dotted(ip) ==> r == Accepted([Conf(u, ip, mask)]))
            && ((forall ip :: text != Dotted(ip)) ==> r == Accepted([Conf(u, unset, mask)]))
  {
    var text := JoinDots(a, b, c, d);
    LexUserIdField(u, " ", text + (" " + (Dotted(mask) + "\n")));
    LexOddAddress(a, b, c, d, mask);
    EntryOf(u, text, mask, unset);
    if InetPton(text).Some? {
      DottedOnly(text, InetPton(text).value);
    }
    forall ip | text == Dotted(ip)
      ensures InetPton(text) == Some(ip)
    {
      DottedRoundTrip(ip);
    }
  }

  lemma {:induction false} EntryOf(u: string, text: string, mask: Ip, unset: Ip)
    ensures ParseTokens([UserId(u)] + [Address(text), Address(Dotted(mask)), Newline], false, unset) ==
            Accepted([Conf(u, AddressValue(text, unset), mask)])
  {
    var toks := [UserId(u)] + [Address(text), Address(Dotted(mask)), Newline];
    DottedRoundTrip(mask);
    assert toks[4..] == [];
    assert ParseTokens([], true, unset) == Accepted([]);
  }

  // ---- what every accepted file guarantees -------------------------------------------------

  predicate GoodToken(t: Token) {
    t.UserId? ==> ValidUserId(t.text)
  }

  lemma {:induction false} LexTokens(s: string)
    ensures forall t :: t in Lex(s) ==> GoodToken(t)
    decreases |s|
  {
    if s == "" {
    } else if s[0] == '\n' {
      LexTokens(s[1..]);
    } else if IsLetter(s[0]) {
      var n := Run(IsIdChar, s);
      assert n > 0 && s[..n][0] == s[0];
      LexTokens(s[n..]);
    } else if IpLength(s) > 0 {
      LexTokens(s[IpLength(s)..]);
    } else if s[0] == '#' && Run(IsInLine, s) < |s| {
      assert Run(IsInLine, s) > 0;
      LexTokens(s[Run(IsInLine, s)..]);
    } else {
      LexTokens(s[1..]);
    }
  }

  lemma {:induction false} ParsedUserIds(toks: seq<Token>, started: bool, unset: Ip)
    requires forall t :: t in toks ==> GoodToken(t)
    ensures var r := ParseTokens(toks, started, unset);
            r.Accepted? ==> forall c :: c in r.confs ==> ValidUserId(c.userid)
  {
    if toks == [] {
    } else if toks[0].Newline? {
      ParsedUserIds(toks[1..], true, unset);
    } else if |toks| >= 4 {
      assert GoodToken(toks[0]);
      ParsedUserIds(toks[4..], true, unset);
    }
  }

  /** Whatever the text, every configured user id is a nonempty word, so the empty id matches none. */
  lemma EmptyUserNeverGranted(text: string, unset: Ip, ip: Ip)
    requires ParseConf(text, unset).Accepted?
    ensures !Check(Added(ParseConf(text, unset).confs), Some(""), ip)
  {
    LexTokens(text);
    ParsedUserIds(Lex(text), false, unset);
    CheckMeaning(ParseConf(text, unset).confs, "", ip);
  }

  // ---- a last line without its newline -----------------------------------------------------

  /** Nothing in the text looks like a user id or an address. */
  predicate Wordless(text: string) {
    forall i :: 0 <= i < |text| ==> WordlessAt(text, i)
  }

  predicate WordlessAt(text: string, i: nat)
    requires i < |text|
  {
    !IsLetter(text[i]) && IpLength(text[i..]) == 0
  }

  lemma {:induction false} WordlessShift(text: string, i: nat)
    requires i + 1 < |text|
    ensures WordlessAt(text[1..], i) <==> WordlessAt(text, i + 1)
  {
    assert text[1..][i..] == text[i + 1..];
  }

  lemma {:induction false} WordlessStep(text: string)
    requires text != ""
    ensures Wordless(text) <==> WordlessAt(text, 0) && Wordless(text[1..])
  {
    forall i | 0 <= i < |text| - 1
      ensures WordlessAt(text[1..], i) <==> WordlessAt(text, i + 1)
    {
      WordlessShift(text, i);
    }
    if WordlessAt(text, 0) && Wordless(text[1..]) {
      forall i | 0 <= i < |text|
        ensures WordlessAt(text, i)
      {
        if i > 0 {
          assert WordlessAt(text[1..], i - 1);
        }
      }
    }
  }

  /** A text without a newline never yields the newline token, and yields no token at all iff it is wordless. */
  lemma {:induction false} LexOpenLine(text: string)
    requires All(IsInLine, text)
    ensures Newline !in Lex(text)
    ensures Lex(text) == [] <==> Wordless(text)
    decreases |text|
  {
    if text == "" {
    } else {
      WordlessStep(text);
      assert text[0..] == text;
      RunIs(IsInLine, text, |text|);
      if IsLetter(text[0]) {
        LexOpenLine(text[Run(IsIdChar, text)..]);
      } else if IpLength(text) > 0 {
        LexOpenLine(text[IpLength(text)..]);
      } else {
        LexOpenLine(text[1..]);
      }
    }
  }

  lemma ParseWithoutNewline(toks: seq<Token>, started: bool, unset: Ip)
    requires Newline !in toks
    ensures ParseTokens(toks, started, unset) == if toks == [] && started then Accepted([]) else SyntaxError
  {}

  /**
   * A file may end in a line without its newline exactly when there is a line before it and it
   * has no word in it. The entries are then those of the lines before; otherwise the file is refused.
   */
  lemma UnterminatedLine(ls: seq<Layout>, text: string, unset: Ip)
    requires (forall l :: l in ls ==> ValidLayout(l)) && All(IsInLine, text)
    ensures ParseConf(Print(ls) + text, unset) ==
            if ls != [] && Wordless(text) then Accepted(Confs(ls)) else SyntaxError
  {
    ParsePrinted(ls, text, false, unset);
    LexOpenLine(text);
    ParseWithoutNewline(Lex(text), ls != [], unset);
    assert Confs(ls) + [] == Confs(ls);
  }

  /** A comment sign with no newline behind it is not there at all: its text is scanned as if it stood alone. */
  lemma {:induction false} OpenCommentIsNoComment(text: string)
    requires All(IsInLine, text)
    ensures Lex("#" + text) == Lex(text)
    ensures Wordless("#" + text) <==> Wordless(text)
  {
    var s := "#" + text;
    RunIs(IsInLine, s, |s|);
    NoDigitNoAddress(s);
    assert s[0..] == s && s[1..] == text;
    WordlessStep(s);
  }

  /**
   * When a comment without its newline at the end of a file is harmless: exactly when a line
   * stands before it and there is no word in the comment. With the newline it always is.
   */
  lemma OpenCommentIff(ls: seq<Layout>, text: string, unset: Ip)
    requires (forall l :: l in ls ==> ValidLayout(l)) && All(IsInLine, text)
    ensures ParseConf(Print(ls) + ("#" + text), unset) ==
            if ls != [] && Wordless(text) then Accepted(Confs(ls)) else SyntaxError
    ensures ParseConf(Print(ls) + ("#" + text + "\n"), unset) == Accepted(Confs(ls))
  {
    OpenCommentIsNoComment(text);
    UnterminatedLine(ls, "#" + text, unset);
    ParsePrinted(ls, "#" + text + "\n", false, unset);
    LexComment(Some(text), "");
    assert PrintComment(Some(text)) + "" == "#" + text + "\n";
    assert Lex("") == [];
    assert [Newline] + [] == [Newline] && [Newline][1..] == [];
    assert Confs(ls) + [] == Confs(ls);
  }

  /** One letter is enough: wherever it stands in a last comment without newline, the file is refused. */
  lemma {:induction false} OneWordIsTooMany(ls: seq<Layout>, text: string, i: nat, unset: Ip)
    requires (forall l :: l in ls ==> ValidLayout(l)) && All(IsInLine, text)
    requires i < |text| && 'a' <= text[i] <= 'z'
    ensures ParseConf(Print(ls) + ("#" + text), unset) == SyntaxError
  {
    assert !WordlessAt(text, i);
    OpenCommentIff(ls, text, unset);
  }
}
