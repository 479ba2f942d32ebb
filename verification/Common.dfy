/** Shared vocabulary: optional values, C strings, letter case and IPv4 addresses. */
module Common {

  datatype Option<+T> = None | Some(value: T)

  lemma Assoc<T>(a: seq<T>, b: seq<T>, c: seq<T>)
    ensures (a + b) + c == a + (b + c)
  {}

  const NUL: char := '\0'

  /** A letter in lower case, as the C locale folds it for `strcasecmp` and `strncasecmp`. */
  function Lower(c: char): char {
    if 'A' <= c <= 'Z' then c + 32 as char else c
  }

  /** `strcasecmp(a, b) == 0` for two C strings. */
  predicate SameIgnoringCase(a: string, b: string) {
    |a| == |b| && forall i :: 0 <= i < |a| ==> Lower(a[i]) == Lower(b[i])
  }

  /** `strncasecmp(line, pattern, strlen(pattern)) == 0`: `line` starts with `pattern`, whatever the case. */
  predicate StartsIgnoringCase(line: string, pattern: string) {
    |pattern| <= |line| && SameIgnoringCase(line[..|pattern|], pattern)
  }

  // ---- what ignoring case means, letter by letter ------------------------------------------

  /** The capital and the small form of one of the 26 letters. */
  predicate IsCapitalOf(capital: char, small: char) {
    'A' <= capital <= 'Z' && small as int == capital as int + 32
  }

  predicate SameLetter(a: char, b: char) {
    a == b || IsCapitalOf(a, b) || IsCapitalOf(b, a)
  }

  /** `a` is a spelling of `b`: the same letters in capitals or small letters, everything else the same. */
  predicate Spells(a: string, b: string) {
    |a| == |b| && forall i :: 0 <= i < |a| ==> SameLetter(a[i], b[i])
  }

  /** `line` begins with a spelling of `word`. */
  predicate Begins(line: string, word: string) {
    |word| <= |line| && Spells(line[..|word|], word)
  }

  lemma LowerMeaning(a: char, b: char)
    ensures Lower(a) == Lower(b) <==> SameLetter(a, b)
  {}

  /** The comparison of `strcasecmp` finds exactly the spellings. */
  lemma CaseMeaning(a: string, b: string)
    ensures SameIgnoringCase(a, b) <==> Spells(a, b)
  {
    forall i | 0 <= i < |a| && i < |b|
      ensures Lower(a[i]) == Lower(b[i]) <==> SameLetter(a[i], b[i])
    {
      LowerMeaning(a[i], b[i]);
    }
  }

  /** The comparison of `strncasecmp` finds exactly the lines that begin with a spelling. */
  lemma PrefixMeaning(line: string, pattern: string)
    ensures StartsIgnoringCase(line, pattern) <==> Begins(line, pattern)
  {
    if |pattern| <= |line| {
      CaseMeaning(line[..|pattern|], pattern);
    }
  }

  predicate All(p: char -> bool, s: string) {
    forall i :: 0 <= i < |s| ==> p(s[i])
  }

  /** The length of the longest prefix whose characters all satisfy `p`. */
  function Run(p: char -> bool, s: string): (n: nat)
    ensures n <= |s| && forall i :: 0 <= i < n ==> p(s[i])
    ensures n < |s| ==> !p(s[n])
  {
    if s == "" || !p(s[0]) then 0 else 1 + Run(p, s[1..])
  }

  lemma {:induction false} RunOf(p: char -> bool, u: string, rest: string)
    requires All(p, u)
    requires rest == "" || !p(rest[0])
    ensures Run(p, u + rest) == |u|
  {
    if u == "" {
      assert u + rest == rest;
    } else {
      assert (u + rest)[1..] == u[1..] + rest;
      RunOf(p, u[1..], rest);
    }
  }

  lemma RunIs(p: char -> bool, s: string, n: nat)
    requires n <= |s| && forall i :: 0 <= i < n ==> p(s[i])
    requires n < |s| ==> !p(s[n])
    ensures Run(p, s) == n
  {}

  predicate IsInText(c: char) { c != NUL }

  /** The C string at the start of a buffer. */
  function Text(s: string): string { s[..Run(IsInText, s)] }

  function TextAt(s: string, p: nat): string
    requires p <= |s|
  {
    Text(s[p..])
  }

  predicate NulTerminated(s: string, p: nat) {
    exists z :: p <= z < |s| && s[z] == NUL
  }

  /** A NUL in a buffer bounds the C string in it. */
  lemma TextBound(s: string, z: nat)
    requires z < |s| && s[z] == NUL
    ensures |Text(s)| <= z && s[|Text(s)|] == NUL
  {}

  /** An IPv4 address or netmask, octet by octet in network order. */
  datatype Ip = Ip(a: bv8, b: bv8, c: bv8, d: bv8) {

    /** Bitwise conjunction of two addresses. */
    function And(m: Ip): Ip {
      Ip(a & m.a, b & m.b, c & m.c, d & m.d)
    }

    function Octet(i: nat): bv8
      requires i < 4
    {
      if i == 0 then a else if i == 1 then b else if i == 2 then c else d
    }
  }

  /** The octet whose only one is bit `k`. */
  function OneBit(k: nat): bv8
    requires k < 8
  {
    if k == 0 then 1 else if k == 1 then 2 else if k == 2 then 4 else if k == 3 then 8
    else if k == 4 then 16 else if k == 5 then 32 else if k == 6 then 64 else 128
  }

  predicate Bit(x: bv8, k: nat)
    requires k < 8
  {
    x & OneBit(k) != 0
  }

  /** Two addresses carry the same bit wherever the mask has a one. */
  predicate AgreeUnder(mask: Ip, x: Ip, y: Ip) {
    forall i, k :: 0 <= i < 4 && 0 <= k < 8 && Bit(mask.Octet(i), k) ==>
                     Bit(x.Octet(i), k) == Bit(y.Octet(i), k)
  }

  predicate OctetsAgree(m: bv8, x: bv8, y: bv8) {
    forall k :: 0 <= k < 8 && Bit(m, k) ==> Bit(x, k) == Bit(y, k)
  }

  lemma BitsDecide(m: bv8, x: bv8, y: bv8)
    requires m & 1 != 0 ==> (x & 1 != 0) == (y & 1 != 0)
    requires m & 2 != 0 ==> (x & 2 != 0) == (y & 2 != 0)
    requires m & 4 != 0 ==> (x & 4 != 0) == (y & 4 != 0)
    requires m & 8 != 0 ==> (x & 8 != 0) == (y & 8 != 0)
    requires m & 16 != 0 ==> (x & 16 != 0) == (y & 16 != 0)
    requires m & 32 != 0 ==> (x & 32 != 0) == (y & 32 != 0)
    requires m & 64 != 0 ==> (x & 64 != 0) == (y & 64 != 0)
    requires m & 128 != 0 ==> (x & 128 != 0) == (y & 128 != 0)
    ensures x & m == y & m
  {}

  lemma MaskedBit(m: bv8, x: bv8, y: bv8, one: bv8)
    requires x & m == y & m
    ensures (x & one) & m == (y & one) & m
  {}

  lemma OneBitSeparates(m: bv8, x: bv8, k: nat)
    requires k < 8 && m & OneBit(k) != 0
    ensures (x & OneBit(k)) & m == x & OneBit(k)
  {}

  lemma MaskedOctet(m: bv8, x: bv8, y: bv8)
    ensures x & m == y & m <==> OctetsAgree(m, x, y)
  {
    if x & m == y & m {
      forall k | 0 <= k < 8 && Bit(m, k)
        ensures Bit(x, k) == Bit(y, k)
      {
        MaskedBit(m, x, y, OneBit(k));
        OneBitSeparates(m, x, k);
        OneBitSeparates(m, y, k);
      }
    } else if OctetsAgree(m, x, y) {
      AgreeingOctets(m, x, y);
    }
  }

  lemma AgreeingBit(m: bv8, x: bv8, y: bv8, k: nat, one: bv8)
    requires OctetsAgree(m, x, y) && k < 8 && one == OneBit(k)
    ensures m & one != 0 ==> (x & one != 0) == (y & one != 0)
  {
    assert Bit(m, k) ==> Bit(x, k) == Bit(y, k);
  }

  lemma AgreeingOctets(m: bv8, x: bv8, y: bv8)
    requires OctetsAgree(m, x, y)
    ensures x & m == y & m
  {
    AgreeingBit(m, x, y, 0, 1);
    AgreeingBit(m, x, y, 1, 2);
    AgreeingBit(m, x, y, 2, 4);
    AgreeingBit(m, x, y, 3, 8);
    AgreeingBit(m, x, y, 4, 16);
    AgreeingBit(m, x, y, 5, 32);
    AgreeingBit(m, x, y, 6, 64);
    AgreeingBit(m, x, y, 7, 128);
    BitsDecide(m, x, y);
  }

  /** Masking both addresses gives the same word exactly when they agree on every bit of the mask. */
  lemma MaskedEqual(mask: Ip, x: Ip, y: Ip)
    ensures x.And(mask) == y.And(mask) <==> AgreeUnder(mask, x, y)
  {
    MaskedOctet(mask.a, x.a, y.a);
    MaskedOctet(mask.b, x.b, y.b);
    MaskedOctet(mask.c, x.c, y.c);
    MaskedOctet(mask.d, x.d, y.d);
    if AgreeUnder(mask, x, y) {
      forall i | 0 <= i < 4
        ensures OctetsAgree(mask.Octet(i), x.Octet(i), y.Octet(i))
      {
        forall k | 0 <= k < 8 && Bit(mask.Octet(i), k)
          ensures Bit(x.Octet(i), k) == Bit(y.Octet(i), k)
        {}
      }
      assert OctetsAgree(mask.Octet(0), x.Octet(0), y.Octet(0));
      assert OctetsAgree(mask.Octet(1), x.Octet(1), y.Octet(1));
      assert OctetsAgree(mask.Octet(2), x.Octet(2), y.Octet(2));
      assert OctetsAgree(mask.Octet(3), x.Octet(3), y.Octet(3));
    }
  }
}
