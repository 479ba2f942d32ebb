/** The command line of the client: `strstrip` and `validate_command` of client/pipe.c. */
module Commands {
  import opened Common

  const TABLE: seq<string> :=
    ["up", "down", "force", "unforce", "block", "unblock", "quit", "delayed-quit", "reset"]

  /** `isspace` in the C locale. */
  predicate IsSpace(c: char) {
    c == ' ' || '\t' <= c <= '\r'
  }

  predicate IsInWord(c: char) { !IsSpace(c) }

  /** The text up to the first white space. */
  function Word(s: string): string {
    s[..Run(IsInWord, s)]
  }

  /** The first entry of the table that the word starts with, or nothing. */
  function Validate(table: seq<string>, s: string): string {
    if table == [] then ""
    else if StartsIgnoringCase(Word(s), table[0]) then table[0]
    else Validate(table[1..], s)
  }

  // ---- the two routines on the command buffer ----------------------------------------------

  /** A buffer with a NUL at position `n`, after `n` characters that are none. */
  predicate Holds(buf: string, text: string) {
    |text| < |buf| && buf[..|text|] == text && buf[|text|] == NUL && All(IsInText, text)
  }

  lemma HoldsText(buf: string, text: string)
    requires Holds(buf, text)
    ensures Text(buf) == text && NulTerminated(buf, 0)
  {}

  lemma TextHolds(buf: string)
    requires NulTerminated(buf, 0)
    ensures Holds(buf, Text(buf))
  {}

  method Strstrip(line: array<char>)
    requires NulTerminated(line[..], 0)
    modifies line
    ensures Holds(line[..], Word(Text(old(line[..]))))
  {
    ghost var text := Text(line[..]);
    TextHolds(line[..]);
    var len := Strlen(line);
    var i := 0;
    while i < len && !IsSpace(line[i])
      invariant 0 <= i <= len
      invariant forall j :: 0 <= j < i ==> IsInWord(text[j])
    {
      assert text[i] == line[i];
      i := i + 1;
    }
    assert i < len ==> text[i] == line[i];
    RunIs(IsInWord, text, i);
    line[i] := NUL;
  }

  method Strlen(line: array<char>) returns (len: nat)
    requires NulTerminated(line[..], 0)
    ensures len == |Text(line[..])| < line.Length
  {
    ghost var buf := line[..];
    TextHolds(buf);
    len := 0;
    while line[len] != NUL
      invariant len <= |Text(buf)|
      invariant forall j :: 0 <= j < len ==> IsInText(buf[j])
      decreases |Text(buf)| - len
    {
      assert line[len] == buf[len];
      len := len + 1;
    }
    assert line[len] == buf[len];
    RunIs(IsInText, buf, len);
  }

  method Strcpy(dst: array<char>, src: string)
    requires |src| < dst.Length && All(IsInText, src)
    modifies dst
    ensures Holds(dst[..], src)
  {
    for i := 0 to |src|
      invariant dst[..i] == src[..i]
    {
      dst[i] := src[i];
    }
    dst[|src|] := NUL;
  }

  method ValidateCommand(command: array<char>)
    requires NulTerminated(command[..], 0)
    modifies command
    ensures Text(command[..]) == Validate(TABLE, Text(old(command[..])))
  {
    ghost var text := Text(command[..]);
    var i := 0;
    while i < |TABLE|
      invariant 0 <= i <= |TABLE|
      invariant NulTerminated(command[..], 0) && Word(Text(command[..])) == Word(text)
      invariant i > 0 ==> Holds(command[..], Word(text))
      invariant Validate(TABLE[i..], text) == Validate(TABLE, text)
    {
      Strstrip(command);
      HoldsText(command[..], Word(text));
      WordOfWord(text);
      var len := Strlen(command);
      if StartsIgnoringCase(command[..len], TABLE[i]) {
        break;
      }
      assert TABLE[i..][1..] == TABLE[i + 1..];
      i := i + 1;
    }
    if i == |TABLE| {
      Strcpy(command, "");
      HoldsText(command[..], "");
    } else {
      TableIsText(i);
      Strcpy(command, TABLE[i]);
      HoldsText(command[..], TABLE[i]);
    }
  }

  // ---- properties --------------------------------------------------------------------------

  lemma WordOfWord(s: string)
    ensures Word(Word(s)) == Word(s)
  {}

  predicate IsCommandChar(c: char) { 'a' <= c <= 'z' || c == '-' }

  lemma TableChars(i: nat)
    requires i < |TABLE|
    ensures All(IsCommandChar, TABLE[i]) && TABLE[i] != ""
  {}

  lemma TableIsText(i: nat)
    requires i < |TABLE|
    ensures All(IsInText, TABLE[i]) && Word(TABLE[i]) == TABLE[i] && TABLE[i] != ""
  {
    TableChars(i);
    var e := TABLE[i];
    assert forall k :: 0 <= k < |e| ==> IsCommandChar(e[k]) && IsInWord(e[k]);
    RunIs(IsInWord, e, |e|);
  }

  /** Neither string starts with the other, whatever the case. */
  predicate Apart(a: string, b: string) {
    exists k :: 0 <= k < |a| && k < |b| && Lower(a[k]) != Lower(b[k])
  }

  /** No two entries of the table start alike. */
  predicate PrefixFree(table: seq<string>) {
    forall i, j :: 0 <= i < |table| && 0 <= j < |table| && table[i] != table[j] ==> Apart(table[i], table[j])
  }

  lemma ApartBy(a: string, b: string, k: nat)
    requires k < |a| && k < |b| && Lower(a[k]) != Lower(b[k])
    ensures Apart(a, b)
  {}

  lemma TableStarts(i: nat)
    requires i < |TABLE|
    ensures |TABLE[i]| >= 2
    ensures Lower(TABLE[i][0]) == "udfubuqdr"[i] && Lower(TABLE[i][1]) == "poonlnuee"[i]
  {}

  lemma TableIsPrefixFree()
    ensures PrefixFree(TABLE)
  {
    forall i, j | 0 <= i < |TABLE| && 0 <= j < |TABLE| && i != j
      ensures Apart(TABLE[i], TABLE[j])
    {
      EntriesPart(i, j);
    }
  }

  lemma EntriesPart(i: nat, j: nat)
    requires i < |TABLE| && j < |TABLE| && i != j
    ensures Apart(TABLE[i], TABLE[j])
  {
    TableStarts(i);
    TableStarts(j);
    if "udfubuqdr"[i] != "udfubuqdr"[j] {
      ApartBy(TABLE[i], TABLE[j], 0);
    } else if "poonlnuee"[i] != "poonlnuee"[j] {
      ApartBy(TABLE[i], TABLE[j], 1);
    } else {
      ApartBy(TABLE[i], TABLE[j], 2);
    }
  }

  /** A word that parts from every entry is refused. */
  lemma NoneStarts(table: seq<string>, s: string)
    requires forall i :: 0 <= i < |table| ==> Apart(Word(s), table[i])
    ensures Validate(table, s) == ""
  {}

  lemma OnlyOneStarts(w: string, a: string, b: string)
    requires StartsIgnoringCase(w, a) && StartsIgnoringCase(w, b)
    ensures !Apart(a, b)
  {}

  lemma {:induction false} ValidateFinds(table: seq<string>, s: string)
    ensures var r := Validate(table, s);
            if exists e :: e in table && StartsIgnoringCase(Word(s), e)
            then r in table && StartsIgnoringCase(Word(s), r) else r == ""
  {
    if table != [] && !StartsIgnoringCase(Word(s), table[0]) {
      ValidateFinds(table[1..], s);
      assert forall e :: e in table <==> e == table[0] || e in table[1..];
    }
  }

  /**
   * In a prefix-free table the answer is an entry exactly when the typed word starts with that
   * entry, whatever the case: at most one entry qualifies, wherever it stands.
   */
  lemma ValidateMeaning(table: seq<string>, s: string, e: string)
    requires PrefixFree(table) && e in table && "" !in table
    ensures Validate(table, s) == e <==> Begins(Word(s), e)
  {
    ValidateFinds(table, s);
    PrefixMeaning(Word(s), e);
    if StartsIgnoringCase(Word(s), e) {
      var r := Validate(table, s);
      assert r in table;
      var i :| 0 <= i < |table| && table[i] == r;
      var j :| 0 <= j < |table| && table[j] == e;
      OnlyOneStarts(Word(s), r, e);
    }
  }

  /** The order of the table does not matter. */
  lemma ValidateIgnoresOrder(table: seq<string>, other: seq<string>, s: string)
    requires PrefixFree(table) && "" !in table
    requires forall e :: e in table <==> e in other
    ensures Validate(table, s) == Validate(other, s)
  {
    ValidateFinds(table, s);
    ValidateFinds(other, s);
    if Validate(other, s) != "" {
      ValidateMeaning(table, s, Validate(other, s));
      PrefixMeaning(Word(s), Validate(other, s));
    }
  }

  lemma TableHasNoEmpty()
    ensures "" !in TABLE
  {}

  /** The result is empty or an entry, and validating it again changes nothing. */
  lemma ValidateIsIdempotent(s: string)
    ensures Validate(TABLE, s) == "" || Validate(TABLE, s) in TABLE
    ensures Validate(TABLE, Validate(TABLE, s)) == Validate(TABLE, s)
  {
    var r := Validate(TABLE, s);
    ValidateFinds(TABLE, s);
    TableIsPrefixFree();
    TableHasNoEmpty();
    if r == "" {
      ValidateFinds(TABLE, r);
    } else {
      var i :| 0 <= i < |TABLE| && TABLE[i] == r;
      TableIsText(i);
      PrefixMeaning(r, r);
      ValidateMeaning(TABLE, r, r);
    }
  }

  /** Blank, tab, newline, vertical tab, form feed or carriage return. */
  predicate IsWhite(c: char) {
    c == ' ' || c as int == 9 || c as int == 10 || c as int == 11 || c as int == 12 || c as int == 13
  }

  lemma {:induction false} SpellingIsAWord(i: nat, spelling: string)
    requires i < |TABLE| && Spells(spelling, TABLE[i])
    ensures All(IsInWord, spelling)
  {
    TableChars(i);
    forall k | 0 <= k < |spelling|
      ensures IsInWord(spelling[k])
    {
      assert SameLetter(spelling[k], TABLE[i][k]) && IsCommandChar(TABLE[i][k]);
    }
  }

  /** Any spelling of an entry, in capitals or not, followed by white space and anything at all, is that entry. */
  lemma {:induction false} EverySpellingIsAccepted(i: nat, spelling: string, space: char, rest: string)
    requires i < |TABLE| && Spells(spelling, TABLE[i]) && IsWhite(space)
    ensures Validate(TABLE, spelling + ([space] + rest)) == TABLE[i]
    ensures Validate(TABLE, spelling) == TABLE[i]
  {
    TableIsPrefixFree();
    TableHasNoEmpty();
    SpellingIsAWord(i, spelling);
    RunOf(IsInWord, spelling, [space] + rest);
    RunIs(IsInWord, spelling, |spelling|);
    assert spelling[..|spelling|] == spelling;
    ValidateMeaning(TABLE, spelling + ([space] + rest), TABLE[i]);
    ValidateMeaning(TABLE, spelling, TABLE[i]);
  }

  lemma HelpTextParts(i: nat)
    requires i < |TABLE|
    ensures Apart("delay-quit", TABLE[i])
  {
    ApartBy("delay-quit", TABLE[i], if i == 1 then 1 else if i == 7 then 5 else 0);
  }

  lemma HelpTextIsAWord()
    ensures Word("delay-quit") == "delay-quit"
  {
    RunIs(IsInWord, "delay-quit", 10);
  }

  /** The help screen offers a command that the table does not hold. */
  lemma {:induction false} HelpTextCommandIsRejected()
    ensures Validate(TABLE, "delay-quit") == ""
  {
    var s := "delay-quit";
    HelpTextIsAWord();
    forall i | 0 <= i < |TABLE|
      ensures Apart(s, TABLE[i])
    {
      HelpTextParts(i);
    }
    NoneStarts(TABLE, s);
  }
}
