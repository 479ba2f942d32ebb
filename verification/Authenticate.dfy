/** The access list of server/authenticate.c: who may write to the control FIFO. */
module Authenticate {
  import opened Common

  /** One configured line: the three arguments of `auth_add`. */
  datatype Conf = Conf(userid: string, ip: Ip, netmask: Ip)

  /** What `auth_add` keeps of a configured line: the address is masked once, on insertion. */
  function Stored(c: Conf): Conf {
    c.(ip := c.ip.And(c.netmask))
  }

  /** The list `aq` after `auth_add` was called on `confs` in order: every new entry goes in front. */
  function Added(confs: seq<Conf>): seq<Conf> {
    if confs == [] then [] else [Stored(confs[|confs| - 1])] + Added(confs[..|confs| - 1])
  }

  predicate Matches(e: Conf, userid: string, ip: Ip) {
    SameIgnoringCase(e.userid, userid) && ip.And(e.netmask) == e.ip
  }

  /** What `auth_check` does: it answers, or it compares the null pointer of a port without ident. */
  datatype Verdict = Granted | Denied | NullDereference

  /** The search of `auth_check`, entry by entry. */
  function Search(aq: seq<Conf>, userid: Option<string>, ip: Ip): Verdict {
    if aq == [] then Denied
    else if userid.None? then NullDereference
    else if Matches(aq[0], userid.value, ip) then Granted
    else Search(aq[1..], userid, ip)
  }

  /** The list grants the user; a port without ident has no user id and is never granted. */
  predicate Check(aq: seq<Conf>, userid: Option<string>, ip: Ip) {
    userid.Some? && exists e :: e in aq && Matches(e, userid.value, ip)
  }

  /**
   * The search grants exactly what the list grants, and it dereferences the null pointer exactly
   * for a port without ident when the list has an entry.
   */
  lemma {:induction false} SearchMeaning(aq: seq<Conf>, userid: Option<string>, ip: Ip)
    ensures Search(aq, userid, ip).Granted? <==> Check(aq, userid, ip)
    ensures Search(aq, userid, ip).NullDereference? <==> userid.None? && aq != []
  {
    if aq == [] || userid.None? {
    } else {
      SearchMeaning(aq[1..], userid, ip);
      assert aq[0] in aq;
      assert forall e :: e in aq <==> e == aq[0] || e in aq[1..];
    }
  }

  /** A configured line grants a user at an address. */
  predicate Grants(c: Conf, userid: string, ip: Ip) {
    Spells(userid, c.userid) && AgreeUnder(c.netmask, c.ip, ip)
  }

  lemma {:induction false} AddedElements(confs: seq<Conf>)
    ensures forall e :: e in Added(confs) <==> exists c :: c in confs && e == Stored(c)
  {
    if confs == [] {
    } else {
      var rest, last := confs[..|confs| - 1], confs[|confs| - 1];
      AddedElements(rest);
      assert confs == rest + [last];
    }
  }

  lemma StoredMatches(c: Conf, userid: string, ip: Ip)
    ensures Matches(Stored(c), userid, ip) <==> Grants(c, userid, ip)
  {
    CaseMeaning(c.userid, userid);
    MaskedEqual(c.netmask, c.ip, ip);
  }

  /**
   * `auth_check` says yes exactly when some configured line names the user, ignoring case, and
   * agrees with the address on every bit of its netmask.
   */
  lemma CheckMeaning(confs: seq<Conf>, userid: string, ip: Ip)
    ensures Check(Added(confs), Some(userid), ip) <==>
            exists c :: c in confs && Grants(c, userid, ip)
  {
    AddedElements(confs);
    forall c | c in confs
      ensures Stored(c) in Added(confs)
      ensures Matches(Stored(c), userid, ip) <==> Grants(c, userid, ip)
    {
      StoredMatches(c, userid, ip);
    }
  }

  /** Neither the order of the configured lines nor repeated lines change any answer. */
  lemma CheckIgnoresOrder(confs: seq<Conf>, other: seq<Conf>, userid: Option<string>, ip: Ip)
    requires forall c :: c in confs <==> c in other
    ensures Check(Added(confs), userid, ip) == Check(Added(other), userid, ip)
  {
    if userid.Some? {
      CheckMeaning(confs, userid.value, ip);
      CheckMeaning(other, userid.value, ip);
    }
  }

  /** More configured lines never take a right away. */
  lemma CheckMonotone(confs: seq<Conf>, more: seq<Conf>, userid: Option<string>, ip: Ip)
    requires forall c :: c in confs ==> c in more
    requires Check(Added(confs), userid, ip)
    ensures Check(Added(more), userid, ip)
  {
    CheckMeaning(confs, userid.value, ip);
    CheckMeaning(more, userid.value, ip);
  }

  /** The global list `aq` with its insertion, search and teardown. */
  class AccessList {
    var aq: seq<Conf>

    constructor ()
      ensures aq == []
    {
      aq := [];
    }

    method AuthAdd(userid: string, ip: Ip, netmask: Ip)
      modifies this
      ensures aq == [Stored(Conf(userid, ip, netmask))] + old(aq)
    {
      aq := [Conf(userid, ip.And(netmask), netmask)] + aq;
    }

    method AuthCheck(userid: Option<string>, ip: Ip) returns (verdict: Verdict)
      ensures verdict == Search(aq, userid, ip)
    {
      var curr := 0;
      while curr < |aq|
        invariant curr <= |aq|
        invariant Search(aq[curr..], userid, ip) == Search(aq, userid, ip)
      {
        if userid.None? {
          return NullDereference;
        }
        if SameIgnoringCase(aq[curr].userid, userid.value) {
          var ipcheck := ip.And(aq[curr].netmask);
          if ipcheck == aq[curr].ip {
            return Granted;
          }
        }
        assert aq[curr..][1..] == aq[curr + 1..];
        curr := curr + 1;
      }
      verdict := Denied;
    }

    /** The first half of `reread_conf`: forget every entry. */
    method Clear()
      modifies this
      ensures aq == []
    {
      while aq != []
        decreases |aq|
      {
        aq := aq[1..];
      }
    }

    /** The `auth_add` actions of one parse, in order. */
    method AddAll(confs: seq<Conf>)
      requires aq == []
      modifies this
      ensures aq == Added(confs)
    {
      var i := 0;
      while i < |confs|
        invariant i <= |confs|
        invariant aq == Added(confs[..i])
      {
        AuthAdd(confs[i].userid, confs[i].ip, confs[i].netmask);
        assert confs[..i + 1][..i] == confs[..i];
        i := i + 1;
      }
      assert confs[..i] == confs;
    }
  }
}
