/**
 * What `GetRecordWithTimeout` asks and returns: the `=domain` retry, the
 * referred hosts it follows and in which order, how their answers are
 * joined, and where referrals are looked for.
 */
module LookupProperties {
  import opened Wrappers
  import opened Strings
  import opened Whois

  // ---------------------------------------------------------------------
  // The referral scan
  // ---------------------------------------------------------------------

  /** `p` then `h` at index `j` of `s`, with `h` running to the end of its line. */
  predicate LineAt(s: string, p: string, h: string, j: int) {
    OccursAt(s, p + h, j)
    && (j + |p| + |h| == |s| || s[j + |p| + |h|] == '\n')
  }

  /** An occurrence in a suffix is an occurrence in the whole, shifted. */
  lemma OccursInSuffix(s: string, off: nat, p: string, j: int)
    requires off <= |s|
    requires OccursAt(s[off..], p, j)
    ensures OccursAt(s, p, off + j)
  {
    assert s[off + j..off + j + |p|] == s[off..][j..j + |p|];
  }

  /** An occurrence starts with the first character of what occurs. */
  lemma OccursHead(s: string, p: string, j: int)
    ensures OccursAt(s, p, j) && p != [] ==> s[j] == p[0]
  {
    if OccursAt(s, p, j) && p != [] {
      assert s[j..j + |p|][0] == s[j];
    }
  }

  /** A line of a suffix is a line of the whole. */
  lemma LineShift(s: string, off: nat, p: string, h: string, j: int)
    requires off <= |s|
    requires LineAt(s[off..], p, h, j)
    ensures LineAt(s, p, h, off + j)
  {
    var t := s[off..];
    OccursInSuffix(s, off, p + h, j);
    var e := j + |p| + |h|;
    assert e < |t| ==> s[off + e] == t[e];
  }

  /** At an occurrence of `p`, `p` and the rest of its line make a line. */
  lemma RestOfLine(s: string, p: string, i: int)
    requires OccursAt(s, p, i)
    ensures var rest := s[i + |p|..];
            LineAt(s, p, rest[..LineLength(rest)], i)
  {
    var m := |p|;
    var rest := s[i + m..];
    var n := LineLength(rest);
    var h := rest[..n];
    assert s[i + m..i + m + n] == h;
    assert s[i..i + m + n] == p + h;
    assert i + m + n == |s| || s[i + m + n] == rest[n];
  }

  /** Every group the scan reports is `p` and the rest of a line of `s`. */
  lemma {:induction false} FindLinesSound(s: string, p: string, k: nat)
    requires p != []
    requires k < |FindLines(s, p)|
    ensures exists j :: LineAt(s, p, FindLines(s, p)[k], j)
    decreases |s|
  {
    if s[..|p|] == p {
      var rest := s[|p|..];
      var n := LineLength(rest);
      if k == 0 {
        RestOfLine(s, p, 0);
        assert LineAt(s, p, FindLines(s, p)[0], 0);
      } else {
        var off := |p| + n;
        assert rest[n..] == s[off..];
        var tail := FindLines(s[off..], p);
        assert FindLines(s, p)[k] == tail[k - 1];
        FindLinesSound(s[off..], p, k - 1);
        var j :| LineAt(s[off..], p, tail[k - 1], j);
        LineShift(s, off, p, tail[k - 1], j);
      }
    } else {
      assert FindLines(s, p) == FindLines(s[1..], p);
      FindLinesSound(s[1..], p, k);
      var h := FindLines(s[1..], p)[k];
      var j :| LineAt(s[1..], p, h, j);
      LineShift(s, 1, p, h, j);
    }
  }

  /** `p` at the front gives the rest of the first line as the first group. */
  lemma FindLinesFront(p: string, h: string, b: string)
    requires p != []
    requires '\n' !in h
    ensures FindLines(p + h + "\n" + b, p) == [h] + FindLines("\n" + b, p)
  {
    var s := p + h + "\n" + b;
    var m := |p|;
    assert s[..m] == p;
    var rest := s[m..];
    assert rest == h + ("\n" + b);
    assert LineLength(rest) == |h| by {
      LineLengthOf(h, "\n" + b);
    }
    assert rest[..|h|] == h && rest[|h|..] == "\n" + b;
  }

  /** A prefix in which no `p` begins adds no group. */
  lemma {:induction false} FindLinesSkip(a: string, s: string, p: string)
    requires p != []
    requires forall j :: 0 <= j < |a| ==> !OccursAt(a + s, p, j)
    ensures FindLines(a + s, p) == FindLines(s, p)
    decreases |a|
  {
    if a == [] {
      assert a + s == s;
    } else {
      var t := a + s;
      assert !OccursAt(t, p, 0);
      assert t[1..] == a[1..] + s;
      if |t| < |p| {
        assert FindLines(t, p) == [] == FindLines(s, p);
        return;
      }
      assert FindLines(t, p) == FindLines(t[1..], p);
      forall j | 0 <= j < |a[1..]|
        ensures !OccursAt(a[1..] + s, p, j)
      {
        assert !OccursAt(t, p, j + 1);
        if OccursAt(a[1..] + s, p, j) {
          OccursInSuffix(t, 1, p, j);
        }
      }
      FindLinesSkip(a[1..], s, p);
    }
  }

  /** The first group is the rest of the line at the first `p`, as `strings.Index` finds it. */
  lemma FirstLine(s: string, p: string)
    requires p != []
    requires IndexOf(s, p) >= 0
    ensures FindLines(s, p) != []
    ensures LineAt(s, p, FindLines(s, p)[0], IndexOf(s, p))
  {
    var i := IndexOf(s, p);
    IndexOfFirst(s, p);
    FirstLineAt(s, p, i);
  }

  /** When `p` first occurs at `i`, the first group is the rest of the line there. */
  lemma FirstLineAt(s: string, p: string, i: nat)
    requires p != [] && OccursAt(s, p, i)
    requires forall j :: 0 <= j < i ==> !OccursAt(s, p, j)
    ensures FindLines(s, p) != []
    ensures LineAt(s, p, FindLines(s, p)[0], i)
  {
    var t := s[i..];
    assert OccursAt(t, p, 0) by {
      assert t[..|p|] == s[i..i + |p|];
    }
    FindLinesFrom(s, p, i);
    FrontLine(t, p);
    LineShift(s, i, p, FindLines(t, p)[0], 0);
  }

  /** No `p` beginning before `i` means the groups are those found from `i` on. */
  lemma {:induction false} FindLinesFrom(s: string, p: string, i: nat)
    requires p != [] && i <= |s|
    requires forall j :: 0 <= j < i ==> !OccursAt(s, p, j)
    ensures FindLines(s, p) == FindLines(s[i..], p)
    decreases i
  {
    if i > 0 {
      assert !OccursAt(s, p, 0);
      if |s| < |p| {
        assert FindLines(s[i..], p) == [];
      } else {
        assert FindLines(s, p) == FindLines(s[1..], p);
        forall j | 0 <= j < i - 1
          ensures !OccursAt(s[1..], p, j)
        {
          OccursTail(s, p, j + 1);
        }
        FindLinesFrom(s[1..], p, i - 1);
        assert s[1..][i - 1..] == s[i..];
      }
    }
  }

  /** At a text starting with `p`, the first group is the rest of that line. */
  lemma FrontLine(t: string, p: string)
    requires p != [] && OccursAt(t, p, 0)
    ensures FindLines(t, p) != []
    ensures LineAt(t, p, FindLines(t, p)[0], 0)
  {
    assert t[..|p|] == p;
    RestOfLine(t, p, 0);
  }

  /** Some group is reported exactly when `p` occurs in the text. */
  lemma {:induction false} FindLinesEmpty(s: string, p: string)
    requires p != []
    ensures FindLines(s, p) == [] <==> forall j :: !OccursAt(s, p, j)
    decreases |s|
  {
    if |s| < |p| {
    } else if s[..|p|] == p {
      assert OccursAt(s, p, 0);
    } else {
      assert FindLines(s, p) == FindLines(s[1..], p);
      FindLinesEmpty(s[1..], p);
      if FindLines(s, p) == [] {
        forall j
          ensures !OccursAt(s, p, j)
        {
          if j >= 1 {
            OccursTail(s, p, j);
          }
        }
      } else {
        var j :| OccursAt(s[1..], p, j);
        OccursInSuffix(s, 1, p, j);
      }
    }
  }

  /** A group never spans lines. */
  lemma {:induction false} FindLinesOneLine(s: string, p: string, k: nat)
    requires p != []
    requires k < |FindLines(s, p)|
    ensures '\n' !in FindLines(s, p)[k]
    decreases |s|
  {
    if s[..|p|] == p {
      var rest := s[|p|..];
      var n := LineLength(rest);
      if k == 0 {
        LineLengthStops(rest);
      } else {
        FindLinesOneLine(rest[n..], p, k - 1);
      }
    } else {
      FindLinesOneLine(s[1..], p, k);
    }
  }

  /**
   * Referrals are looked for from the first `Domain Name: ` on: `Whois
   * Server: ` lines before it are not followed.
   */
  lemma ReferralsFromDomainName(a: string, b: string)
    requires forall j :: 0 <= j < |a| ==> !OccursAt(a + DomainNameMarker + b, DomainNameMarker, j)
    ensures Referrals(a + DomainNameMarker + b) == FindLines(b, ServerMarker)
  {
    var p := a + DomainNameMarker + b;
    assert ReferralStart(p) == |a| by {
      IndexOfFirst(p, DomainNameMarker);
      assert p[|a|..|a| + |DomainNameMarker|] == DomainNameMarker;
      assert OccursAt(p, DomainNameMarker, |a|);
    }
    assert p[|a|..] == DomainNameMarker + b;
    NoServerInMarker(b);
    FindLinesSkip(DomainNameMarker, b, ServerMarker);
  }

  /** No `Whois Server: ` begins inside a leading `Domain Name: `. */
  lemma NoServerInMarker(b: string)
    ensures forall j :: 0 <= j < |DomainNameMarker| ==> !OccursAt(DomainNameMarker + b, ServerMarker, j)
  {
    forall j | 0 <= j < |DomainNameMarker|
      ensures !OccursAt(DomainNameMarker + b, ServerMarker, j)
    {
      assert (DomainNameMarker + b)[j] == DomainNameMarker[j] != 'W';
      OccursHead(DomainNameMarker + b, ServerMarker, j);
    }
  }

  /** Without a `Domain Name: ` the whole primary response is scanned. */
  lemma ReferralsWithoutDomainName(primary: string)
    requires !Contains(primary, DomainNameMarker)
    ensures Referrals(primary) == FindLines(primary, ServerMarker)
  {
    assert primary[0..] == primary;
  }

  // ---------------------------------------------------------------------
  // The secondary responses
  // ---------------------------------------------------------------------

  /** Answers of consecutive runs of hosts are joined in order. */
  lemma {:induction false} SecondariesAppend(a: seq<string>, b: seq<string>, domain: string, timeout: Duration, env: Env)
    ensures Secondaries(a + b, domain, timeout, env)
            == Secondaries(a, domain, timeout, env) + Secondaries(b, domain, timeout, env)
    decreases |b|
  {
    if b == [] {
      assert a + b == a;
    } else {
      var b' := b[..|b| - 1];
      assert (a + b)[..|a + b| - 1] == a + b';
      assert (a + b)[|a + b| - 1] == b[|b| - 1];
      SecondariesAppend(a, b', domain, timeout, env);
    }
  }

  /** When no followed host answers, nothing is appended. */
  lemma {:induction false} SecondariesAllFail(hosts: seq<string>, domain: string, timeout: Duration, env: Env)
    requires forall h :: h in hosts && Followed(h) ==> Exchange(env, h, domain, timeout).None?
    ensures Secondaries(hosts, domain, timeout, env) == []
  {
    if hosts != [] {
      assert forall h :: h in hosts[..|hosts| - 1] ==> h in hosts;
      SecondariesAllFail(hosts[..|hosts| - 1], domain, timeout, env);
    }
  }

  // ---------------------------------------------------------------------
  // The lookup as a whole
  // ---------------------------------------------------------------------

  /** Without a server nothing is sent: the error comes back with empty text. */
  lemma ServerFailure(domain: string, timeout: Duration, env: Env)
    requires GetServer(domain, env).Failure?
    ensures Lookup(domain, timeout, env) == Outcome("", Some(GetServer(domain, env).error))
    ensures Trace(domain, timeout, env) == []
  {
  }

  /**
   * The first request is the plain query to the chosen server; a second
   * request `=domain` goes to that server exactly when the first response
   * contains "To single out one record", and never any other time.
   */
  lemma SingleOutRetry(domain: string, timeout: Duration, env: Env)
    requires GetServer(domain, env).Success?
    ensures var server := GetServer(domain, env).value;
            var t := Trace(domain, timeout, env);
            |t| >= 1 && t[0] == Query(server, domain)
            && ((|t| >= 2 && t[1] == Query(server, "=" + domain))
                <==> Contains(FirstText(domain, server, timeout, env), SingleOutMarker))
            && forall k :: 0 <= k < |t| && t[k].query == "=" + domain ==> k == 1
  {
    var server := GetServer(domain, env).value;
    var f := FollowedHosts(Referrals(PrimaryText(domain, server, timeout, env)));
    TraceParts(domain, timeout, env);
    PlainQueries(f, domain);
    RetryOnlySecond(server, domain, Contains(FirstText(domain, server, timeout, env), SingleOutMarker),
                    QueriesFor(f, domain));
  }

  /** Every referral request asks for the plain domain. */
  lemma PlainQueries(f: seq<string>, domain: string)
    ensures forall k :: 0 <= k < |QueriesFor(f, domain)| ==> QueriesFor(f, domain)[k].query == domain
  {
    QueriesForEach(f, domain);
  }

  /**
   * The plain query, the `=domain` query when `retry` holds, then requests
   * for the plain domain: `=domain` is asked second exactly when `retry`
   * holds, and nowhere else.
   */
  lemma RetryOnlySecond(server: string, domain: string, retry: bool, rq: seq<Query>)
    requires forall k :: 0 <= k < |rq| ==> rq[k].query == domain
    ensures var t := [Query(server, domain)] + (if retry then [Query(server, "=" + domain)] else []) + rq;
            |t| >= 1 && t[0] == Query(server, domain)
            && ((|t| >= 2 && t[1] == Query(server, "=" + domain)) <==> retry)
            && forall k :: 0 <= k < |t| && t[k].query == "=" + domain ==> k == 1
  {
    var pq := [Query(server, domain)] + (if retry then [Query(server, "=" + domain)] else []);
    var t := pq + rq;
    assert |domain| != |"=" + domain|;
    forall k | |pq| <= k < |t|
      ensures t[k].query == domain
    {
      assert t[k] == rq[k - |pq|];
    }
  }

  /**
   * After the primary requests come the referred hosts named from
   * `searchIndex` on that are followed, each asked for the plain domain, in
   * the order the scan found them (which hosts are followed is
   * `FollowedHostsFilter`).
   */
  lemma ReferralsFollowed(domain: string, timeout: Duration, env: Env)
    requires GetServer(domain, env).Success?
    ensures var server := GetServer(domain, env).value;
            var pq := PrimaryQueries(domain, server, timeout, env);
            var f := FollowedHosts(Referrals(PrimaryText(domain, server, timeout, env)));
            var t := Trace(domain, timeout, env);
            forall k :: 0 <= k < |f| ==> t[|pq| + k] == Query(f[k], domain)
  {
    var server := GetServer(domain, env).value;
    var pq := PrimaryQueries(domain, server, timeout, env);
    var f := FollowedHosts(Referrals(PrimaryText(domain, server, timeout, env)));
    var t := Trace(domain, timeout, env);
    assert t == pq + QueriesFor(f, domain) by {
      TraceParts(domain, timeout, env);
    }
    QueriesAfter(t, pq, f, domain);
  }

  /** The trace starts with the primary requests and holds one more request per followed host. */
  lemma TraceLength(domain: string, timeout: Duration, env: Env)
    requires GetServer(domain, env).Success?
    ensures var server := GetServer(domain, env).value;
            var pq := PrimaryQueries(domain, server, timeout, env);
            var f := FollowedHosts(Referrals(PrimaryText(domain, server, timeout, env)));
            var t := Trace(domain, timeout, env);
            t[..|pq|] == pq && |t| == |pq| + |f|
  {
    var server := GetServer(domain, env).value;
    var pq := PrimaryQueries(domain, server, timeout, env);
    var f := FollowedHosts(Referrals(PrimaryText(domain, server, timeout, env)));
    var t := Trace(domain, timeout, env);
    assert t == pq + QueriesFor(f, domain) by {
      TraceParts(domain, timeout, env);
    }
    QueriesAfter(t, pq, f, domain);
  }

  /** After a server is found, the trace is the primary requests and then the referral requests. */
  lemma TraceParts(domain: string, timeout: Duration, env: Env)
    requires GetServer(domain, env).Success?
    ensures var server := GetServer(domain, env).value;
            Trace(domain, timeout, env)
            == PrimaryQueries(domain, server, timeout, env)
               + QueriesFor(FollowedHosts(Referrals(PrimaryText(domain, server, timeout, env))), domain)
  {
  }

  /** Queries appended after `pq` sit at `|pq|` on, in order. */
  lemma QueriesAfter(t: seq<Query>, pq: seq<Query>, f: seq<string>, domain: string)
    requires t == pq + QueriesFor(f, domain)
    ensures t[..|pq|] == pq && |t| == |pq| + |f|
    ensures forall k :: 0 <= k < |f| ==> t[|pq| + k] == Query(f[k], domain)
  {
    assert t[..|pq|] == pq;
    QueriesForEach(f, domain);
  }

  /** A failed primary exchange gives empty text and no error, and nothing more is asked. */
  lemma PrimaryFailure(domain: string, timeout: Duration, env: Env)
    requires GetServer(domain, env).Success?
    requires Exchange(env, GetServer(domain, env).value, domain, timeout).None?
    ensures Lookup(domain, timeout, env) == Outcome("", None)
    ensures Trace(domain, timeout, env) == [Query(GetServer(domain, env).value, domain)]
  {
    var server := GetServer(domain, env).value;
    assert FirstText(domain, server, timeout, env) == [];
    assert !Contains([], SingleOutMarker);
    assert PrimaryText(domain, server, timeout, env) == [];
    assert !Contains([], ServerMarker);
    assert Referrals([]) == [];
  }

  /**
   * When the first response asks to single out one record, the response to
   * `=domain` takes its place: the result is that response followed by what
   * the hosts it refers to add, and the referral scan runs over it.
   */
  lemma SingleOutReplaces(domain: string, timeout: Duration, env: Env)
    requires GetServer(domain, env).Success?
    requires Contains(FirstText(domain, GetServer(domain, env).value, timeout, env), SingleOutMarker)
    ensures var server := GetServer(domain, env).value;
            var retry := TextOf(Exchange(env, server, "=" + domain, timeout));
            Lookup(domain, timeout, env) == Outcome(retry + Secondaries(Referrals(retry), domain, timeout, env), None)
            && Trace(domain, timeout, env)
               == [Query(server, domain), Query(server, "=" + domain)] + QueriesFor(FollowedHosts(Referrals(retry)), domain)
  {
  }

  /** A failed `=domain` retry gives empty text and no error, and nothing more is asked. */
  lemma SingleOutRetryFails(domain: string, timeout: Duration, env: Env)
    requires GetServer(domain, env).Success?
    requires Contains(FirstText(domain, GetServer(domain, env).value, timeout, env), SingleOutMarker)
    requires Exchange(env, GetServer(domain, env).value, "=" + domain, timeout).None?
    ensures Lookup(domain, timeout, env) == Outcome("", None)
    ensures var server := GetServer(domain, env).value;
            Trace(domain, timeout, env) == [Query(server, domain), Query(server, "=" + domain)]
  {
    var server := GetServer(domain, env).value;
    assert PrimaryText(domain, server, timeout, env) == [];
    assert !Contains([], ServerMarker);
    assert Referrals([]) == [];
  }

  /** When no followed referral answers, the result is the primary response unchanged. */
  lemma ReferralsAllFail(domain: string, timeout: Duration, env: Env)
    requires GetServer(domain, env).Success?
    requires var primary := PrimaryText(domain, GetServer(domain, env).value, timeout, env);
             forall h :: h in Referrals(primary) && Followed(h) ==> Exchange(env, h, domain, timeout).None?
    ensures Lookup(domain, timeout, env)
            == Outcome(PrimaryText(domain, GetServer(domain, env).value, timeout, env), None)
  {
    var primary := PrimaryText(domain, GetServer(domain, env).value, timeout, env);
    SecondariesAllFail(Referrals(primary), domain, timeout, env);
  }

  /**
   * A primary response naming one referred host: its answer is appended
   * when it is longer than one character and answers, and otherwise the
   * primary response is the result.
   */
  lemma OneReferral(domain: string, timeout: Duration, env: Env, h: string)
    requires GetServer(domain, env).Success?
    requires Referrals(PrimaryText(domain, GetServer(domain, env).value, timeout, env)) == [h]
    ensures var primary := PrimaryText(domain, GetServer(domain, env).value, timeout, env);
            var answer := Exchange(env, h, domain, timeout);
            Lookup(domain, timeout, env).text
            == if |h| > 1 && answer.Some? then primary + answer.value else primary
  {
    var primary := PrimaryText(domain, GetServer(domain, env).value, timeout, env);
    assert [h][..0] == [];
    assert Secondaries([h], domain, timeout, env) == Secondary(h, domain, timeout, env);
    assert Lookup(domain, timeout, env).text == primary + Secondary(h, domain, timeout, env);
  }

  // ---------------------------------------------------------------------
  // Availability
  // ---------------------------------------------------------------------

  /** "no match for" in any letter case anywhere in the response means available. */
  lemma NoMatchAnyCase(domain: string, a: string, m: string, b: string)
    requires |m| == |NoMatchMarker|
    requires forall k :: 0 <= k < |m| ==> UpperChar(m[k]) == NoMatchMarker[k]
    ensures IsAvailableFromWhois(domain, a + m + b)
  {
    var t := a + m + b;
    forall k | 0 <= k < |m|
      ensures UpperChar(t[|a| + k]) == NoMatchMarker[k]
    {
      assert t[|a| + k] == m[k];
    }
    assert UpperOccursAt(t, NoMatchMarker, |a|);
  }
}
