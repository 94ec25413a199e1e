/**
 * The lookup side of the WHOIS client: choosing the server for a domain,
 * fetching its record (with the `=domain` retry and the referrals the
 * record names) and the availability test on the text that comes back.
 *
 * The outside world enters as an `Env`: the public-suffix database, the URL
 * parser and the TCP exchange with a WHOIS server are functions handed to
 * the model, not modelled themselves.
 */
module Whois {
  import opened Wrappers
  import opened Strings

  /** `time.Duration`: a signed 64-bit count of nanoseconds. */
  newtype Duration = x: int | -0x8000_0000_0000_0000 <= x < 0x8000_0000_0000_0000

  /** What the public-suffix database knows of a zone. */
  datatype Zone = Zone(whoisServer: string, whoisURL: string)

  /** The two errors of `getServer`; each names the domain. */
  datatype LookupError = NoPublicZone(domain: string) | NoWhoisServer(domain: string)

  /**
   * The world outside the client:
   *   - `publicZone` is `zonedb.PublicZone`, `None` standing for nil;
   *   - `urlHost` is the `Host` of `url.Parse`, `None` when parsing fails;
   *   - `exchange(host, request, timeout)` is one TCP exchange with port 43
   *     of `host`: the bytes read back, or `None` when dialing or reading
   *     fails.
   */
  datatype Env = Env(
    publicZone: string -> Option<Zone>,
    urlHost: string -> Option<string>,
    exchange: (string, string, Duration) -> Option<string>)

  /** One request the client sends: the server and the query line's text. */
  datatype Query = Query(host: string, query: string)

  /** What `GetRecordWithTimeout` returns: the text and the error, if any. */
  datatype Outcome = Outcome(text: string, err: Option<LookupError>)

  /** The server asked for a name without a dot (a top-level domain). */
  const IanaServer := "whois.iana.org"

  /** The timeout `GetRecord` passes: five seconds, in nanoseconds as `time.Duration` counts. */
  const DefaultTimeout: Duration := 5_000_000_000

  /** A primary response holding this asks for the query to be narrowed with `=`. */
  const SingleOutMarker := "To single out one record"

  /** Referrals are looked for from the first occurrence of this. */
  const DomainNameMarker := "Domain Name: "

  /** The literal part of the referral pattern `Whois Server: (.*)`. */
  const ServerMarker := "Whois Server: "

  /** What `IsAvailableFromWhois` looks for, in upper case. */
  const NoMatchMarker := "NO MATCH FOR"

  // ---------------------------------------------------------------------
  // getServer
  // ---------------------------------------------------------------------

  /** `strings.Index(domain, ".") < 0` holds exactly for names without a dot. */
  lemma NoDot(domain: string)
    ensures IndexOf(domain, ".") < 0 <==> '.' !in domain
  {
    IndexOfFirst(domain, ".");
    if '.' in domain {
      var j :| 0 <= j < |domain| && domain[j] == '.';
      assert domain[j..j + 1] == ".";
      assert OccursAt(domain, ".", j);
    } else {
      forall j | 0 <= j && j + 1 <= |domain|
        ensures !OccursAt(domain, ".", j)
      {
        assert domain[j..j + 1][0] == domain[j];
      }
    }
  }

  /**
   * `getServer`: IANA for a name without a dot; otherwise the zone's WHOIS
   * server, else the host of its WHOIS URL, else an error.
   */
  function GetServer(domain: string, env: Env): (r: Result<string, LookupError>)
    ensures '.' !in domain ==> r == Success(IanaServer)
    ensures '.' in domain && env.publicZone(domain).None? ==> r == Failure(NoPublicZone(domain))
    ensures '.' in domain && env.publicZone(domain).Some? ==>
              var z := env.publicZone(domain).value;
              if z.whoisServer != [] then r == Success(z.whoisServer)
              else if env.urlHost(z.whoisURL).Some? && env.urlHost(z.whoisURL).value != []
              then r == Success(env.urlHost(z.whoisURL).value)
              else r == Failure(NoWhoisServer(domain))
    ensures r.Success? ==> r.value != []
    ensures r.Failure? ==> '.' in domain && r.error.domain == domain
  {
    NoDot(domain);
    if IndexOf(domain, ".") < 0 then Success(IanaServer)
    else
      match env.publicZone(domain)
      case None => Failure(NoPublicZone(domain))
      case Some(z) =>
        if z.whoisServer != "" then Success(z.whoisServer)
        else
          match env.urlHost(z.whoisURL)
          case Some(h) => if h != "" then Success(h) else Failure(NoWhoisServer(domain))
          case None => Failure(NoWhoisServer(domain))
  }

  // ---------------------------------------------------------------------
  // getWhoisResult
  // ---------------------------------------------------------------------

  /** `getWhoisResult`: the request line is the query and CR LF; `None` is a non-nil error. */
  function Exchange(env: Env, host: string, query: string, timeout: Duration): Option<string> {
    env.exchange(host, query + "\r\n", timeout)
  }

  /** The string `getWhoisResult` returns beside its error: empty on failure. */
  function TextOf(o: Option<string>): string {
    if o.Some? then o.value else ""
  }

  // ---------------------------------------------------------------------
  // GetRecordWithTimeout, as functions of the environment
  // ---------------------------------------------------------------------

  /** The response to the plain query. */
  function FirstText(domain: string, server: string, timeout: Duration, env: Env): string {
    TextOf(Exchange(env, server, domain, timeout))
  }

  /**
   * `primaryWhois` after whois.go:53-58: the response to `domain`, replaced
   * by the response to `=domain` when it asks to single out one record.
   */
  function PrimaryText(domain: string, server: string, timeout: Duration, env: Env): string {
    var first := FirstText(domain, server, timeout, env);
    if Contains(first, SingleOutMarker) then TextOf(Exchange(env, server, "=" + domain, timeout)) else first
  }

  /** The requests whois.go:53-58 sends to the primary server. */
  function PrimaryQueries(domain: string, server: string, timeout: Duration, env: Env): seq<Query> {
    [Query(server, domain)]
    + if Contains(FirstText(domain, server, timeout, env), SingleOutMarker) then [Query(server, "=" + domain)] else []
  }

  /** `searchIndex`: the first `Domain Name: `, or 0 when there is none. */
  function ReferralStart(primary: string): (i: nat)
    ensures i <= |primary|
    ensures Contains(primary, DomainNameMarker) ==>
              OccursAt(primary, DomainNameMarker, i)
              && forall j :: 0 <= j < i ==> !OccursAt(primary, DomainNameMarker, j)
    ensures !Contains(primary, DomainNameMarker) ==> i == 0
  {
    IndexOfFirst(primary, DomainNameMarker);
    var i := IndexOf(primary, DomainNameMarker);
    if i < 0 then 0 else i
  }

  /**
   * `FindAllStringSubmatch` of the pattern `p(.*)`, `p` holding no
   * metacharacter: the group of each match, leftmost first. `.` stops at
   * `\n`, so a group is the rest of its line and the next match is sought
   * after it.
   */
  function FindLines(s: string, p: string): seq<string>
    requires p != []
    decreases |s|
  {
    if |s| < |p| then []
    else if s[..|p|] == p then
      var rest := s[|p|..];
      var n := LineLength(rest);
      [rest[..n]] + FindLines(rest[n..], p)
    else FindLines(s[1..], p)
  }

  /** The hosts named by `Whois Server: (.*)` in the primary response, from `searchIndex` on. */
  function Referrals(primary: string): seq<string> {
    FindLines(primary[ReferralStart(primary)..], ServerMarker)
  }

  /** The loop asks a referred host only when `len(servers[1]) > 1`. */
  predicate Followed(h: string) {
    |h| > 1
  }

  /** The referred hosts the loop asks, in order (see `FollowedHostsFilter`). */
  function FollowedHosts(hosts: seq<string>): seq<string> {
    if hosts == [] then []
    else
      var init := hosts[..|hosts| - 1];
      var last := hosts[|hosts| - 1];
      FollowedHosts(init) + if Followed(last) then [last] else []
  }

  /** The hosts asked are exactly the followed ones among those named. */
  lemma {:induction false} FollowedHostsFilter(hosts: seq<string>)
    ensures forall k :: 0 <= k < |FollowedHosts(hosts)| ==> FollowedHosts(hosts)[k] in hosts && Followed(FollowedHosts(hosts)[k])
    ensures forall h :: h in hosts && Followed(h) ==> h in FollowedHosts(hosts)
  {
    if hosts != [] {
      var init := hosts[..|hosts| - 1];
      var last := hosts[|hosts| - 1];
      assert hosts == init + [last];
      FollowedHostsFilter(init);
    }
  }

  /** One plain query for `domain` to each host (see `QueriesForEach`). */
  function QueriesFor(hosts: seq<string>, domain: string): (r: seq<Query>)
    ensures |r| == |hosts|
  {
    if hosts == [] then [] else QueriesFor(hosts[..|hosts| - 1], domain) + [Query(hosts[|hosts| - 1], domain)]
  }

  /** The `k`-th query goes to the `k`-th host. */
  lemma {:induction false} QueriesForEach(hosts: seq<string>, domain: string)
    ensures forall k :: 0 <= k < |hosts| ==> QueriesFor(hosts, domain)[k] == Query(hosts[k], domain)
  {
    if hosts != [] {
      QueriesForEach(hosts[..|hosts| - 1], domain);
    }
  }

  /** What one referred host adds to `fullWhois`: its response when it was asked and answered. */
  function Secondary(h: string, domain: string, timeout: Duration, env: Env): string {
    if Followed(h) && Exchange(env, h, domain, timeout).Some? then Exchange(env, h, domain, timeout).value else ""
  }

  /** All that the referred hosts add, in match order. */
  function Secondaries(hosts: seq<string>, domain: string, timeout: Duration, env: Env): string {
    if hosts == [] then []
    else Secondaries(hosts[..|hosts| - 1], domain, timeout, env) + Secondary(hosts[|hosts| - 1], domain, timeout, env)
  }

  /** One more referred host: its response goes at the end of the text built so far. */
  lemma SecondariesStep(primary: string, hosts: seq<string>, i: nat, domain: string, timeout: Duration, env: Env)
    requires i < |hosts|
    ensures primary + Secondaries(hosts[..i + 1], domain, timeout, env)
            == primary + Secondaries(hosts[..i], domain, timeout, env) + Secondary(hosts[i], domain, timeout, env)
  {
    assert hosts[..i + 1][..i] == hosts[..i];
    var a := Secondaries(hosts[..i], domain, timeout, env);
    var b := Secondary(hosts[i], domain, timeout, env);
    assert primary + (a + b) == primary + a + b;
  }

  /** One more referred host: its query goes at the end when it is followed. */
  lemma QueriesStep(hosts: seq<string>, i: nat, domain: string)
    requires i < |hosts|
    ensures QueriesFor(FollowedHosts(hosts[..i + 1]), domain)
            == QueriesFor(FollowedHosts(hosts[..i]), domain)
               + if Followed(hosts[i]) then [Query(hosts[i], domain)] else []
  {
    assert hosts[..i + 1][..i] == hosts[..i];
    var f := FollowedHosts(hosts[..i]);
    if Followed(hosts[i]) {
      assert FollowedHosts(hosts[..i + 1]) == f + [hosts[i]];
      assert (f + [hosts[i]])[..|f|] == f;
    } else {
      assert FollowedHosts(hosts[..i + 1]) == f;
    }
  }

  /** The result of `GetRecordWithTimeout`. */
  function Lookup(domain: string, timeout: Duration, env: Env): (o: Outcome)
    ensures o.err.Some? <==> GetServer(domain, env).Failure?
    ensures o.err.Some? ==> o.err.value == GetServer(domain, env).error && o.text == []
    ensures GetServer(domain, env).Success? ==>
              var primary := PrimaryText(domain, GetServer(domain, env).value, timeout, env);
              primary <= o.text
  {
    match GetServer(domain, env)
    case Failure(e) => Outcome("", Some(e))
    case Success(server) =>
      var primary := PrimaryText(domain, server, timeout, env);
      Outcome(primary + Secondaries(Referrals(primary), domain, timeout, env), None)
  }

  /** The requests `GetRecordWithTimeout` sends, in order. */
  function Trace(domain: string, timeout: Duration, env: Env): seq<Query> {
    match GetServer(domain, env)
    case Failure(_) => []
    case Success(server) =>
      var primary := PrimaryText(domain, server, timeout, env);
      PrimaryQueries(domain, server, timeout, env) + QueriesFor(FollowedHosts(Referrals(primary)), domain)
  }

  // ---------------------------------------------------------------------
  // The Go functions that do the work
  // ---------------------------------------------------------------------

  /**
   * whois.go:45-79. `issued` records the requests in the order they are
   * sent.
   */
  method GetRecordWithTimeout(domain: string, timeout: Duration, env: Env)
    returns (text: string, err: Option<LookupError>, ghost issued: seq<Query>)
    ensures Outcome(text, err) == Lookup(domain, timeout, env)
    ensures issued == Trace(domain, timeout, env)
  {
    var server := GetServer(domain, env);
    if server.Failure? {
      return "", Some(server.error), [];
    }
    var primaryWhois := TextOf(Exchange(env, server.value, domain, timeout));
    issued := [Query(server.value, domain)];
    if Contains(primaryWhois, SingleOutMarker) {
      primaryWhois := TextOf(Exchange(env, server.value, "=" + domain, timeout));
      issued := issued + [Query(server.value, "=" + domain)];
    }
    assert primaryWhois == PrimaryText(domain, server.value, timeout, env);
    assert issued == PrimaryQueries(domain, server.value, timeout, env);
    var searchIndex := IndexOf(primaryWhois, DomainNameMarker);
    if searchIndex < 0 {
      searchIndex := 0;
    }
    var res := FindLines(primaryWhois[searchIndex..], ServerMarker);
    var fullWhois;
    ghost var more;
    fullWhois, more := AppendReferrals(primaryWhois, res, domain, timeout, env);
    issued := issued + more;
    text, err := fullWhois, None;
  }

  /**
   * The loop of whois.go:68-76: each referred host longer than one
   * character is asked, and its response appended when the exchange
   * succeeds.
   */
  method AppendReferrals(primaryWhois: string, res: seq<string>, domain: string, timeout: Duration, env: Env)
    returns (fullWhois: string, ghost issued: seq<Query>)
    ensures fullWhois == primaryWhois + Secondaries(res, domain, timeout, env)
    ensures issued == QueriesFor(FollowedHosts(res), domain)
  {
    fullWhois := primaryWhois;
    issued := [];
    assert res[..0] == [];
    for i := 0 to |res|
      invariant fullWhois == primaryWhois + Secondaries(res[..i], domain, timeout, env)
      invariant issued == QueriesFor(FollowedHosts(res[..i]), domain)
    {
      ghost var asked;
      fullWhois, asked := AskReferral(fullWhois, res[i], domain, timeout, env);
      issued := issued + asked;
      SecondariesStep(primaryWhois, res, i, domain, timeout, env);
      QueriesStep(res, i, domain);
    }
    assert res[..|res|] == res;
  }

  /**
   * whois.go:69-74, one pass of the loop: a host longer than one character
   * is asked, and its response appended when the exchange succeeds.
   */
  method AskReferral(fullWhois: string, host: string, domain: string, timeout: Duration, env: Env)
    returns (fullWhois': string, ghost asked: seq<Query>)
    ensures fullWhois' == fullWhois + Secondary(host, domain, timeout, env)
    ensures asked == if Followed(host) then [Query(host, domain)] else []
  {
    fullWhois', asked := fullWhois, [];
    if |host| > 1 {
      var secondaryWhois := Exchange(env, host, domain, timeout);
      asked := [Query(host, domain)];
      if secondaryWhois.Some? {
        fullWhois' := fullWhois + secondaryWhois.value;
      }
    }
  }

  /** whois.go:41-43: the same lookup with the default timeout. */
  method GetRecord(domain: string, env: Env) returns (text: string, err: Option<LookupError>)
    ensures Outcome(text, err) == Lookup(domain, DefaultTimeout, env)
  {
    ghost var issued;
    text, err, issued := GetRecordWithTimeout(domain, DefaultTimeout, env);
  }

  // ---------------------------------------------------------------------
  // Availability
  // ---------------------------------------------------------------------

  /** `p` occurs at `j` in `t` once `t` is upper-cased. */
  predicate UpperOccursAt(t: string, p: string, j: int) {
    0 <= j && j + |p| <= |t| && forall k :: 0 <= k < |p| ==> UpperChar(t[j + k]) == p[k]
  }

  lemma UpperOccurs(t: string, p: string, j: int)
    ensures OccursAt(ToUpper(t), p, j) <==> UpperOccursAt(t, p, j)
  {
    if 0 <= j && j + |p| <= |t| {
      var u := ToUpper(t)[j..j + |p|];
      assert forall k :: 0 <= k < |p| ==> u[k] == UpperChar(t[j + k]);
      if UpperOccursAt(t, p, j) {
        assert u == p;
      }
    }
  }

  /**
   * whois.go:37-39: the response says "no match for" in any letter case.
   * The domain is not consulted.
   */
  function IsAvailableFromWhois(domain: string, whoisResult: string): (r: bool)
    ensures r <==> exists j :: UpperOccursAt(whoisResult, NoMatchMarker, j)
  {
    forall j ensures OccursAt(ToUpper(whoisResult), NoMatchMarker, j) <==> UpperOccursAt(whoisResult, NoMatchMarker, j) {
      UpperOccurs(whoisResult, NoMatchMarker, j);
    }
    ContainsOccurs(ToUpper(whoisResult), NoMatchMarker);
    Contains(ToUpper(whoisResult), NoMatchMarker)
  }

  /**
   * whois.go:29-35: a failed lookup reports the domain as available, along
   * with the error; otherwise the answer of `IsAvailableFromWhois`.
   */
  method IsAvailable(domain: string, env: Env) returns (available: bool, err: Option<LookupError>)
    ensures err == Lookup(domain, DefaultTimeout, env).err
    ensures err.Some? ==> available
    ensures err.None? ==> (available <==> IsAvailableFromWhois(domain, Lookup(domain, DefaultTimeout, env).text))
  {
    var result;
    result, err := GetRecord(domain, env);
    if err.Some? {
      return true, err;
    }
    available := IsAvailableFromWhois(domain, result);
  }
}
