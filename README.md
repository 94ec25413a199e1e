# WHOIS client core, in Dafny

A model of the Go package `whois` (file `whois.go`). It covers:

- how the client chooses the WHOIS server for a domain (`getServer`);
- how it fetches a record (`GetRecordWithTimeout`, `GetRecord`). This includes the `=domain` retry on
  "To single out one record" and the walk over the `Whois Server:` referrals found after the first
  `Domain Name: `;
- the availability test (`IsAvailable`, `IsAvailableFromWhois`);
- how a raw response becomes a key/value map (`ConvertRecord`).

Modules:

- `Wrappers`: `Option` and `Result`.
- `Strings`: the parts of Go's `strings` package the core calls. These are `TrimSpace`, `Trim`,
  `Replace(s, c, "", -1)`, `Count`, `Index`, `Contains` and `ToUpper`, on ASCII text. Each comes with
  lemmas that say what it computes.
- `RecordParser`: the record pattern `(?mi:^\s?([\w\s\/]*)\:(.*)$)`, written as a scanner (`Scan`).
  It also holds the normalisation of the two groups (`NormalizeKey`, `NormalizeValue`), the
  acceptance filter (`Accepted`) and the map built from the matches (`Fields`). A later match
  overwrites an earlier one with the same key.
- `Convert`: the loop of `ConvertRecord`, proved equal to `Fields`.
- `RecordLines`: what typical response lines turn into.
- `Whois`: `getServer`, `getWhoisResult` and `GetRecordWithTimeout`, together with the functions of
  the environment that specify them (`GetServer`, `Lookup`, `Trace`), and the availability test.
- `LookupProperties`: lemmas about the lookup as a whole and about the referral scan.

The outside world is a value of type `Whois.Env`, made of three functions:

- the public-suffix database (`zonedb.PublicZone`);
- the host part of `url.Parse`;
- one TCP exchange with port 43 of a host, which returns the bytes read or `None` on a dial or read
  error.

`GetRecordWithTimeout` also returns, as ghost output, the sequence of requests it sends (`Trace`).
Properties about which servers are asked, and in what order, are stated over that sequence.

The model follows the code where it differs from what one might expect:

- After a server is found, the error of `getWhoisResult` is never returned. A failed primary
  exchange gives empty text and no error (`LookupProperties.PrimaryFailure`, and
  `LookupProperties.SingleOutRetryFails` for a failed `=domain` retry).
- A referred host is the rest of its line. It can keep a trailing `\r`, and it is followed only when
  it is longer than one character.
- `IsAvailable` reports `true` together with the error when the lookup fails.
- The key group of the record pattern can run across lines that have no colon, because `\s` matches
  `\n`. The `\n` is then removed, which joins the pieces (`RecordLines.JoinedKey`).

## Model

| member | source | states |
|---|---|---|
| Convert.ConvertRecord | whois.go:15-27 | the map the loop builds is `Fields(result)`: the matches of the pattern, normalised, filtered, later ones overriding earlier ones; every stored pair passes the filter of line 22 |
| RecordParser.FieldsWellFormed | whois.go:19-25 | every key of the result has more than two characters, fewer than five spaces, no `\n` or `:`, and no leading or trailing white space; every value is non-empty, trimmed and free of `\n` |
| RecordParser.RecordKeys | whois.go:19-25 | a key is in the map exactly when some match normalises to it and is accepted |
| RecordParser.RecordLastWins | whois.go:19-25 | the value of a key in the map comes from the last accepted match that normalises to that key |
| RecordParser.FoldLastWins | whois.go:19-25 | the same last-wins statement for any prefix of the entries the loop has processed |
| RecordParser.FoldWellFormed | whois.go:22-23 | only accepted pairs are ever stored, so the map keeps the well-formedness invariant |
| RecordParser.FoldNext | whois.go:22-24 | one more match extends the map by its pair exactly when the filter accepts it |
| RecordParser.EntryWellFormed | whois.go:20-22 | a pair produced from a match of the pattern and accepted by the filter is well formed |
| RecordParser.EntriesAt | whois.go:19-22 | the entry for the `i`-th match is the normalisation of that match |
| RecordParser.ScanCaptures | whois.go:17-18 | no match has `:` in its key group or `\n` in its value group |
| RecordParser.StepCapture | whois.go:17-18 | the same for the one match found at a line start |
| RecordParser.KeyRunChars | whois.go:17 | the key run is made of `[\w\s\/]` characters and cannot be extended |
| RecordParser.MatchStep | whois.go:17-18 | at a line `k:v`, with `k` made of key characters, the match has key group `k` (without one leading `\s`) and value `v`, and the search resumes at the next line |
| RecordParser.ScanMatchLine | whois.go:17-18 | a `k:v` line followed by more text gives that match and then the matches of the rest |
| RecordParser.ScanMatchLastLine | whois.go:17-18 | a final `k:v` line without a newline gives exactly its match |
| RecordParser.ScanSkipLine | whois.go:17-18 | a line whose key run ends at a character other than `:` gives no match, and the search resumes at the next line |
| RecordParser.ScanNoColon | whois.go:17-18 | a text without `:` has no match |
| RecordParser.FieldsMatchLine | whois.go:17-25 | the map of a `k:v` line followed by more text is that line's entry, overridden by the map of the rest |
| RecordParser.FieldsMatchLastLine | whois.go:17-25 | the map of a final `k:v` line is its entry alone |
| RecordParser.FieldsSkipLine | whois.go:17-25 | a line that is not a match adds nothing to the map |
| RecordParser.FieldsNoColon | whois.go:17-25 | a text without `:` gives the empty map |
| RecordParser.RecordPrepend | whois.go:19-25 | one match in front of others: its entry overridden by the map of the rest |
| RecordParser.FoldPrepend | whois.go:19-25 | folding an entry in front of others is that entry overridden by the rest |
| RecordParser.EntriesPrepend | whois.go:19-22 | the entries of a match in front of others are its entry in front of theirs |
| RecordParser.EntryOfPlainLine | whois.go:20-24 | a trimmed colon-free key and a `: value` part give the pair exactly when the filter accepts it |
| RecordParser.NormalizeKeyChars | whois.go:21 | the normalised key has no `\n` and holds only characters of the key group |
| RecordParser.NormalizeValueChars | whois.go:20 | the normalised value has no `\n` |
| RecordParser.NormalizeKeyUnchanged | whois.go:21 | a key that is already trimmed and free of `\n` and `:` is left as it is |
| RecordParser.NormalizeValueAfterSpace | whois.go:20 | the space after the colon is removed from a trimmed single-line value, and nothing else is |
| RecordParser.NormalizeKey | whois.go:21 | the normalised key has no leading or trailing white space |
| RecordParser.NormalizeValue | whois.go:20 | the normalised value has no leading or trailing white space |
| RecordLines.PlainLine | whois.go:15-27 | `key: value` followed by more text gives the pair when the filter accepts it, overridden by the map of the text after it |
| RecordLines.TwoPlainLines | whois.go:15-27 | two accepted lines give both pairs, the second winning on a shared key |
| RecordLines.RepeatedKey | whois.go:23 | a key given twice keeps its last value |
| RecordLines.NormalizeJoined | whois.go:21 | a `\n` inside a key group is removed, which joins the pieces around it |
| RecordLines.SameEntry | whois.go:20-24 | two matches with the same normalised key and the same value group give the same entry |
| RecordLines.JoinedKey | whois.go:17-21 | a colon-free line running into the key of the next line gives the same map as the two lines written as one |
| Strings.TrimSpace | whois.go:20-21 | the result of `strings.TrimSpace` has no leading or trailing ASCII white space |
| Strings.TrimSlice | whois.go:21 | `strings.Trim` returns the slice of its input between the cut characters stripped from both ends |
| Strings.TrimDropsTrailing | whois.go:21 | everything after the slice `strings.Trim` keeps is a cut character |
| Strings.TrimEnds | whois.go:21 | a non-empty result of `strings.Trim` neither starts nor ends with a cut character |
| Strings.TrimKeeps | whois.go:21 | `strings.Trim` leaves unchanged a string that neither starts nor ends with a cut character |
| Strings.TrimOneLeading | whois.go:20 | trimming removes a single leading cut character in front of a string that is already trimmed |
| Strings.LeadingCutChars | whois.go:21 | the leading run that is cut consists of cut characters and cannot be extended |
| Strings.TrailingCutChars | whois.go:21 | the same for the trailing run |
| Strings.RemoveChars | whois.go:20-21 | `strings.Replace(s, "\n", "", -1)` keeps exactly the characters other than `\n`, and returns `s` unchanged when `s` has no `\n` |
| Strings.RemoveAppend | whois.go:20-21 | removal distributes over concatenation |
| Strings.RemoveSkip | whois.go:21 | removing `x` drops an `x` placed between two strings |
| Strings.CountCharOccurrences | whois.go:22 | `strings.Count(key, " ")` is the number of spaces in the key |
| Strings.LineLength | whois.go:17 | the rest of a line ends at the first `\n`, or at the end of the text |
| Strings.LineLengthStops | whois.go:17 | no `\n` lies inside the rest of a line |
| Strings.LineLengthOf | whois.go:17 | a string without `\n`, followed by a `\n` or by nothing, is exactly the rest of the line |
| Strings.IndexOfFirst | whois.go:60 | `strings.Index` is -1 exactly when the pattern never occurs; otherwise it is the first occurrence |
| Strings.OccursTail | whois.go:60 | an occurrence after the first character is an occurrence in the tail, shifted by one |
| Strings.ContainsOccurs | whois.go:54 | `strings.Contains` holds exactly when the pattern occurs somewhere |
| Strings.ToUpper | whois.go:38 | `strings.ToUpper` on ASCII text keeps the length, leaves no lower-case letter, turns each lower-case letter into the matching capital and leaves every other character unchanged |
| Whois.NoDot | whois.go:100 | `strings.Index(domain, ".") < 0` holds exactly when the domain has no dot |
| Whois.GetServer | whois.go:99-117 | IANA's server for a name without a dot; otherwise an error naming the domain when no public zone exists, else the zone's WHOIS server, else the non-empty host of its WHOIS URL, else an error naming the domain; a server found is never empty |
| Whois.ReferralStart | whois.go:60-63 | `searchIndex` is the first `Domain Name: ` when there is one, and 0 otherwise |
| Whois.FollowedHostsFilter | whois.go:68-69 | the hosts asked are exactly those among the named ones with more than one character |
| Whois.QueriesForEach | whois.go:69-70 | the `k`-th referral request asks the `k`-th followed host for the plain domain |
| Whois.SecondariesStep | whois.go:68-75 | each further referred host can only add its answer at the end of the text built so far, primary response included |
| Whois.QueriesStep | whois.go:68-75 | each further referred host adds a request exactly when it is followed |
| Whois.Lookup | whois.go:45-79 | the lookup fails exactly when `getServer` does, with its error and empty text; otherwise it has no error and its text starts with the primary response |
| Whois.GetRecordWithTimeout | whois.go:45-79 | the text and error are `Lookup`, and the requests sent are `Trace` |
| Whois.AppendReferrals | whois.go:66-77 | the loop appends the answers of the followed referred hosts to the primary response, in the order found, and sends one request to each of those hosts |
| Whois.AskReferral | whois.go:69-74 | one pass appends a host's answer only when the host is longer than one character and answers, and sends a request only in the first case |
| Whois.GetRecord | whois.go:41-43 | the lookup with the five-second timeout |
| Whois.UpperOccurs | whois.go:38 | an occurrence in the upper-cased text is an occurrence in the original text, ignoring letter case |
| Whois.IsAvailableFromWhois | whois.go:37-39 | true exactly when "NO MATCH FOR" occurs in the response, ignoring letter case; the domain is not used |
| Whois.IsAvailable | whois.go:29-35 | a failed lookup means available and returns its error; otherwise no error, and the answer of `IsAvailableFromWhois` on the text |
| LookupProperties.ServerFailure | whois.go:47-50 | when `getServer` fails, nothing is sent, and the error comes back with empty text |
| LookupProperties.SingleOutRetry | whois.go:52-57 | the first request is the plain query to the chosen server; an `=domain` request is the second one exactly when the first response contains "To single out one record", and no other request is `=domain` |
| LookupProperties.RetryOnlySecond | whois.go:52-70 | in a request list made of the plain query, the `=domain` query when retrying, and plain referral queries, only the second request can be `=domain`, and it is exactly when retrying |
| LookupProperties.PlainQueries | whois.go:70 | every referral request asks for the plain domain |
| LookupProperties.SingleOutReplaces | whois.go:52-75 | after "To single out one record", the retry's response replaces the first one: the result text starts with it, the referral scan runs over it, and the requests are the two primary ones followed by one per host it refers to |
| LookupProperties.SingleOutRetryFails | whois.go:54-57 | after "To single out one record", a failed `=domain` exchange gives empty text with no error, and only the two primary requests are sent |
| LookupProperties.PrimaryFailure | whois.go:52-79 | when the primary exchange fails, the result is empty text with no error, and only one request is sent |
| LookupProperties.TraceLength | whois.go:52-75 | the primary requests come first, followed by exactly one request per followed referred host |
| LookupProperties.TraceParts | whois.go:52-75 | after a server is found, the requests are the primary ones followed by the referral ones |
| LookupProperties.QueriesAfter | whois.go:68-75 | the referral requests sit after the primary ones, in the order of the hosts |
| LookupProperties.ReferralsFollowed | whois.go:59-75 | after the primary requests, each followed host named from `searchIndex` on is asked once for the plain domain, in the order found |
| LookupProperties.ReferralsAllFail | whois.go:66-77 | when no followed referred host answers, the result is the primary response unchanged |
| LookupProperties.OneReferral | whois.go:66-77 | with one referred host, its answer is appended exactly when it is longer than one character and answers |
| LookupProperties.SecondariesAppend | whois.go:68-75 | the answers of two runs of hosts are joined in order |
| LookupProperties.SecondariesAllFail | whois.go:70-73 | hosts that do not answer add nothing |
| LookupProperties.FindLinesSound | whois.go:59-64 | every host found is `Whois Server: ` followed by the rest of a line of the scanned text |
| LookupProperties.FindLinesOneLine | whois.go:59-64 | a host found never spans lines |
| LookupProperties.FindLinesEmpty | whois.go:59-64 | no host is found exactly when `Whois Server: ` does not occur |
| LookupProperties.FirstLine | whois.go:59-64 | the first host found is the rest of the line at the first `Whois Server: ` |
| LookupProperties.FirstLineAt | whois.go:59-64 | when `Whois Server: ` first occurs at position `i`, a host is found, and the first one is the rest of the line at `i` |
| LookupProperties.FindLinesFrom | whois.go:59-64 | a prefix in which no `Whois Server: ` begins can be dropped without changing the hosts found |
| LookupProperties.FrontLine | whois.go:59-64 | a text starting with `Whois Server: ` gives the rest of its first line as the first host |
| LookupProperties.FindLinesFront | whois.go:59-64 | `Whois Server: h` on its own line gives `h` first, followed by the hosts of the text after it |
| LookupProperties.FindLinesSkip | whois.go:59-64 | a prefix in which no `Whois Server: ` begins adds no host |
| LookupProperties.ReferralsFromDomainName | whois.go:60-64 | the scan for referrals starts at the first `Domain Name: `, so earlier `Whois Server:` lines are ignored |
| LookupProperties.NoServerInMarker | whois.go:59-60 | no `Whois Server: ` begins inside a leading `Domain Name: ` |
| LookupProperties.ReferralsWithoutDomainName | whois.go:60-64 | without a `Domain Name: `, the whole primary response is scanned |
| LookupProperties.LineShift | whois.go:64 | a line of a suffix is a line of the whole text, shifted |
| LookupProperties.RestOfLine | whois.go:59 | an occurrence of the marker and the rest of its line make a line |
| LookupProperties.OccursInSuffix | whois.go:64 | an occurrence in a suffix is an occurrence in the whole text, shifted |
| LookupProperties.OccursHead | whois.go:59 | an occurrence starts with the first character of the marker |
| LookupProperties.NoMatchAnyCase | whois.go:37-39 | "no match for" in any letter case anywhere in the response means available |

## Left out

- Network I/O is a parameter, not modelled. This covers `net.DialTimeout`, `net.JoinHostPort(server, "43")`, the write of the query line, `ioutil.ReadAll` and `defer connection.Close()`. `Env.exchange` receives the host, the request line (the query followed by CR LF) and the timeout, and returns the bytes read or `None`. The model does not say what happens when the write fails or a read returns only part of the data.
- `zonedb.PublicZone` and `url.Parse` are functions of `Env`, not modelled. So are the data of the public-suffix database.
- `time.Duration` is a signed 64-bit count of nanoseconds (`Whois.Duration`). The model only passes the timeout on to the exchange. What a zero or negative timeout does to the dial is up to the exchange, and time passing is not modelled.
- Go's regular expression engine is not modelled. The two patterns are written as scanners (`RecordParser.Scan`, `Whois.FindLines`) that return the matches leftmost first, with no overlap.
- Unicode is not modelled. `\w`, `\s`, `strings.TrimSpace` and `strings.ToUpper` are modelled on ASCII only. In particular, under `(?i)` Go's `\w` class also matches the Kelvin sign U+212A and the long s U+017F, and the model does not.
- Bytes and UTF-8 are left out: text is a sequence of characters, with no decoding of invalid bytes.
- Strings.ToUpper: only ASCII letters change. Go's `strings.ToUpper` also upper-cases non-ASCII letters, and the model does not.
- Whois.FindLines: a referral host is the raw rest of its line. Like the code, it keeps any trailing `\r`; the model does not say what the exchange does with such a host.
- Concurrency and the lifetime of connections are left out.
