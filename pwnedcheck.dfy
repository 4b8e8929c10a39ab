/** The k-anonymity lookup against the "Have I Been Pwned" range service:
    fingerprint a credential with SHA-1, send only the first five digest
    characters, and look for the remaining 35 among the suffixes the
    service returns. */
module PwnedCheck {
  import opened Outcomes
  import opened PyValues
  import opened Hex
  import opened Decimal
  import opened Lines
  import opened OrderedDict

  /** A SHA-1 digest: 160 bits, 20 bytes. */
  type Sha1Bytes = b: seq<Byte> | |b| == 20 witness seq(20, i => 0)

  /** `hashlib.sha1(text.encode("UTF-8")).digest()`: foreign, so a parameter. */
  type Sha1 = string -> Sha1Bytes

  /** What a GET to the range service yields: a response with its status
      code and body text, or no connection at all. */
  datatype Reply = Response(statusCode: int, text: string) | Unreachable
  {
    /** `response.ok`: false exactly when `raise_for_status` would raise,
        that is for a client error (4xx) or a server error (5xx). */
    predicate Ok()
      requires Response?
    {
      !(400 <= statusCode < 600)
    }
  }

  /** The remote range service, as a map from requested URL to reply. */
  type Server = string -> Reply

  const RangeEndpoint := "https://api.pwnedpasswords.com/range/"
  const PrefixLength := 5

  /** 40 uppercase hexadecimal characters. */
  predicate IsDigest(d: string)
  {
    |d| == 40 && forall i :: 0 <= i < |d| ==> IsUpperHexChar(d[i])
  }

  /** `hashlib.sha1(text.encode("UTF-8")).hexdigest().upper()` */
  function Fingerprint(sha1: Sha1, text: string): (d: string)
    ensures IsDigest(d)
  {
    UpperHexShape(sha1(text));
    ToUpper(HexDigest(sha1(text)))
  }

  /** `hash_password_sha1`: a str is hashed as it is, an exact int as its
      decimal text; everything else (None, bool, float, ...) is refused. */
  function HashPasswordSha1(sha1: Sha1, password: PyValue): (r: Result<string>)
    ensures r.Ok? <==> password.PyStr? || password.PyInt?
    ensures r.Ok? ==> IsDigest(r.value)
    ensures r.Fail? ==> r.error == InvalidInputType
  {
    match password
    case PyStr(s) => Ok(Fingerprint(sha1, s))
    case PyInt(n) => Ok(Fingerprint(sha1, IntToDecimal(n)))
    case _ => Fail(InvalidInputType)
  }

  /** `password_hash[:5]` */
  function Prefix(d: string): (p: string)
    ensures |p| == if |d| <= PrefixLength then |d| else PrefixLength
  {
    if |d| <= PrefixLength then d else d[..PrefixLength]
  }

  /** `password_hash[5:]` */
  function Suffix(d: string): (s: string)
    ensures |s| == if |d| <= PrefixLength then 0 else |d| - PrefixLength
  {
    if |d| <= PrefixLength then "" else d[PrefixLength..]
  }

  /** The URL `return_hashlist_hibp` requests for a digest. */
  function RangeUrl(d: string): string
  {
    RangeEndpoint + Prefix(d)
  }

  /** What `return_hashlist_hibp` returns: the body of an OK response, or
      the error it raises. */
  function RangeBody(server: Server, d: string): Result<string>
  {
    match server(RangeUrl(d))
    case Unreachable => Fail(ConnectionFailure)
    case Response(code, text) => if server(RangeUrl(d)).Ok() then Ok(text) else Fail(RangeFetchError(code))
  }

  /** Some line of the body has `suffix` before its first colon. */
  predicate Listed(body: string, suffix: string)
  {
    exists i :: 0 <= i < |SplitLines(body)| && FirstField(SplitLines(body)[i]) == suffix
  }

  /** What `check_status` answers, or the error it raises. */
  function Status(sha1: Sha1, server: Server, password: PyValue): Result<bool>
  {
    match HashPasswordSha1(sha1, password)
    case Fail(e) => Fail(e)
    case Ok(d) =>
      match RangeBody(server, d)
      case Fail(e) => Fail(e)
      case Ok(body) => Ok(Listed(body, Suffix(d)))
  }

  /** The URLs `check_status` requests: one, unless hashing fails first. */
  function Queries(sha1: Sha1, password: PyValue): seq<string>
  {
    match HashPasswordSha1(sha1, password)
    case Fail(_) => []
    case Ok(d) => [RangeUrl(d)]
  }

  /** A request to the range service: the endpoint followed by five
      uppercase hex characters, and nothing else. */
  predicate IsRangeRequest(u: string)
  {
    |u| == |RangeEndpoint| + PrefixLength && u[..|RangeEndpoint|] == RangeEndpoint &&
    forall i :: |RangeEndpoint| <= i < |u| ==> IsUpperHexChar(u[i])
  }

  // ---------------------------------------------------------------------
  // Properties of the single lookup

  /** A digest is its prefix followed by its suffix; for a 40-character
      digest they have 5 and 35 characters. */
  lemma PrefixSuffixSplit(d: string)
    ensures Prefix(d) + Suffix(d) == d
    ensures |d| == 40 ==> |Prefix(d)| == 5 && |Suffix(d)| == 35
  {
  }

  /** The request carries the endpoint and the first five digest characters
      and nothing of the suffix: credentials whose digests share a prefix
      send the very same request. */
  lemma OnlyPrefixSent(sha1: Sha1, p1: PyValue, p2: PyValue)
    requires HashPasswordSha1(sha1, p1).Ok? && HashPasswordSha1(sha1, p2).Ok?
    requires HashPasswordSha1(sha1, p1).value[..5] == HashPasswordSha1(sha1, p2).value[..5]
    ensures Queries(sha1, p1) == Queries(sha1, p2)
    ensures Queries(sha1, p1) == [RangeEndpoint + HashPasswordSha1(sha1, p1).value[..5]]
    ensures |Queries(sha1, p1)[0]| == |RangeEndpoint| + 5
  {
  }

  /** Whatever the credential, the lookup requests nothing but a range
      request: neither the credential nor its full digest leaves the client. */
  lemma QueriesAreRangeRequests(sha1: Sha1, password: PyValue)
    ensures |Queries(sha1, password)| <= 1
    ensures forall u :: u in Queries(sha1, password) ==> IsRangeRequest(u)
  {
    var h := HashPasswordSha1(sha1, password);
    if h.Ok? {
      DigestUrlIsRangeRequest(h.value);
    }
  }

  lemma DigestUrlIsRangeRequest(d: string)
    requires IsDigest(d)
    ensures IsRangeRequest(RangeUrl(d))
  {
    var u := RangeUrl(d);
    assert u == RangeEndpoint + d[..PrefixLength];
    forall i | |RangeEndpoint| <= i < |u| ensures IsUpperHexChar(u[i]) {
      assert u[i] == d[i - |RangeEndpoint|];
    }
  }

  /** The answer depends on the remote service only through the replies to
      the requests sent. */
  lemma StatusDeterminedByReplies(sha1: Sha1, s1: Server, s2: Server, password: PyValue)
    requires forall u :: u in Queries(sha1, password) ==> s1(u) == s2(u)
    ensures Status(sha1, s1, password) == Status(sha1, s2, password)
  {
    match HashPasswordSha1(sha1, password) {
      case Fail(_) =>
      case Ok(d) =>
        assert RangeUrl(d) in Queries(sha1, password);
        assert RangeBody(s1, d) == RangeBody(s2, d);
    }
  }

  /** An int is checked exactly as its decimal text is (`check_status(123)`
      behaves as `check_status("123")`), and distinct ints are distinct texts. */
  lemma IntCheckedAsDecimalText(sha1: Sha1, server: Server, n: int, m: int)
    ensures Status(sha1, server, PyInt(n)) == Status(sha1, server, PyStr(IntToDecimal(n)))
    ensures Queries(sha1, PyInt(n)) == Queries(sha1, PyStr(IntToDecimal(n)))
    ensures IntToDecimal(n) == IntToDecimal(m) ==> n == m
  {
    if IntToDecimal(n) == IntToDecimal(m) {
      DecimalInjective(n, m);
    }
  }

  /** A value that is neither a str nor an exact int (None, True, False, an
      IntEnum member, a float, ...) is an error, never True or False, and is never sent. */
  lemma WrongTypeIsError(sha1: Sha1, server: Server, password: PyValue)
    requires !password.PyStr? && !password.PyInt?
    ensures Status(sha1, server, password) == Fail(InvalidInputType)
    ensures Queries(sha1, password) == []
  {
  }

  /** A failed fetch is an error, never "not pwned". */
  lemma FetchFailureIsError(sha1: Sha1, server: Server, password: PyValue)
    requires HashPasswordSha1(sha1, password).Ok?
    requires !server(RangeUrl(HashPasswordSha1(sha1, password).value)).Response?
      || !server(RangeUrl(HashPasswordSha1(sha1, password).value)).Ok()
    ensures Status(sha1, server, password).Fail?
    ensures server(RangeUrl(HashPasswordSha1(sha1, password).value)).Unreachable? ==>
      Status(sha1, server, password) == Fail(ConnectionFailure)
    ensures server(RangeUrl(HashPasswordSha1(sha1, password).value)).Response? ==>
      Status(sha1, server, password)
        == Fail(RangeFetchError(server(RangeUrl(HashPasswordSha1(sha1, password).value)).statusCode))
  {
  }

  /** One `SUFFIX:COUNT` record of a range response. */
  datatype RangeEntry = RangeEntry(suffix: string, count: nat)

  function EntryLine(e: RangeEntry): string
  {
    e.suffix + ":" + IntToDecimal(e.count)
  }

  function EntryLines(entries: seq<RangeEntry>): seq<string>
  {
    seq(|entries|, i requires 0 <= i < |entries| => EntryLine(entries[i]))
  }

  /** The response body for a list of entries, one record per line: each
      record ends in its own line break (LF, CR LF, ...), except that with
      `lastOpen` the last record has none. */
  function ResponseBody(entries: seq<RangeEntry>, breaks: seq<string>, lastOpen: bool): string
    requires |breaks| == |entries|
  {
    var lines := EntryLines(entries);
    if lastOpen && lines != [] then
      JoinWith(lines[..|lines| - 1], breaks[..|lines| - 1]) + lines[|lines| - 1]
    else JoinWith(lines, breaks)
  }

  predicate WellFormedEntry(e: RangeEntry)
  {
    ':' !in e.suffix && NoBoundary(e.suffix)
  }

  lemma DecimalHasNoBoundary(n: int)
    ensures NoBoundary(IntToDecimal(n))
  {
    var s := IntToDecimal(n);
    if n < 0 {
      forall i | 0 <= i < |s| ensures !IsLineBoundary(s[i]) {
        if i > 0 {
          assert s[i] == NatToDecimal(-n)[i - 1];
        }
      }
    }
  }

  /** Every record is a non-empty line without a boundary. */
  lemma EntryLinesShape(entries: seq<RangeEntry>)
    requires forall i :: 0 <= i < |entries| ==> WellFormedEntry(entries[i])
    ensures forall k :: 0 <= k < |entries| ==> EntryLines(entries)[k] != "" && NoBoundary(EntryLines(entries)[k])
  {
    var lines := EntryLines(entries);
    forall k | 0 <= k < |lines| ensures lines[k] != "" && NoBoundary(lines[k]) {
      var e := entries[k];
      DecimalHasNoBoundary(e.count);
      var dec := IntToDecimal(e.count);
      assert lines[k] == e.suffix + ":" + dec;
      forall j | 0 <= j < |lines[k]| ensures !IsLineBoundary(lines[k][j]) {
        if j > |e.suffix| {
          assert lines[k][j] == dec[j - |e.suffix| - 1];
        }
      }
    }
  }

  /** A well-formed response splits back into its records. */
  lemma SplitResponseBody(entries: seq<RangeEntry>, breaks: seq<string>, lastOpen: bool)
    requires |breaks| == |entries|
    requires forall i :: 0 <= i < |entries| ==> WellFormedEntry(entries[i]) && IsBreak(breaks[i])
    ensures SplitLines(ResponseBody(entries, breaks, lastOpen)) == EntryLines(entries)
  {
    EntryLinesShape(entries);
    SplitJoinRecords(EntryLines(entries), breaks, lastOpen);
  }

  /** On a well-formed response, the suffix is found exactly when the
      service returned it in one of its records, whatever line breaks
      separate the records and whether or not the last one is ended; an
      empty body lists nothing. */
  lemma ListedIffReturned(entries: seq<RangeEntry>, breaks: seq<string>, lastOpen: bool, suffix: string)
    requires |breaks| == |entries|
    requires forall i :: 0 <= i < |entries| ==> WellFormedEntry(entries[i]) && IsBreak(breaks[i])
    ensures Listed(ResponseBody(entries, breaks, lastOpen), suffix) <==>
            exists i :: 0 <= i < |entries| && entries[i].suffix == suffix
    ensures !Listed("", suffix)
  {
    var lines := EntryLines(entries);
    SplitResponseBody(entries, breaks, lastOpen);
    forall k | 0 <= k < |lines| ensures FirstField(lines[k]) == entries[k].suffix {
      FirstFieldOfRecord(entries[k].suffix, IntToDecimal(entries[k].count));
    }
  }

  // ---------------------------------------------------------------------
  // The network, and the imperative lookup

  /** The HTTP client: every GET is answered by the service and logged. */
  class RangeClient {
    const server: Server
    var sent: seq<string>

    constructor (server: Server)
      ensures this.server == server && sent == []
    {
      this.server := server;
      sent := [];
    }

    /** `requests.get(url)` */
    method Get(url: string) returns (reply: Reply)
      modifies this
      ensures reply == server(url)
      ensures sent == old(sent) + [url]
    {
      reply := server(url);
      sent := sent + [url];
    }
  }

  /** `return_hashlist_hibp`: a single request for the digest's prefix. */
  method ReturnHashlistHibp(client: RangeClient, passwordHash: string) returns (r: Result<string>)
    modifies client
    ensures r == RangeBody(client.server, passwordHash)
    ensures client.sent == old(client.sent) + [RangeUrl(passwordHash)]
  {
    var chop := Prefix(passwordHash);
    var reply := client.Get(RangeEndpoint + chop);
    match reply {
      case Unreachable =>
        r := Fail(ConnectionFailure);
      case Response(code, text) =>
        if !reply.Ok() {
          r := Fail(RangeFetchError(code));
        } else {
          r := Ok(text);
        }
    }
  }

  /** The scan in `check_status`: True at the first line whose field before
      the first colon is the suffix, False when no line has it. */
  method ScanRange(body: string, suffix: string) returns (found: bool)
    ensures found == Listed(body, suffix)
  {
    var lines := SplitLines(body);
    var i := 0;
    while i < |lines|
      invariant 0 <= i <= |lines|
      invariant forall j :: 0 <= j < i ==> FirstField(lines[j]) != suffix
    {
      if FirstField(lines[i]) == suffix {
        assert 0 <= i < |SplitLines(body)| && FirstField(SplitLines(body)[i]) == suffix;
        return true;
      }
      i := i + 1;
    }
    return false;
  }

  /** `check_status` */
  method CheckStatus(client: RangeClient, sha1: Sha1, password: PyValue) returns (r: Result<bool>)
    modifies client
    ensures r == Status(sha1, client.server, password)
    ensures client.sent == old(client.sent) + Queries(sha1, password)
  {
    var hashed := HashPasswordSha1(sha1, password);
    if hashed.Fail? {
      return Fail(hashed.error);
    }
    var body := ReturnHashlistHibp(client, hashed.value);
    if body.Fail? {
      return Fail(body.error);
    }
    var found := ScanRange(body.value, Suffix(hashed.value));
    r := Ok(found);
  }

  // ---------------------------------------------------------------------
  // Batch: one lookup per line of a file

  /** The lookup `check_list` runs on one line. */
  function LineCheck(sha1: Sha1, server: Server): string -> Result<bool>
  {
    line => Status(sha1, server, PyStr(line))
  }

  /** The results of `check` on the lines in order, or the error of the
      first line whose check fails. */
  function RunChecks(check: string -> Result<bool>, lines: seq<string>): Result<seq<bool>>
    decreases |lines|
  {
    if lines == [] then Ok([])
    else
      match RunChecks(check, lines[..|lines| - 1])
      case Fail(e) => Fail(e)
      case Ok(bs) =>
        match check(lines[|lines| - 1])
        case Fail(e) => Fail(e)
        case Ok(b) => Ok(bs + [b])
  }

  /** The URLs a batch of lines requests: one per line, in order, repeats included. */
  function BatchUrls(sha1: Sha1, lines: seq<string>): seq<string>
  {
    seq(|lines|, i requires 0 <= i < |lines| => RangeUrl(Fingerprint(sha1, lines[i])))
  }

  /** How many lines `check_list` checks: all of them, or those up to and
      including the first that fails. */
  function CheckedCount(check: string -> Result<bool>, lines: seq<string>): (n: nat)
    ensures n <= |lines|
    decreases |lines|
  {
    if lines == [] then 0
    else if RunChecks(check, lines[..|lines| - 1]).Ok? then |lines|
    else CheckedCount(check, lines[..|lines| - 1])
  }

  /** The URLs `check_list` requests: none for a missing file, otherwise one
      per line checked. */
  function ListSent(sha1: Sha1, server: Server, fs: map<string, string>, path: string): seq<string>
  {
    if path !in fs then []
    else
      var lines := SplitLines(fs[path]);
      BatchUrls(sha1, lines[..CheckedCount(LineCheck(sha1, server), lines)])
  }

  /** What `check_list` returns: `dict(zip(lines, statuses))`, or the error
      it raises. The file system is a map from path to contents. */
  function CheckListSpec(sha1: Sha1, server: Server, fs: map<string, string>, path: string): Result<Dict<string, bool>>
  {
    if path !in fs then Fail(FileNotFound)
    else
      var lines := SplitLines(fs[path]);
      match RunChecks(LineCheck(sha1, server), lines)
      case Fail(e) => Fail(e)
      case Ok(bs) => Ok(FromPairs(Zip(lines, bs)))
  }

  /** Every line is checked, in order: the batch succeeds exactly when each
      line's check does, with the i-th result for the i-th line. */
  lemma {:induction false} RunChecksOk(check: string -> Result<bool>, lines: seq<string>)
    ensures RunChecks(check, lines).Ok? <==> forall i :: 0 <= i < |lines| ==> check(lines[i]).Ok?
    ensures RunChecks(check, lines).Ok? ==>
      |RunChecks(check, lines).value| == |lines| &&
      forall i :: 0 <= i < |lines| ==> RunChecks(check, lines).value[i] == check(lines[i]).value
    decreases |lines|
  {
    if lines != [] {
      var n := |lines| - 1;
      var front := lines[..n];
      RunChecksOk(check, front);
      assert forall i :: 0 <= i < n ==> front[i] == lines[i];
    }
  }

  /** A failing batch fails with the error of its first failing line. */
  lemma {:induction false} RunChecksFail(check: string -> Result<bool>, lines: seq<string>)
    requires RunChecks(check, lines).Fail?
    ensures exists k :: 0 <= k < |lines| && check(lines[k]) == Fail(RunChecks(check, lines).error) &&
                        (forall j :: 0 <= j < k ==> check(lines[j]).Ok?)
    decreases |lines|
  {
    var n := |lines| - 1;
    var front := lines[..n];
    assert forall i :: 0 <= i < n ==> front[i] == lines[i];
    if RunChecks(check, front).Fail? {
      RunChecksFail(check, front);
      var k :| 0 <= k < n && check(front[k]) == Fail(RunChecks(check, front).error) &&
        forall j :: 0 <= j < k ==> check(front[j]).Ok?;
      assert check(lines[k]) == Fail(RunChecks(check, lines).error);
    } else {
      RunChecksOk(check, front);
      assert check(lines[n]) == Fail(RunChecks(check, lines).error);
    }
  }

  /** One more line: the batch so far extended by that line's check. */
  lemma RunChecksStep(check: string -> Result<bool>, lines: seq<string>, i: nat)
    requires i < |lines| && RunChecks(check, lines[..i]).Ok?
    ensures RunChecks(check, lines[..i + 1]) ==
      match check(lines[i])
      case Fail(e) => Fail(e)
      case Ok(b) => Ok(RunChecks(check, lines[..i]).value + [b])
  {
    assert lines[..i + 1][..i] == lines[..i];
  }

  lemma BatchUrlsStep(sha1: Sha1, lines: seq<string>, i: nat)
    requires i < |lines|
    ensures BatchUrls(sha1, lines[..i + 1]) == BatchUrls(sha1, lines[..i]) + Queries(sha1, PyStr(lines[i]))
  {
    assert lines[..i + 1] == lines[..i] + [lines[i]];
    BatchUrlsSnoc(sha1, lines[..i], lines[i]);
    assert Queries(sha1, PyStr(lines[i])) == [RangeUrl(Fingerprint(sha1, lines[i]))];
  }

  /** One more line appends its own range request. */
  lemma BatchUrlsSnoc(sha1: Sha1, lines: seq<string>, line: string)
    ensures BatchUrls(sha1, lines + [line]) == BatchUrls(sha1, lines) + [RangeUrl(Fingerprint(sha1, line))]
  {
    var longer, shorter := BatchUrls(sha1, lines + [line]), BatchUrls(sha1, lines);
    forall j | 0 <= j < |lines| ensures longer[j] == shorter[j] {
      assert (lines + [line])[j] == lines[j];
    }
  }

  /** Once a prefix of the lines fails, the batch fails with that error:
      no later line changes the outcome. */
  lemma {:induction false} FailurePersists(check: string -> Result<bool>, lines: seq<string>, m: nat)
    requires m <= |lines| && RunChecks(check, lines[..m]).Fail?
    ensures RunChecks(check, lines) == RunChecks(check, lines[..m])
    decreases |lines| - m
  {
    if m < |lines| {
      var n := |lines| - 1;
      assert lines[..n][..m] == lines[..m];
      if m < n {
        FailurePersists(check, lines[..n], m);
      } else {
        assert lines[..n] == lines[..m];
      }
    } else {
      assert lines[..m] == lines;
    }
  }

  /** A missing file is an error, with no partial result. */
  lemma MissingFileIsError(sha1: Sha1, server: Server, fs: map<string, string>, path: string)
    requires path !in fs
    ensures CheckListSpec(sha1, server, fs, path) == Fail(FileNotFound)
  {
  }

  /** The keys of the batch result are the distinct lines in the order they
      first appear, and each holds the status of its LAST occurrence. */
  lemma CheckListResult(sha1: Sha1, server: Server, fs: map<string, string>, path: string, i: nat)
    ensures CheckListSpec(sha1, server, fs, path).Ok? ==>
      path in fs &&
      Keys(CheckListSpec(sha1, server, fs, path).value) == Dedup(SplitLines(fs[path])) &&
      (i < |SplitLines(fs[path])| && SplitLines(fs[path])[i] !in SplitLines(fs[path])[i + 1..] ==>
         Status(sha1, server, PyStr(SplitLines(fs[path])[i])).Ok? &&
         Get(CheckListSpec(sha1, server, fs, path).value, SplitLines(fs[path])[i])
           == Some(Status(sha1, server, PyStr(SplitLines(fs[path])[i])).value))
  {
    if !CheckListSpec(sha1, server, fs, path).Ok? {
      return;
    }
    var lines := SplitLines(fs[path]);
    RunChecksDict(LineCheck(sha1, server), lines, i);
    if i < |lines| {
      assert LineCheck(sha1, server)(lines[i]) == Status(sha1, server, PyStr(lines[i]));
    }
  }

  /** `dict(zip(lines, statuses))` for any per-line check: the distinct
      lines are its keys, and a line at its last occurrence holds its own result. */
  lemma RunChecksDict(check: string -> Result<bool>, lines: seq<string>, i: nat)
    requires RunChecks(check, lines).Ok?
    ensures Keys(FromPairs(Zip(lines, RunChecks(check, lines).value))) == Dedup(lines)
    ensures i < |lines| && lines[i] !in lines[i + 1..] ==>
      check(lines[i]).Ok? && Get(FromPairs(Zip(lines, RunChecks(check, lines).value)), lines[i]) == Some(check(lines[i]).value)
  {
    RunChecksOk(check, lines);
    var bs := RunChecks(check, lines).value;
    var ps := Zip(lines, bs);
    assert Keys(ps) == lines;
    FromPairsKeys(ps);
    if i < |lines| && lines[i] !in lines[i + 1..] {
      forall j | i < j < |ps| ensures ps[j].0 != ps[i].0 {
        assert lines[j] == lines[i + 1..][j - i - 1];
      }
      UpdateGetLast([], ps, i);
    }
  }

  /** When the batch succeeds, every line is checked. */
  lemma CheckedCountAll(check: string -> Result<bool>, lines: seq<string>)
    requires RunChecks(check, lines).Ok?
    ensures CheckedCount(check, lines) == |lines|
  {
  }

  /** Checking stops right after the first failing line. */
  lemma {:induction false} CheckedCountFirstFailing(check: string -> Result<bool>, lines: seq<string>, k: int)
    requires FirstFailing(check, lines, k)
    ensures CheckedCount(check, lines) == k + 1
    decreases |lines|
  {
    var n := |lines| - 1;
    var front := lines[..n];
    assert forall j :: 0 <= j < n ==> front[j] == lines[j];
    RunChecksOk(check, front);
    if k < n {
      assert FirstFailing(check, front, k);
      CheckedCountFirstFailing(check, front, k);
    }
  }

  /** A batch requests nothing but range requests, one per line. */
  lemma BatchUrlsAreRangeRequests(sha1: Sha1, lines: seq<string>)
    ensures |BatchUrls(sha1, lines)| == |lines|
    ensures forall u :: u in BatchUrls(sha1, lines) ==> IsRangeRequest(u)
  {
    forall i | 0 <= i < |lines| ensures IsRangeRequest(BatchUrls(sha1, lines)[i]) {
      DigestUrlIsRangeRequest(Fingerprint(sha1, lines[i]));
    }
  }

  /** `check_list` requests nothing but range requests, at most one per line
      of the file. */
  lemma ListSentAreRangeRequests(sha1: Sha1, server: Server, fs: map<string, string>, path: string)
    ensures path in fs ==> |ListSent(sha1, server, fs, path)| <= |SplitLines(fs[path])|
    ensures forall u :: u in ListSent(sha1, server, fs, path) ==> IsRangeRequest(u)
  {
    if path in fs {
      var lines := SplitLines(fs[path]);
      BatchUrlsAreRangeRequests(sha1, lines[..CheckedCount(LineCheck(sha1, server), lines)]);
    }
  }

  /** Line k is the first line whose check fails. */
  predicate FirstFailing(check: string -> Result<bool>, lines: seq<string>, k: int)
  {
    0 <= k < |lines| && check(lines[k]).Fail? && forall j :: 0 <= j < k ==> check(lines[j]).Ok?
  }

  /** A line that fails after a prefix that succeeded is the first failing line. */
  lemma FirstFailingAt(check: string -> Result<bool>, lines: seq<string>, i: nat)
    requires i < |lines| && RunChecks(check, lines[..i]).Ok? && check(lines[i]).Fail?
    ensures FirstFailing(check, lines, i)
  {
    RunChecksOk(check, lines[..i]);
    assert forall j :: 0 <= j < i ==> lines[..i][j] == lines[j];
  }

  /** The loop of `check_list`: one `check_status` per line, in order,
      appended to `returned_bool_list`; an error ends the batch at once. */
  method CheckLines(client: RangeClient, sha1: Sha1, lines: seq<string>) returns (r: Result<seq<bool>>)
    modifies client
    ensures r == RunChecks(LineCheck(sha1, client.server), lines)
    ensures r.Ok? ==> client.sent == old(client.sent) + BatchUrls(sha1, lines)
    ensures r.Fail? ==>
      exists k :: FirstFailing(LineCheck(sha1, client.server), lines, k) &&
                  client.sent == old(client.sent) + BatchUrls(sha1, lines[..k + 1])
  {
    ghost var check := LineCheck(sha1, client.server);
    var returnedBoolList: seq<bool> := [];
    var i := 0;
    while i < |lines|
      invariant 0 <= i <= |lines|
      invariant RunChecks(check, lines[..i]) == Ok(returnedBoolList)
      invariant client.sent == old(client.sent) + BatchUrls(sha1, lines[..i])
    {
      var status := CheckStatus(client, sha1, PyStr(lines[i]));
      assert status == check(lines[i]);
      RunChecksStep(check, lines, i);
      BatchUrlsStep(sha1, lines, i);
      if status.Fail? {
        FailurePersists(check, lines, i + 1);
        FirstFailingAt(check, lines, i);
        return Fail(status.error);
      }
      returnedBoolList := returnedBoolList + [status.value];
      i := i + 1;
    }
    assert lines[..i] == lines;
    r := Ok(returnedBoolList);
  }

  /** `check_list`: reads the file, checks its lines, and zips lines and
      statuses into a dict. */
  method CheckList(client: RangeClient, sha1: Sha1, fs: map<string, string>, listPath: string)
    returns (r: Result<Dict<string, bool>>)
    modifies client
    ensures r == CheckListSpec(sha1, client.server, fs, listPath)
    ensures listPath !in fs ==> client.sent == old(client.sent)
    ensures r.Ok? ==> client.sent == old(client.sent) + BatchUrls(sha1, SplitLines(fs[listPath]))
    ensures r.Fail? && listPath in fs ==>
      exists k :: FirstFailing(LineCheck(sha1, client.server), SplitLines(fs[listPath]), k) &&
                  client.sent == old(client.sent) + BatchUrls(sha1, SplitLines(fs[listPath])[..k + 1])
    ensures client.sent == old(client.sent) + ListSent(sha1, client.server, fs, listPath)
  {
    if listPath !in fs {
      return Fail(FileNotFound);
    }
    var listLines := SplitLines(fs[listPath]);
    ghost var check := LineCheck(sha1, client.server);
    var returnedBoolList := CheckLines(client, sha1, listLines);
    if returnedBoolList.Fail? {
      ghost var k :| FirstFailing(check, listLines, k) &&
                     client.sent == old(client.sent) + BatchUrls(sha1, listLines[..k + 1]);
      CheckedCountFirstFailing(check, listLines, k);
      return Fail(returnedBoolList.error);
    }
    CheckedCountAll(check, listLines);
    assert listLines[..|listLines|] == listLines;
    r := Ok(FromPairs(Zip(listLines, returnedBoolList.value)));
  }
}
