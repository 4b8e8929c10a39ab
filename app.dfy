/** `PwnedWord.__init__`: runs the single check, the file check and the
    generate-and-check that its arguments ask for, and accumulates every
    result in `dict_records`. */
module App {
  import opened Outcomes
  import opened PyValues
  import opened Lines
  import opened OrderedDict
  import opened PwnedCheck
  import opened PwGen

  /** `dict_records`: passwords (str or int), the key "Password Status" or
      list positions, each mapped to a pwned status. */
  type Records = Dict<PyValue, bool>

  const StatusKey := PyStr("Password Status")

  /** What the single check records: `{password: status}` when verbose is
      True, `{"Password Status": status}` when it is False, and nothing when
      it is neither. */
  function RecordSingle(records: Records, password: PyValue, status: bool, verbose: PyValue): (r: Records)
    requires DistinctKeys(records)
    ensures DistinctKeys(r)
  {
    if IsTrue(verbose) then Put(records, password, status)
    else if IsFalse(verbose) then Put(records, StatusKey, status)
    else records
  }

  /** The batch result with its passwords as Python str keys. */
  function Keyed(d: Dict<string, bool>): Records
  {
    seq(|d|, i requires 0 <= i < |d| => (PyStr(d[i].0), d[i].1))
  }

  /** `1, 2, ..., n` as `enumerate(return_dict, 1)` numbers the entries. */
  function Positions(n: nat): seq<PyValue>
  {
    seq(n, i requires 0 <= i < n => PyInt(i + 1))
  }

  /** `dict(zip(return_dict_index, return_dict_bools))`: the batch result
      with each password replaced by its position. */
  function Positional(d: Dict<string, bool>): (r: Records)
    ensures DistinctKeys(r)
  {
    FromPairs(Zip(Positions(|d|), Values(d)))
  }

  /** What the file check records: the batch result itself when verbose is
      True, its positional form when it is False, nothing otherwise. */
  function RecordFile(records: Records, d: Dict<string, bool>, verbose: PyValue): (r: Records)
    requires DistinctKeys(records)
    ensures DistinctKeys(r)
  {
    if IsTrue(verbose) then Update(records, Keyed(d))
    else if IsFalse(verbose) then Update(records, Positional(d))
    else records
  }

  /** The records after the single check on fresh records, or the error it
      raises; a None password skips it. */
  function SingleStep(sha1: Sha1, server: Server, text: PyValue, verbose: PyValue): (r: Result<Records>)
    ensures r.Ok? ==> DistinctKeys(r.value)
  {
    if text.PyNone? then Ok([])
    else match Status(sha1, server, text)
      case Fail(e) => Fail(e)
      case Ok(st) => Ok(RecordSingle([], text, st, verbose))
  }

  /** The records after the file check on top of `records`, or the error it
      raises; a None file name skips it. */
  function FileStep(sha1: Sha1, server: Server, fs: map<string, string>, records: Records,
                    file: Option<string>, verbose: PyValue): (r: Result<Records>)
    requires DistinctKeys(records)
    ensures r.Ok? ==> DistinctKeys(r.value)
  {
    if file.None? then Ok(records)
    else match CheckListSpec(sha1, server, fs, file.value)
      case Fail(e) => Fail(e)
      case Ok(d) => Ok(RecordFile(records, d, verbose))
  }

  /** The records after the single and the file check, or the error that
      escapes from one of them. An argument that is None skips its check. */
  function ChecksBeforeGenerate(sha1: Sha1, server: Server, fs: map<string, string>,
                                text: PyValue, file: Option<string>, verbose: PyValue): (r: Result<Records>)
    ensures r.Ok? ==> DistinctKeys(r.value)
  {
    match SingleStep(sha1, server, text, verbose)
    case Fail(e) => Fail(e)
    case Ok(records) => FileStep(sha1, server, fs, records, file, verbose)
  }

  /** `password_gen` as the value handed to `check_status`. */
  function AsPyValue(pw: Option<string>): PyValue
  {
    if pw.Some? then PyStr(pw.value) else PyNone
  }

  /** `password_string` and `password_status` after the `-t` branch: set only
      when the lookup succeeds, and only as verbose True or False says. None
      stands for an attribute that is never set. */
  function SingleFields(sha1: Sha1, server: Server, text: PyValue, verbose: PyValue): (Option<PyValue>, Option<bool>)
  {
    if text.PyNone? then (None, None)
    else match Status(sha1, server, text)
      case Fail(_) => (None, None)
      case Ok(st) =>
        (if IsTrue(verbose) then Some(text) else None,
         if IsTrue(verbose) || IsFalse(verbose) then Some(st) else None)
  }

  /** `return_dict` and `return_dict_stripped` after the `-f` branch: set only
      when the branch is reached, `check_list` succeeds and its loop runs at
      least once. */
  function FileFields(sha1: Sha1, server: Server, fs: map<string, string>, text: PyValue,
                      file: Option<string>, verbose: PyValue): (Option<Dict<string, bool>>, Option<Records>)
  {
    if SingleStep(sha1, server, text, verbose).Fail? || file.None? then (None, None)
    else match CheckListSpec(sha1, server, fs, file.value)
      case Fail(_) => (None, None)
      case Ok(d) =>
        (if IsTrue(verbose) && d != [] then Some(d) else None,
         if IsFalse(verbose) && d != [] then Some(Positional(d)) else None)
  }

  /** The lookup the `-g` branch runs on a candidate. */
  function CandidateCheck(sha1: Sha1, server: Server): Option<string> -> Result<bool>
  {
    c => Status(sha1, server, AsPyValue(c))
  }

  /** A candidate of a `-g` run that had to be replaced: generated for
      `length`, and found pwned. */
  function Replaced(sha1: Sha1, server: Server, length: PyValue): Option<string> -> bool
  {
    c => Generated(length, c) && CandidateCheck(sha1, server)(c) == Ok(true)
  }

  /** `ok` holds of every element of `s`, checked from the back. */
  predicate Every<T>(ok: T -> bool, s: seq<T>)
  {
    s == [] || (Every(ok, s[..|s| - 1]) && ok(s[|s| - 1]))
  }

  /** The candidates of one run of the `-g` branch, in the order generated:
      each but the last is pwned, the last is what `generate_password`
      returned, and a pwned last candidate means the `retries` extra attempts
      are used up. */
  predicate RegenerateRun(sha1: Sha1, server: Server, length: PyValue, retries: nat, tried: seq<Option<string>>)
  {
    1 <= |tried| <= retries + 1 &&
    Generated(length, tried[|tried| - 1]) &&
    Every(Replaced(sha1, server, length), tried[..|tried| - 1]) &&
    (Status(sha1, server, AsPyValue(tried[|tried| - 1])) == Ok(true) ==> |tried| == retries + 1)
  }

  /** The URLs the `-t` branch requests: none when it is skipped. */
  function SingleSent(sha1: Sha1, text: PyValue): seq<string>
  {
    if text.PyNone? then [] else Queries(sha1, text)
  }

  /** The URLs the `-f` branch requests: none when it is skipped or an
      exception of the `-t` branch ends construction first. */
  function FileSent(sha1: Sha1, server: Server, fs: map<string, string>, text: PyValue,
                    file: Option<string>, verbose: PyValue): seq<string>
  {
    if SingleStep(sha1, server, text, verbose).Fail? || file.None? then []
    else ListSent(sha1, server, fs, file.value)
  }

  /** The URLs a `-g` run requests: one lookup per candidate, in order. */
  function RegenerateSent(sha1: Sha1, tried: seq<Option<string>>): seq<string>
  {
    Flatten(CandidateQueries(sha1), tried)
  }

  /** The URLs the lookup of one `-g` candidate requests. */
  function CandidateQueries(sha1: Sha1): Option<string> -> seq<string>
  {
    c => Queries(sha1, AsPyValue(c))
  }

  /** The URLs `q` gives for each element of `s`, in order. */
  function Flatten<T>(q: T -> seq<string>, s: seq<T>): seq<string>
  {
    if s == [] then [] else Flatten(q, s[..|s| - 1]) + q(s[|s| - 1])
  }

  /** One more element adds its own URLs last. */
  lemma FlattenSnoc<T>(q: T -> seq<string>, s: seq<T>, c: T)
    ensures Flatten(q, s + [c]) == Flatten(q, s) + q(c)
  {
    assert (s + [c])[..|s|] == s;
  }

  lemma AppendAssoc<T>(a: seq<T>, b: seq<T>, c: seq<T>)
    ensures a + b + c == a + (b + c)
  {
  }

  /** The exception the `-g` branch ends with, given its last candidate's
      status: the lookup's error, `RetriesExhausted` when it is still pwned,
      none when it is not. */
  function GenOutcome(status: Result<bool>): Option<Error>
  {
    if status.Fail? then Some(status.error) else if status.value then Some(RetriesExhausted) else None
  }

  // ---------------------------------------------------------------------
  // Properties of the recording

  /** A verbose single check on fresh records records exactly
      `{password: status}`; a non-verbose one exactly `{"Password Status": status}`. */
  lemma SingleRecordsExactly(password: PyValue, status: bool)
    ensures RecordSingle([], password, status, PyBool(true)) == [(password, status)]
    ensures RecordSingle([], password, status, PyBool(false)) == [(StatusKey, status)]
    ensures forall v: PyValue :: !v.PyBool? ==> RecordSingle([], password, status, v) == []
  {
  }

  /** The positional form has keys exactly 1..n, n the number of entries of
      the batch result, and position i holds the i-th status in insertion order. */
  lemma {:induction false} PositionalSpec(d: Dict<string, bool>)
    ensures Positional(d) == Zip(Positions(|d|), Values(d))
    ensures Keys(Positional(d)) == Positions(|d|)
    ensures Values(Positional(d)) == Values(d)
    ensures forall i :: 1 <= i <= |d| ==> Get(Positional(d), PyInt(i)) == Some(d[i - 1].1)
  {
    var pos, vals := Positions(|d|), Values(d);
    var ps := Zip(pos, vals);
    ZipKeysValues(pos, vals);
    PositionsDistinct(|d|);
    assert DistinctKeys(ps);
    FromPairsDistinct(ps);
    forall i | 1 <= i <= |d| ensures Get(ps, PyInt(i)) == Some(d[i - 1].1) {
      GetAt(ps, i - 1);
      assert ps[i - 1].0 == PyInt(i) && ps[i - 1].1 == d[i - 1].1;
    }
  }

  lemma PositionsDistinct(n: nat)
    ensures Distinct(Positions(n))
  {
    var pos := Positions(n);
    forall i, j | 0 <= i < j < n ensures pos[i] != pos[j] {
      assert pos[i] == PyInt(i + 1) && pos[j] == PyInt(j + 1);
    }
  }

  /** Non-verbose re-keying numbers the distinct passwords, not the lines
      of the file: repeated lines have already collapsed. */
  lemma PositionsCountDistinctLines(sha1: Sha1, server: Server, fs: map<string, string>, path: string)
    ensures CheckListSpec(sha1, server, fs, path).Ok? ==>
              path in fs &&
              Keys(Positional(CheckListSpec(sha1, server, fs, path).value)) == Positions(|Dedup(SplitLines(fs[path]))|) &&
              |Dedup(SplitLines(fs[path]))| <= |SplitLines(fs[path])|
  {
    if CheckListSpec(sha1, server, fs, path).Ok? {
      var d := CheckListSpec(sha1, server, fs, path).value;
      CheckListResult(sha1, server, fs, path, 0);
      PositionalSpec(d);
      DedupSpec(SplitLines(fs[path]));
      assert |Keys(d)| == |d|;
    }
  }

  /** A verbose file check gives every password of the batch result its
      status and leaves every other key as it was. */
  lemma {:induction false} VerboseFileRecords(records: Records, d: Dict<string, bool>, k: PyValue)
    requires DistinctKeys(records) && DistinctKeys(d)
    ensures k.PyStr? && k.s in Keys(d) ==> Get(RecordFile(records, d, PyBool(true)), k) == Get(d, k.s)
    ensures !(k.PyStr? && k.s in Keys(d)) ==> Get(RecordFile(records, d, PyBool(true)), k) == Get(records, k)
  {
    var ps := Keyed(d);
    if k.PyStr? && k.s in Keys(d) {
      var i :| 0 <= i < |d| && Keys(d)[i] == k.s;
      forall j | i < j < |ps| ensures ps[j].0 != ps[i].0 {
        assert Keys(d)[j] == d[j].0;
      }
      UpdateGetLast(records, ps, i);
      GetAt(d, i);
    } else {
      forall i | 0 <= i < |ps| ensures Keys(ps)[i] != k {
        assert Keys(ps)[i] == PyStr(Keys(d)[i]);
      }
      UpdateGetOther(records, ps, k);
    }
  }

  /** Positional re-keying on top of records holding at most "Password Status"
      adds list positions and nothing else. */
  lemma PositionalAddsPositions(records: Records, d: Dict<string, bool>, k: PyValue)
    ensures (Keys(records) == [] || Keys(records) == [StatusKey]) && k in Keys(Update(records, Positional(d))) ==>
              k == StatusKey || k.PyInt?
  {
    if (Keys(records) == [] || Keys(records) == [StatusKey]) && k in Keys(Update(records, Positional(d))) {
      UpdateKeys(records, Positional(d), k);
      assert Keys(Positional(d)) == Positions(|d|) by {
        PositionalSpec(d);
      }
      if k in Positions(|d|) {
        var j :| 0 <= j < |d| && Positions(|d|)[j] == k;
      }
    }
  }

  /** With verbose False the single and file checks record no password: every
      key is "Password Status" or a list position. */
  lemma NonVerboseHidesPasswords(sha1: Sha1, server: Server, fs: map<string, string>,
                                 text: PyValue, file: Option<string>, k: PyValue)
    ensures ChecksBeforeGenerate(sha1, server, fs, text, file, PyBool(false)).Ok? &&
            k in Keys(ChecksBeforeGenerate(sha1, server, fs, text, file, PyBool(false)).value) ==>
              k == StatusKey || k.PyInt?
  {
    if !(ChecksBeforeGenerate(sha1, server, fs, text, file, PyBool(false)).Ok? &&
         k in Keys(ChecksBeforeGenerate(sha1, server, fs, text, file, PyBool(false)).value)) {
      return;
    }
    var single := SingleStep(sha1, server, text, PyBool(false));
    if !text.PyNone? {
      SingleRecordsExactly(text, Status(sha1, server, text).value);
    }
    if file.Some? {
      PositionalAddsPositions(single.value, CheckListSpec(sha1, server, fs, file.value).value, k);
    }
  }

  /** Distinct passwords give distinct str keys. */
  lemma KeyedDistinct(d: Dict<string, bool>)
    requires DistinctKeys(d)
    ensures DistinctKeys(Keyed(d))
  {
    forall i, j | 0 <= i < j < |d| ensures Keys(Keyed(d))[i] != Keys(Keyed(d))[j] {
      assert Keys(d)[i] == d[i].0 && Keys(d)[j] == d[j].0;
    }
  }

  /** The re-keying loops of the non-verbose file check: positions from
      `enumerate(return_dict, 1)`, statuses from `return_dict.items()`,
      zipped into a new dict. */
  method StripPasswords(returnDict: Dict<string, bool>) returns (stripped: Records)
    ensures stripped == Positional(returnDict) && |stripped| == |returnDict|
    ensures Keys(stripped) == Positions(|returnDict|) && Values(stripped) == Values(returnDict)
  {
    var returnDictIndex: seq<PyValue> := [];
    var k := 1;
    while k <= |returnDict|
      invariant 1 <= k <= |returnDict| + 1
      invariant returnDictIndex == Positions(k - 1)
    {
      returnDictIndex := returnDictIndex + [PyInt(k)];
      k := k + 1;
    }
    var returnDictBools: seq<bool> := [];
    var i := 0;
    while i < |returnDict|
      invariant 0 <= i <= |returnDict|
      invariant returnDictBools == Values(returnDict[..i])
    {
      returnDictBools := returnDictBools + [returnDict[i].1];
      i := i + 1;
    }
    assert returnDict[..i] == returnDict;
    PositionalSpec(returnDict);
    stripped := FromPairs(Zip(returnDictIndex, returnDictBools));
  }

  /** Which instance attributes the `-t` and `-f` branches set: with verbose
      False no password is kept, with verbose True no stripped dict, and a
      status is kept exactly when the lookup succeeded under a bool verbose. */
  lemma FieldsFollowVerbose(sha1: Sha1, server: Server, fs: map<string, string>,
                            text: PyValue, file: Option<string>, verbose: PyValue)
    ensures IsFalse(verbose) ==>
              SingleFields(sha1, server, text, verbose).0.None? && FileFields(sha1, server, fs, text, file, verbose).0.None?
    ensures IsTrue(verbose) ==> FileFields(sha1, server, fs, text, file, verbose).1.None?
    ensures SingleFields(sha1, server, text, verbose).1.Some? <==>
              !text.PyNone? && Status(sha1, server, text).Ok? && verbose.PyBool?
    ensures SingleFields(sha1, server, text, verbose).1.Some? ==>
              SingleFields(sha1, server, text, verbose).1.value == Status(sha1, server, text).value
  {
  }

  /** Whatever the arguments and however many candidates `-g` tries, the
      instance requests nothing but range requests: no password and no full
      digest leaves the client. */
  lemma OnlyRangeRequestsSent(sha1: Sha1, server: Server, fs: map<string, string>, text: PyValue,
                              file: Option<string>, verbose: PyValue, tried: seq<Option<string>>)
    ensures var sent := SingleSent(sha1, text) + FileSent(sha1, server, fs, text, file, verbose) +
                        RegenerateSent(sha1, tried);
            forall u :: u in sent ==> IsRangeRequest(u)
  {
    QueriesAreRangeRequests(sha1, text);
    if file.Some? {
      ListSentAreRangeRequests(sha1, server, fs, file.value);
    }
    RegenerateSentAreRangeRequests(sha1, tried);
  }

  /** A `-g` run requests nothing but range requests, at most one per candidate. */
  lemma {:induction false} RegenerateSentAreRangeRequests(sha1: Sha1, tried: seq<Option<string>>)
    ensures |RegenerateSent(sha1, tried)| <= |tried|
    ensures forall u :: u in RegenerateSent(sha1, tried) ==> IsRangeRequest(u)
    decreases |tried|
  {
    if tried != [] {
      var n := |tried| - 1;
      RegenerateSentAreRangeRequests(sha1, tried[..n]);
      QueriesAreRangeRequests(sha1, AsPyValue(tried[n]));
      assert CandidateQueries(sha1)(tried[n]) == Queries(sha1, AsPyValue(tried[n]));
    }
  }

  /** A `-g` run with a length that is not a positive int is refused at the
      first candidate with the wrong-input-type error. */
  lemma RegenerateRefusesLength(sha1: Sha1, server: Server, length: PyValue, retries: nat,
                                tried: seq<Option<string>>)
    requires RegenerateRun(sha1, server, length, retries, tried)
    requires !(IsInstanceInt(length) && IntValue(length) > 0)
    ensures |tried| == 1 && tried[0].None?
    ensures GenOutcome(Status(sha1, server, AsPyValue(tried[0]))) == Some(InvalidInputType)
  {
    var n := |tried| - 1;
    assert n == 0 by {
      if n > 0 {
        var replaced := Replaced(sha1, server, length);
        assert replaced(tried[..n][0]) by {
          EverySpec(replaced, tried[..n]);
        }
        assert tried[..n][0] == tried[0];
        ReplacedNeedsLength(sha1, server, length, tried[0]);
      }
    }
  }

  /** A `-g` run that ends without an error ends on a generated password the
      lookup finds unpwned. */
  lemma RegenerateSucceeds(sha1: Sha1, server: Server, length: PyValue, retries: nat,
                           tried: seq<Option<string>>)
    requires RegenerateRun(sha1, server, length, retries, tried)
    requires GenOutcome(Status(sha1, server, AsPyValue(tried[|tried| - 1]))).None?
    ensures tried[|tried| - 1].Some? && Status(sha1, server, PyStr(tried[|tried| - 1].value)) == Ok(false)
  {
    CheckedCandidateExists(sha1, server, tried[|tried| - 1]);
  }

  /** A `-g` run that gives up has tried `retries + 1` candidates, every one
      generated for the length and found pwned. */
  lemma RegenerateGivesUp(sha1: Sha1, server: Server, length: PyValue, retries: nat,
                          tried: seq<Option<string>>)
    requires RegenerateRun(sha1, server, length, retries, tried)
    requires GenOutcome(Status(sha1, server, AsPyValue(tried[|tried| - 1]))) == Some(RetriesExhausted)
    ensures |tried| == retries + 1
    ensures forall j :: 0 <= j < |tried| ==> Replaced(sha1, server, length)(tried[j])
  {
    var n := |tried| - 1;
    StatusErrors(sha1, server, AsPyValue(tried[n]));
    assert CandidateCheck(sha1, server)(tried[n]) == Ok(true);
    EveryExtend(Replaced(sha1, server, length), tried);
  }

  /** An element that satisfies `ok` after a prefix that does. */
  lemma EveryExtend<T>(ok: T -> bool, s: seq<T>)
    requires s != [] && Every(ok, s[..|s| - 1]) && ok(s[|s| - 1])
    ensures forall j :: 0 <= j < |s| ==> ok(s[j])
  {
    assert Every(ok, s);
    EverySpec(ok, s);
  }

  /** `Every` is the universal quantifier over the elements. */
  lemma {:induction false} EverySpec<T>(ok: T -> bool, s: seq<T>)
    ensures Every(ok, s) <==> forall j :: 0 <= j < |s| ==> ok(s[j])
  {
    if s != [] {
      var init := s[..|s| - 1];
      EverySpec(ok, init);
      assert forall j :: 0 <= j < |init| ==> init[j] == s[j];
    }
  }

  /** A pwned candidate exists only when the length was a positive int. */
  lemma ReplacedNeedsLength(sha1: Sha1, server: Server, length: PyValue, candidate: Option<string>)
    ensures Replaced(sha1, server, length)(candidate) ==> IsInstanceInt(length) && IntValue(length) > 0
  {
    if Replaced(sha1, server, length)(candidate) {
      assert Generated(length, candidate) && CandidateCheck(sha1, server)(candidate) == Ok(true);
      CheckedCandidateExists(sha1, server, candidate);
    }
  }

  /** Only a generated password gets an answer: None is refused. */
  lemma CheckedCandidateExists(sha1: Sha1, server: Server, candidate: Option<string>)
    ensures Status(sha1, server, AsPyValue(candidate)).Ok? ==> candidate.Some?
  {
  }

  /** The lookup never raises the model's own give-up error. */
  lemma StatusErrors(sha1: Sha1, server: Server, password: PyValue)
    ensures Status(sha1, server, password).Fail? ==> Status(sha1, server, password).error != RetriesExhausted
  {
  }

  /** A pwned candidate joins the candidates already replaced. */
  lemma ReplacedSnoc(sha1: Sha1, server: Server, length: PyValue, pwned: seq<Option<string>>, c: Option<string>)
    requires Every(Replaced(sha1, server, length), pwned)
    requires Generated(length, c) && CandidateCheck(sha1, server)(c) == Ok(true)
    ensures Every(Replaced(sha1, server, length), pwned + [c])
  {
    assert (pwned + [c])[..|pwned|] == pwned;
  }

  /** The loop's candidates close a run when the last one is not pwned or
      the retries are used up. */
  lemma RegenerateRunSnoc(sha1: Sha1, server: Server, length: PyValue, retries: nat,
                          pwned: seq<Option<string>>, c: Option<string>)
    requires |pwned| <= retries && Every(Replaced(sha1, server, length), pwned) && Generated(length, c)
    requires CandidateCheck(sha1, server)(c) == Ok(true) ==> |pwned| == retries
    ensures RegenerateRun(sha1, server, length, retries, pwned + [c])
  {
    var tried := pwned + [c];
    assert tried[|tried| - 1] == c && tried[..|tried| - 1] == pwned;
    assert CandidateCheck(sha1, server)(c) == Status(sha1, server, AsPyValue(c));
  }

  /** The log after the candidates `pwned` and then `c`. */
  lemma SentSnoc(sha1: Sha1, sent0: seq<string>, pwned: seq<Option<string>>, c: Option<string>)
    ensures sent0 + Flatten(CandidateQueries(sha1), pwned) + CandidateQueries(sha1)(c) ==
            sent0 + Flatten(CandidateQueries(sha1), pwned + [c])
  {
    FlattenSnoc(CandidateQueries(sha1), pwned, c);
    AppendAssoc(sent0, Flatten(CandidateQueries(sha1), pwned), CandidateQueries(sha1)(c));
  }

  /** The regeneration loop of the `-g` branch: generate a password and check
      it, again while it is pwned, at most `retries` times more. `tried`
      holds every candidate in order. */
  method GenerateUnpwned(client: RangeClient, sha1: Sha1, passwordGenLength: PyValue, retries: nat)
    returns (candidate: Option<string>, status: Result<bool>, ghost tried: seq<Option<string>>)
    modifies client
    ensures RegenerateRun(sha1, client.server, passwordGenLength, retries, tried)
    ensures candidate == tried[|tried| - 1]
    ensures status == Status(sha1, client.server, AsPyValue(candidate))
    ensures client.sent == old(client.sent) + RegenerateSent(sha1, tried)
  {
    ghost var server := client.server;
    ghost var sent0 := client.sent;
    candidate, status := GenerateAndCheck(client, sha1, passwordGenLength);
    ghost var pwned: seq<Option<string>> := [];
    var attempts := 0;
    while status == Ok(true) && attempts < retries
      invariant client.server == server
      invariant |pwned| == attempts <= retries
      invariant Generated(passwordGenLength, candidate)
      invariant Every(Replaced(sha1, server, passwordGenLength), pwned)
      invariant status == CandidateCheck(sha1, server)(candidate)
      invariant client.sent == sent0 + Flatten(CandidateQueries(sha1), pwned) + CandidateQueries(sha1)(candidate)
      decreases retries - attempts
    {
      candidate, status, pwned := Regenerate(client, sha1, passwordGenLength, sent0, pwned, candidate);
      attempts := attempts + 1;
    }
    SentSnoc(sha1, sent0, pwned, candidate);
    tried := pwned + [candidate];
    RegenerateRunSnoc(sha1, server, passwordGenLength, retries, pwned, candidate);
  }

  /** One pass of the regeneration loop: the pwned `candidate` joins the
      replaced ones, and a fresh candidate is generated and checked. */
  method Regenerate(client: RangeClient, sha1: Sha1, passwordGenLength: PyValue, ghost sent0: seq<string>,
                    ghost pwned: seq<Option<string>>, candidate: Option<string>)
    returns (next: Option<string>, status: Result<bool>, ghost replaced: seq<Option<string>>)
    requires Every(Replaced(sha1, client.server, passwordGenLength), pwned)
    requires Generated(passwordGenLength, candidate)
    requires CandidateCheck(sha1, client.server)(candidate) == Ok(true)
    requires client.sent == sent0 + Flatten(CandidateQueries(sha1), pwned) + CandidateQueries(sha1)(candidate)
    modifies client
    ensures replaced == pwned + [candidate]
    ensures Every(Replaced(sha1, client.server, passwordGenLength), replaced)
    ensures Generated(passwordGenLength, next)
    ensures status == CandidateCheck(sha1, client.server)(next)
    ensures client.sent == sent0 + Flatten(CandidateQueries(sha1), replaced) + CandidateQueries(sha1)(next)
  {
    ReplacedSnoc(sha1, client.server, passwordGenLength, pwned, candidate);
    SentSnoc(sha1, sent0, pwned, candidate);
    replaced := pwned + [candidate];
    next, status := GenerateAndCheck(client, sha1, passwordGenLength);
  }

  /** One attempt of the `-g` branch: `generate_password` then `check_status`. */
  method GenerateAndCheck(client: RangeClient, sha1: Sha1, passwordGenLength: PyValue)
    returns (candidate: Option<string>, status: Result<bool>)
    modifies client
    ensures Generated(passwordGenLength, candidate)
    ensures status == CandidateCheck(sha1, client.server)(candidate)
    ensures client.sent == old(client.sent) + CandidateQueries(sha1)(candidate)
  {
    candidate := GeneratePassword(passwordGenLength);
    status := CheckStatus(client, sha1, AsPyValue(candidate));
  }

  /** What the `-g` branch leaves after the candidates `tried`, on top of
      the records `before`: the exception, the password kept, its status
      and the records. */
  function GenFields(sha1: Sha1, server: Server, before: Records, tried: seq<Option<string>>)
    : (Option<Error>, Option<string>, Option<bool>, Records)
    requires tried != [] && DistinctKeys(before)
  {
    var last := tried[|tried| - 1];
    var outcome := GenOutcome(Status(sha1, server, AsPyValue(last)));
    if outcome.Some? || last.None? then (outcome, None, None, before)
    else (None, last, Some(false), Put(before, PyStr(last.value), false))
  }

  /** The values the `-g` branch computes: the exception it raises, or the
      unpwned password, its status and the records with it added. */
  method GenerateValues(client: RangeClient, sha1: Sha1, passwordGenLength: PyValue, retries: nat,
                        records: Records)
    returns (raised: Option<Error>, passwordGen: Option<string>, passwordGenStatus: Option<bool>,
             newRecords: Records, ghost tried: seq<Option<string>>)
    requires DistinctKeys(records)
    modifies client
    ensures RegenerateRun(sha1, client.server, passwordGenLength, retries, tried)
    ensures (raised, passwordGen, passwordGenStatus, newRecords) == GenFields(sha1, client.server, records, tried)
    ensures DistinctKeys(newRecords)
    ensures client.sent == old(client.sent) + RegenerateSent(sha1, tried)
  {
    var candidate, candidateStatus;
    candidate, candidateStatus, tried := GenerateUnpwned(client, sha1, passwordGenLength, retries);
    raised := GenOutcome(candidateStatus);
    if raised.Some? {
      return raised, None, None, records, tried;
    }
    CheckedCandidateExists(sha1, client.server, candidate);
    return None, candidate, Some(false), Put(records, PyStr(candidate.value), false), tried;
  }

  // ---------------------------------------------------------------------
  // The instance

  class PwnedWord {
    var dictRecords: Records
    var passwordString: Option<PyValue>
    var passwordStatus: Option<bool>
    var returnDict: Option<Dict<string, bool>>
    var returnDictStripped: Option<Records>
    var passwordGen: Option<string>
    var passwordGenStatus: Option<bool>
    /** The exception that escapes `__init__`, if any: in Python no
        instance is then returned at all. */
    var raised: Option<Error>
    /** The candidates the `-g` branch generated, in order. */
    ghost var generated: seq<Option<string>>

    ghost predicate Valid()
      reads this
    {
      DistinctKeys(dictRecords)
    }

    /** `__init__`: an argument that is None skips its check; the first
        exception ends the construction. `retries` bounds the regenerate loop. */
    constructor (client: RangeClient, sha1: Sha1, fs: map<string, string>,
                 passwordString: PyValue, passwordFileString: Option<string>,
                 passwordGenLength: PyValue, passwordVerbose: PyValue, retries: nat)
      modifies client
      ensures Valid()
      ensures (this.passwordString, passwordStatus) == SingleFields(sha1, client.server, passwordString, passwordVerbose)
      ensures (returnDict, returnDictStripped) ==
                FileFields(sha1, client.server, fs, passwordString, passwordFileString, passwordVerbose)
      ensures var pre := ChecksBeforeGenerate(sha1, client.server, fs, passwordString, passwordFileString, passwordVerbose);
        (pre.Fail? ==> raised == Some(pre.error) && generated == []) &&
        (pre.Ok? && passwordGenLength.PyNone? ==> raised.None? && dictRecords == pre.value && generated == []) &&
        (pre.Fail? || passwordGenLength.PyNone? ==> passwordGen.None? && passwordGenStatus.None?)
      ensures var pre := ChecksBeforeGenerate(sha1, client.server, fs, passwordString, passwordFileString, passwordVerbose);
        pre.Ok? && !passwordGenLength.PyNone? ==>
          RegenerateRun(sha1, client.server, passwordGenLength, retries, generated) &&
          (raised, passwordGen, passwordGenStatus, dictRecords) == GenFields(sha1, client.server, pre.value, generated)
      ensures client.sent == old(client.sent) + SingleSent(sha1, passwordString) +
                FileSent(sha1, client.server, fs, passwordString, passwordFileString, passwordVerbose) +
                RegenerateSent(sha1, generated)
    {
      dictRecords := [];
      this.passwordString := None;
      passwordStatus := None;
      returnDict := None;
      returnDictStripped := None;
      passwordGen := None;
      passwordGenStatus := None;
      raised := None;
      generated := [];
      new;
      ghost var pre := ChecksBeforeGenerate(sha1, client.server, fs, passwordString, passwordFileString, passwordVerbose);
      var r := CheckTextAndFile(client, sha1, fs, passwordString, passwordFileString, passwordVerbose);
      generated := [];
      if r.Some? || passwordGenLength.PyNone? {
        raised := r;
        return;
      }
      assert pre.Ok? && dictRecords == pre.value;
      r := GenerateCheck(client, sha1, passwordGenLength, retries);
      raised := r;
    }

    /** The `-t` and `-f` branches of `__init__`, on fresh records: each runs
        unless its argument is None, and the first exception stops them. */
    method CheckTextAndFile(client: RangeClient, sha1: Sha1, fs: map<string, string>,
                            passwordString: PyValue, passwordFileString: Option<string>,
                            passwordVerbose: PyValue)
      returns (r: Option<Error>)
      requires Valid() && dictRecords == []
      requires this.passwordString.None? && passwordStatus.None? && returnDict.None? && returnDictStripped.None?
      modifies this, client
      ensures Valid()
      ensures var pre := ChecksBeforeGenerate(sha1, client.server, fs, passwordString, passwordFileString, passwordVerbose);
        (pre.Fail? ==> r == Some(pre.error)) && (pre.Ok? ==> r.None? && dictRecords == pre.value)
      ensures (this.passwordString, passwordStatus) == SingleFields(sha1, client.server, passwordString, passwordVerbose)
      ensures (returnDict, returnDictStripped) ==
                FileFields(sha1, client.server, fs, passwordString, passwordFileString, passwordVerbose)
      ensures passwordGen == old(passwordGen) && passwordGenStatus == old(passwordGenStatus)
      ensures client.sent == old(client.sent) + SingleSent(sha1, passwordString) +
                FileSent(sha1, client.server, fs, passwordString, passwordFileString, passwordVerbose)
    {
      r := None;
      ghost var single := SingleStep(sha1, client.server, passwordString, passwordVerbose);
      ghost var sentSingle := old(client.sent) + SingleSent(sha1, passwordString);
      if !passwordString.PyNone? {
        r := SingleCheck(client, sha1, passwordString, passwordVerbose);
      }
      assert r == (if single.Fail? then Some(single.error) else None);
      assert single.Ok? ==> dictRecords == single.value;
      assert client.sent == sentSingle;
      if r.Some? {
        assert FileSent(sha1, client.server, fs, passwordString, passwordFileString, passwordVerbose) == [];
        return;
      }
      ghost var file := FileStep(sha1, client.server, fs, dictRecords, passwordFileString, passwordVerbose);
      if passwordFileString.Some? {
        ghost var listed := CheckListSpec(sha1, client.server, fs, passwordFileString.value);
        assert FileFields(sha1, client.server, fs, passwordString, passwordFileString, passwordVerbose) ==
          if listed.Fail? then (None, None)
          else (if IsTrue(passwordVerbose) && listed.value != [] then Some(listed.value) else None,
                if IsFalse(passwordVerbose) && listed.value != [] then Some(Positional(listed.value)) else None);
        r := FileCheck(client, sha1, fs, passwordFileString.value, passwordVerbose);
      }
      assert client.sent == sentSingle + FileSent(sha1, client.server, fs, passwordString, passwordFileString, passwordVerbose);
    }

    /** The `-t` branch: one `check_status`, recorded as verbose says. */
    method SingleCheck(client: RangeClient, sha1: Sha1, password: PyValue, verbose: PyValue)
      returns (raised: Option<Error>)
      requires Valid()
      modifies this, client
      ensures Valid()
      ensures client.sent == old(client.sent) + Queries(sha1, password)
      ensures var st := Status(sha1, client.server, password);
        st.Fail? ==>
          raised == Some(st.error) && dictRecords == old(dictRecords) &&
          passwordString == old(passwordString) && passwordStatus == old(passwordStatus)
      ensures var st := Status(sha1, client.server, password);
        st.Ok? ==>
          raised.None? &&
          dictRecords == RecordSingle(old(dictRecords), password, st.value, verbose) &&
          passwordString == (if IsTrue(verbose) then Some(password) else old(passwordString)) &&
          passwordStatus == (if IsTrue(verbose) || IsFalse(verbose) then Some(st.value) else old(passwordStatus))
      ensures returnDict == old(returnDict) && returnDictStripped == old(returnDictStripped)
      ensures passwordGen == old(passwordGen) && passwordGenStatus == old(passwordGenStatus)
      ensures this.raised == old(this.raised)
    {
      var status := CheckStatus(client, sha1, password);
      if status.Fail? {
        return Some(status.error);
      }
      RecordStatus(password, status.value, verbose);
      return None;
    }

    /** The recording half of the `-t` branch: the password and its status
        (verbose True) or the status alone (verbose False). */
    method RecordStatus(password: PyValue, status: bool, verbose: PyValue)
      requires Valid()
      modifies this`dictRecords, this`passwordString, this`passwordStatus
      ensures Valid()
      ensures dictRecords == RecordSingle(old(dictRecords), password, status, verbose)
      ensures passwordString == (if IsTrue(verbose) then Some(password) else old(passwordString))
      ensures passwordStatus == (if IsTrue(verbose) || IsFalse(verbose) then Some(status) else old(passwordStatus))
    {
      if IsTrue(verbose) {
        passwordString := Some(password);
        passwordStatus := Some(status);
        dictRecords := Put(dictRecords, password, status);
      }
      if IsFalse(verbose) {
        passwordStatus := Some(status);
        dictRecords := Put(dictRecords, StatusKey, status);
      }
    }

    /** The `-f` branch: one `check_list`, whose entries are added to the
        records as they are (verbose) or under their positions (not verbose),
        once per entry as the source's loops do. */
    method FileCheck(client: RangeClient, sha1: Sha1, fs: map<string, string>, path: string, verbose: PyValue)
      returns (raised: Option<Error>)
      requires Valid()
      modifies this, client
      ensures Valid()
      ensures var r := CheckListSpec(sha1, client.server, fs, path);
        r.Fail? ==>
          raised == Some(r.error) && dictRecords == old(dictRecords) &&
          returnDict == old(returnDict) && returnDictStripped == old(returnDictStripped)
      ensures var r := CheckListSpec(sha1, client.server, fs, path);
        r.Ok? ==>
          raised.None? &&
          dictRecords == RecordFile(old(dictRecords), r.value, verbose) &&
          returnDict == (if IsTrue(verbose) && r.value != [] then Some(r.value) else old(returnDict)) &&
          returnDictStripped ==
            (if IsFalse(verbose) && r.value != [] then Some(Positional(r.value)) else old(returnDictStripped))
      ensures passwordString == old(passwordString) && passwordStatus == old(passwordStatus)
      ensures passwordGen == old(passwordGen) && passwordGenStatus == old(passwordGenStatus)
      ensures this.raised == old(this.raised)
      ensures client.sent == old(client.sent) + ListSent(sha1, client.server, fs, path)
    {
      var result := CheckList(client, sha1, fs, path);
      if result.Fail? {
        return Some(result.error);
      }
      RecordBatch(result.value, verbose);
      return None;
    }

    /** The recording half of the `-f` branch: the batch result is added to
        the records as it is (verbose) or under its positions (not verbose). */
    method RecordBatch(d: Dict<string, bool>, verbose: PyValue)
      requires Valid() && DistinctKeys(d)
      modifies this
      ensures Valid()
      ensures dictRecords == RecordFile(old(dictRecords), d, verbose)
      ensures returnDict == (if IsTrue(verbose) && d != [] then Some(d) else old(returnDict))
      ensures returnDictStripped == (if IsFalse(verbose) && d != [] then Some(Positional(d)) else old(returnDictStripped))
      ensures passwordString == old(passwordString) && passwordStatus == old(passwordStatus)
      ensures passwordGen == old(passwordGen) && passwordGenStatus == old(passwordGenStatus)
      ensures this.raised == old(this.raised)
    {
      if IsTrue(verbose) {
        RecordItems(d);
      }
      if IsFalse(verbose) {
        var stripped := StripPasswords(d);
        RecordStripped(stripped);
      }
    }

    /** The verbose loop over the batch result: per entry, remember the
        result and update the records with all of it. */
    method RecordItems(d: Dict<string, bool>)
      requires Valid() && DistinctKeys(d)
      modifies this`dictRecords, this`returnDict
      ensures Valid()
      ensures dictRecords == Update(old(dictRecords), Keyed(d))
      ensures returnDict == if d != [] then Some(d) else old(returnDict)
    {
      KeyedDistinct(d);
      var items := Keyed(d);
      ghost var records0 := dictRecords;
      var i := 0;
      while i < |d|
        invariant 0 <= i <= |d|
        invariant DistinctKeys(dictRecords)
        invariant dictRecords == if i == 0 then records0 else Update(records0, items)
        invariant returnDict == if i == 0 then old(returnDict) else Some(d)
      {
        returnDict := Some(d);
        if i > 0 {
          UpdateIdempotent(records0, items);
        }
        dictRecords := Update(dictRecords, items);
        i := i + 1;
      }
    }

    /** The non-verbose loop over the re-keyed batch result: per entry,
        remember the stripped dict and update the records with all of it. */
    method RecordStripped(stripped: Records)
      requires Valid() && DistinctKeys(stripped)
      modifies this`dictRecords, this`returnDictStripped
      ensures Valid()
      ensures dictRecords == Update(old(dictRecords), stripped)
      ensures returnDictStripped == if stripped != [] then Some(stripped) else old(returnDictStripped)
    {
      ghost var records0 := dictRecords;
      var i := 0;
      while i < |stripped|
        invariant 0 <= i <= |stripped|
        invariant DistinctKeys(dictRecords)
        invariant dictRecords == if i == 0 then records0 else Update(records0, stripped)
        invariant returnDictStripped == if i == 0 then old(returnDictStripped) else Some(stripped)
      {
        returnDictStripped := Some(stripped);
        if i > 0 {
          UpdateIdempotent(records0, stripped);
        }
        dictRecords := Update(dictRecords, stripped);
        i := i + 1;
      }
    }

    /** The `-g` branch: generate and check, regenerating while the
        password is pwned, then record it with its status. */
    method GenerateCheck(client: RangeClient, sha1: Sha1, passwordGenLength: PyValue, retries: nat)
      returns (raised: Option<Error>)
      requires Valid() && passwordGen.None? && passwordGenStatus.None?
      modifies this`generated, this`passwordGen, this`passwordGenStatus, this`dictRecords, client
      ensures Valid()
      ensures RegenerateRun(sha1, client.server, passwordGenLength, retries, generated)
      ensures (raised, passwordGen, passwordGenStatus, dictRecords) == GenFields(sha1, client.server, old(dictRecords), generated)
      ensures passwordString == old(passwordString) && passwordStatus == old(passwordStatus)
      ensures returnDict == old(returnDict) && returnDictStripped == old(returnDictStripped)
      ensures client.sent == old(client.sent) + RegenerateSent(sha1, generated)
    {
      var gen, genStatus, records;
      ghost var tried;
      raised, gen, genStatus, records, tried := GenerateValues(client, sha1, passwordGenLength, retries, dictRecords);
      passwordGen, passwordGenStatus, dictRecords, generated := gen, genStatus, records, tried;
    }
  }
}
