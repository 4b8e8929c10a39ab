# PwnedWord password checker: a Dafny model

This project models a small command-line password checker. The checker asks
the "Have I Been Pwned" range service whether a password appears in a known
breach, without revealing the password. It never sends the password or its
full hash: it sends only the first five characters of the uppercase SHA-1
hex digest, then searches the returned `SUFFIX:COUNT` lines for the other
35 characters (k-anonymity).

The model covers three parts of the program:

- **`pwnedcheck`**:
  - `hash_password_sha1` turns a str, or an exact int through its decimal text, into the uppercase hex SHA-1 digest. Any other value raises.
  - `return_hashlist_hibp` performs one GET for the five-character prefix. A not-ok response or a connection failure raises.
  - `check_status` is the lookup of one credential.
  - `check_list` reads a file, checks every line in order and returns `dict(zip(lines, statuses))`.
- **`pwgen`**: `generate_password` returns a password of the requested length over letters, digits and punctuation, or None for a length that is not a positive int.
- **`app`**: `PwnedWord.__init__` runs three optional branches in order, recording results in an insertion-ordered dict:
  - a single password (`-t`);
  - a password file (`-f`), keyed by password when verbose is True and by list position when it is False;
  - a generated password (`-g`), regenerated while it is pwned.

The files:

- `outcomes.dfy`: `Option` and `Result`. Every exception the core raises is one `Error` constructor.
- `pyvalues.dfy`: the dynamic Python values the entry points accept. It gives the meaning of `is True`, `is False` and `isinstance(x, int)`. A bool, or an instance of another subclass of int such as an `IntEnum` member, counts as an int there, but not for `type(x) is int`.
- `hex.dfy`: `hexdigest()` and `upper()` on a digest, and the parse that undoes them.
- `decimal.dfy`: `str(n)` for ints, and its parse.
- `lines.dfy`: `str.splitlines()`, with Python's full set of line boundaries, and `line.split(":")[0]`.
- `ordered_dict.dfy`: Python's insertion-ordered `dict`, as a list of pairs. It covers `d[k] = v`, `d.update(...)`, `dict(pairs)` and `zip`.
- `pwnedcheck.dfy`:
  - the specification of one lookup (`Status`, `Queries`) and of the batch (`CheckListSpec`, `BatchUrls`);
  - an HTTP client class `RangeClient`, which records every URL it requests;
  - the imperative `check_status` and `check_list`, each proved against those specifications.
- `pwgen.dfy`: `generate_password` as a loop that draws characters from the alphabet.
- `app.dfy`: the class `PwnedWord`, whose fields are the instance attributes. Its constructor is `__init__`, and the branches are methods that update the fields in place. Their results are stated through specification functions (`ChecksBeforeGenerate`, `RecordSingle`, `RecordFile`, `Positional`).

A note on three guards in the source. The `is not None` guards at app.py:84, app.py:93 and app.py:135 cannot be false when reached. `check_list` and `check_status` never return None: they return a value or raise. The comments next to those guards say that None means an error. In the code, however, the error propagates out of `__init__`. The model follows the code: the first exception ends the construction, and the field `raised` holds it. The tests in `test_app.py` expect None for a wrong input type, where the code raises.

## Model

| member | source | states |
|---|---|---|
| Hex.HexDigest | pwnedcheck.py:28 | `hexdigest()` renders two characters per digest byte |
| Hex.UpperHexShape | pwnedcheck.py:26-28 | the rendered, upper-cased digest has twice as many characters as bytes, every one an uppercase hex digit |
| Hex.ToUpper | pwnedcheck.py:28 | `upper()` keeps the length, turns each lowercase ASCII letter into an uppercase one and leaves every other character alone; `UpperHexShape` and `HexRoundTrip` pin it on a digest |
| Hex.HexRoundTrip | pwnedcheck.py:28 | rendering loses nothing: parsing the uppercase hex text gives back exactly the digest bytes |
| Decimal.NatToDecimal | pwnedcheck.py:33 | `str(n)` of a natural number is non-empty, all digits, and has no leading zero unless it is "0" |
| Decimal.IntToDecimal | pwnedcheck.py:33 | `str(n)` is non-empty and starts with a minus sign exactly for a negative n, and is all digits otherwise; `DecimalRoundTrip` shows it denotes n |
| Decimal.DecimalRoundTrip | pwnedcheck.py:32-33 | `str(n)` of any int, negative ones included, reads back as n |
| Decimal.DecimalInjective | pwnedcheck.py:32-36 | distinct ints are hashed through distinct texts |
| Lines.SplitLines | pwnedcheck.py:80 | no line produced by `splitlines()` contains a line boundary; `SplitJoinRoundTrip` shows no line is lost, merged or split |
| Lines.SplitJoinRoundTrip | pwnedcheck.py:80 | text made of boundary-free lines, each ended by any break (a single boundary character or CR LF), followed by an optional unterminated last line, splits back into exactly those lines; an empty last piece opens no line |
| Lines.SplitStep | pwnedcheck.py:80 | one boundary-free line and its break come off the front of the text as one line, unless a lone CR is followed by LF |
| Lines.SplitJoinRecords | pwnedcheck.py:80 | non-empty boundary-free lines, each ended by a break except perhaps the last, split back into exactly those lines |
| Lines.FirstField | pwnedcheck.py:81-83 | `split(":")[0]` is the longest colon-free prefix of the line: it has no colon, and a colon follows it unless it is the whole line |
| Lines.FirstFieldOfRecord | pwnedcheck.py:81-84 | the first field of a `SUFFIX:COUNT` record is its suffix |
| OrderedDict.Put | app.py:66 | `d[k] = v` keeps an existing key in its place and appends a new key last; keys stay distinct |
| OrderedDict.PutGet | app.py:66 | after `d[k] = v`, k maps to v and every other key keeps its value |
| OrderedDict.Update | app.py:90 | `d.update(pairs)` keeps the keys distinct |
| OrderedDict.UpdateGetLast | app.py:90 | after `d.update(pairs)` a key of pairs holds the value of its last pair |
| OrderedDict.UpdateGetOther | app.py:90 | `d.update(pairs)` leaves keys that pairs does not mention unchanged |
| OrderedDict.UpdateKeys | app.py:90 | the keys after `d.update(pairs)` are the old keys plus the keys of pairs, and no others |
| OrderedDict.UpdateIdempotent | app.py:85-90 | repeating the same update, as the loop over the items does once per item, equals doing it once |
| OrderedDict.Zip | pwnedcheck.py:110 | `zip` stops at the shorter input and pairs elements index by index |
| OrderedDict.FromPairs | pwnedcheck.py:110 | `dict(pairs)` has distinct keys; `FromPairsKeys` gives its keys and `FromPairsDistinct` its entries |
| OrderedDict.FromPairsKeys | pwnedcheck.py:110 | the keys of `dict(pairs)` are the distinct keys of pairs in first-occurrence order |
| OrderedDict.DedupSpec | pwnedcheck.py:110 | the de-duplicated keys are distinct and no more numerous; they hold the same elements, ordered by first occurrence |
| OrderedDict.FromPairsDistinct | app.py:106-107 | `dict(pairs)` over pairs with distinct keys is those pairs unchanged |
| PwnedCheck.Fingerprint | pwnedcheck.py:23-28 | the fingerprint of a text is 40 uppercase hex characters |
| PwnedCheck.HashPasswordSha1 | pwnedcheck.py:17-40 | succeeds exactly for a str or an exact int (not a bool, nor any other int subclass instance); the result is a 40-character uppercase digest; every failure is the wrong-input-type error |
| PwnedCheck.Prefix | pwnedcheck.py:49 | `password_hash[:5]` has five characters, or all of a shorter text; `PrefixSuffixSplit` shows it starts the digest |
| PwnedCheck.Suffix | pwnedcheck.py:84 | `password_hash[5:]` has all but five characters, or none of a shorter text; `PrefixSuffixSplit` shows prefix and suffix make up the digest |
| PwnedCheck.PrefixSuffixSplit | pwnedcheck.py:49 | prefix and suffix together are the digest; for a digest they have 5 and 35 characters |
| PwnedCheck.QueriesAreRangeRequests | pwnedcheck.py:49-54 | a lookup sends at most one request, and it is the endpoint followed by five uppercase hex characters |
| PwnedCheck.OnlyPrefixSent | pwnedcheck.py:49-54 | the single request is the endpoint followed by the first five digest characters; credentials whose digests share a prefix send identical requests |
| PwnedCheck.RangeClient.Get | pwnedcheck.py:52-54 | a GET returns the service's reply to the URL and appends the URL to the request log |
| PwnedCheck.Reply.Ok | pwnedcheck.py:56 | `response.ok` is false exactly for a status code from 400 to 599 |
| PwnedCheck.ReturnHashlistHibp | pwnedcheck.py:43-65 | the result is the body of an ok response, or the fetch error with the status code, or the connection error; exactly one URL, the prefix URL, is requested |
| PwnedCheck.FetchFailureIsError | pwnedcheck.py:56-65 | an unreachable service or a not-ok response makes the lookup fail with the matching error, never answer False |
| PwnedCheck.ScanRange | pwnedcheck.py:80-86 | True exactly when some line's field before its first colon equals the suffix |
| PwnedCheck.EntryLinesShape | pwnedcheck.py:80-83 | every `SUFFIX:COUNT` record with a colon-free, boundary-free suffix is a non-empty line without a boundary |
| PwnedCheck.SplitResponseBody | pwnedcheck.py:80 | `splitlines()` of a well-formed response gives back exactly its records, in order |
| PwnedCheck.ListedIffReturned | pwnedcheck.py:80-86 | on a well-formed range response, whatever line breaks separate its records and whether or not the last record is ended, the suffix is found exactly when one of the returned records carries it; an empty body lists nothing |
| PwnedCheck.CheckStatus | pwnedcheck.py:68-90 | the answer is the lookup specification and the requests sent are exactly its queries (one, or none when hashing fails) |
| PwnedCheck.StatusDeterminedByReplies | pwnedcheck.py:72-86 | two services that answer the sent request alike give the same status |
| PwnedCheck.IntCheckedAsDecimalText | pwnedcheck.py:30-36 | an int is checked, and queried, exactly as its decimal text is |
| PwnedCheck.WrongTypeIsError | pwnedcheck.py:30-40 | None, a bool, an int subclass instance or any other value that is not a str or an exact int is the wrong-input-type error and sends nothing |
| PwnedCheck.RunChecksOk | pwnedcheck.py:104-106 | the batch succeeds exactly when every line's check does, with the i-th status for the i-th line |
| PwnedCheck.RunChecksFail | pwnedcheck.py:104-106 | a failing batch fails with the error of its first failing line |
| PwnedCheck.RunChecksStep | pwnedcheck.py:105-106 | one more line extends the batch by that line's check |
| PwnedCheck.BatchUrlsStep | pwnedcheck.py:105-106 | one more line adds that line's single request to the request log |
| PwnedCheck.FailurePersists | pwnedcheck.py:104-106 | once a prefix of the lines fails, no later line changes the outcome |
| PwnedCheck.CheckLines | pwnedcheck.py:104-106 | the loop's result is the batch specification; on success the log is one request per line in order; on failure there is a first failing line, every earlier line succeeded, and the log holds the requests up to and including it |
| PwnedCheck.FirstFailingAt | pwnedcheck.py:104-106 | a line that fails after every earlier line succeeded is the first failing line |
| PwnedCheck.MissingFileIsError | pwnedcheck.py:99-101 | a path that does not exist is the file-not-found error |
| PwnedCheck.CheckListResult | pwnedcheck.py:100-112 | the result's keys are the distinct lines in first-occurrence order; a line at its last occurrence holds its own status |
| PwnedCheck.ListSentAreRangeRequests | pwnedcheck.py:93-116 | a batch sends at most one request per line of the file, each a range request |
| PwnedCheck.RunChecksDict | pwnedcheck.py:104-110 | for any per-line check, the keys of `dict(zip(lines, results))` are the distinct lines in first-occurrence order, and a line at its last occurrence holds its own result |
| PwnedCheck.CheckList | pwnedcheck.py:93-116 | the result is the `check_list` specification; no request for a missing file; one per line on success; on failure the requests up to and including the first failing line, after which nothing is sent |
| PwGen.BranchCases | pwgen.py:11-32 | a positive int (True counts as 1) reaches the generating arm, zero and negatives reach the error arm, the last `else` is unreachable; the alphabet has 94 characters |
| PwGen.IntSubclassLength | pwgen.py:11-24 | an int subclass instance, such as an `IntEnum` member, passes the `isinstance` test and acts as its integer value: a positive one gives a password of that length |
| PwGen.GeneratePassword | pwgen.py:10-32 | a password exactly when the length is a positive int, of exactly that length and drawn from the alphabet |
| App.SingleRecordsExactly | app.py:57-73 | a single check on fresh records records `{password: status}` when verbose is True, `{"Password Status": status}` when False, and nothing otherwise |
| App.RecordSingle | app.py:59-73 | the single check's records keep distinct keys; `SingleRecordsExactly` gives their contents per verbose value |
| App.RecordFile | app.py:84-115 | the file check's records keep distinct keys; `VerboseFileRecords` and `PositionalAddsPositions` give their contents |
| App.Positional | app.py:98-107 | the positional dict has distinct keys; `PositionalSpec` shows its keys are 1..n and its values the statuses in order |
| App.PositionalSpec | app.py:98-107 | the stripped dict has keys 1..n in order and position i holds the i-th status |
| App.PositionsDistinct | app.py:100-101 | the positions from `enumerate(..., 1)` are distinct |
| App.PositionsCountDistinctLines | app.py:100-107 | positions number the distinct passwords of the file, not its lines; there are at most as many as lines |
| App.VerboseFileRecords | app.py:84-90 | a verbose file check gives each password of the batch its status and leaves every other key as it was |
| App.PositionalAddsPositions | app.py:106-115 | positional re-keying adds only int keys to records that held at most "Password Status" |
| App.NonVerboseHidesPasswords | app.py:68-73 | with verbose False the single and file checks record no password: each key is "Password Status" or a list position |
| App.KeyedDistinct | app.py:90 | distinct passwords give distinct record keys |
| App.StripPasswords | app.py:98-107 | the two list-building loops and `dict(zip(...))` give the positional dict, with keys 1..n and the statuses in order |
| App.GenerateUnpwned | app.py:121-130 | the candidates tried number at most `retries + 1`; each was produced by `generate_password`; every one before the last was pwned; a last one still pwned means all attempts are used up; the returned candidate and status are the last one and its lookup; the request log grows by each candidate's lookup, in order |
| App.Regenerate | app.py:126-130 | one pass of the loop: the pwned candidate joins the replaced ones, a new candidate is generated and checked, and the log grows by its lookup alone |
| App.GenerateAndCheck | app.py:121-122 | one attempt: a candidate `generate_password` may return, the lookup's answer for it, and exactly that lookup's request added to the log |
| App.GenerateValues | app.py:118-141 | the `-g` branch's exception, kept password, its status and records are those `GenFields` derives from the last candidate's lookup; the log grows by one lookup per candidate |
| App.RegenerateSentAreRangeRequests | app.py:121-130 | a `-g` run sends at most one request per candidate, each a range request |
| App.OnlyRangeRequestsSent | app.py:55-130 | whatever the arguments, the single, file and generate branches together send only range requests: no password and no full digest |
| App.RegenerateRefusesLength | app.py:118-122 | with a length that is not a positive int, the first candidate is None and the branch raises the wrong-input-type error |
| App.RegenerateSucceeds | app.py:126-141 | a run that raises nothing ends on a generated password the lookup finds not pwned |
| App.RegenerateGivesUp | app.py:126-130 | a run that gives up has tried `retries + 1` candidates, each generated for the length and found pwned |
| App.ReplacedNeedsLength | app.py:121-130 | a candidate can be found pwned and replaced only when the length is a positive int |
| App.CheckedCandidateExists | app.py:122 | the lookup answers only for a generated password; a None candidate is refused |
| App.FieldsFollowVerbose | app.py:59-115 | with verbose False no password is kept and no verbose dict; with verbose True no stripped dict; a status is kept exactly when the lookup succeeded under a bool verbose, and it is that status |
| App.PwnedWord.constructor | app.py:43-141 | an exception from the single or file check is raised and `-g` is not run; `password_string`, `password_status`, `return_dict` and `return_dict_stripped` are those of the `-t` and `-f` branches; without `-g`, or after an exception, `password_gen` and `password_gen_status` are never set; with `-g`, the candidates form a regenerate run and the exception, `password_gen`, `password_gen_status` and the records follow from its last candidate's lookup; the request log is the single branch's lookup, then the file branch's requests, then one lookup per candidate |
| App.PwnedWord.CheckTextAndFile | app.py:55-115 | each branch runs unless its argument is None; the first error ends construction; otherwise the records are the single then the file check's; `password_string`, `password_status`, `return_dict` and `return_dict_stripped` are what the two branches set; the log grows by the single branch's lookup, then by the file branch's requests, which are none when the single check raised |
| App.PwnedWord.SingleCheck | app.py:55-73 | on error the state is unchanged; otherwise the fields and records change as verbose True/False/other says, and the request log grows by the lookup's queries |
| App.PwnedWord.RecordStatus | app.py:59-73 | the records gain `{password: status}` (verbose True) or `{"Password Status": status}` (verbose False); `password_string` is set only when verbose is True, `password_status` when verbose is a bool |
| App.PwnedWord.FileCheck | app.py:76-115 | on error nothing is recorded; otherwise the batch result, keyed or positional, is added to the records and remembered when non-empty; the request log grows by exactly `check_list`'s requests |
| App.PwnedWord.RecordBatch | app.py:84-115 | the batch result is added as it is when verbose is True and by position when False; only the matching dict attribute is set, and only for a non-empty result |
| App.PwnedWord.RecordItems | app.py:84-90 | after the loop the records are updated with the batch result, remembered when non-empty, other fields untouched |
| App.PwnedWord.RecordStripped | app.py:110-115 | after the loop the records are updated with the stripped dict, remembered when non-empty, other fields untouched |
| App.PwnedWord.GenerateCheck | app.py:118-141 | the candidates form a regenerate run; the exception is the last lookup's error, or `RetriesExhausted` when still pwned; otherwise the records gain the password with status False; the `-t` and `-f` fields are unchanged |

## Left out

- SHA-1 and UTF-8 encoding (pwnedcheck.py:23-24, 34-35) are a function parameter `sha1`, which returns 20 bytes. `hexdigest()` and `upper()` are modelled; the hash function itself is not.
- PwnedCheck.HashPasswordSha1: every str and every int is hashed. CPython's `str(n)` raises `ValueError` for an int of more than 4300 digits, and `encode("UTF-8")` raises `UnicodeEncodeError` for a str holding a lone surrogate; a Dafny `char` cannot hold a surrogate. Neither exception is modelled.
- PwnedCheck.IntCheckedAsDecimalText: holds for every int, including those past CPython's 4300-digit `str(n)` limit, where the source raises instead.
- PwnedCheck.CheckListResult: the service is a fixed function of the URL, so equal lines always get equal statuses. The rule that `dict(zip(...))` keeps the last value for a repeated key therefore cannot show in a `check_list` result; `OrderedDict.UpdateGetLast` states the rule itself.
- The network is a function from URL to reply, behind the logging client `RangeClient`. A response is a status code and a body; its `ok` flag is derived from the code as `requests` derives it. TLS, redirects, timeouts and retries inside `requests` are not modelled.
- The file system is a map from path to file contents. Opening, decoding and newline translation in text mode are not modelled: a file's text is given directly, and `splitlines()` handles every line boundary.
- The `print` calls, `argparse` and the command-line entry point after app.py:144, and the import guard for `requests` (pwnedcheck.py:10-14) have no model.
- Exceptions are `Result` values. The kind of error is kept; the message text is not.
- An instance attribute that `__init__` never sets is a field holding None.
- App.PwnedWord.GenerateCheck: the source regenerates until a password is not pwned, with no bound. The model stops after `retries` extra attempts, with a `RetriesExhausted` error that the source does not have. The loop's termination is therefore not modelled.
- App.GenerateUnpwned: takes the same `retries` bound.
- App.GenerateValues: takes the same `retries` bound, and can raise the same `RetriesExhausted`.
- App.PwnedWord.constructor: takes the same `retries` bound. It also takes the client, `sha1` and the file system as parameters, where the source uses global state.
- Hex.UpperChar: `str.upper()` is modelled for ASCII only, which covers every character a hex digest can contain.
- PwGen.GeneratePassword: the cryptographic randomness of `secrets.choice` is a nondeterministic choice from the alphabet. Uniformity and unpredictability are not modelled.
- PwGen.BranchCases: the alphabet's length is proved. The character ranges of `string.punctuation` are written out as a literal and not derived.
