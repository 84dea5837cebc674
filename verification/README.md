# reconcrab probing rules, modelled in Dafny

reconcrab is a concurrent web directory and subdomain brute-forcer: it combines a
wordlist with a target URL, sends one HTTP GET per (word, mode) probe, retries
transient failures with a linear backoff, pauses all tasks while the machine's CPU is
overloaded, and prints every response whose status is on a fixed allow-list.

This project models the deterministic rules inside that engine, all from
`src/reconcrab.rs`:

- `text.dfy` (module `Text`): the `str` operations the rules depend on. These are
  `trim` (Unicode White_Space), `trim_end_matches('/')`, `starts_with`, `contains`
  and `splitn(2, ':')`.
- `url.dfy` (module `UrlBuilder`): `construct_url`, in Directory and Subdomain mode.
  The parsed base URL is an abstract record (scheme, host, the rest). Whether
  `Url::parse` succeeds and whether `set_host` accepts the new host are inputs.
- `config.dfy` (module `Settings`): `Config::new` and `parse_key_value_pairs`. This
  covers target normalisation, the CPU-ceiling range check, the defaults, and the
  header/cookie map built left to right.
- `wordlist.dfy` (module `Wordlist`): the line filter of `stream_wordlist`. It is
  specified by `KeptEntries` and implemented by the loop in `ReadWordlist`.
- `status.dfy` (module `Status`): `VALID_STATUS_CODES` and its membership test.
- `executor.dfy` (module `Executor`): the retry loop of `make_request`. It runs over
  an injected sequence of per-attempt outcomes and returns the result, the sleeps it
  performed and the number of attempts.
- `throttle.dfy` (module `Throttle`): the CPU monitor's step on the shared pause flag.
  This is a class `PauseFlag` with a `paused` field. It also covers a task's waiter
  loop on that flag.
- `dispatcher.dfy` (module `Dispatcher`): mode selection in `main`, the probe-spawning
  loop of `brute_force`, and the body of one spawned task (construct, request,
  classify).
- `results.dfy` (module `Results`): the `Option` and `Result` wrappers.

Notes on the code:

- `make_request` returns the URL it was asked to fetch, not the response's final URL
  after redirects, and that is the URL a match reports.
- Directory mode does not check that the base URL has a host; only Subdomain mode does.
- A key:value pair is split at its first ':'; further colons stay in the value.
- The CLI help text says the concurrency default is 5000000. `Config::new` uses
  500000, and that is the value modelled.

Normalising an empty (or all-slash) target gives `http:`. The `//` of the scheme is
trimmed as trailing slashes, and `http:` is then not recognised as having a scheme.
`Settings.NormalizeEmptyTarget` exhibits this. Idempotence is proved for every target
whose normalised form keeps its scheme.

## Model

| member | source | states |
|---|---|---|
| Text.IsWhitespace | src/reconcrab.rs:153 | `char::is_whitespace` over the Unicode White_Space set; '/', ':', '#' and '.' are never whitespace, so trimming never touches them |
| Text.TrimEndSlashes | src/reconcrab.rs:84 | the result is a prefix of the input that does not end in '/', and everything cut off is '/' |
| Text.TrimEndSlashesUnique | src/reconcrab.rs:84 | any split into a part not ending in '/' plus a run of slashes is the one trimming makes |
| Text.TrimEndSlashesIdempotent | src/reconcrab.rs:84 | trimming trailing slashes twice is the same as once |
| Text.TrimStart | src/reconcrab.rs:153 | the result is no longer than the input and does not start with whitespace |
| Text.TrimStartIsSuffix | src/reconcrab.rs:153 | `trim_start` returns a suffix of its input |
| Text.TrimStartCutsWhitespace | src/reconcrab.rs:153 | all that `trim_start` removes is whitespace |
| Text.TrimEnd | src/reconcrab.rs:153 | the result is no longer than the input and does not end with whitespace |
| Text.TrimEndIsPrefix | src/reconcrab.rs:153 | `trim_end` returns a prefix of its input |
| Text.TrimEndCutsWhitespace | src/reconcrab.rs:153 | all that `trim_end` removes is whitespace |
| Text.Trim | src/reconcrab.rs:153 | a trimmed string is empty or starts and ends with a non-whitespace character |
| Text.TrimOfTrimmed | src/reconcrab.rs:153 | a string without whitespace at either end is its own trim |
| Text.TrimIdempotent | src/reconcrab.rs:153 | trimming twice is the same as once |
| Text.TrimAllWhitespace | src/reconcrab.rs:153-154 | a blank line trims to nothing |
| Text.TrimKeepsFirst | src/reconcrab.rs:153-154 | a line starting with a non-whitespace character keeps it as the first character of its trim |
| Text.TrimWithin | src/reconcrab.rs:110 | a character absent from a string is absent from its trim |
| Text.FindFirst | src/reconcrab.rs:106 | absent exactly when the character does not occur; otherwise the index of its first occurrence |
| Text.SplitOnce | src/reconcrab.rs:106 | `splitn(2, sep)` gives one part exactly when `sep` does not occur |
| Text.SplitOnceJoins | src/reconcrab.rs:106 | the two parts rejoined around `sep` give the input, and the first part holds no `sep` |
| UrlBuilder.PathToJoin | src/reconcrab.rs:186-190 | the path starts with '/', ends with the whole word, and adds at most one character to it |
| UrlBuilder.SubdomainHost | src/reconcrab.rs:174-178 | the host starts with the word and '.', followed by the base host with one leading `www.` removed, or by the whole base host when it has none |
| UrlBuilder.ConstructUrl | src/reconcrab.rs:168-195 | an unparseable base fails in both modes. Directory mode: the trimmed base followed by the word with a '/' added if missing. Subdomain mode: no host is an error; otherwise the host becomes the subdomain host (or `set_host` rejects it) and all else is kept |
| UrlBuilder.PathToJoinShape | src/reconcrab.rs:186-190 | the joined path is one '/' followed by the word without its leading '/' |
| UrlBuilder.DirectoryShape | src/reconcrab.rs:185-193 | the Directory URL is the base without trailing '/', then '/', then the word without its leading '/' |
| UrlBuilder.DirectoryLeadingSlashIrrelevant | src/reconcrab.rs:185-193 | "api" and "/api" give the same Directory URL for every base |
| UrlBuilder.SubdomainDropsWww | src/reconcrab.rs:174-178 | host `www.H` becomes `W.H`; a host `h` without `www.` becomes `W.h` |
| UrlBuilder.SubdomainOnlyHostChanges | src/reconcrab.rs:172-182 | a successful Subdomain URL keeps the base's scheme and remainder and changes only the host |
| Settings.HasScheme | src/reconcrab.rs:79 | a target recognised as having a scheme starts with "http" and is at least 7 characters long |
| Settings.WithScheme | src/reconcrab.rs:79-83 | the result always has a scheme, ends with the whole target, and is the target itself when it already had one |
| Settings.NormalizeTarget | src/reconcrab.rs:79-84 | the result does not end in '/'. It is the input, with `http://` prefixed unless it names http or https, minus only trailing slashes |
| Settings.NormalizeAddsScheme | src/reconcrab.rs:79-84 | a scheme-less target not ending in '/' becomes exactly `http://` + target |
| Settings.NormalizeIdempotent | src/reconcrab.rs:79-84 | re-normalising a normalised target that kept its scheme changes nothing |
| Settings.NormalizeEmptyTarget | src/reconcrab.rs:79-84 | the empty target normalises to `http:`, which normalises again to `http://http:` |
| Settings.KeyOf | src/reconcrab.rs:106-110 | a pair's key holds no ':', is shorter than the pair, and has no whitespace at either end |
| Settings.ValueOf | src/reconcrab.rs:106-110 | a pair's value is shorter than the pair and has no whitespace at either end |
| Settings.InsertAll | src/reconcrab.rs:104-110 | the map has no more keys than there were insertions; which keys and values it holds is `Settings.InsertAllLookup` |
| Settings.FirstMalformed | src/reconcrab.rs:105-109 | absent exactly when every pair has a ':'; otherwise the index of the first pair without one |
| Settings.Entries | src/reconcrab.rs:106-110 | one (trimmed key, trimmed value) entry per pair, in order |
| Settings.InsertAllSnoc | src/reconcrab.rs:110 | inserting one more entry updates the map at that entry's key |
| Settings.InsertAllLookup | src/reconcrab.rs:104-112 | the keys are exactly the entries' keys, and each holds the value of the last entry with that key |
| Settings.EntriesSnoc | src/reconcrab.rs:105-110 | one more pair adds exactly that pair's entry at the end |
| Settings.PairsMap | src/reconcrab.rs:103-113 | the pairs parse exactly when every pair contains ':' |
| Settings.PairsMapError | src/reconcrab.rs:106-109 | a list with a pair lacking ':' is rejected with an error naming the first such pair |
| Settings.PairsMapKeys | src/reconcrab.rs:103-113 | the parsed map's keys are exactly the trimmed texts before each pair's first ':' |
| Settings.PairsMapLastWins | src/reconcrab.rs:110 | a key maps to the value of the last pair with that key; a later duplicate overwrites |
| Settings.SplitAtFirstColon | src/reconcrab.rs:106-110 | for a key without ':', `key:value` parses to key `trim(key)` and value `trim(value)`, even if value contains ':' |
| Settings.ParseKeyValuePairs | src/reconcrab.rs:103-113 | the loop's result is the map the pairs denote, or the first malformed pair |
| Settings.NewConfig | src/reconcrab.rs:67-101 | header errors come first, then cookie errors, then a CPU ceiling outside [1.0, 100.0]. On success: normalised target, concurrency default 500000, CPU default 50, 15 s timeout, 2 retries |
| Wordlist.IsEntry | src/reconcrab.rs:153-154 | a blank or whitespace-only line is never an entry, and neither is a line starting with '#' |
| Wordlist.KeptEntries | src/reconcrab.rs:152-157 | there are no more entries than lines, and no entry is empty or starts with '#' |
| Wordlist.KeptEntriesAppend | src/reconcrab.rs:152-157 | filtering distributes over concatenation, so entries keep the order of their lines |
| Wordlist.KeptEntriesSound | src/reconcrab.rs:152-157 | every entry is non-empty, not a comment, already trimmed, and the trim of a qualifying line |
| Wordlist.KeptEntriesComplete | src/reconcrab.rs:152-157 | every qualifying line's trim is an entry |
| Wordlist.KeptEntriesEmpty | src/reconcrab.rs:159-161 | there are no entries exactly when no line qualifies |
| Wordlist.ReadWordlist | src/reconcrab.rs:150-163 | the loop returns the kept entries, or the empty-wordlist error when there are none |
| Status.IsReported | src/reconcrab.rs:17-22 | a reported status lies between 200 and 511 and is never 404 |
| Status.ReportedRanges | src/reconcrab.rs:17-22 | the allow-list is exactly 200-208, 226, 300-305, 307, 308, 400-403, 405-418, 421-426, 428, 429, 431, 451, 500-508, 510, 511 |
| Status.NotableCodes | src/reconcrab.rs:17-22 | 404 and 509 are not on the allow-list; 200, 403 and 503 are |
| Executor.Backoff | src/reconcrab.rs:229-231 | the i-th backoff sleep is 100 (i + 1) ms |
| Executor.FirstResponse | src/reconcrab.rs:219-224 | absent exactly when the first n attempts all fail; otherwise the first attempt with a response |
| Executor.Execute | src/reconcrab.rs:199-235 | between 1 and max_retries + 1 attempts, all but the last failed. Sleeps are the backoff after each failure but the last. It succeeds exactly when the last attempt got a response (any status, length 0 if absent); otherwise all attempts failed and the last error is returned |
| Executor.MakeRequest | src/reconcrab.rs:199-235 | the retry loop produces exactly the result, sleeps and attempt count of `Execute` |
| Executor.BackoffTotal | src/reconcrab.rs:229-231 | the backoff sleeps of k failed attempts sum to 50 k (k + 1) ms |
| Executor.AllAttemptsFail | src/reconcrab.rs:207-234 | with 2 retries and every attempt failing: 3 attempts, sleeps [100, 200], the third error |
| Throttle.Transition | src/reconcrab.rs:260-264 | after a cycle the flag equals "overloaded"; a wake-all is issued exactly when a set flag is cleared |
| Throttle.WakesFollowPauses | src/reconcrab.rs:257-266 | over any run there are no more wake-alls than overloaded cycles, plus one if the run starts paused |
| Throttle.PauseFlag.constructor | src/reconcrab.rs:248 | the flag starts clear |
| Throttle.PauseFlag.Step | src/reconcrab.rs:260-264 | the new flag and the wake-all are those of `Transition` on the old flag |
| Throttle.PauseFlag.IsPaused | src/reconcrab.rs:301 | the load returns the flag |
| Throttle.PauseFlag.AwaitResume | src/reconcrab.rs:301-303 | a task proceeds at once if the flag is clear. Otherwise, with every cycle running while the task is registered for wake-ups, it proceeds right after the first non-overloaded cycle, whose wake-all woke it, and stays blocked while every cycle is overloaded |
| Dispatcher.RequestedModes | src/reconcrab.rs:423-434 | never empty. Directory is requested exactly when its flag is set or neither flag is; Subdomain exactly when its flag is set. Directory comes first, and there are two modes exactly when both flags are set. So: no flags gives [Directory], one flag gives that mode alone, both flags give [Directory, Subdomain] |
| Dispatcher.SelectedModes | src/reconcrab.rs:284-288 | Subdomain is selected only for a word without '/' and only when requested; Directory is selected exactly when requested or the word holds '/'; one to as many modes as requested |
| Dispatcher.AllProbes | src/reconcrab.rs:283-289 | no Subdomain probe is ever spawned for a word containing '/'; which probes are spawned is `Dispatcher.AllProbesMembership` |
| Dispatcher.InProbesOf | src/reconcrab.rs:284-289 | a probe is among a word's probes exactly when it pairs that word with one of its selected modes |
| Dispatcher.ProbesOf | src/reconcrab.rs:284-289 | one probe of the word per selected mode, in mode order |
| Dispatcher.ProbesOfWord | src/reconcrab.rs:284-289 | a word with '/' gets exactly one Directory probe; any other word gets one probe per requested mode |
| Dispatcher.ProbesOfStep | src/reconcrab.rs:289 | the next mode of the inner loop adds exactly the probe for that mode |
| Dispatcher.SpawnProbes | src/reconcrab.rs:281-326 | the nested spawning loop produces exactly `AllProbes`, in spawn order |
| Dispatcher.AllProbesCount | src/reconcrab.rs:283-326 | the number of probes is one per slash-bearing word plus the number of requested modes per other word |
| Dispatcher.AllProbesMembership | src/reconcrab.rs:283-326 | a probe is spawned exactly for a wordlist entry and one of that entry's selected modes |
| Dispatcher.ScenarioLines | src/reconcrab.rs:152-157 | "admin" and "api/v1" are entries; "#skip" and "" are not |
| Dispatcher.ScenarioWordlist | src/reconcrab.rs:152-161 | the lines "admin", "#skip", "", "api/v1" keep "admin" and "api/v1" |
| Dispatcher.ScenarioProbes | src/reconcrab.rs:283-289 | with both modes these give (admin, Directory), (admin, Subdomain), (api/v1, Directory) |
| Dispatcher.ScenarioThreeProbes | src/reconcrab.rs:283-289 | the whole scenario issues exactly three probes |
| Dispatcher.Classify | src/reconcrab.rs:309 | a response is reported as a match exactly when its status is on the allow-list; otherwise it is dropped |
| Dispatcher.ClassifyNotable | src/reconcrab.rs:309 | 404 and 509 responses are dropped; 200, 403 and 503 are reported |
| Dispatcher.RunProbe | src/reconcrab.rs:305-321 | a URL error is reported as such with no sleeps. Otherwise the request runs as `Execute` says, and its error or classified response is the report |
| Dispatcher.MatchOnlyAllowListed | src/reconcrab.rs:305-311 | a task reports a match only when the status of the response it got is on the allow-list |

## Left out

- HTTP transport: `build_http_client`, the reqwest client, its redirect and pool
  settings, default headers, the `User-Agent` and `Cookie` headers, the per-attempt
  timeout and `send()`. They are replaced by the injected per-attempt outcomes; a
  timeout is one kind of failed attempt.
- Cookie header string: it joins `k=v` with "; " in the iteration order of a
  `HashMap`, which is unspecified, so it is not modelled.
- Random user-agent choice: the random number source is outside the model.
- Tokio concurrency: spawning, the `Semaphore` that bounds in-flight tasks, awaiting
  the join handles, and the memory orderings of `AtomicBool`. Only the single-threaded
  pause-flag transition and one task's waiter loop against a sequence of monitor
  cycles are modelled. The bound on concurrent permits is not modelled.
- CPU sampling: `sysinfo` and the `f32` comparison `avg_cpu > max_cpu + 4.0` become the
  boolean `overloaded` per cycle. The 256 ms period between cycles is not modelled.
- Settings.NewConfig: `max_cpu` is an `f32` in the source and a `real` here. A NaN
  ceiling, which the source rejects, has no counterpart.
- URL library internals: `Url::parse`; the host validation in `set_host`; the
  normalisation `set_host` applies to a host it accepts (ASCII lowercasing, IDNA);
  and the `to_string` serialisation of the rewritten URL. Subdomain mode therefore
  yields the rewritten URL record with the host exactly as built: for the word
  "Admin" the model's host is `Admin.example.com` where the URL library stores
  `admin.example.com`.
- File and command-line handling: opening and reading the wordlist file (the model
  takes its lines) and clap argument parsing (the model takes the parsed values).
- Console output: banners and the printed lines for matches and errors. The reports
  carry the fields those lines show.
- Throttle.PauseFlag.AwaitResume: the window between a task's load of the flag
  (src/reconcrab.rs:301) and its registration with `notified()` (line 302). A monitor
  cycle that clears the flag and calls `notify_waiters()` (lines 262-263) inside that
  window wakes nobody, because `notify_waiters` stores no permit. The task then
  sleeps until some later overload and recovery, possibly forever, and the join of
  all tasks (lines 328-330) does not finish. The model runs every cycle after the
  task has registered, so this lost wake-up is not captured.
- Executor.MakeRequest: `max_retries` is a `u8` in the source and a `nat` here. At the
  configured value 2 neither `attempt + 1` nor `100 * (attempt + 1)` can overflow.
- Executor.MakeRequest: takes one outcome per possible attempt
  (`|outcomes| > maxRetries`), because an outcome stands for what the network would
  have answered.
