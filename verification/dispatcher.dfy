/** The brute-force engine around the probes: which modes are requested, which
    (word, mode) probes are spawned, and what one spawned task does with its probe. */
module Dispatcher {
  import opened Results
  import opened Text
  import opened UrlBuilder
  import Status
  import Executor
  import Wordlist

  /** One spawned task's work item. */
  datatype ProbeTarget = ProbeTarget(word: string, mode: Mode)

  // ---------------------------------------------------------------------------
  // Modes and probes

  /** The `modes` list of `main`: Directory when neither flag is set, otherwise
      Directory (if set) followed by Subdomain (if set). */
  function RequestedModes(directory: bool, subdomain: bool): (r: seq<Mode>)
    ensures r != [] && |r| <= 2
    ensures Directory in r <==> directory || !subdomain
    ensures Subdomain in r <==> subdomain
    ensures r[0] == Directory || r == [Subdomain]
    ensures |r| == 2 <==> directory && subdomain
  {
    if !directory && !subdomain then [Directory]
    else (if directory then [Directory] else []) + (if subdomain then [Subdomain] else [])
  }

  /** `selected_modes` for one word: a word holding '/' is a path fragment and is
      probed in Directory mode only. */
  function SelectedModes(word: string, modes: seq<Mode>): (r: seq<Mode>)
    ensures Subdomain in r ==> Subdomain in modes && !Contains(word, '/')
    ensures Directory in r <==> Directory in modes || Contains(word, '/')
    ensures modes != [] ==> 1 <= |r| <= |modes|
  {
    if Contains(word, '/') then [Directory] else modes
  }

  /** The probes spawned for one word, one per selected mode, in mode order. */
  function ProbesOf(word: string, modes: seq<Mode>): (r: seq<ProbeTarget>)
    ensures |r| == |SelectedModes(word, modes)|
    ensures forall i :: 0 <= i < |r| ==> r[i] == ProbeTarget(word, SelectedModes(word, modes)[i])
  {
    var selected := SelectedModes(word, modes);
    seq(|selected|, i requires 0 <= i < |selected| => ProbeTarget(word, selected[i]))
  }

  /** Every probe spawned for the wordlist, in spawn order. */
  function AllProbes(words: seq<string>, modes: seq<Mode>): (r: seq<ProbeTarget>)
    ensures forall i :: 0 <= i < |r| ==> r[i].mode == Subdomain ==> !Contains(r[i].word, '/')
  {
    if words == [] then []
    else AllProbes(words[..|words| - 1], modes) + ProbesOf(words[|words| - 1], modes)
  }

  /** Growing a word's probes by one mode adds the probe for that mode. */
  lemma ProbesOfStep(word: string, modes: seq<Mode>, m: nat)
    requires m < |SelectedModes(word, modes)|
    ensures ProbesOf(word, modes)[..m + 1] ==
      ProbesOf(word, modes)[..m] + [ProbeTarget(word, SelectedModes(word, modes)[m])]
  {
  }

  /** The spawning loop of `brute_force`: for each word, one task per selected mode. */
  method SpawnProbes(words: seq<string>, modes: seq<Mode>) returns (handles: seq<ProbeTarget>)
    ensures handles == AllProbes(words, modes)
  {
    handles := [];
    for w := 0 to |words|
      invariant handles == AllProbes(words[..w], modes)
    {
      var word := words[w];
      var selected := if Contains(word, '/') then [Directory] else modes;
      assert selected == SelectedModes(word, modes);
      assert words[..w + 1][..w] == words[..w];
      assert AllProbes(words[..w + 1], modes) == AllProbes(words[..w], modes) + ProbesOf(word, modes);
      for m := 0 to |selected|
        invariant handles == AllProbes(words[..w], modes) + ProbesOf(word, modes)[..m]
      {
        ProbesOfStep(word, modes, m);
        handles := handles + [ProbeTarget(word, selected[m])];
      }
      assert ProbesOf(word, modes)[..|selected|] == ProbesOf(word, modes);
    }
    assert words[..|words|] == words;
  }

  /** A word with '/' yields exactly one Directory probe whatever was requested; any
      other word yields one probe per requested mode. */
  lemma ProbesOfWord(word: string, modes: seq<Mode>)
    ensures '/' in word ==> ProbesOf(word, modes) == [ProbeTarget(word, Directory)]
    ensures '/' !in word ==> |ProbesOf(word, modes)| == |modes|
    ensures '/' !in word ==> forall i :: 0 <= i < |modes| ==> ProbesOf(word, modes)[i].mode == modes[i]
  {
  }

  /** The number of probes: one per slash-bearing word, |modes| per other word. */
  function ProbeCount(words: seq<string>, modes: seq<Mode>): nat {
    if words == [] then 0
    else ProbeCount(words[..|words| - 1], modes) + (if '/' in words[|words| - 1] then 1 else |modes|)
  }

  lemma {:induction false} AllProbesCount(words: seq<string>, modes: seq<Mode>)
    ensures |AllProbes(words, modes)| == ProbeCount(words, modes)
  {
    if words != [] {
      AllProbesCount(words[..|words| - 1], modes);
      ProbesOfWord(words[|words| - 1], modes);
    }
  }

  /** The probes of one word are that word paired with each of its selected modes. */
  lemma InProbesOf(word: string, modes: seq<Mode>, p: ProbeTarget)
    ensures p in ProbesOf(word, modes) <==> p.word == word && p.mode in SelectedModes(word, modes)
  {
    var last := ProbesOf(word, modes);
    if p in last {
      var k :| 0 <= k < |last| && last[k] == p;
    }
    if p.word == word && p.mode in SelectedModes(word, modes) {
      var k :| 0 <= k < |SelectedModes(word, modes)| && SelectedModes(word, modes)[k] == p.mode;
      assert last[k] == p;
    }
  }

  /** `p` is one of the probes spawned for `word`. */
  predicate SpawnedFor(word: string, modes: seq<Mode>, p: ProbeTarget) {
    p.word == word && p.mode in SelectedModes(word, modes)
  }

  /** A probe is spawned exactly for a wordlist entry and one of its selected modes. */
  lemma {:induction false} AllProbesMembership(words: seq<string>, modes: seq<Mode>, p: ProbeTarget)
    ensures p in AllProbes(words, modes) <==> exists i :: 0 <= i < |words| && SpawnedFor(words[i], modes, p)
  {
    if words != [] {
      var n := |words| - 1;
      var init := words[..n];
      AllProbesMembership(init, modes, p);
      InProbesOf(words[n], modes, p);
      assert AllProbes(words, modes) == AllProbes(init, modes) + ProbesOf(words[n], modes);
      if exists i :: 0 <= i < |words| && SpawnedFor(words[i], modes, p) {
        var i :| 0 <= i < |words| && SpawnedFor(words[i], modes, p);
        if i < n {
          assert init[i] == words[i];
        }
      }
      if exists i :: 0 <= i < |init| && SpawnedFor(init[i], modes, p) {
        var i :| 0 <= i < |init| && SpawnedFor(init[i], modes, p);
        assert words[i] == init[i];
      }
    }
  }

  /** Which of the scenario's lines are entries. */
  lemma ScenarioLines()
    ensures Wordlist.IsEntry("admin") && Trim("admin") == "admin"
    ensures !Wordlist.IsEntry("#skip") && !Wordlist.IsEntry("")
    ensures Wordlist.IsEntry("api/v1") && Trim("api/v1") == "api/v1"
  {
    TrimOfTrimmed("admin");
    TrimOfTrimmed("#skip");
    TrimOfTrimmed("api/v1");
    assert "admin"[..1] == "a" && "#skip"[..1] == "#" && "api/v1"[..1] == "a";
  }

  /** The filtering half of the scenario below: the blank and comment lines go. */
  lemma ScenarioWordlist()
    ensures Wordlist.KeptEntries(["admin", "#skip", "", "api/v1"]) == ["admin", "api/v1"]
  {
    ScenarioLines();
    var lines := ["admin", "#skip", "", "api/v1"];
    assert lines[..3][..2][..1] == ["admin"];
    assert lines[..3][..2] == ["admin", "#skip"];
    assert lines[..3] == ["admin", "#skip", ""];
    assert Wordlist.KeptEntries(["admin"]) == ["admin"];
    assert Wordlist.KeptEntries(["admin", "#skip"]) == ["admin"];
    assert Wordlist.KeptEntries(["admin", "#skip", ""]) == ["admin"];
  }

  /** The probing half of the scenario below. */
  lemma ScenarioProbes()
    ensures AllProbes(["admin", "api/v1"], RequestedModes(true, true)) == [
      ProbeTarget("admin", Directory),
      ProbeTarget("admin", Subdomain),
      ProbeTarget("api/v1", Directory)]
  {
    var words := ["admin", "api/v1"];
    assert words[..1] == ["admin"];
    assert '/' !in "admin";
    assert "api/v1"[3] == '/';
    ProbesOfWord("admin", [Directory, Subdomain]);
    ProbesOfWord("api/v1", [Directory, Subdomain]);
  }

  /** Base `https://example.com`, lines "admin", "#skip", "" and "api/v1", both modes:
      the blank and comment lines yield nothing, "admin" is probed in both modes and
      "api/v1" in Directory mode only, three probes in all. */
  lemma ScenarioThreeProbes()
    ensures var words := Wordlist.KeptEntries(["admin", "#skip", "", "api/v1"]);
      |AllProbes(words, RequestedModes(true, true))| == 3
  {
    ScenarioWordlist();
    ScenarioProbes();
  }

  // ---------------------------------------------------------------------------
  // One task

  /** What a task reports: a matching response (printed), a response whose status is
      not on the allow-list (dropped), or an error (printed as a diagnostic). */
  datatype TaskReport =
    | Matched(url: ProbeUrl, status: int, contentLength: nat)
    | Filtered(status: int)
    | RequestError(requested: ProbeUrl, error: string)
    | ConstructError(word: string, cause: UrlError)

  /** The allow-list check on a response. */
  function Classify(reply: Executor.Reply<ProbeUrl>): (r: TaskReport)
    ensures r.Matched? <==> Status.IsReported(reply.status)
    ensures r.Matched? ==> r == Matched(reply.url, reply.status, reply.contentLength)
    ensures r.Filtered? ==> r.status == reply.status
  {
    if Status.IsReported(reply.status) then Matched(reply.url, reply.status, reply.contentLength)
    else Filtered(reply.status)
  }

  /** Responses with 404 or 509 are dropped; 200, 403 and 503 are reported. */
  lemma ClassifyNotable(url: ProbeUrl, contentLength: nat)
    ensures Classify(Executor.Reply(url, 404, contentLength)).Filtered?
    ensures Classify(Executor.Reply(url, 509, contentLength)).Filtered?
    ensures Classify(Executor.Reply(url, 200, contentLength)).Matched?
    ensures Classify(Executor.Reply(url, 403, contentLength)).Matched?
    ensures Classify(Executor.Reply(url, 503, contentLength)).Matched?
  {
    Status.NotableCodes();
  }

  /** The body of one spawned task once it holds its permit and the pause flag is
      clear: build the URL, run the request, classify the response. */
  method RunProbe(targetUrl: string, parsed: Option<Url>, accepts: string -> bool,
                  target: ProbeTarget, maxRetries: nat, outcomes: seq<Executor.Attempt>)
      returns (report: TaskReport, sleeps: seq<nat>)
    requires |outcomes| > maxRetries
    ensures
      match ConstructUrl(targetUrl, parsed, accepts, target.word, target.mode)
      case Failure(e) => report == ConstructError(target.word, e) && sleeps == []
      case Success(url) =>
        var e := Executor.Execute(url, maxRetries, outcomes);
        && sleeps == e.sleeps
        && (e.result.Failure? ==> report == RequestError(url, e.result.error))
        && (e.result.Success? ==> report == Classify(e.result.value))
  {
    match ConstructUrl(targetUrl, parsed, accepts, target.word, target.mode)
    case Failure(e) =>
      report, sleeps := ConstructError(target.word, e), [];
    case Success(url) =>
      var result, slept, attempts := Executor.MakeRequest(url, maxRetries, outcomes);
      sleeps := slept;
      match result
      case Success(reply) =>
        report := Classify(reply);
      case Failure(err) =>
        report := RequestError(url, err);
  }

  /** A probe is reported as a match only for an allow-listed status, whatever the
      outcomes of its attempts. */
  lemma MatchOnlyAllowListed(targetUrl: string, parsed: Option<Url>, accepts: string -> bool,
                             target: ProbeTarget, maxRetries: nat, outcomes: seq<Executor.Attempt>)
    requires |outcomes| > maxRetries
    requires ConstructUrl(targetUrl, parsed, accepts, target.word, target.mode).Success?
    ensures var url := ConstructUrl(targetUrl, parsed, accepts, target.word, target.mode).value;
      var e := Executor.Execute(url, maxRetries, outcomes);
      e.result.Success? ==>
        (Classify(e.result.value).Matched? <==>
         Status.IsReported(outcomes[e.attempts - 1].status))
  {
  }
}
