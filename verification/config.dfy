/** `Config::new` and `Config::parse_key_value_pairs`: the run configuration built
    once from the command line, before any probing starts. */
module Settings {
  import opened Results
  import opened Text

  const DefaultConcurrency: nat := 500000
  const DefaultMaxCpu: real := 50.0
  const TimeoutSecs: nat := 15
  const MaxRetries: nat := 2

  datatype Config = Config(
    targetUrl: string,
    wordlistFile: string,
    concurrentRequests: nat,
    headers: map<string, string>,
    cookies: map<string, string>,
    timeoutSecs: nat,
    maxRetries: nat,
    maxCpu: real)

  datatype ConfigError =
    | MalformedPair(pair: string)  // "Invalid key-value pair format"
    | CpuOutOfRange(cpu: real)     // "Max CPU must be between 1.0 and 100.0"

  // ---------------------------------------------------------------------------
  // Target normalisation

  predicate HasScheme(t: string)
    ensures HasScheme(t) ==> 7 <= |t| && t[..4] == "http"
  {
    StartsWith(t, "http://") || StartsWith(t, "https://")
  }

  /** The target with `http://` put in front unless it already names http or https. */
  function WithScheme(t: string): (r: string)
    ensures HasScheme(r)
    ensures |t| <= |r| && r[|r| - |t|..] == t
    ensures HasScheme(t) ==> r == t
  {
    if HasScheme(t) then t else "http://" + t
  }

  /** The normalised target: the scheme defaulted and every trailing '/' removed. */
  function NormalizeTarget(t: string): (r: string)
    ensures r == [] || r[|r| - 1] != '/'
    ensures HasScheme(t) ==> StartsWith(t, r) && AllSlashes(t[|r|..])
    ensures !HasScheme(t) ==> StartsWith("http://" + t, r) && AllSlashes(("http://" + t)[|r|..])
  {
    TrimEndSlashes(WithScheme(t))
  }

  /** A target without a scheme and without a trailing '/' only gains `http://`. */
  lemma NormalizeAddsScheme(t: string)
    requires !HasScheme(t)
    requires t != [] && t[|t| - 1] != '/'
    ensures NormalizeTarget(t) == "http://" + t
    ensures HasScheme(NormalizeTarget(t))
  {
    TrimEndSlashesUnique("http://" + t, []);
    assert "http://" + t + [] == "http://" + t;
    assert ("http://" + t)[..7] == "http://";
  }

  /** Normalising a normalised target that still has its scheme changes nothing. */
  lemma NormalizeIdempotent(t: string)
    requires HasScheme(NormalizeTarget(t))
    ensures NormalizeTarget(NormalizeTarget(t)) == NormalizeTarget(t)
  {
    var n := NormalizeTarget(t);
    TrimEndSlashesUnique(n, []);
    assert n + [] == n;
  }

  /** The exception to idempotence: a target that is empty once its slashes are gone
      loses the "//" of its scheme and is then no longer recognised as having one. */
  lemma NormalizeEmptyTarget()
    ensures NormalizeTarget("") == "http:"
    ensures NormalizeTarget("http:") == "http://http:"
  {
    assert !HasScheme("");
    assert WithScheme("") == "http://";
    TrimEndSlashesUnique("http:", "//");
    assert "http:" + "//" == "http://";
    assert !HasScheme("http:");
    assert WithScheme("http:") == "http://http:";
    TrimEndSlashesUnique("http://http:", []);
    assert "http://http:" + [] == "http://http:";
  }

  // ---------------------------------------------------------------------------
  // key:value pairs

  predicate WellFormedPair(pair: string) {
    ':' in pair
  }

  /** The trimmed text before the first ':'. */
  function KeyOf(pair: string): (r: string)
    requires WellFormedPair(pair)
    ensures ':' !in r && |r| < |pair|
    ensures r == [] || (!IsWhitespace(r[0]) && !IsWhitespace(r[|r| - 1]))
  {
    SplitOnceJoins(pair, ':');
    TrimWithin(SplitOnce(pair, ':').value.0, ':');
    Trim(SplitOnce(pair, ':').value.0)
  }

  /** The trimmed text after the first ':' (which may itself contain ':'). */
  function ValueOf(pair: string): (r: string)
    requires WellFormedPair(pair)
    ensures |r| < |pair|
    ensures r == [] || (!IsWhitespace(r[0]) && !IsWhitespace(r[|r| - 1]))
  {
    SplitOnceJoins(pair, ':');
    Trim(SplitOnce(pair, ':').value.1)
  }

  /** The index of the first pair without ':', if any. */
  function FirstMalformed(pairs: seq<string>): (r: Option<nat>)
    ensures r.None? <==> forall i :: 0 <= i < |pairs| ==> WellFormedPair(pairs[i])
    ensures r.Some? ==> r.value < |pairs| && !WellFormedPair(pairs[r.value])
    ensures r.Some? ==> forall j :: 0 <= j < r.value ==> WellFormedPair(pairs[j])
  {
    if pairs == [] then None
    else if !WellFormedPair(pairs[0]) then Some(0)
    else
      match FirstMalformed(pairs[1..])
      case None => None
      case Some(i) => Some(i + 1)
  }

  /** The (key, value) entry of each pair, in order. */
  function Entries(pairs: seq<string>): (r: seq<(string, string)>)
    requires forall i :: 0 <= i < |pairs| ==> WellFormedPair(pairs[i])
    ensures |r| == |pairs|
    ensures forall i :: 0 <= i < |pairs| ==> r[i] == (KeyOf(pairs[i]), ValueOf(pairs[i]))
  {
    seq(|pairs|, i requires 0 <= i < |pairs| => (KeyOf(pairs[i]), ValueOf(pairs[i])))
  }

  /** A map built by inserting the entries left to right. */
  function InsertAll(kvs: seq<(string, string)>): (r: map<string, string>)
    ensures |r| <= |kvs|
  {
    if kvs == [] then map[]
    else InsertAll(kvs[..|kvs| - 1])[kvs[|kvs| - 1].0 := kvs[|kvs| - 1].1]
  }

  lemma InsertAllSnoc(kvs: seq<(string, string)>, kv: (string, string))
    ensures InsertAll(kvs + [kv]) == InsertAll(kvs)[kv.0 := kv.1]
  {
    assert (kvs + [kv])[..|kvs|] == kvs;
  }

  /** The entries of one more pair are the entries so far and that pair's. */
  lemma EntriesSnoc(pairs: seq<string>, i: nat)
    requires i < |pairs|
    requires forall j :: 0 <= j <= i ==> WellFormedPair(pairs[j])
    ensures Entries(pairs[..i + 1]) == Entries(pairs[..i]) + [(KeyOf(pairs[i]), ValueOf(pairs[i]))]
  {
    var a := Entries(pairs[..i + 1]);
    var b := Entries(pairs[..i]) + [(KeyOf(pairs[i]), ValueOf(pairs[i]))];
    forall j | 0 <= j < i + 1 ensures a[j] == b[j] {
      assert pairs[..i + 1][j] == pairs[j];
      if j < i {
        assert pairs[..i][j] == pairs[j];
      }
    }
  }

  /** The keys of the built map are exactly the entries' keys, and each key holds the
      value of the LAST entry with that key. */
  lemma {:induction false} InsertAllLookup(kvs: seq<(string, string)>)
    ensures forall k :: k in InsertAll(kvs) <==> exists i :: 0 <= i < |kvs| && kvs[i].0 == k
    ensures forall i :: 0 <= i < |kvs| ==>
      ((forall j :: i < j < |kvs| ==> kvs[j].0 != kvs[i].0) ==> InsertAll(kvs)[kvs[i].0] == kvs[i].1)
  {
    if kvs != [] {
      var n := |kvs| - 1;
      var init := kvs[..n];
      InsertAllLookup(init);
      assert forall i :: 0 <= i < n ==> init[i] == kvs[i];
      forall k ensures k in InsertAll(kvs) <==> exists i :: 0 <= i < |kvs| && kvs[i].0 == k {
        if k in InsertAll(kvs) && k != kvs[n].0 {
          var i :| 0 <= i < n && init[i].0 == k;
          assert kvs[i].0 == k;
        }
      }
    }
  }

  /** The map the pairs denote, or the first malformed pair. */
  function PairsMap(pairs: seq<string>): (r: Result<map<string, string>, ConfigError>)
    ensures r.Success? <==> forall i :: 0 <= i < |pairs| ==> WellFormedPair(pairs[i])
  {
    match FirstMalformed(pairs)
    case Some(i) => Failure(MalformedPair(pairs[i]))
    case None => Success(InsertAll(Entries(pairs)))
  }

  /** A list with a pair lacking ':' is rejected, naming the first such pair. */
  lemma PairsMapError(pairs: seq<string>, i: nat)
    requires i < |pairs| && !WellFormedPair(pairs[i])
    requires forall j :: 0 <= j < i ==> WellFormedPair(pairs[j])
    ensures PairsMap(pairs) == Failure(MalformedPair(pairs[i]))
  {
    var f := FirstMalformed(pairs);
    assert f.Some?;
    if f.value < i {
    } else if f.value > i {
    }
  }

  /** The parsed map holds exactly the pairs' keys. */
  lemma PairsMapKeys(pairs: seq<string>)
    requires forall i :: 0 <= i < |pairs| ==> WellFormedPair(pairs[i])
    ensures PairsMap(pairs).Success?
    ensures forall k :: k in PairsMap(pairs).value <==>
      exists i :: 0 <= i < |pairs| && KeyOf(pairs[i]) == k
  {
    var kvs := Entries(pairs);
    InsertAllLookup(kvs);
    forall k | k in PairsMap(pairs).value
      ensures exists i :: 0 <= i < |pairs| && KeyOf(pairs[i]) == k
    {
      var i :| 0 <= i < |kvs| && kvs[i].0 == k;
      assert KeyOf(pairs[i]) == k;
    }
    forall k, i | 0 <= i < |pairs| && KeyOf(pairs[i]) == k
      ensures k in PairsMap(pairs).value
    {
      assert kvs[i].0 == k;
    }
  }

  /** Each key maps to the value of the last pair with that key: a later duplicate
      overwrites an earlier one. */
  lemma PairsMapLastWins(pairs: seq<string>, i: nat)
    requires forall j :: 0 <= j < |pairs| ==> WellFormedPair(pairs[j])
    requires i < |pairs|
    requires forall j :: i < j < |pairs| ==> KeyOf(pairs[j]) != KeyOf(pairs[i])
    ensures PairsMap(pairs).Success?
    ensures KeyOf(pairs[i]) in PairsMap(pairs).value
    ensures PairsMap(pairs).value[KeyOf(pairs[i])] == ValueOf(pairs[i])
  {
    var kvs := Entries(pairs);
    InsertAllLookup(kvs);
    assert forall j :: i < j < |kvs| ==> kvs[j].0 != kvs[i].0;
  }

  /** `parse_key_value_pairs`: split each pair at its first ':', trim both halves and
      insert them into the map, stopping at the first pair without ':'. */
  method ParseKeyValuePairs(pairs: seq<string>) returns (r: Result<map<string, string>, ConfigError>)
    ensures r == PairsMap(pairs)
  {
    var m: map<string, string> := map[];
    for i := 0 to |pairs|
      invariant forall j :: 0 <= j < i ==> WellFormedPair(pairs[j])
      invariant m == InsertAll(Entries(pairs[..i]))
    {
      var pair := pairs[i];
      var parts := SplitOnce(pair, ':');
      if parts.None? {
        PairsMapError(pairs, i);
        return Failure(MalformedPair(pair));
      }
      var kv := (Trim(parts.value.0), Trim(parts.value.1));
      assert kv == (KeyOf(pair), ValueOf(pair));
      EntriesSnoc(pairs, i);
      InsertAllSnoc(Entries(pairs[..i]), kv);
      m := m[kv.0 := kv.1];
    }
    assert pairs[..|pairs|] == pairs;
    r := Success(m);
  }

  /** `Config::new`: parse the headers, then the cookies, normalise the target and
      range-check the CPU ceiling; the first problem found is the error. */
  method NewConfig(targetUrl: string, wordlistFile: string, concurrentRequests: Option<nat>,
                   headers: Option<seq<string>>, cookies: Option<seq<string>>,
                   maxCpu: Option<real>) returns (r: Result<Config, ConfigError>)
    ensures var hs := PairsMap(headers.GetOr([]));
            var cs := PairsMap(cookies.GetOr([]));
            var cpu := maxCpu.GetOr(DefaultMaxCpu);
      && (hs.Failure? ==> r == Failure(hs.error))
      && (hs.Success? && cs.Failure? ==> r == Failure(cs.error))
      && (hs.Success? && cs.Success? && !(1.0 <= cpu <= 100.0) ==> r == Failure(CpuOutOfRange(cpu)))
      && (r.Success? <==> hs.Success? && cs.Success? && 1.0 <= cpu <= 100.0)
      && (r.Success? ==> r.value == Config(NormalizeTarget(targetUrl), wordlistFile,
            concurrentRequests.GetOr(DefaultConcurrency), hs.value, cs.value,
            TimeoutSecs, MaxRetries, cpu))
  {
    var concurrency := concurrentRequests.GetOr(DefaultConcurrency);
    var hs := ParseKeyValuePairs(headers.GetOr([]));
    if hs.Failure? {
      return Failure(hs.error);
    }
    var cs := ParseKeyValuePairs(cookies.GetOr([]));
    if cs.Failure? {
      return Failure(cs.error);
    }
    var target := NormalizeTarget(targetUrl);
    var cpu := maxCpu.GetOr(DefaultMaxCpu);
    if !(1.0 <= cpu <= 100.0) {
      return Failure(CpuOutOfRange(cpu));
    }
    r := Success(Config(target, wordlistFile, concurrency, hs.value, cs.value,
                        TimeoutSecs, MaxRetries, cpu));
  }

  /** A pair is split at its FIRST ':': the key is the trimmed text before it and the
      value, which may contain further ':', the trimmed text after it. */
  lemma SplitAtFirstColon(key: string, value: string)
    requires ':' !in key
    ensures WellFormedPair(key + ":" + value)
    ensures KeyOf(key + ":" + value) == Trim(key)
    ensures ValueOf(key + ":" + value) == Trim(value)
  {
    var s := key + ":" + value;
    assert s[|key|] == ':';
    var i := FindFirst(s, ':').value;
    assert s[..i] == key;
    assert s[i + 1..] == value;
  }
}
