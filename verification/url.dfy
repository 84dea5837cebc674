/** `construct_url`: the probe URL for one wordlist entry in one fuzzing mode. */
module UrlBuilder {
  import opened Results
  import opened Text

  datatype Mode = Subdomain | Directory

  /** The parts of a parsed base URL that the construction reads or rewrites:
      the scheme, the host (absent for URLs such as `mailto:x`) and everything else
      (credentials, port, path, query, fragment) kept as one opaque remainder. */
  datatype Url = Url(scheme: string, host: Option<string>, rest: string)

  datatype UrlError =
    | Unparseable          // `Url::parse` rejected the base
    | NoHost               // "Invalid host in URL"
    | HostRejected(host: string)  // `set_host` refused the new host

  /** Directory mode yields text; Subdomain mode yields the base URL with its host
      replaced (its serialisation by the URL library is not part of this model). */
  datatype ProbeUrl = Joined(text: string) | Rehosted(url: Url)

  /** The path appended in Directory mode: the word, given a leading '/' if it has none. */
  function PathToJoin(word: string): (r: string)
    ensures StartsWith(r, "/")
    ensures |word| <= |r| <= |word| + 1 && r[|r| - |word|..] == word
  {
    if StartsWith(word, "/") then word else "/" + word
  }

  /** The host probed in Subdomain mode: the word as a new leftmost label, after a
      leading `www.` label has been dropped from the base host. */
  function SubdomainHost(word: string, host: string): (r: string)
    ensures StartsWith(r, word + ".")
    ensures StartsWith(host, "www.") ==> "www." + r[|word| + 1..] == host
    ensures !StartsWith(host, "www.") ==> r[|word| + 1..] == host
  {
    if StartsWith(host, "www.") then word + "." + host[4..] else word + "." + host
  }

  /** `construct_url(base_url, word, mode)`. `parsed` is what `Url::parse(base_url)`
      gives (it is tried in both modes), `accepts` says which hosts `set_host` takes. */
  function ConstructUrl(baseUrl: string, parsed: Option<Url>, accepts: string -> bool,
                        word: string, mode: Mode): (r: Result<ProbeUrl, UrlError>)
    ensures parsed.None? ==> r == Failure(Unparseable)
    ensures parsed.Some? && mode == Directory ==>
      && r.Success? && r.value.Joined?
      && StartsWith(r.value.text, TrimEndSlashes(baseUrl))
      && r.value.text[|TrimEndSlashes(baseUrl)|..] == PathToJoin(word)
    ensures parsed.Some? && mode == Subdomain ==>
      match parsed.value.host
      case None => r == Failure(NoHost)
      case Some(h) =>
        var nh := SubdomainHost(word, h);
        && (accepts(nh) ==> r == Success(Rehosted(parsed.value.(host := Some(nh)))))
        && (!accepts(nh) ==> r == Failure(HostRejected(nh)))
  {
    match parsed
    case None => Failure(Unparseable)
    case Some(base) =>
      match mode
      case Subdomain =>
        (match base.host
         case None => Failure(NoHost)
         case Some(h) =>
           var nh := SubdomainHost(word, h);
           if accepts(nh) then Success(Rehosted(base.(host := Some(nh))))
           else Failure(HostRejected(nh)))
      case Directory =>
        var text := TrimEndSlashes(baseUrl) + PathToJoin(word);
        assert text[..|TrimEndSlashes(baseUrl)|] == TrimEndSlashes(baseUrl);
        Success(Joined(text))
  }

  /** The joined path is one '/' followed by the word without its leading '/'. */
  lemma PathToJoinShape(word: string)
    ensures PathToJoin(word) == "/" + (if StartsWith(word, "/") then word[1..] else word)
  {
    if StartsWith(word, "/") {
      assert word == word[..1] + word[1..];
    }
  }

  /** Directory mode: the URL is the base without its trailing slashes, one '/', and
      the word without its leading '/' (if it had one). */
  lemma DirectoryShape(baseUrl: string, base: Url, accepts: string -> bool, word: string)
    ensures var w := if StartsWith(word, "/") then word[1..] else word;
      ConstructUrl(baseUrl, Some(base), accepts, word, Directory)
        == Success(Joined(TrimEndSlashes(baseUrl) + "/" + w))
  {
    PathToJoinShape(word);
    var w := if StartsWith(word, "/") then word[1..] else word;
    assert TrimEndSlashes(baseUrl) + PathToJoin(word) == TrimEndSlashes(baseUrl) + "/" + w;
  }

  /** "api" and "/api" give the same Directory URL. */
  lemma DirectoryLeadingSlashIrrelevant(baseUrl: string, parsed: Option<Url>,
                                        accepts: string -> bool, word: string)
    requires !StartsWith(word, "/")
    ensures ConstructUrl(baseUrl, parsed, accepts, word, Directory)
         == ConstructUrl(baseUrl, parsed, accepts, "/" + word, Directory)
  {
    if parsed.Some? {
      DirectoryShape(baseUrl, parsed.value, accepts, word);
      DirectoryShape(baseUrl, parsed.value, accepts, "/" + word);
      assert ("/" + word)[1..] == word;
    }
  }

  /** Subdomain mode on `www.H` gives `W.H`, on any other host `h` it gives `W.h`. */
  lemma SubdomainDropsWww(word: string, h: string)
    ensures SubdomainHost(word, "www." + h) == word + "." + h
    ensures !StartsWith(h, "www.") ==> SubdomainHost(word, h) == word + "." + h
  {
    assert StartsWith("www." + h, "www.");
    assert ("www." + h)[4..] == h;
  }

  /** Subdomain mode changes nothing but the host. */
  lemma SubdomainOnlyHostChanges(baseUrl: string, base: Url, accepts: string -> bool, word: string)
    requires ConstructUrl(baseUrl, Some(base), accepts, word, Subdomain).Success?
    ensures var u := ConstructUrl(baseUrl, Some(base), accepts, word, Subdomain).value;
      && u.Rehosted?
      && u.url.scheme == base.scheme && u.url.rest == base.rest
      && base.host.Some? && u.url.host == Some(SubdomainHost(word, base.host.value))
  {
  }
}
