/**
 * Locating an Ollama server: a preferred host when it answers, otherwise the
 * default host, then the Docker port. `tags(host)` is the status code of
 * `GET {host}/api/tags`, or Failure when the request raised.
 */
module OllamaDetector {
  import opened Wrappers
  import opened Text

  /** Where a server was found. */
  datatype Source = Local | Docker | Custom

  /** The Docker container's port on the local machine. */
  const DockerHost: string := "http://localhost:11435"

  /** `check_ollama(host)`: the tags endpoint answered 200; any exception means no. */
  function CheckOllama(host: string, tags: string -> Result<int, string>): (up: bool)
    ensures up <==> tags(host) == Success(200)
  {
    match tags(host)
    case Success(status) => status == 200
    case Failure(_) => false
  }

  /**
   * `detect_ollama()`: the default host (`OLLAMA_HOST`, read from the
   * environment) as local, else the Docker host, else nothing.
   */
  function DetectOllama(defaultHost: string, tags: string -> Result<int, string>): Option<(string, Source)> {
    if CheckOllama(defaultHost, tags) then Some((defaultHost, Local))
    else if CheckOllama(DockerHost, tags) then Some((DockerHost, Docker))
    else None
  }

  /** The source a preferred host is reported as, by the port it names. */
  function PortSource(host: string): (src: Source)
    ensures src == Local <==> exists i: nat :: OccursAt(host, ":11434", i)
    ensures src == Docker <==> (!exists i: nat :: OccursAt(host, ":11434", i)) && exists i: nat :: OccursAt(host, ":11435", i)
  {
    ContainsIff(host, ":11434");
    ContainsIff(host, ":11435");
    if Contains(host, ":11434") then Local
    else if Contains(host, ":11435") then Docker
    else Custom
  }

  /** A preferred host is given: not None and not empty. */
  predicate Given(preferred: Option<string>) {
    preferred.Some? && preferred.value != []
  }

  /** `get_ollama_host_with_fallback(preferred_host)` */
  function HostWithFallback(preferred: Option<string>, defaultHost: string,
                            tags: string -> Result<int, string>): Option<(string, Source)> {
    if Given(preferred) && CheckOllama(preferred.value, tags) then Some((preferred.value, PortSource(preferred.value)))
    else DetectOllama(defaultHost, tags)
  }

  /**
   * Detection tries the default host first and then the Docker host; it finds
   * nothing exactly when neither answers.
   */
  lemma DetectOrder(defaultHost: string, tags: string -> Result<int, string>)
    ensures var r := DetectOllama(defaultHost, tags);
      && (tags(defaultHost) == Success(200) ==> r == Some((defaultHost, Local)))
      && (tags(defaultHost) != Success(200) && tags(DockerHost) == Success(200) ==> r == Some((DockerHost, Docker)))
      && (r.None? <==> tags(defaultHost) != Success(200) && tags(DockerHost) != Success(200))
  {
  }

  /**
   * A preferred host that answers is used, classified by its port; one that is
   * absent, empty or unreachable falls through to detection.
   */
  lemma FallbackIff(preferred: Option<string>, defaultHost: string, tags: string -> Result<int, string>)
    ensures Given(preferred) && tags(preferred.value) == Success(200) ==>
      HostWithFallback(preferred, defaultHost, tags) == Some((preferred.value, PortSource(preferred.value)))
    ensures !Given(preferred) || tags(preferred.value) != Success(200) ==>
      HostWithFallback(preferred, defaultHost, tags) == DetectOllama(defaultHost, tags)
  {
  }

  /** Whatever host the fallback returns has answered the tags request. */
  lemma FallbackAnswers(preferred: Option<string>, defaultHost: string, tags: string -> Result<int, string>)
    ensures var r := HostWithFallback(preferred, defaultHost, tags);
      r.Some? ==> (tags(r.value.0) == Success(200)
                   && (r.value.1 == Custom ==> Given(preferred) && r.value.0 == preferred.value))
  {
  }
}
