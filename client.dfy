/**
 * The client's main flow: check the flags, find the container's execute URL, request an
 * exec session, and relay its output. The HTTP server and the WebSocket are parameters:
 * functions from what is sent to what comes back.
 */
module Client {
  import opened Wrappers
  import opened Errors
  import opened Credentials
  import opened Locator
  import opened Negotiator
  import opened Relay
  import opened Base64

  /** An HTTP request as the client builds it, with Basic authentication. */
  datatype HttpRequest = HttpRequest(
    verb: string, url: string, user: string, password: string, contentType: string, body: string)

  /**
   * The reply to the container listing: unreachable, or a listing and the string at
   * data[0].actions.execute if it has one.
   */
  datatype ListingReply = ListingUnreachable | Listing(execute: Option<string>)

  /** The reply to the exec request: unreachable, or its "url" and "token" strings if present. */
  datatype ExecReply = ExecUnreachable | ExecSession(url: Option<string>, token: Option<string>)

  /**
   * The remote side: whether Go's URL parser accepts a URL (`http.NewRequest` fails, and
   * leaves a nil request, when it does not), the Cattle API's answers, and what dialling a
   * socket URL gives.
   */
  datatype Remote = Remote(
    parses: string -> bool,
    listing: HttpRequest -> ListingReply,
    exec: HttpRequest -> ExecReply,
    dial: string -> Connection)

  /** The container listing request of `getContainerExecUrl`. */
  function LookupRequest(vars: CattleVars, containerName: string): HttpRequest {
    HttpRequest("GET", ContainerLookupEndpoint(vars.url, containerName), vars.accessKey, vars.secretKey, "", "")
  }

  /** The exec request of `getContainerWsData`. */
  function ExecRequest(vars: CattleVars, executeUrl: string, sendCommand: string): HttpRequest {
    HttpRequest("POST", executeUrl, vars.accessKey, vars.secretKey, "application/json", ExecRequestBody(sendCommand))
  }

  /**
   * `getContainerExecUrl`: reads the credentials, asks for the containers with the given name,
   * and takes the execute URL of the first one. Returns the requests sent and the URL.
   */
  method GetContainerExecUrl(containerName: string, env: Environment, remote: Remote)
    returns (sent: seq<HttpRequest>, executeUrl: Result<string, Failure>)
    ensures GetCattleVars(env).Err? ==> sent == [] && executeUrl == Err(GetCattleVars(env).error)
    ensures GetCattleVars(env).Ok? && !remote.parses(LookupRequest(GetCattleVars(env).value, containerName).url) ==>
      sent == [] && executeUrl == Err(InvalidRequestUrl)
    ensures GetCattleVars(env).Ok? && remote.parses(LookupRequest(GetCattleVars(env).value, containerName).url) ==>
      sent == [LookupRequest(GetCattleVars(env).value, containerName)]
    ensures executeUrl.Ok? ==> sent != [] && remote.listing(sent[0]) == Listing(Some(executeUrl.value))
    ensures sent != [] && remote.listing(sent[0]).ListingUnreachable? ==> executeUrl == Err(LookupFailed)
    ensures sent != [] && remote.listing(sent[0]).Listing? ==>
      executeUrl == (match remote.listing(sent[0]).execute
                     case None => Err(NoExecuteUrl)
                     case Some(u) => Ok(u))
  {
    var vars := GetCattleVars(env);
    if vars.Err? {
      return [], Err(vars.error);
    }
    var lookup := LookupRequest(vars.value, containerName);
    if !remote.parses(lookup.url) {
      return [], Err(InvalidRequestUrl);
    }
    sent := [lookup];
    var listing := remote.listing(lookup);
    if listing.ListingUnreachable? {
      return sent, Err(LookupFailed);
    }
    if listing.execute.None? {
      return sent, Err(NoExecuteUrl);
    }
    executeUrl := Ok(listing.execute.value);
  }

  /**
   * `getContainerWsData`: reads the credentials again, POSTs the exec request for the command
   * to the execute URL, and takes the WebSocket URL and token from the reply.
   */
  method GetContainerWsData(executeUrl: string, sendCommand: string, env: Environment, remote: Remote)
    returns (sent: seq<HttpRequest>, session: Result<(string, string), Failure>)
    ensures GetCattleVars(env).Err? ==> sent == [] && session == Err(GetCattleVars(env).error)
    ensures GetCattleVars(env).Ok? && !remote.parses(executeUrl) ==> sent == [] && session == Err(InvalidRequestUrl)
    ensures GetCattleVars(env).Ok? && remote.parses(executeUrl) ==>
      sent == [ExecRequest(GetCattleVars(env).value, executeUrl, sendCommand)]
    ensures sent != [] ==> sent[0].url == executeUrl
    ensures sent != [] && remote.exec(sent[0]).ExecUnreachable? ==> session == Err(ExecPostFailed)
    ensures sent != [] && remote.exec(sent[0]).ExecSession? ==>
      session == (match (remote.exec(sent[0]).url, remote.exec(sent[0]).token)
                  case (None, _) => Err(NoWebsocketUrl)
                  case (Some(_), None) => Err(NoToken)
                  case (Some(u), Some(t)) => Ok((u, t)))
  {
    var vars := GetCattleVars(env);
    if vars.Err? {
      return [], Err(vars.error);
    }
    if !remote.parses(executeUrl) {
      return [], Err(InvalidRequestUrl);
    }
    var post := ExecRequest(vars.value, executeUrl, sendCommand);
    sent := [post];
    var reply := remote.exec(post);
    if reply.ExecUnreachable? {
      return sent, Err(ExecPostFailed);
    }
    if reply.url.None? {
      return sent, Err(NoWebsocketUrl);
    }
    if reply.token.None? {
      return sent, Err(NoToken);
    }
    session := Ok((reply.url.value, reply.token.value));
  }

  /**
   * `main`: runs the handshake and the relay. Returns the HTTP requests sent, the socket
   * URLs dialled, the bytes written to standard output by the relay, and how the run ended.
   * Every fatal error stops the run where it occurs.
   */
  method Run(containerName: string, sendCommand: string, env: Environment, remote: Remote)
    returns (requests: seq<HttpRequest>, dialled: seq<string>, stdout: seq<byte>, outcome: Result<RelayEnd, Failure>)
    ensures containerName == "" ==> outcome == Err(MissingContainerName) && requests == []
    ensures containerName != "" && sendCommand == "" ==> outcome == Err(MissingCommand) && requests == []
    ensures containerName != "" && sendCommand != "" && GetCattleVars(env).Err? ==>
      outcome == Err(GetCattleVars(env).error) && requests == []
    ensures |requests| <= 2 && |dialled| <= 1
    ensures dialled == [] ==> stdout == []
    ensures |requests| >= 1 ==>
      GetCattleVars(env).Ok? && requests[0] == LookupRequest(GetCattleVars(env).value, containerName)
    ensures |requests| == 2 ==>
      && remote.listing(requests[0]) == Listing(Some(requests[1].url))
      && requests[1] == ExecRequest(GetCattleVars(env).value, requests[1].url, sendCommand)
    ensures dialled != [] ==>
      && |requests| == 2
      && var reply := remote.exec(requests[1]);
      && reply.ExecSession? && reply.url.Some? && reply.token.Some?
      && dialled == [SocketTokenUrl(reply.url.value, reply.token.value)]
    ensures outcome.Ok? ==>
      && |dialled| == 1
      && remote.dial(dialled[0]).Connected?
      && RelayedAs(remote.dial(dialled[0]).stream, stdout, outcome.value)
      && !outcome.value.Corrupt?
    ensures outcome == Err(NoToken) || outcome == Err(NoWebsocketUrl) ==> dialled == [] && |requests| == 2
    // Past the preflight checks the lookup is always sent, and each answer decides the next step.
    ensures containerName != "" && sendCommand != "" && GetCattleVars(env).Ok? ==>
      if remote.parses(LookupRequest(GetCattleVars(env).value, containerName).url) then |requests| >= 1
      else outcome == Err(InvalidRequestUrl) && requests == [] && dialled == []
    ensures |requests| >= 1 && remote.listing(requests[0]).ListingUnreachable? ==>
      outcome == Err(LookupFailed) && |requests| == 1 && dialled == []
    ensures |requests| >= 1 && remote.listing(requests[0]) == Listing(None) ==>
      outcome == Err(NoExecuteUrl) && |requests| == 1 && dialled == []
    ensures |requests| >= 1 && remote.listing(requests[0]).Listing? && remote.listing(requests[0]).execute.Some? ==>
      var u := remote.listing(requests[0]).execute.value;
      if remote.parses(u) then |requests| == 2 && requests[1].url == u
      else outcome == Err(InvalidRequestUrl) && |requests| == 1 && dialled == []
    ensures |requests| == 2 && remote.exec(requests[1]).ExecUnreachable? ==>
      outcome == Err(ExecPostFailed) && dialled == []
    ensures |requests| == 2 && remote.exec(requests[1]).ExecSession? ==>
      match (remote.exec(requests[1]).url, remote.exec(requests[1]).token)
      case (None, _) => outcome == Err(NoWebsocketUrl) && dialled == []
      case (Some(_), None) => outcome == Err(NoToken) && dialled == []
      case (Some(u), Some(t)) => dialled == [SocketTokenUrl(u, t)]
    ensures |dialled| == 1 && remote.dial(dialled[0]).Refused? ==> outcome == Err(DialFailed) && stdout == []
    ensures |dialled| == 1 && remote.dial(dialled[0]).Connected? ==>
      SessionAs(remote.dial(dialled[0]).stream, stdout, outcome)
  {
    requests, dialled, stdout := [], [], [];
    if containerName == "" {
      return requests, dialled, stdout, Err(MissingContainerName);
    }
    if sendCommand == "" {
      return requests, dialled, stdout, Err(MissingCommand);
    }

    var lookup, executeUrl := GetContainerExecUrl(containerName, env, remote);
    requests := lookup;
    if executeUrl.Err? {
      return requests, dialled, stdout, Err(executeUrl.error);
    }

    var post, session := GetContainerWsData(executeUrl.value, sendCommand, env, remote);
    requests := requests + post;
    if session.Err? {
      return requests, dialled, stdout, Err(session.error);
    }

    var socketUrl;
    socketUrl, stdout, outcome := SendWsExecRequest(session.value.0, session.value.1, remote.dial);
    dialled := [socketUrl];
  }
}
