/**
 * The conditions under which the exec client stops with a fatal error (`log.Fatal`,
 * `panic`, or its own `printErr`).
 */
module Errors {
  datatype Failure =
    | MissingContainerName     // the -name flag was empty
    | MissingCommand           // the -cmd flag was empty
    | MissingEnv(name: string) // a required environment variable was empty or unset
    | InvalidRequestUrl        // http.NewRequest rejected the URL; SetBasicAuth panics on the nil request
    | LookupFailed             // the container listing request could not be sent
    | NoExecuteUrl             // the listing has no data[0].actions.execute string
    | ExecPostFailed           // the exec request could not be sent
    | NoWebsocketUrl           // the exec reply has no "url" string
    | NoToken                  // the exec reply has no "token" string
    | DialFailed               // the WebSocket could not be opened
    | DecodeError(frame: nat)  // the payload of read number `frame` is not valid base 64
}
