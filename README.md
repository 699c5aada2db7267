# rgon-exec in Dafny

`rgon-exec` is a small command-line client that runs a command inside a container managed by
a Rancher/Cattle API. It works in three steps:

- It looks up the container named by `-name` and reads the container's `execute` action URL.
- It POSTs an exec request that carries the `-cmd` command line, split into quoted words. The
  reply holds a WebSocket URL and a one-time token.
- It dials the WebSocket with the token in the query string, base64-decodes each frame and
  writes the decoded bytes to standard output.

The client uses one set of credentials: the `CATTLE_URL`, `CATTLE_ACCESS_KEY` and
`CATTLE_SECRET_KEY` environment variables.

This project models all of `main.go` except the transport. The HTTP server, the WebSocket and
the environment are parameters. The model is organised as follows:

- `GoStrings` holds the library behaviour the client depends on: `unicode.IsSpace`,
  `strings.Fields`, `strings.TrimSpace` and `strings.Replace`.
- `GoQuote` models `strconv.Quote`, which `%q` uses. It also holds a decoder, used as the
  partner for the round-trip proofs.
- `Base64` models `base64.StdEncoding.DecodeString`, with an encoder as its partner.
- `Credentials`, `Locator`, `Negotiator`, `Relay` and `Client` follow the functions of
  `main.go`.
- The relay loop is a method with a `while` loop. It is proved against a closed-form
  description of what it writes.
- `Client.Run` is `main` end to end. It returns four things: the requests sent, the socket
  URLs dialled, the relayed output, and how the run ended.

The model follows main.go as written:

- `-name` is the only selector, and one run addresses one container.
- Every fatal error stops the whole run. These are `printErr`, `log.Fatal` and `panic`, and
  they include a frame that is not valid base 64.
- A variable is checked for emptiness before it is trimmed. So a variable that holds only white
  space is accepted, and its value is "".
- The socket's closing error is printed to standard output, followed by a newline.
- A command word that holds a control character is written with Go escapes such as `\a` and
  `\x01` (`GoQuote.QuoteBell`). JSON does not define these escapes, so the request body is
  then not valid JSON.

## Model

| member | source | states |
|---|---|---|
| GoStrings.IsSpace | main.go:75 | `unicode.IsSpace`: the six Latin-1 spaces (tab, LF, VT, FF, CR, space), U+0085, U+00A0 and the other Unicode White_Space runes; this is the separator `strings.Fields` and `strings.TrimSpace` use (definition, no contract) |
| GoStrings.Fields | main.go:75 | every field of the command line is non-empty and contains no white space |
| GoStrings.FieldsConcat | main.go:75 | concatenating the fields gives exactly the non-space characters of the line, in order |
| GoStrings.FieldsEmpty | main.go:75 | a line has no fields exactly when it is empty or all white space |
| GoStrings.FieldsOfJoin | main.go:75 | splitting tokens that were joined by single spaces gives the same tokens back |
| GoStrings.FieldsSplit | main.go:75 | any non-empty run of white space, of any length and any white-space runes, separates fields: the fields of `a + w + b` are the fields of `a` followed by those of `b`. With `FieldsEmpty` and `FieldsOfJoin`, this fixes the fields of every string |
| GoStrings.FieldsNormalForm | main.go:75 | re-joining the fields with single spaces and splitting again changes nothing |
| GoStrings.TrimSpace | main.go:161 | `strings.TrimSpace`: drops the leading run of white space, then the trailing run (definition; `TrimSpaceSlice` states what it keeps) |
| GoStrings.TrimSpaceSlice | main.go:161 | the trimmed value is a slice of the raw value; only white space is removed at either end, and the kept slice neither starts nor ends with white space |
| GoStrings.TrimSpaceEmpty | main.go:161 | trimming gives "" exactly when the value is empty or all white space |
| GoStrings.TrimSpaceKeepsText | main.go:161 | trimming keeps every non-space character, in order |
| GoStrings.TrimSpaceIdempotent | main.go:161 | trimming twice is trimming once |
| GoStrings.ReplaceAll | main.go:76 | `strings.Replace(s, " ", ", ", -1)`: every occurrence of the one-rune pattern replaced, left to right, with no limit (definition; the two lemmas below state its properties) |
| GoStrings.ReplaceAllAppend | main.go:76 | replacing spaces distributes over concatenation |
| GoStrings.ReplaceAllAbsent | main.go:76 | replacing leaves a string that has no spaces unchanged |
| GoQuote.EscapeRune | main.go:76 | how `strconv.Quote` writes one rune: `\"` and `\\` for the quote and backslash, a printable rune as itself, the short escapes `\a \b \f \n \r \t \v`, `\xNN` for other control runes and DEL, `\uNNNN` for non-printable Latin-1 (definition; the round trip below is its partner) |
| GoQuote.Quote | main.go:76 | `strconv.Quote`, which `%q` prints for a string: the escaped runes between double quotes (definition; `QuoteRoundTrip` states that it loses nothing) |
| GoQuote.QuoteSlice | main.go:76 | `%q` applied to a `[]string`: the quoted elements separated by one space, between square brackets (definition; `Negotiator.CommandArrayShape` states the result after the spaces are rewritten) |
| GoQuote.QuoteRoundTrip | main.go:76 | each `%q`-quoted word is read back as exactly that word, and the text after it is left alone |
| GoQuote.QuoteNoSpace | main.go:76 | quoting a word that has no space adds no space, so only the list separators are rewritten to ", " |
| GoQuote.QuotePlain | main.go:76 | a word of printable characters without `"` or `\` is quoted by just wrapping it in double quotes |
| GoQuote.QuoteBell | main.go:76 | a control character is written as its short escape (BEL as `\a`) |
| Base64.Decode | main.go:132 | `base64.StdEncoding.DecodeString`: CR and LF are skipped, the rest must be whole four-character quanta, only the last may be padded; `None` is the decode error (definition; the lemmas below state its properties against `Encode`) |
| Base64.DecodeQuanta | main.go:132 | a decoded payload has three bytes for every four characters, less at most two for padding |
| Base64.DecodeEncode | main.go:132 | every byte string that is encoded with the standard alphabet and padding decodes back to itself |
| Base64.DecodeRejectsForeign | main.go:132-136 | a payload holding a character outside the alphabet, other than `=`, CR or LF, fails to decode |
| Base64.PaddingIgnoresLowBits | main.go:132 | in a "xx==" quantum, the unused low bits of the second character are not checked |
| Base64.NonStrictPadding | main.go:132 | "QR==" and "QQ==" both decode to "A" |
| Base64.MissingPadding | main.go:132 | an unpadded final quantum ("QQ") is rejected |
| Base64.LineBreakSkipped | main.go:132 | for every payload, removing a CR or LF at any position, even between the two padding characters, does not change what it decodes to |
| Credentials.GetEnvOption | main.go:156-162 | a required variable fails exactly when its raw value is empty, with an error naming it; otherwise the value is a slice of the raw value with only white space cut from either end, and it neither starts nor ends with white space, which is what `strings.TrimSpace` returns |
| Credentials.EnvOptionBlank | main.go:158-161 | a required variable holding only white space passes the check and yields "" |
| Credentials.GetCattleVars | main.go:144-154 | the three variables are all required; the first empty one, in the order CATTLE_URL, CATTLE_ACCESS_KEY, CATTLE_SECRET_KEY, is the error; on success the result is the three trimmed values |
| Locator.ContainerLookupEndpoint | main.go:50 | the listing URL: the base URL, "/containers?name=" and the -name flag's value, none escaped (definition; the round trip below reads the name back) |
| Locator.LookupEndpointRoundTrip | main.go:50 | the lookup endpoint is the base URL, "/containers?name=" and the container name, and the name can be read back from it verbatim |
| Locator.LookupNameSound | main.go:50 | every URL of that shape is the endpoint for the name it carries |
| Locator.LookupEndpointInjective | main.go:46-50 | for one base URL, two container names give the same endpoint exactly when they are equal |
| Negotiator.CommandArray | main.go:75-76 | `strings.Replace(fmt.Sprintf("%q", strings.Fields(cmd)), " ", ", ", -1)`, composed from the three functions above (definition; the lemmas below state its shape and round trip) |
| Negotiator.ExecRequestBody | main.go:77 | the command array placed in the fixed template `{ "attachStdin": true, "attachStdout": true, "command": …, "tty": true }` (definition; `ExecRequestBodyRoundTrip` is its partner) |
| Negotiator.CommandArrayShape | main.go:75-76 | the command array is "[", the quoted fields joined by ", ", and "]" |
| Negotiator.CommandArrayEmpty | main.go:75-76 | the command array is "[]" exactly when the command line is empty or all white space |
| Negotiator.CommandArrayRoundTrip | main.go:75-76 | reading the command array back gives exactly the command line's fields |
| Negotiator.CommandArrayOfJoin | main.go:75-76 | words separated by single spaces are sent as those words, each quoted, joined by ", " |
| Negotiator.CommandArrayExample | main.go:75-76 | "ls -la /tmp" gives `["ls", "-la", "/tmp"]` |
| Negotiator.ExecRequestBodyRoundTrip | main.go:75-77 | the request body has the fixed template around the command array, and a reader of Go-quoted strings gets back exactly the command's fields. The reader accepts Go escapes such as `\a` and `\xNN`; a JSON parser does not, so this holds for the server only while no field holds a control character |
| Negotiator.ExecRequestBodySameFields | main.go:75-77 | two command lines give the same body exactly when they have the same fields |
| Negotiator.ExecRequestBodyBlank | main.go:77 | a blank command line gives `{ "attachStdin": true, "attachStdout": true, "command": [], "tty": true }` |
| Negotiator.ExecRequestBodyExample | main.go:75-77 | the body for "ls -la /tmp" is the template around `["ls", "-la", "/tmp"]` |
| Relay.SocketTokenUrl | main.go:110 | the socket URL: the WebSocket URL, "?token=" and the token, none escaped (definition; the round trip below splits it back) |
| Relay.SocketTokenUrlRoundTrip | main.go:110 | the socket URL is the WebSocket URL, "?token=" and the token; for a token without '?', both parts can be read back |
| Relay.StopIndex | main.go:123-136 | the loop stops at the first read that is an error or a payload that does not decode; every read before it is a decodable frame |
| Relay.RelayFrames | main.go:123-141 | the output is the decoded frames before the first stopping read, concatenated in order. A read error adds its text and a newline and ends normally. A payload that does not decode stops the loop with `Corrupt` at that read and writes nothing for that frame |
| Relay.SendWsExecRequest | main.go:107-142 | the dialled URL is the token-bearing socket URL. A refused dial fails with `DialFailed` before any output is written. On a connection, the frames before the first stopping read are written. A payload that does not decode is then the fatal `DecodeError` at that read (main.go:132-135), and is never an `Ok` ending. Otherwise the loop ends normally, closed or waiting, as `RelayFrames` specifies |
| Relay.DeliveredAppend | main.go:138-140 | there is no reassembly across frames: the output for two runs of frames is one output followed by the other |
| Relay.StopIndexAppend | main.go:123-136 | reads after the stopping read are never looked at |
| Relay.RelayEncoded | main.go:132-140 | frames that each carry base64 of an output chunk are all relayed, and the output is the chunks in order |
| Relay.RelayThenClose | main.go:123-141 | for encoded output followed by a close error, the loop stops at the close and has relayed the whole output |
| Client.LookupRequest | main.go:50-53 | the lookup request: a GET of the lookup endpoint with the access key and secret key as Basic credentials, no body (definition) |
| Client.ExecRequest | main.go:81-83 | the exec request: a POST of the exec body to the execute URL with Basic credentials and Content-Type application/json (definition) |
| Client.GetContainerExecUrl | main.go:46-69 | a missing credential stops it before any request is sent. An endpoint that Go's URL parser rejects also stops it before any request is sent: `http.NewRequest`'s error is not checked, and `SetBasicAuth` panics on the nil request (main.go:52-53). Otherwise it sends exactly one request, the authenticated GET of the lookup endpoint. An unreachable server is an error. A listing without an execute URL is an error. Otherwise the result is that URL |
| Client.GetContainerWsData | main.go:71-105 | it reads the credentials again, and a missing one stops it before any request is sent. An execute URL that Go's URL parser rejects ends in the same panic on the nil request, before any request is sent (main.go:81-82). Otherwise it sends exactly one request, the authenticated JSON POST of the exec body to the execute URL. The errors come in order: an unreachable server, a reply without "url", then a reply without "token". Otherwise the result is the URL and the token |
| Client.Run | main.go:23-44 | see the note after this table |

The `Client.Run` contract states the following:

- An empty `-name` stops the run first. An empty `-cmd` stops it next. A missing environment
  variable stops it after that.
- None of these failures sends a request.
- Once these checks pass, the lookup endpoint is built. If Go's URL parser rejects it (for
  example a `-name` holding a control character, or a `CATTLE_URL` with a bad port), the run
  ends with `InvalidRequestUrl` and nothing is sent. This is the panic of `SetBasicAuth` on the
  nil request that the unchecked `http.NewRequest` error leaves. Otherwise the first request is
  always sent. It is the authenticated GET of the lookup endpoint for the flag's container name.
- The listing's answer decides what happens next. An unreachable server ends the run with
  `LookupFailed`, and a listing without an execute URL ends it with `NoExecuteUrl`. In both
  cases only the one request was sent. For a listing with an execute URL, an execute URL that
  does not parse ends the run with `InvalidRequestUrl` after the one request. Any other
  execute URL always leads to the second request, the authenticated JSON POST of the exec
  body to that URL, with the credentials read a second time.
- The exec reply decides the same way. An unreachable server gives `ExecPostFailed`, a reply
  without "url" gives `NoWebsocketUrl`, and one with a URL but no token gives `NoToken`. In
  each of these cases nothing is dialled. A reply with both always leads to dialling the
  token-bearing socket URL.
- A refused dial ends the run with `DialFailed` and no output.
- A connection is relayed. A frame that does not decode ends the run with the fatal
  `DecodeError`, after the frames before it have been written. Otherwise the run's output and
  ending are what the relay loop gives for that connection.

## Left out

- HTTP transport, status codes and response bodies are left out. They are replaced by the
  `Remote` functions. `Remote.parses` stands for Go's URL parser (`url.Parse`, as
  `http.NewRequest` applies it), so which URLs it rejects is not modelled.
- `jsonparser.GetString` is left out. The model takes the string it would extract, as an
  `Option`, so a missing or malformed field is `None`.
- WebSocket dialling, the handshake, and the frame's message type are left out. `dial` returns
  either a refusal or the sequence of results that `ReadMessage` would return.
- `os.Getenv` is left out. The three raw values are passed in as an `Environment`, and an unset
  variable is "".
- Flag parsing, the `-debug` flag and the `debug` log lines are left out. The container name
  and the command are parameters of `Client.Run`.
- Client.Run: the `Executing [...] on container [...]` progress line (main.go:32) is not
  included in the output it returns. The returned output holds only what the relay loop
  writes.
- Client.Run: the text that `log.Fatal` and `panic` write to standard error is not modelled,
  and neither is the exit status. Each fatal error is a `Failure` value.
- Relay.RelayFrames: when the available reads run out, the source blocks on the next read. The
  model instead ends with `Waiting`.
- GoQuote.IsPrint: it is exact on U+0000 to U+00FF. Every rune above U+00FF is treated as
  printable, so the `\u` escapes, the `\U` escapes and the escapes for invalid UTF-8 that
  `strconv.Quote` writes for such runes are not modelled.
- Strings are sequences of Unicode runes, not UTF-8 bytes. Frame payloads and standard output
  are byte sequences.
