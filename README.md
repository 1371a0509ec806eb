# Broker-to-TCP bridge: a Dafny model of its request handling, reformatter and message buffer

This project models the sequential core of a bridge that subscribes to a RabbitMQ queue,
buffers every delivered message, and streams the messages, reformatted as indented JSON, to a
TCP client:

- `TcpServerInstance.UpServerAsync` (module `TcpServer`): host and port validation, the bind,
  and the bounded accept loop that returns on the first client;
- `TcpServerInstance.SendSseMessagesAsync` (module `TcpServer`): the session loop that drains
  the listener and writes one formatted line per message;
- `FormatJson`, `WriteFormattedJson` and `DecodeUnicodeEscape` (modules `JsonReformat` and
  `UnicodeEscape`): the JSON tree copy that rewrites `Timestamp` properties, and the regex pass
  that turns `\uXXXX` escapes back into characters;
- `RabbitMqQueueListener` (module `QueueListener`): a class whose buffer is appended to on
  delivery and drained by the session, with ghost history (`delivered`, `drained`) and the
  invariant that the drained batches followed by the buffer are exactly the deliveries, in
  arrival order; and the connect/stop discipline of `StartListeningAsync` and `StopListening`.

Library and environment behaviour is passed in as parameters. This covers `JsonDocument.Parse`,
the `Utf8JsonWriter` output, date parsing and formatting, `IPAddress.TryParse`, the outcome of
each `AcceptTcpClientAsync` and a failing `listener.Start()`. The sequence of broker deliveries
is a parameter too. Each lock-protected buffer operation is one sequential step.

Behaviour of the code that a reader might not expect, which the model keeps:

- each session subscribes again through the one injected listener (TcpServerInstance.cs lines
  22 and 99), so all sessions of a server instance feed and drain one buffer
  (`TcpServerInstance.listener` is a `const`);
- a null `ServerConnectionSettings` is dereferenced inside the outer `try` (line 61), after the bind, so
  it also yields "Критическая ошибка сервера." (`UpServer`);
- the bind is not the only critical failure: a reconnect delay below -1 makes `Task.Delay` throw
  inside the inner `catch`. That exception reaches the outer handler, so the result is also
  "Критическая ошибка сервера." (`AcceptOutcome`);
- `StopListening` is not idempotent: it calls `Close()` again on handles that are already
  closed, and the model records each of those calls.

Consequences of the code that the lemmas exhibit:

- the `JsonSerializerOptions` built at lines 135-139 is never used, so the writer escapes with
  its default encoder and the decode pass turns every such escape back into a raw character.
  The output is therefore not guaranteed to be valid JSON, and no such property is claimed;
- a character outside the Basic Multilingual Plane is written as a surrogate pair. The
  replacement throws on it (`SurrogatePairEscapeFails`), and the whole message falls back to its
  raw text (`FormatJsonFallsBackOnSurrogate`);
- a JSON-escaped backslash followed by `u` and four hex digits is still decoded
  (`EscapedBackslashIsDecoded`).

## Model

| member | source | states |
|---|---|---|
| `UnicodeEscape.EscapeAt` | api/servers-api/factory/tcp/instances/TcpServerInstance.cs:163 | the pattern `\\u` plus four hex digits matches at a position exactly as it matches at the start of the suffix from there |
| `UnicodeEscape.CodeAt` | api/servers-api/factory/tcp/instances/TcpServerInstance.cs:165 | the hexadecimal value of the four digits of a match, always below 0x10000 |
| `UnicodeEscape.ScannedCodes` | api/servers-api/factory/tcp/instances/TcpServerInstance.cs:163 | the regex matches, scanned left to right without overlap; each takes six characters |
| `UnicodeEscape.DecodeUnicodeEscape` | api/servers-api/factory/tcp/instances/TcpServerInstance.cs:160-167 | a successful replacement shortens the text by five characters per match |
| `UnicodeEscape.DecodeFailsIffSurrogateMatch` | api/servers-api/factory/tcp/instances/TcpServerInstance.cs:163-166 | the replacement throws exactly when some enumerated match is a surrogate code (D800-DFFF) |
| `UnicodeEscape.NoMatchesIffNoEscapes` | api/servers-api/factory/tcp/instances/TcpServerInstance.cs:163 | the scan finds no match exactly when no position of the text starts a `\uXXXX` |
| `UnicodeEscape.DecodeWithoutEscapes` | api/servers-api/factory/tcp/instances/TcpServerInstance.cs:160-167 | a text without escapes is returned unchanged |
| `UnicodeEscape.DecodeIsIdentityIffNoEscapes` | api/servers-api/factory/tcp/instances/TcpServerInstance.cs:160-167 | the text comes back unchanged if and only if it holds no escape |
| `UnicodeEscape.DecodeFailsOnSurrogateAfterPlainText` | api/servers-api/factory/tcp/instances/TcpServerInstance.cs:165 | a surrogate escape reached after backslash-free text makes the whole replacement throw |
| `UnicodeEscape.SurrogatePairEscapeFails` | api/servers-api/factory/tcp/instances/TcpServerInstance.cs:165 | the escaped surrogate pair of an emoji is not decoded; the replacement throws |
| `UnicodeEscape.ReplacementIsNotRescanned` | api/servers-api/factory/tcp/instances/TcpServerInstance.cs:163 | a replaced character is not rescanned: an escaped backslash followed by `u0041` stays as written |
| `UnicodeEscape.EscapedBackslashIsDecoded` | api/servers-api/factory/tcp/instances/TcpServerInstance.cs:163 | a match starting at the second backslash of an escaped backslash is still replaced |
| `UnicodeEscape.DecodeUndoesEscaping` | api/servers-api/factory/tcp/instances/TcpServerInstance.cs:160-167 | decoding undoes a writer's `\uXXXX` escaping of any chosen BMP characters, backslashes included, so a replaced character is never rescanned; the only proviso is that no backslash written as itself is followed by `u` |
| `JsonReformat.IsTimestampName` | api/servers-api/factory/tcp/instances/TcpServerInstance.cs:177 | the name equals "timestamp" once ASCII capitals are folded to lower case |
| `JsonReformat.TimestampReplacement` | api/servers-api/factory/tcp/instances/TcpServerInstance.cs:177-181 | a replacement exists exactly when the name is "Timestamp" ignoring case, the value is a string and the date parses; it is then the formatted date |
| `JsonReformat.Reformat` | api/servers-api/factory/tcp/instances/TcpServerInstance.cs:169-203 | objects keep property names, order and duplicates; arrays keep length and order; other values are copied verbatim |
| `JsonReformat.ReformatPropertyRule` | api/servers-api/factory/tcp/instances/TcpServerInstance.cs:174-186 | a property value becomes the formatted date exactly when the name is "Timestamp" ignoring case, the value is a string and the date parses; otherwise it is reformatted recursively |
| `JsonReformat.ReformatWithoutTimestampIsIdentity` | api/servers-api/factory/tcp/instances/TcpServerInstance.cs:169-203 | a tree with no parsable Timestamp property at any depth is copied unchanged |
| `JsonReformat.ReformatChangesOnlyTimestamps` | api/servers-api/factory/tcp/instances/TcpServerInstance.cs:177-186 | with Timestamp strings blanked out, the copy equals the original at every depth: nothing else changes |
| `JsonReformat.ReformatAtEveryDepth` | api/servers-api/factory/tcp/instances/TcpServerInstance.cs:185-195 | the object or array at any path of the input appears, reformatted, at the same path of the output |
| `JsonReformat.NestedTimestampIsRewritten` | api/servers-api/factory/tcp/instances/TcpServerInstance.cs:177-182 | a parsable Timestamp string in an object at any depth is replaced by its formatted date in place |
| `JsonReformat.FormatPipeline` | api/servers-api/factory/tcp/instances/TcpServerInstance.cs:131-153 | the pipeline yields a text exactly when parse, write and decode all succeed, and the text is then the decoded serialisation of the reformatted tree |
| `JsonReformat.FormatJson` | api/servers-api/factory/tcp/instances/TcpServerInstance.cs:129-158 | the output differs from the input only if parse, write and decode all succeed; whenever they all succeed it is the decoded serialisation of the reformatted tree |
| `JsonReformat.FormatJsonFallsBack` | api/servers-api/factory/tcp/instances/TcpServerInstance.cs:154-157 | the input is returned whenever parsing, writing or escape decoding throws |
| `JsonReformat.FormatJsonKeepsPlainOutput` | api/servers-api/factory/tcp/instances/TcpServerInstance.cs:141-152 | a serialisation without escapes is returned as written |
| `JsonReformat.FormatJsonDecodesWriterEscapes` | api/servers-api/factory/tcp/instances/TcpServerInstance.cs:141-152 | characters the writer escaped as `\uXXXX` come out as the characters themselves, backslashes included, unless an unescaped backslash is followed by `u` |
| `JsonReformat.FormatJsonFallsBackOnSurrogate` | api/servers-api/factory/tcp/instances/TcpServerInstance.cs:152-157 | a serialisation containing a reachable surrogate escape makes the raw input come back |
| `QueueListener.CloseCalls` | api/servers-api/services/brokers/bpmintegration/RabbitMqQueueListener.cs:68-69 | the channel is closed before the connection, each exactly once if it was assigned and not at all otherwise |
| `QueueListener.Delivery` | api/servers-api/services/brokers/bpmintegration/RabbitMqQueueListener.cs:60 | the entry appended for a delivered body carries that body and a true result |
| `QueueListener.RabbitMqQueueListener.constructor` | api/servers-api/services/brokers/bpmintegration/RabbitMqQueueListener.cs:14-20 | a new listener has an empty buffer, no handles, no queue name and an empty history |
| `QueueListener.RabbitMqQueueListener.HandleMessage` | api/servers-api/services/brokers/bpmintegration/RabbitMqQueueListener.cs:52-64 | exactly one entry {body, true} is appended at the end; earlier entries and the history invariant are kept |
| `QueueListener.RabbitMqQueueListener.GetCollectedMessages` | api/servers-api/services/brokers/bpmintegration/RabbitMqQueueListener.cs:73-81 | returns the buffer in order and leaves it empty; the batch joins the history, keeping drained batches plus buffer equal to all deliveries |
| `QueueListener.RabbitMqQueueListener.StopListening` | api/servers-api/services/brokers/bpmintegration/RabbitMqQueueListener.cs:66-71 | closes the channel, then the connection, each only if set; no call when neither was assigned; the buffer is kept |
| `QueueListener.RabbitMqQueueListener.ReceiveAll` | api/servers-api/services/brokers/bpmintegration/RabbitMqQueueListener.cs:31-32 | the consumer's deliveries append their entries in arrival order |
| `QueueListener.RabbitMqQueueListener.PollUntilCancelled` | api/servers-api/services/brokers/bpmintegration/RabbitMqQueueListener.cs:37-40 | while waiting for cancellation, every delivery of every poll reaches the buffer in order |
| `QueueListener.RabbitMqQueueListener.StartListening` | api/servers-api/services/brokers/bpmintegration/RabbitMqQueueListener.cs:22-50 | records the queue name first; the buffer receives deliveries only once subscribed; StopListening runs on every exit path |
| `QueueListener.DeliverThenDrainTwice` | api/servers-api/services/brokers/bpmintegration/RabbitMqQueueListener.cs:58-61 | N deliveries then one drain return exactly those N entries in order; a second drain returns nothing |
| `TcpServer.IsWhiteSpace` | api/servers-api/factory/tcp/instances/TcpServerInstance.cs:38 | `char.IsWhiteSpace`: ASCII blanks are white space; digits, letters, dots, colons and the zero-width space are not |
| `TcpServer.IsNullOrWhiteSpace` | api/servers-api/factory/tcp/instances/TcpServerInstance.cs:38 | a host is blank exactly when it is missing or empty once its leading white space is trimmed |
| `TcpServer.FirstAccepted` | api/servers-api/factory/tcp/instances/TcpServerInstance.cs:61-65 | the first attempt in range whose accept succeeds, with every earlier attempt failed; none if all fail |
| `TcpServer.AcceptOutcome` | api/servers-api/factory/tcp/instances/TcpServerInstance.cs:61-86 | at most max(0, n) attempts; success exactly at the first successful attempt; a successful first attempt always connects; a critical error exactly when the first attempt fails and the delay is below -1, after one attempt; exhaustion only when every attempt failed |
| `TcpServer.TcpServerInstance.constructor` | api/servers-api/factory/tcp/instances/TcpServerInstance.cs:24-32 | the server keeps the injected listener |
| `TcpServer.TcpServerInstance.AcceptClient` | api/servers-api/factory/tcp/instances/TcpServerInstance.cs:59-86 | the accept loop's response and attempt count are those of `AcceptOutcome` |
| `TcpServer.TcpServerInstance.UpServer` | api/servers-api/factory/tcp/instances/TcpServerInstance.cs:34-93 | blank host, then zero port, then non-IP host are rejected before any listener exists; a bind failure or null connection settings is critical, with no accept attempted; otherwise the accept loop decides |
| `TcpServer.FormatLines` | api/servers-api/factory/tcp/instances/TcpServerInstance.cs:114-117 | one formatted line per drained message, in drain order |
| `TcpServer.TcpServerInstance.WriteBatch` | api/servers-api/factory/tcp/instances/TcpServerInstance.cs:114-120 | one line per message, in list order, each `FormatJson` of the message; an empty batch writes nothing |
| `TcpServer.TcpServerInstance.ServePoll` | api/servers-api/factory/tcp/instances/TcpServerInstance.cs:104-120 | one poll drains everything buffered and writes exactly those messages, formatted |
| `TcpServer.TcpServerInstance.SendSseMessages` | api/servers-api/factory/tcp/instances/TcpServerInstance.cs:95-127 | lines written are the drained batches, formatted, in order; drained messages are exactly the earlier buffer plus what arrived |

## Left out

- Sockets and streams: `TcpListener`, `AcceptTcpClientAsync`, `StreamWriter` and
  `client.Connected` are replaced by the `accept` outcome function, the `bindFails` flag and the
  returned sequence of written lines; the newline that ends each line is implicit.
- The bound `TcpListener` is never stopped in the source; the model does not track the socket
  after `UpServer` returns.
- The model does not follow the definition of `ServerInstanceModel` (namespace
  `servers_api.models.internallayer.instance`); it keeps its host, port and connection settings
  and takes the port to be a 16-bit unsigned number, so the `TcpListener` constructor at line 53
  (outside the `try`) cannot throw.
- Timing and concurrency: `Task.Delay`, `Task.Run`, the fire-and-forget start of the session
  (line 69) and of `StartListeningAsync("test_queue", …)` (line 99), and the lock. The session
  and the listener's polling loop are modelled separately; the deliveries the listener makes
  during a session are the session's `arrivals` parameter.
- TcpServer.TcpServerInstance.AcceptClient: the source's attempt counter is a C# `int`; with
  AttemptsToFindBus equal to int.MaxValue and every accept failing, `attempt++` wraps to
  int.MinValue and the loop never ends. The model uses unbounded integers and stops after n
  attempts.
- TcpServer.TcpServerInstance.AcceptClient: a reconnect delay of exactly -1 waits forever in
  the source; the model goes on to the next attempt.
- TcpServer.TcpServerInstance.SendSseMessages: the session ends only between polls. In the
  source, cancellation during a pacing delay or a failing write ends the session mid-batch, and
  the rest of that drained batch is never written.
- Date handling: `DateTime.TryParse`, `ToLocalTime` and the "yyyy-MM-dd HH:mm:ss" format depend
  on culture and time zone. They are the `parseDate` parameter.
- JSON library internals: `JsonDocument.Parse`, the indentation and escaping of
  `Utf8JsonWriter`, and `IPAddress.TryParse` are parameters; the lemmas about the writer's
  escaping state their assumption about its output as a precondition.
- Name matching: `OrdinalIgnoreCase` is modelled as ASCII case folding against "timestamp".
- RabbitMQ client calls: `CreateConnection`, `CreateModel`, `BasicConsume` and the consumer
  object become the `StartFault` outcome; message bodies are already-decoded strings (UTF-8
  decoding is not modelled); a `Close()` that throws on an already closed handle is not modelled.
- Handle identity: `Handle` records only whether a connection or channel is unset, open or
  closed, not which one. A second `StartListeningAsync` on the same listener overwrites
  `_connection` and `_channel`; the handles it replaces are never closed, and the model does not
  capture that leak.
- Logging everywhere.
- api/servers-api/background/ListenerIntegrationBackgroundService.cs is not part of this model:
  it only logs broker deliveries and keeps no state.
- api/servers-api/validation/ServerInstanceFluentValidator.cs is not part of this model: it
  delegates to an injected `IValidator<ServerInstanceModel>` whose rules lie outside this model.
- api/servers-api/middleware/MessagingConfiguration.cs and the interface files are not part of
  this model: they hold registrations and signatures only.
