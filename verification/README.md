# Detach daemon — a Dafny model

DetachablePython is a small process-control daemon with a command-line client. The daemon
listens on TCP port 2046. Each connection carries one request: launch a detached process,
cancel one, or list every process launched so far. The daemon answers with the serialized
`RunningInfo` records it keeps in an in-memory table keyed by a `uint` id.

This project models the request handling of `Worker` (DetachService/Worker.cs):

- framing with the `<|EOM|>` sentinel and splitting on the `<|s|>` separator;
- decoding of the command code and its fields;
- the process table `_running` and the id counter `_procId`;
- the supervisor's completion step and the cancel-all at shutdown.

It also models the client's message builders, its read loop and its reading of responses
(DetachClient/Program.cs), and the shared `RunningInfo` record (DetachLibrary/RunningInfo.cs).

Modules, one per file:

- `Wrappers` (wrappers.dfy): `Option`.
- `Text` (text.dfy): ordinal substring search, `IndexOf` and `Contains`.
- `Numbers` (numbers.dfy): `uint32` with wrap-around, decimal text, and the `int.TryParse` / `uint.TryParse` readings.
- `Framing` (framing.dfy): `Sep`, `Eom`, `Split`/`Join`, the listing form `Terminated`, the read loop `Receive`, and `Strip` (`message[..^7]`).
- `Records` (running_info.dfy): `RunningInfo`, its constructor and its serialized form `Ser`.
- `Service` (worker.dfy): `Decode`, output file names, and the class `Daemon` (counter, table, enumeration order).
- `Client` (client.dfy): the request builders, `Connect`, `Interpret`, and client/daemon round trips.

The model makes these choices:

- Concurrency between supervisors and the accept loop is an arbitrary interleaving of the
  `Daemon` methods `HandleMessage`, `Complete` and `Shutdown`.
- Timestamps are abstract naturals. The formatted launch time used in file names is a parameter `stamp`.
- A record's `CancellationTokenSource` is a boolean `CancelRequested`.
- The table's enumeration order is the field `Daemon.order`, the keys in insertion order.
  An overwrite keeps the key's place.
- `Daemon.Valid` states the key-set invariant. Every key `k` below
  `min(launches (+1 after an aborted launch), 2^32)` has an entry, and no other key does.
  `order[i] == i`, and each entry's `Id` equals its key. So before the counter wraps,
  the keys are exactly `0 .. counter-1`.
- Each `RunCommand` started by a launch is a pending supervisor. The ghost multiset
  `Daemon.pending` holds one copy of the id per supervisor whose `finally` has not run.
  `Complete` needs a pending supervisor for its id and removes one copy. Before the counter
  wraps, `Daemon.Valid` also states that every pending id occurs once and its entry has no
  stop time. So a stop time is written at most once, and no operation changes one already set.
  After the wrap, an old and a new supervisor can share an id, and each can write that entry's
  stop time, as in the code.

Some behaviours of the code that the model keeps:

- A launch passes fields 3.. through unchanged. A launch whose last field is empty
  (`...<|s|>cwd<|s|>`, as the client sends when it has no argument list) therefore starts the
  process with one empty-string argument.
- `message[..^7]` removes the last seven characters of the accumulated text. They are the
  sentinel only when nothing followed it in the same read.
- A launch with fewer than three fields, or a cancel with no id field, makes the code throw an
  exception that `ExecuteAsync` does not catch. The accept loop then ends. For the launch, the
  exception comes after the new entry was inserted and before `_procId++`. The model returns
  `Fault` and sets `faulted`. For the launch it also keeps the inserted entry.
- `_procId++` is unchecked. After 2^32 launches the counter returns to 0. From then on a launch
  overwrites an existing entry, and that entry keeps its place in the listing.

## Model

| member | source | states |
|---|---|---|
| `Text.IndexOf` | DetachService/Worker.cs:53 | the result is the first index where the token occurs, or None exactly when it occurs nowhere; `Contains` (the loop test) is defined from it |
| `Numbers.Next` | DetachService/Worker.cs:91 | `_procId++` on an unchecked `uint`: the result is `(c + 1) mod 2^32` |
| `Numbers.Dec` | DetachService/Worker.cs:79 | the decimal text of an id is a non-empty run of digits whose value is the number; it starts with `0` only when it is exactly `"0"` |
| `Numbers.ParseInt32` | DetachService/Worker.cs:63-66 | `int.TryParse` succeeds only on trimmed, optionally signed digits whose value fits 32 signed bits |
| `Numbers.ParseUInt32` | DetachService/Worker.cs:95 | `uint.TryParse` succeeds only on a read numeral, and the value is that numeral's magnitude |
| `Numbers.ParseUInt32Dec` | DetachClient/Program.cs:91 | parsing the decimal text of any `uint` id gives back that id |
| `Numbers.DecPrefix` | DetachService/Worker.cs:79 | decimal text is unambiguous: a number whose digits are followed by a non-digit is determined by the text |
| `Numbers.DecSuffix` | DetachService/Worker.cs:79 | the same with the digits at the end, after a non-digit such as `_` |
| `Framing.Split` | DetachService/Worker.cs:62 | `Split("<|s|>")` gives at least one field, no field holds the separator, and joining the fields with the separator gives back the text |
| `Framing.SplitJoin` | DetachClient/Program.cs:71-83 | splitting fields joined by the separator gives back exactly those fields, when none of them holds the separator |
| `Framing.TerminatedJoin` | DetachService/Worker.cs:116-120 | a listing where every segment is followed by the separator equals the segments joined with one empty field added |
| `Framing.SplitTerminated` | DetachClient/Program.cs:174-176 | splitting such a listing gives its segments, in order, plus one empty last piece |
| `Framing.TerminatedGuarded` | DetachService/Worker.cs:116-120 | a listing of segments that have no `<` can never contain the sentinel |
| `Framing.Receive` | DetachService/Worker.cs:50-57 | the read loop (also DetachClient/Program.cs:127-134) ends exactly when the whole stream holds the sentinel; it stops at the first read after which the text holds it, and returns all text read so far |
| `Framing.Strip` | DetachService/Worker.cs:58 | `message[..^7]` (also DetachClient/Program.cs:137): the text without its last seven characters, a prefix of it; `FramedMessage` shows that this gives back the sent message |
| `Framing.FramedMessage` | DetachService/Worker.cs:53-58 | if a message without the sentinel is sent followed by the sentinel, in any chunks, any read that sees the sentinel holds exactly that frame, and `message[..^7]` gives back the message |
| `Records.Create` | DetachLibrary/RunningInfo.cs:7-13 | the constructor sets Id and StartTime to its arguments, StopTime to null, and a source that is not cancelled |
| `Records.Ser` | DetachLibrary/RunningInfo.cs:14-19 | the serialized record is non-empty and contains no `<`, so it holds neither the separator nor the sentinel |
| `Records.SerIgnoresSource` | DetachLibrary/RunningInfo.cs:18-19 | the cancellation source does not affect the serialized form |
| `Records.SerInjective` | DetachLibrary/RunningInfo.cs:14-16 | equal serialized forms have equal Id, StartTime and StopTime (including a null StopTime) |
| `Service.Decode` | DetachService/Worker.cs:62-113 | with the code being `int.TryParse` of field 0 (0 if unparsable): a launch exactly for code 1 with at least three fields, taking field 1 as executable, field 2 as working directory and fields 3.. as arguments, with nothing dropped; missing launch fields exactly for code 1 with fewer; a cancel exactly for code 2 with a field 1 that `uint.TryParse` accepts, carrying that id; a bad id exactly when it does not; a missing id exactly for code 2 alone; fetch-all exactly for code 3; unrecognized exactly when the code is not 1, 2 or 3 |
| `Service.UnknownCodeScenario` | DetachService/Worker.cs:63-73 | `9<|EOM|>` decodes as an unrecognized request |
| `Service.CancelScenario` | DetachService/Worker.cs:93-95 | `2<|s|>999<|EOM|>` decodes as a cancel of id 999 |
| `Service.LaunchScenario` | DetachService/Worker.cs:74-89 | `1<|s|>python<|s|>work<|s|><|EOM|>` decodes as a launch of `python` in `work` with the single argument `""` |
| `Service.FetchScenario` | DetachService/Worker.cs:114-116 | `3<|EOM|>` decodes as fetch-all |
| `Service.UnknownIdScenario` | DetachService/Worker.cs:93-125 | a fresh daemon asked to cancel process 999 answers exactly `<|EOM|>` |
| `Service.FreshLaunch` | DetachService/Worker.cs:74-92 | a fresh daemon's first launch gets id 0, leaves exactly that entry in the table, and answers its record with the job for `python` in `work` with argument `""` |
| `Service.LaunchThenFetchScenario` | DetachService/Worker.cs:114-125 | after that launch, a fetch answers exactly the record, a separator and `<|EOM|>` |
| `Service.OutputDir` | DetachService/Worker.cs:78 | the base directory followed by `\logs\processes` |
| `Service.OutputName` | DetachService/Worker.cs:79 | the stamp, `_`, then the id in decimal; `OutputNameDeterminesId` shows that the name determines the id and the stamp |
| `Service.StdoutPath` | DetachService/Worker.cs:153 | the directory, `\`, the name, then `_output.txt`; `StdoutPathDeterminesId` and `StdoutNeverStderr` state what this guarantees |
| `Service.StderrPath` | DetachService/Worker.cs:154 | the directory, `\`, the name, then `_error.txt`; `StderrPathDeterminesId` and `StdoutNeverStderr` state what this guarantees |
| `Service.OutputNameDeterminesId` | DetachService/Worker.cs:79 | `{stamp}_{id}` names are equal only if the ids (and stamps) are equal, whatever the timestamp texts |
| `Service.StdoutPathDeterminesId` | DetachService/Worker.cs:153 | in one output directory, two launches share a `_output.txt` file only if they share the id |
| `Service.StderrPathDeterminesId` | DetachService/Worker.cs:154 | the same for the `_error.txt` file |
| `Service.StdoutNeverStderr` | DetachService/Worker.cs:153-154 | no standard-output path is ever equal to a standard-error path |
| `Service.Daemon.constructor` | DetachService/Worker.cs:18-23 | counter 0, empty table, invariant established |
| `Service.Daemon.IdsBelowCounter` | DetachService/Worker.cs:21-22 | until the counter wraps, the table's keys are exactly the ids below the counter, and the listing order contains only those |
| `Service.Daemon.Register` | DetachService/Worker.cs:80-81 | the entry under the counter is the new record; an existing key keeps its place in the order, a new key goes last |
| `Service.Daemon.HandleMessage` | DetachService/Worker.cs:53-125 | per decoded command, the whole new state and the response: launch inserts `Create(c, now)` under the old counter, advances it by one (mod 2^32), answers its serialization plus `<|EOM|>`, and hands the supervisor field 1/field 2/fields 3.. and the two output paths; before wrap the id is new and above every existing key; cancel of a known id sets only that entry's flag and answers the current entry; unknown or unparsable ids, unknown codes: nothing changes and the answer is exactly `<|EOM|>`; fetch changes nothing and answers each entry's serialization plus a separator, in table order; missing fields: `Fault`; only a launch adds a pending supervisor (for the old counter); before wrap no stop time already set changes |
| `Service.Daemon.LaunchProcess` | DetachService/Worker.cs:74-92 | the launch step alone: table, order, counter, response record and job as above, one pending supervisor added for the id, invariant kept, and before wrap every stop time already set is kept |
| `Service.Daemon.AbortLaunch` | DetachService/Worker.cs:80-85 | with fields missing, the entry is inserted but the counter is not advanced, and the loop has faulted |
| `Service.Daemon.CancelProcess` | DetachService/Worker.cs:95-107 | a known id: only that entry's cancel flag is set and its serialization returned; an unknown id: the table is unchanged and nothing is returned; no stop time changes |
| `Service.Daemon.ListAll` | DetachService/Worker.cs:116-120 | the listing is every entry's serialization followed by the separator, in table order |
| `Service.Daemon.Complete` | DetachService/Worker.cs:177-182 | runs only for an id with a pending supervisor, and removes that supervisor; only entry `id`'s StopTime changes, to `now`, and everything else stays the same; before wrap that StopTime was unset, no supervisor for `id` is left, and every stop time already set is kept, so each is written once |
| `Service.Daemon.Shutdown` | DetachService/Worker.cs:132-135 | every entry's cancel flag is set, nothing else in any entry changes (stop times included), and the key set stays the same |
| `Client.LaunchMessage` | DetachClient/Program.cs:66-83 | the message is `1`, executable, working directory (the current one by default), then each argument, joined by `<|s|>`; with no argument list, one empty field is added at the end |
| `Client.CloseMessage` | DetachClient/Program.cs:91 | the message splits into exactly `["2", decimal(id)]` |
| `Client.FetchMessage` | DetachClient/Program.cs:98 | the message splits into exactly `["3"]` |
| `Client.Interpret` | DetachClient/Program.cs:138-176 | a launch reply is the whole payload; for a cancel, "not identified" exactly when the payload is empty, otherwise the whole payload as the record; for a fetch, a listing with one record per split piece except the last, none holding the separator, and the records followed by the last piece join back to the payload |
| `Client.Connect` | DetachClient/Program.cs:120-137 | the sent text is the message plus `<|EOM|>`; there is a reply exactly when the response stream holds the sentinel, and then it is the interpretation of the text up to the first completing read, minus seven characters |
| `Client.LaunchRoundTrip` | DetachClient/Program.cs:71-83 | the daemon decodes the launch message into the same executable, working directory and argument list (`[""]` when the client had none), when no field holds the separator |
| `Client.CloseRoundTrip` | DetachClient/Program.cs:87-92 | the daemon decodes the close message into a cancel of the same id |
| `Client.FetchRoundTrip` | DetachClient/Program.cs:95-99 | the daemon decodes the fetch message as fetch-all |
| `Client.FetchReplyRoundTrip` | DetachClient/Program.cs:174-176 | a fetch response never holds the sentinel, and the client reads back exactly the serialized entries, one per key, in order |
| `Client.CancelReplyRoundTrip` | DetachClient/Program.cs:153-171 | a cancel response holding a record is read as that record; the empty response is read as "not identified" |

## Left out

- Sockets, DNS resolution, bind/listen/accept, send and connection shutdown: this is network I/O. Only the text sent and the chunks received are modelled.
- UTF-8 decoding of 1024-byte reads: each chunk is taken as text that is already decoded.
- Spawning the process, piping its output to files, awaiting it, the Ctrl-C signal, and the fixed `Task.Delay`s: these are calls into a foreign library and timing. The supervisor appears only as the `Job` a launch hands over and as `Complete`. A spawn that throws inside the `async void` supervisor is not modelled.
- `Records.Ser`: stands in for the JSON library's output. The three properties keep their names, but timestamps are written as quoted decimal numbers rather than dates. The client's deserialization and its `JsonSerializationException` fallback are not modelled; `Interpret` hands back the raw record text.
- `Numbers.ParseInt32`: does not model culture-specific sign symbols or trailing NUL characters that `int.TryParse` also accepts.
- `Numbers.ParseUInt32`: does not model culture-specific sign symbols or trailing NUL characters that `uint.TryParse` also accepts.
- `Framing.Strip`: removes seven Unicode scalar values, whereas `message[..^7]` removes seven UTF-16 code units. The two differ when text after the sentinel in the same read holds a character outside the Basic Multilingual Plane. For `abc<|EOM|>😀`, C# leaves `abc<|` and the model leaves `abc<`. Text is modelled as scalar values throughout.
- `Service.Daemon.HandleMessage`: the 500 ms pause inside a cancel is not a point where other calls can run. A completion that happens during the pause gives the same state and response as a `Complete` just before the request, so the model treats it that way.
- `Service.Daemon.Shutdown`: the model does not decide whether the cleanup is reached. In `Worker.ExecuteAsync`, the stop signal usually interrupts `AcceptAsync`, and the cancel-all loop after the accept loop is then skipped.
- `DateTime.UtcNow` and its formatting: the launch time `now` and its text `stamp` are parameters.
- The host builder, Windows-service registration and logging (DetachService/Program.cs): plumbing. DetachService/Program.cs is not part of this model.
- The client's command-line verb parsing, console output, `Directory.GetCurrentDirectory()` (a parameter of `LaunchMessage`) and `Environment.Exit`.
