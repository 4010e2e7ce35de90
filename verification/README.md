# Telegram channel relay: a verified model of its core

The relay listens for new messages in a set of source channels and copies
every message, as a new message and not as a forward, to each target
channel in turn. It pauses between targets and backs off when the platform
answers with a flood wait. This project models the sequential logic of
`main.py` in Dafny:

- `config.dfy` (module `Config`): parsing the comma-separated `SOURCES` and
  `TARGETS` settings. The input is split on `,` as Python's `str.split(",")`
  does, and each field is stripped as `str.strip()` does. The whitespace set
  is Python's `str.isspace()`. Blank fields are dropped and order is kept.
  The module also has a one-pass scanner, `ScanList`, proved equal to the
  split-strip-filter definition.
- `startup.dfy` (module `Startup`): the credential guard that stops the
  process when `API_ID` is 0 or `API_HASH` is empty, and the configuration
  the relay runs with.
- `relay.dfy` (module `Relay`): `copy_message` and the new-message
  `handler`. Both are pure functions from a notification and a platform
  oracle to an effect trace and a final status. The oracle answers the n-th
  send request of one handler call with `Ok`, `FloodWait(s)` or
  `OtherError`. The trace holds `Send(target, payload)`, `Sleep(seconds)` and
  log records tagged `LogInfo`, `LogWarning` and `LogError`. The final status
  is `Normal` or `Escaped(cause)`. `RelayMessage` is the handler written as
  the source's `for` loop with an early exit, proved equal to `Handler`.

The retry after a flood wait sits inside the `except FloodWaitError` clause.
An exception raised by that retry is therefore not caught by the sibling
`except Exception` clause. It leaves `copy_message`, and the handler's loop
stops at that target. The model keeps this behaviour: `CopyMessage` returns
`Escaped`, and `Pipeline` stops there.

A reader might expect a failed retry to be logged like any other send error,
with the relay going on to the next target. The code does not catch it, and
the model follows the code.

## Model

| member | source | states |
|---|---|---|
| Config.Strip | main.py:27-28 | What is cut off at the front is whitespace, and a non-empty result neither starts nor ends with whitespace |
| Config.StripSlice | main.py:27-28 | The result of `str.strip()` is exactly the slice of the input between the leading and the trailing whitespace, and everything cut off after it is whitespace |
| Config.StripIdempotent | main.py:27-28 | Stripping twice gives the same as stripping once, so every kept element equals its own strip |
| Config.StripEmptyIff | main.py:27-28 | A field is dropped exactly when it is entirely whitespace |
| Config.JoinSplit | main.py:27-28 | Joining the fields of `s.split(",")` with commas gives back `s`, so no character is lost or reordered by the split |
| Config.SplitJoin | main.py:27-28 | Splitting a comma-joined list of comma-free fields gives back those fields |
| Config.ParseList | main.py:27-28 | Every element of the parsed list is non-empty, has no whitespace at either end, and holds no comma |
| Config.ParseListFields | main.py:27-28 | The parsed list is the stripped non-blank fields of the comma split, in their original order, and that split covers the input exactly |
| Config.ParseJoin | main.py:27-28 | Parsing a comma-joined list of clean names gives back the same list, in order; the empty string parses to the empty list |
| Config.ParseListEmptyIff | main.py:27-28 | The parsed list is empty if and only if the input holds nothing but commas and whitespace, the empty string included |
| Config.ScanList | main.py:27-28 | A single left-to-right pass that emits each field as its comma is reached computes the same list as the split-strip-filter comprehension |
| Startup.Configure | main.py:27-35 | Start-up aborts if and only if `API_ID` is 0 or `API_HASH` is empty; otherwise the configuration has credentials and clean channel lists, and it keeps the settings' credentials, session name and delay. Its source and target lists are exactly the parses of `SOURCES` and `TARGETS` |
| Startup.ConfigureRender | main.py:27-35 | Any valid configuration is what start-up produces from its own comma-separated rendering |
| Relay.CopyMessage | main.py:40-65 | The first answer decides the trace, in both directions. `Ok` gives exactly one send and one "copied" record. Any other error gives exactly one send and one error record. `FloodWait(s)` gives exactly a send, a warning, a sleep of `s+1` and one retry to the same target with the same payload. The copy escapes exactly when the first send met a flood wait and the retry did not succeed, and it carries the retry's outcome. The platform answers one send request, or two after a flood wait |
| Relay.Pipeline | main.py:84-86 | The loop issues at most two send requests per target. It escapes only after a retry, so only after at least two sends, and only with an outcome other than `Ok` |
| Relay.Handler | main.py:69-86 | The trace is empty, with no send and no sleep, if and only if the notification has no message or the message's author is a user peer with the relay's own id; otherwise it opens with the "new message" record |
| Relay.PipelineBlocks | main.py:40-86 | The loop's trace is one copy block per target, in the configured order, each followed by exactly one pause of `DELAY`. Each block is exactly the copy the platform's answers give, starting at the send after the previous blocks' sends. The loop ends normally only when every copy did. Once a retry fails, the loop ends with that target's retry block, its status is that copy's, no later target is sent to and no pause follows |
| Relay.HandlerBlocks | main.py:69-86 | For a relayed message, the handler's trace is the "new message" record followed by the paced copy blocks of `PipelineBlocks`, each decided by the platform's answers from the handler's first send on, and the handler ends as the last copy did |
| Relay.FailedRetryEndsHandler | main.py:52-86 | A flood wait on the first send followed by a failing retry gives exactly the new-message record, the send, the warning, the sleep of the wait plus one, and the retry. The handler escapes with the retry's outcome, whatever the other targets |
| Relay.PauseOncePerTarget | main.py:84-86 | When nothing escapes, `Sleep(DELAY)` occurs exactly once per target, provided `DELAY` is not a whole number of seconds that a flood-wait sleep could equal |
| Relay.NoUserIdIsRelayed | main.py:79 | A message with no author, or whose author is a chat or channel peer, is never filtered out: it is logged and the first target is sent to |
| Relay.RelayMessage | main.py:69-86 | The handler as the source runs it, a `for` loop over the targets left early by an escaping retry, produces exactly the trace and status of `Handler` |

## Left out

- The platform client library: client construction, `start`, `get_me` and `run_until_disconnected` (main.py:37, 76, 89-99). The relay's own id is a parameter of `Handler`. A failing `get_me` call in the handler is not modelled.
- Event registration and source filtering (main.py:68). The `chats=` filter runs inside the library, so the model takes every notification it is given as coming from a source.
- The mapping of a message onto send arguments (`msg.message or None`, `msg.media or None`, entities, buttons; main.py:45-48). It depends on library objects. The model passes an opaque `Payload` that is identical in the first send and the retry.
- Concurrency: asyncio scheduling and the interleaving of handler calls. Sleeps are trace events, not time.
- Environment loading, the defaults of `os.environ.get`, and number parsing (main.py:8, 19-21, 30). `Settings` holds the values after lookup and parsing. `DELAY` is a real number, so NaN and infinities are not modelled.
- Environment strings holding lone surrogates (U+DC80 to U+DCFF). On POSIX, Python decodes environment bytes that are invalid in the filesystem encoding to such code points. A Dafny `string` cannot hold them, so those settings have no `Settings` value. Parsing would treat them like any other character that is neither a comma nor whitespace.
- Logging configuration and message text (main.py:10-13). Log records appear only as tags with the identifiers they mention.
- Exceptions that are not `Exception` subclasses, such as task cancellation, raised by a first send. Like an escaping retry, they would leave `copy_message`; the model has no outcome for them.
- session_helper.py: a file-existence check and an interactive login through the library. It is I/O only.
- Relay.Pipeline: its own contract gives only the send bounds and the escape's cause. The copy-by-copy structure, and the stop after a failed retry, are stated by `Relay.PipelineBlocks`.
- Relay.PauseOncePerTarget: requires that `DELAY` is not a whole number of seconds of at least 1. With such a delay, a flood-wait sleep of the same length is also `Sleep(DELAY)`, so the plain count would be higher than the number of targets. `Relay.PipelineBlocks` states the exact structure without that requirement.
