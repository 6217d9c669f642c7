# failover health-check combinators in Dafny

This project models the core of the `failover` package, a Python 2 library. The library aggregates health checks behind a small HTTP server. The modelled parts are:

- **Hysteresis** (`HysteresisCheck`): a debounce state machine over an inner check. The held state flips only after enough samples disagree with it, counted by number or by elapsed seconds.
- **Toggle** (`ToggleCheck`): a two-state machine. It consults `to_fail` while ok and `to_ok` while failed, and flips on one agreeing result.
- **Oneshot** (`OneshotCheck`): a self-resetting latch, armed by `fire()` and gated by an optional auth check.
- **Validators** (`Validation`): `validate_after`, `validate_port`, `validate_duration` and `validate_hostname`.
- **Component registry** (`Server`): `FailoverServer.add_component` and its `get_handlers`/`post_handlers` maps.
- **Request routing and responses** (`Handler`): path-to-component routing, the GET/HEAD/POST map choice, the status chosen for a component's outcome, and the writes `respond` makes.
- **Basic authentication** (`Auth`): `ApachePasswdFileCheck.__call__`. It parses the `Basic` scheme of section 2 of RFC 7617 and scans an Apache password file line by line.

Supporting modules:
- `Outcomes`: a Python call that returns a value or raises an exception, written as data.
- `Units`: a health state is a boolean.
- `Text`: the string built-ins the code uses: `lstrip`, `strip`, `split(sep, 1)`, `str(n)` and UTF-8 encoding.

Objects whose attributes the source updates in place are classes: `Hysteresis`, `Toggle`, `Oneshot`, `FailoverServer` and the request handler. Each method's postcondition ties its new state to a pure step function of the old state (`Step`, `Next`, `CallStep`, `FireStep`, `Register`, `ResponseWrites`, `Route`). The multi-call properties are lemmas about those functions, run over sequences of calls (`Run`, `Outputs`, `Replay`).

Several things the code does not compute itself are inputs:
- what an inner task or auth check returns or raises;
- the wall-clock time of each call;
- the request's command, path and Authorization header;
- whether a request handler is current.

Foreign calls are function parameters. `b64decode`, `apr_password_validate` and `socket.getservbyname` are uninterpreted, and the password file is its list of lines.

Where the code's own documentation and the code disagree, the model follows the code:
- The `Hysteresis` docstring (failover/hysteresis.py:16-20) says the state changes once the task has *consistently* failed or succeeded for the threshold. The code does not reset the disagreement counters on an agreeing sample; only a flip resets them (failover/hysteresis.py:54,89-91). Disagreements that are not consecutive therefore add up; see `AgreeingSamplesChangeNothing` and `RunBelowCountThreshold`.

Also modelled as the code behaves: `add_component` does not reject names that start with `/` (failover/server.py:20-26). Such a name is registered but can never be routed to, because routing strips every leading `/`; see `SlashNameUnreachable`.

## Model

| member | source | states |
|---|---|---|
| Validation.ValidateAfter | failover/validation.py:93-127 | A positive count (whole or fractional), a positive time (in seconds) or a positive bare int is accepted, as the same quantity; a bare int becomes a count. A non-positive value or another dimension raises ValueError; any other type raises TypeError. Every accepted threshold is positive. |
| Validation.ValidateAfterAcceptsThreshold | failover/validation.py:106-123 | Every positive threshold validates to itself, so validation is idempotent. |
| Validation.ValidatePort | failover/validation.py:33-66 | An int is accepted unchanged iff it is in 1..65535, else ValueError. A string is replaced by its service lookup, and a failed lookup raises ValueError. None is accepted only when `optional` is set, and anything else raises TypeError. |
| Validation.ValidateDuration | failover/validation.py:68-91 | A non-negative time quantity or number is accepted as seconds. A negative value or a non-time quantity raises ValueError; a non-numeric value raises TypeError. |
| Validation.ValidateHostname | failover/validation.py:8-31 | Any string is accepted unchanged. None is accepted only when `optional` is set; everything else raises TypeError. |
| HysteresisCheck.Step | failover/hysteresis.py:45-97 | An exception or an agreeing sample changes no field. A disagreement adds exactly one to the count and opens the window at `now` only if it was closed. The state flips exactly when the threshold for the sample's direction (`ok_after` towards ok, `fail_after` towards fail) is reached by count or by elapsed time. A flip takes the sample's value and resets both counters. Consistency between count and window start is preserved. |
| HysteresisCheck.OpeningCallNeverFlips | failover/hysteresis.py:58-84 | Under a positive time threshold, the call that opens the disagreement window never flips the state. |
| HysteresisCheck.RunAppend | failover/hysteresis.py:40-97 | Running two sequences of calls in a row is the same as running their concatenation. |
| HysteresisCheck.OutputsAppend | failover/hysteresis.py:40-97 | The values returned by two runs in a row are those of the concatenated run. |
| HysteresisCheck.RunBelowCountThreshold | failover/hysteresis.py:54-95 | Under a count threshold, disagreements add up across agreeing samples and exceptions. While their total stays below the threshold, the state does not move. |
| HysteresisCheck.FlipsOnNthDisagreement | failover/hysteresis.py:80-91 | Under a count threshold n, the disagreement that first brings the total to at least n flips the state and resets the counters; for a fractional n that is the disagreement numbered n rounded up. |
| HysteresisCheck.RaisedSamplesChangeNothing | failover/hysteresis.py:45-52 | Any number of task exceptions leave the whole state unchanged, and every call returns the held state. |
| HysteresisCheck.AgreeingSamplesChangeNothing | failover/hysteresis.py:54-97 | Any number of agreeing samples leave the whole state, counters included, unchanged, and every call returns the held state. |
| HysteresisCheck.RunPreservesConsistency | failover/hysteresis.py:57-91 | `disagree_count == 0` iff `disagree_start is None`, after any sequence of calls. |
| HysteresisCheck.Hysteresis.constructor | failover/hysteresis.py:32-36 | A new object holds the initial state, no disagreement, and the given positive thresholds. |
| HysteresisCheck.Hysteresis.Create | failover/hysteresis.py:28-38 | Construction succeeds iff both thresholds pass `validate_after`, with `ok_after` checked first, and stores the validated thresholds. Otherwise it raises the first validation error. |
| HysteresisCheck.Hysteresis.Call | failover/hysteresis.py:40-97 | The fields after the call are one `Step` from those before, the returned value is the new `current_state`, and the object stays valid. |
| HysteresisCheck.CountedFailingPhase | tests/hysteresis_test.py:55-59 | With `fail_after=3`, the third of four failures flips a healthy checker. |
| HysteresisCheck.CountedRecoveringPhase | tests/hysteresis_test.py:61-67 | With `ok_after=5`, the fifth of six successes flips a failed checker back. |
| HysteresisCheck.CountedHysteresisExample | tests/hysteresis_test.py:45-69 | The counted test sequence returns exactly the values the test asserts. |
| HysteresisCheck.TimedFailingPhase | tests/hysteresis_test.py:81-86 | With `fail_after=0.5s`, failures flip a healthy checker only once they span half a second. |
| HysteresisCheck.TimedRecoveringPhase | tests/hysteresis_test.py:88-93 | With `ok_after=0.3s`, successes flip a failed checker back only once they span 0.3 seconds. |
| HysteresisCheck.TimedHysteresisExample | tests/hysteresis_test.py:71-94 | The timed test sequence, with the sleeps as jumps in `now`, returns exactly the values the test asserts. |
| ToggleCheck.Next | failover/toggle.py:38-54 | The state after a call is the old state or its negation. It flips iff the consulted task returned the negation, so an exception never flips it. |
| ToggleCheck.FlipFlop | tests/toggle_test.py:67-73 | With `to_fail` always failing and `to_ok` always succeeding, successive calls alternate, starting with the flip away from the initial state. |
| ToggleCheck.NoFlipNoDrift | failover/toggle.py:43-54 | While the consulted task never returns the opposite state (a truthy `to_fail` while ok, a falsy `to_ok` while failed, or an exception), every call returns the same state. |
| ToggleCheck.Selected | failover/toggle.py:37 | `to_fail` is consulted iff the state is ok, `to_ok` iff it is failed. |
| ToggleCheck.Toggle.constructor | failover/toggle.py:26-32 | The initial state is the one given, ok by default. |
| ToggleCheck.Toggle.Call | failover/toggle.py:34-56 | Only `to_fail` is invoked while ok and only `to_ok` while failed. The new state is `Next` of the old state and that task's outcome, and it is returned. |
| OneshotCheck.FireStep | failover/oneshot.py:34-56 | Arming succeeds iff there is no auth check or it returns truthy, and then the next state is the opposite of the default. A denial or an auth exception leaves the latch unchanged, and the exception propagates. A current handler is sent 200 "Armed" on success and 401 "Invalid credentials" on denial, and nothing when auth raised. `default_state` never changes. |
| OneshotCheck.FireIdempotent | failover/oneshot.py:53 | A second successful fire before a call leaves the latch as the first fire left it. |
| OneshotCheck.UnfiredReadsDefault | failover/oneshot.py:29-32 | Without a successful fire, every call of an unarmed latch returns the default state. |
| OneshotCheck.ExactlyOneFlippedCall | failover/oneshot.py:29-56 | After a successful fire, from any latch, the next call returns the opposite of the default state. The call after it returns the default state, and the latch is then unarmed. |
| OneshotCheck.Oneshot.constructor | failover/oneshot.py:21-27 | The default state is the one given, fail by default, and the latch starts unarmed. Whether an auth check was given is recorded, none by default. |
| OneshotCheck.Oneshot.Call | failover/oneshot.py:29-32 | Returns `next_state` and resets it to `default_state` (`CallStep`). |
| OneshotCheck.Oneshot.Fire | failover/oneshot.py:34-56 | The auth outcome is supplied iff the object was built with an auth check. Result, reply and new latch are those of `FireStep`; with an auth check, firing succeeds iff the check returned truthy. |
| OneshotCheck.CallStep | failover/oneshot.py:29-32 | A call returns the latch's `next_state` and leaves `next_state` equal to the unchanged `default_state`. |
| OneshotCheck.DummyAuthExample | tests/oneshot_test.py:39-57 | The test's calls and fires with an allowing, then a denying auth check return exactly the asserted values. |
| Server.Register | failover/server.py:20-26 | A truthy entry sets `handlers[name]`, overwriting any earlier entry. A falsy entry leaves the map alone, and no other key changes. |
| Server.RegisterOverwrites | failover/server.py:22-25 | Registering a name twice keeps only the second entry. |
| Server.FailoverServer.constructor | failover/server.py:16-17 | A new server has empty GET and POST maps. |
| Server.FailoverServer.AddComponent | failover/server.py:20-26 | Each map is updated by `Register` with its own entry, the task for GET and `on_post` for POST. The name is not validated. |
| Text.LStrip | failover/handler.py:55 | `lstrip` removes exactly the longest prefix of characters from the set. |
| Text.RStrip | failover/auth.py:67 | Right-stripping keeps a prefix of the input, which ends outside the set, and drops only characters of the set. |
| Text.Strip | failover/auth.py:67 | `strip` never lengthens its input, and the result neither starts nor ends with a character of the set. |
| Text.StripIsMiddle | failover/auth.py:67 | `strip` returns a contiguous slice of its input with only characters of the set before and after it; with `Strip`'s ends outside the set, this determines the result. |
| Text.SplitOnce | failover/auth.py:42 | `split(sep, 1)` unpacked into two names fails iff `sep` is absent. Otherwise the parts rejoin to the input and the first part has no `sep`. |
| Text.SplitOnceOfJoin | failover/auth.py:53 | Splitting `a + sep + b`, where `a` has no `sep`, gives back `a` and `b`. |
| Text.DecimalString | failover/handler.py:91 | `str(n)` is a non-empty string of decimal digits, starting with `0` only for zero. |
| Text.ParseDecimalString | failover/handler.py:91 | The decimal digits of `str(n)` denote `n`. |
| Text.EncodeChar | failover/handler.py:89 | One character encodes to the shortest form for its range (1 byte below 0x80, 2 below 0x800, 3 below 0x10000, else 4), with a lead byte whose range marks the length, continuation bytes in 0x80..0xBF, and bits that denote the code point (section 3 of RFC 3629). |
| Text.EncodeUtf8 | failover/handler.py:89 | A one-character string encodes to exactly that character's `EncodeChar` bytes, and any string to between one and four bytes per character, starting with its first character's encoding. With `EncodeUtf8Append` this fixes the bytes of every string. |
| Text.EncodeUtf8Append | failover/handler.py:89 | Encoding distributes over concatenation, so a message's encoding is its characters' encodings in order. |
| Text.EncodeAscii | failover/handler.py:89 | An ASCII string, such as every message the handler sends, encodes to its own codes. |
| Handler.ComponentName | failover/handler.py:55 | The component name is the path with all its leading `/` removed: the path is some run of `/` followed by the name, and the name does not start with `/`. |
| Handler.SlashNameUnreachable | failover/handler.py:55 | No request path reaches a component registered under a name that starts with `/`. |
| Handler.Route | failover/handler.py:48-83 | A component is invoked iff the stripped name is in the map, and then it is that entry. The reply is 404 "ERROR" exactly when no component is invoked. It is 200 "OK" iff the component returns truthy, 503 "FAIL" iff it returns falsy, and 500 "ERROR" iff it raises. |
| Handler.ResponseFraming | failover/handler.py:85-100 | A response is the status line, `Content-Type: text/plain; charset=utf-8`, a `Content-Length` whose digits, non-empty and without leading zeros, denote the UTF-8 byte length of the message, and `Connection: close`, then the end of headers. The encoded message follows as the only body, and it is written iff the request is not HEAD. |
| Handler.ResponseWrites | failover/handler.py:85-100 | A response is five writes for HEAD and six otherwise: the status line, three headers, the end of headers, and, unless HEAD, the UTF-8 encoded message as body. |
| Handler.RequestHandler.Respond | failover/handler.py:85-100 | Appends exactly `ResponseWrites` of the command, code and message to what was written. |
| Handler.RequestHandler.SelectAndRunComponent | failover/handler.py:48-83 | Invokes the component `Route` chooses, and writes exactly one response, with `Route`'s code and message. |
| Handler.ComponentMap | failover/handler.py:27-46 | POST selects the POST map, and every other command the GET map. |
| Handler.RequestHandler.Handle | failover/handler.py:27-46 | GET and HEAD route through `get_handlers`, POST through `post_handlers`. |
| Auth.ParseAuthorization | failover/auth.py:41-56 | A header without the exact, case-sensitive `Basic ` prefix yields no credentials. With the prefix, a decoding ValueError yields none and any other decoding exception propagates; these are the only exceptions. A decoded payload yields credentials iff it contains `:`, and they are the payload split at its first `:`. |
| Auth.SplitBasicHeader | failover/auth.py:41-49 | A header starting with `Basic ` splits at its first space into the method `Basic` and the rest as payload. |
| Auth.ClientCredentials | failover/auth.py:36-56 | A missing Authorization header yields no credentials and raises nothing; a present one yields exactly what `ParseAuthorization` gives for it. An exception or accepted credentials come only from a header with the `Basic ` prefix. |
| Auth.ParseAuthorizationOfBasic | failover/auth.py:41-56 | `Basic ` followed by a payload that decodes to `user:password`, with no `:` in the user name, parses back to those credentials. |
| Auth.LowerCaseSchemeRefused | failover/auth.py:47-49 | A `basic ` header is refused, although section 2.1 of RFC 7235 makes scheme names case-insensitive. |
| Auth.ParseLine | failover/auth.py:67 | A line fails to unpack iff its stripped form has no `:`. Otherwise the stripped line is the user name, `:`, and the hash, and the user name has no `:`. |
| Auth.GrantsExtend | failover/auth.py:65-80 | The first i+1 lines grant access iff the first i do or line i does, and a granting line grants the whole file. |
| Auth.ScanPasswordFile | failover/auth.py:64-87 | Answers True iff some line, stripped and split at its first `:`, names the client's user and the validator returns 0 for that line's hash. Lines without `:` and other users' lines are skipped, and a failed match keeps the scan going. |
| Auth.Check | failover/auth.py:30-87 | No current handler raises RuntimeError, and a missing header answers False. Otherwise: a header error propagates, unusable credentials answer False, a file that cannot be opened raises its IOError, and usable credentials answer whether the file grants them. |

## Left out

- failover/background.py and failover/tcp.py are not part of this model: one is a polling thread, the other a socket dial.
- Unit conversion belongs to the external `units` library. A time threshold or duration enters the model already in seconds, and a count quantity as its number, whole or not.
- Logging, `__repr__` and the `name` attribute are not modelled; nothing observable depends on them. Neither is the text of the exception messages and `parameter_name`, since only the exception class is modelled.
- The plumbing of the HTTP layer is not modelled: the `HTTPServer` constructor, `create_healthcheck_server`, the thread-local current handler, and the stream itself. Whether a handler is current, and the request's command, path and header, are inputs.
- Handler.RequestHandler.Respond: does not model the `Server` and `Date` headers that `send_response` adds, which belong to the standard library.
- The double response on POST is not modelled. When `Oneshot.fire` is the POST action it responds itself, and `select_and_run_component` then responds again. `OneshotCheck.Oneshot.Fire` returns its reply as an output instead of writing it to the handler.
- Locking and concurrent calls: the combinators have no lock, and the model is sequential.
- Validation.ValidatePort: does not distinguish Python 2's `int` from `long` or `bool`. A `long` port is an `OtherPortArg` (TypeError), as in the source.
- Truthiness of Python values: a task's result is a boolean already passed through `bool()`. An absent callable (`None`, the only falsy callable the code meets) is `None`.
- ToggleCheck.Toggle.Call: which task was invoked is reported through a ghost out-parameter, because the task is not a value the model can compare.
- The toggle test sequence (tests/toggle_test.py:16-80) is not replayed concretely. Its phases are covered by `NoFlipNoDrift`, `Next` and `FlipFlop`.
- The wall clock is read only on disagreeing calls in the source. The model takes a time for every call and uses it only on those calls.
- Auth.ParseAuthorization: follows the source's `except ValueError` clause. Python 2's `b64decode` reports bad padding as TypeError, which the source lets propagate, and that is how the model behaves for any non-ValueError exception from `decode`.
- Floating point: times and durations are real numbers, without rounding.
