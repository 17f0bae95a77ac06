# Sidecar supervisor model

A Dafny model of the sidecar supervisor of the Sandcastle desktop application
(`apps/desktop/src-tauri/src/sidecar.rs`). The supervisor runs a local server as a child
process, finds the port the child bound by reading its output for the sentinel line
`SANDCASTLE_SERVER_PORT=<port>`, polls the server's health endpoint until it answers, and
kills the child on `stop`. Its shared state is two slots: the child handle and the port.

The model has five modules:

- `Wrappers` (`wrappers.dfy`): `Option` and `Result`. Every error is a message string, as in the source.
- `Sentinel` (`sentinel.dfy`): the pure line matcher `MatchPortLine`. It combines `strip_prefix`, Rust's `str::trim`
  (whitespace as `char::is_whitespace` defines it) and Rust's `str::parse::<u16>`. The parse allows one leading `+`,
  refuses `""`, `"+"` and `"-"`, and runs a checked multiply-and-add loop over ASCII digits. The main contract is
  `MatchPortLineIff`: a line gives port `p` exactly when it is the prefix, optional whitespace, an optional `+`,
  the decimal digits of `p`, and optional whitespace.
- `PortDiscovery` (`port_discovery.dfy`): the reader task `ReadOutput`. It is a loop over a sequence of command events
  (`Stdout`, `Stderr`, `Error`, `Terminated`, `Other`). A boolean stands for the `Option<Sender>` slot that the task
  `take()`s. The loop is proved against `FirstAnnouncement`, which gives the port of the first accepted announcement
  that comes before any termination.
- `HealthPoller` (`health.dfy`): `wait_for_ready`. A `for` loop makes at most 50 attempts over a sequence of probe
  outcomes and counts its probes and its 100 ms sleeps. It is proved against `ReadyAttempt`, the first attempt whose
  response status is 2xx.
- `Sidecar` (`sidecar.rs`'s `SidecarState`, in `sidecar.dfy`): a class with the fields `child` and `port`.
  `Start`, `Stop` and `GetPort` are methods that write those fields in the order the source writes them. Each
  method's postcondition equates the new state and the result with the pure functions `StartStep` and `StopStep`.
  The lemmas about those functions state the lifecycle properties.

Environment inputs. The environment's part in a call is an explicit input. For `start` it is an `Environment`
value, which holds:

- the resource directory or its error;
- whether the bundle exists;
- whether the `bun` command could be created;
- whether the path converts to a string;
- the spawn outcome, with the new child's identity;
- the child's output events;
- whether the port send arrives within the 10 000 ms deadline;
- the health-probe outcomes.

For `stop` the input is the kill outcome.

Behaviours of the code that the model brings out:

- A failed kill in `stop` returns through the `?` on line 145. The child has already been taken out of its slot, but
  the port is never cleared. So the state "no child, port stored" can be reached (`FailedKillLeavesStalePort`). A
  later `start` then spawns a new child while the old port stays stored. If that child does not announce in time,
  `get_port` keeps returning the old port (`StalePortSurvivesRestart`).
- The error "Failed to receive port from server" (line 126) cannot be produced. `start` keeps its own `Arc` on the
  sender's slot (line 82) until it returns, so the sender is never dropped while the wait is pending. A child that
  terminates without announcing leads to the timeout error after the full wait. `AwaitPort` keeps both branches, and
  `Start` passes "sender not dropped" (`AwaitPortWithLiveSender`).
- `wait_for_ready` sleeps after every failed probe, including the fiftieth. When every probe fails, it has made 50
  probes and 50 sleeps. The "5000ms" in its error counts the sleeps only; each probe may take up to its 2 s request
  timeout on top (`WaitForReady`, `HealthTimeoutMessageText`).
- After any failure that comes after the spawn, the child stays stored and is not killed.

## Model

| member | source | states |
|---|---|---|
| `Sentinel.TrimStartSpec` | apps/desktop/src-tauri/src/sidecar.rs:97 | The leading pass of `trim` keeps a suffix of its input that is empty or starts with a non-whitespace character, and everything it drops is whitespace. |
| `Sentinel.TrimEndSpec` | apps/desktop/src-tauri/src/sidecar.rs:97 | The trailing pass of `trim` keeps a prefix that is empty or ends with a non-whitespace character, and everything it drops is whitespace. |
| `Sentinel.TrimRemovesOnlyPadding` | apps/desktop/src-tauri/src/sidecar.rs:97 | Any text is the whitespace `trim` removed in front, then the trimmed text, then whitespace it removed behind; the trimmed text has no whitespace at either end. |
| `Sentinel.TrimOfPadded` | apps/desktop/src-tauri/src/sidecar.rs:97 | `trim` of whitespace, core, whitespace is exactly the core, when the core starts and ends with non-whitespace. |
| `Sentinel.AccumulateDigitsValue` | apps/desktop/src-tauri/src/sidecar.rs:97 | The checked multiply-and-add digit loop of the `u16` parse yields the decimal value of the whole digit string, and fails exactly when a character is not an ASCII digit or the value exceeds 65535. |
| `Sentinel.ParseSignedText` | apps/desktop/src-tauri/src/sidecar.rs:97 | An optional `+` followed by one or more digits parses to their value if it is at most 65535, and is refused otherwise. |
| `Sentinel.ParsedIsSignedText` | apps/desktop/src-tauri/src/sidecar.rs:97 | Every text the `u16` parse accepts is an optional `+` followed by one or more ASCII digits (so empty text, a lone sign, `-` and inner spaces are refused). |
| `Sentinel.ParseU16Iff` | apps/desktop/src-tauri/src/sidecar.rs:97 | The parse gives `p` if and only if the text is an optional `+` and a non-empty digit string whose value is `p`. |
| `Sentinel.MatchAfterPrefix` | apps/desktop/src-tauri/src/sidecar.rs:96-97 | For a line that starts with the prefix, only the trimmed remainder decides the result. |
| `Sentinel.MatchAnnouncementText` | apps/desktop/src-tauri/src/sidecar.rs:96-97 | Prefix, whitespace, optional `+`, digits and whitespace is matched to the digits' value exactly when that value fits in 16 bits, and to nothing otherwise (out-of-range ports are ignored). |
| `Sentinel.MatchedLineAnnounces` | apps/desktop/src-tauri/src/sidecar.rs:96-97 | Every line the matcher accepts begins with the exact prefix and is a well-formed announcement of the port it yields. |
| `Sentinel.MatchPortLineIff` | apps/desktop/src-tauri/src/sidecar.rs:96-97 | A line yields `Some(p)` if and only if it is the prefix at position 0, optional whitespace, an optional `+`, the decimal digits of `p`, and optional whitespace; every other line, including one with the prefix later on, yields `None`. |
| `Sentinel.AnnouncementRoundTrip` | apps/desktop/src-tauri/src/sidecar.rs:95-97 | The line the server writes, the prefix followed by the port in decimal (with or without a line ending), is read back as that port for every `u16`. |
| `Sentinel.DecimalStringValue` | apps/desktop/src-tauri/src/sidecar.rs:95-97 | Decimal printing and decimal reading are inverse: the value of the printed digits of `n` is `n`. |
| `Sentinel.ParseU16Examples` | apps/desktop/src-tauri/src/sidecar.rs:97 | `31822`, `8080`, `+0443` and `65535` parse; `65536`, `70000`, `notanumber`, the empty text, `+`, `-1` and `80 81` do not. |
| `Sentinel.TrimExamples` | apps/desktop/src-tauri/src/sidecar.rs:97 | `trim` turns ` 8080\r\n` into `8080` and leaves unpadded texts as they are. |
| `Sentinel.AcceptedExamples` | apps/desktop/src-tauri/src/sidecar.rs:96-97 | The announcements of 31822, 8080 (padded, with CR LF), 443 (as `+0443`) and 65535 are recognised. |
| `Sentinel.RejectedExamples` | apps/desktop/src-tauri/src/sidecar.rs:96-97 | An out-of-range (`65536`, `70000`), malformed (`notanumber`, `80 81`, `-1`, `+`) or empty remainder after the prefix yields no port. |
| `Sentinel.PrefixElsewhereExamples` | apps/desktop/src-tauri/src/sidecar.rs:96 | A line with the prefix after a space or after a log tag yields no port. |
| `PortDiscovery.FirstAnnouncementSome` | apps/desktop/src-tauri/src/sidecar.rs:89-116 | The reader sends `p` if and only if some event is a standard-output line announcing `p`, and no earlier event is a termination or an accepted announcement. |
| `PortDiscovery.FirstAnnouncementNone` | apps/desktop/src-tauri/src/sidecar.rs:89-116 | The reader sends nothing if and only if every accepted announcement comes after a termination; in particular, `Stderr`, `Error` and other events, and malformed lines, never produce a port. |
| `PortDiscovery.FirstAnnouncementAppend` | apps/desktop/src-tauri/src/sidecar.rs:82-113 | Once the reader has sent a port or met a termination, later events change nothing: the port is sent at most once, a later valid announcement never replaces it, and nothing after termination is seen; before that, the later events alone decide. |
| `PortDiscovery.ConsumedCountSpec` | apps/desktop/src-tauri/src/sidecar.rs:89-113 | The reader takes events up to and including the first `Terminated` and none after it, and takes them all when none terminates. |
| `PortDiscovery.ReadOutput` | apps/desktop/src-tauri/src/sidecar.rs:82-116 | The reader loop with its take-once sender slot sends exactly the first announcement before termination, sends at most once (once exactly when it sends a port), and receives exactly the events up to the first termination. |
| `PortDiscovery.ReaderExamples` | apps/desktop/src-tauri/src/sidecar.rs:89-116 | A malformed announcement is skipped and the first valid one (31822) wins over a later one; announcements on stderr, in an error event, or after termination yield nothing. |
| `HealthPoller.FirstReadyFromSpec` | apps/desktop/src-tauri/src/sidecar.rs:162-173 | Starting at a given attempt, polling stops at attempt `k` if and only if `k` is within the 50-attempt budget, its response is a 2xx and all probes from the start attempt up to `k` failed; it finds none if and only if all of them fail. |
| `HealthPoller.ReadyAttemptSpec` | apps/desktop/src-tauri/src/sidecar.rs:162-173 | Polling succeeds at attempt `k` if and only if 1 ≤ `k` ≤ 50, probe `k` is a 2xx and probes 1 to `k`-1 failed; it fails if and only if all 50 probes fail. |
| `HealthPoller.WaitForReady` | apps/desktop/src-tauri/src/sidecar.rs:154-179 | Never more than 50 probes; on the first successful probe `k` it returns `Ok(k)` after exactly `k` probes and `k`-1 sleeps; when all fail, it returns the 5000 ms error after exactly 50 probes and 50 sleeps. |
| `HealthPoller.HealthTimeoutMessageText` | apps/desktop/src-tauri/src/sidecar.rs:8-9 | The budget is 50 attempts × 100 ms = 5000 ms, and the error reads "Server failed to respond to health check within 5000ms". |
| `HealthPoller.ReadyOnFifthAttempt` | apps/desktop/src-tauri/src/sidecar.rs:162-167 | A server that fails four probes (refused, 503, refused, 404) and answers 204 on the fifth is ready at attempt 5. |
| `Sidecar.AwaitPortWithLiveSender` | apps/desktop/src-tauri/src/sidecar.rs:119-126 | While the sender is alive, the bounded wait yields `p` if and only if `p` was sent and arrived before the deadline, and every failure is the timeout, never the receive error. |
| `Sidecar.SidecarState.constructor` | apps/desktop/src-tauri/src/sidecar.rs:17-29 | A new supervisor holds no child and no port. |
| `Sidecar.SidecarState.GetPort` | apps/desktop/src-tauri/src/sidecar.rs:31-34 | `get_port` returns the stored port, whether or not a child is held. |
| `Sidecar.SidecarState.Start` | apps/desktop/src-tauri/src/sidecar.rs:36-136 | `start` changes the two fields and returns exactly as `StartStep` prescribes for the state before it and the environment. |
| `Sidecar.SidecarState.Stop` | apps/desktop/src-tauri/src/sidecar.rs:138-151 | `stop` changes the two fields and returns exactly as `StopStep` prescribes for the state before it and the kill outcome. |
| `Sidecar.StartWhileRunning` | apps/desktop/src-tauri/src/sidecar.rs:38-47 | With a child held, `start` never spawns and leaves both fields unchanged; it returns the stored port, or the error "Server running but port unknown". |
| `Sidecar.StartFailsBeforeSpawn` | apps/desktop/src-tauri/src/sidecar.rs:49-76 | If the resource lookup, the bundle check, the command, the path conversion or the spawn fails, `start` errors and changes nothing. |
| `Sidecar.StartAfterSpawn` | apps/desktop/src-tauri/src/sidecar.rs:78-135 | Once the spawn succeeds, the new child stays stored whatever follows. The port is stored when the reader's announcement arrives in time, and the port slot is left as it was otherwise. No announcement in time gives the timeout error. The call succeeds if and only if a port arrived in time and a health probe then succeeded. |
| `Sidecar.StartReturnsPort` | apps/desktop/src-tauri/src/sidecar.rs:37-135 | `start` returns `p` if and only if a child was already held with `p` stored, or it spawned a child whose output announced `p` before terminating, in time, and which then passed a health check. |
| `Sidecar.DiscoveryTimeoutFromIdle` | apps/desktop/src-tauri/src/sidecar.rs:119-126 | From a fresh supervisor, a discovery timeout leaves the child stored and the port `None`, so `get_port` returns `None`. |
| `Sidecar.HealthFailureKeepsChildAndPort` | apps/desktop/src-tauri/src/sidecar.rs:128-132 | The port is stored before the health check, so a health-check failure leaves both the child and the port set, with the 5000 ms error. |
| `Sidecar.StartTwiceSpawnsOnce` | apps/desktop/src-tauri/src/sidecar.rs:38-78 | After a `start` that stored a child, a second `start` spawns nothing and changes nothing; if the first succeeded, the second returns the same port. |
| `Sidecar.StopWithoutChild` | apps/desktop/src-tauri/src/sidecar.rs:139-150 | With no child, `stop` returns `Ok` and changes nothing. |
| `Sidecar.StopWithChild` | apps/desktop/src-tauri/src/sidecar.rs:142-147 | With a child and a successful kill, `stop` returns `Ok` with both fields `None`; if the kill fails, it returns the kill's error with the child already taken and the port unchanged. |
| `Sidecar.PortImpliesChildPreserved` | apps/desktop/src-tauri/src/sidecar.rs:78-146 | "A stored port implies a held child" is kept by every `start` and by every `stop` whose kill succeeds. |
| `Sidecar.FailedKillLeavesStalePort` | apps/desktop/src-tauri/src/sidecar.rs:142-146 | A failed kill with a port stored leaves a port and no child, breaking that invariant. |
| `Sidecar.StalePortSurvivesRestart` | apps/desktop/src-tauri/src/sidecar.rs:120-146 | After a failed kill, a `start` whose new child never announces leaves the old port stored next to the new child, and returns the timeout error. |
| `Sidecar.RestartSpawnsNewChild` | apps/desktop/src-tauri/src/sidecar.rs:37-151 | From a fresh supervisor, a successful `start` followed by a `stop` with a successful kill returns to idle. The next `start` stores the newly spawned child and the port it announces, which may differ from the first. |

## Left out

- Process spawning, the resource-directory lookup and the existence check on the bundle are not performed. Their outcomes are fields of `Environment`. `BundlePath` joins with `/`; how `Path::display` renders paths on other platforms is not modelled.
- Output lines are strings. The `from_utf8_lossy` decoding of the raw bytes is not modelled.
- The tokio `Mutex`, the spawned reader task, the `oneshot` channel and the `timeout` are not modelled as concurrency. Calls are sequential, and the reader runs to the end of its events before `start` waits. Timing survives as one boolean: did the send arrive within `PORT_PARSE_TIMEOUT_MS`? Concurrent `start` callers are modelled as successive calls.
- WaitForReady: does not model the failure to build the `reqwest` client (lines 155-158), which would return the builder's error before any probe. It does not model the health URL `http://localhost:<port>/api/health` or the 2 s per-request timeout either. Each probe is an abstract outcome: a response with its status, or a failed request. Attempts beyond the given outcomes count as failed requests.
- `sleep` is counted, not performed. The `println!` and `eprintln!` logging is left out.
- Rust's parse errors distinguish empty input, invalid digits and overflow. The source discards the kind, so the model only has `None`.
- `Default for SidecarState` only calls `new` and is covered by the constructor.
- The other files of the desktop crate are not part of this model. `lib.rs` is application wiring. `dock.rs` and `high_refresh_rate.rs` are calls into platform APIs. `markdown.rs` wraps a markdown library.
