# ssmanager's single-process manager, modelled in Dafny

`ssmanager/sspy.py` runs every proxy instance inside one `ssserver`
process and drives it over a local datagram socket. This project models
that manager:

- **Connecting with retry.** The manager sleeps a fixed schedule of eight
  delays (10, 100, 200, 400, 800, 1000, 2000 and 4000 ms) and tries to
  connect after each one. It stops at the first success. If the schedule
  runs out it raises `SSServerConnectionError`; the receiver thread is then
  never started and no handshake is sent.
- **The command codec.** `add: ` is followed by the instance's configuration,
  with `auth` renamed to `one_time_auth`. `remove: {"server_port":<port>}`
  carries the port in decimal.
- **The receiver.** `ok` sets the acknowledgment event. Any other datagram
  is split at its first `:`. A `stat` frame credits each known port's
  traffic with its delta; deltas for unknown ports are dropped, and no
  registry entry is ever added or removed.
- **The instance flags and the acknowledgment event.** Starting an
  instance sets its `is_running` flag and stopping one clears it, before
  the command is sent. Every command then waits on the event `_ok`, which
  the receiver sets on `ok` and nothing clears.
- **Teardown.** `stop` is safe to call before `start` or twice.

Modules:

- `Codec` (codec.dfy) holds the wire format: splitting at the first `:`,
  `str`/`int` on decimal integers, the add and remove commands, and the
  classification of inbound datagrams.
- `Stats` (stats.dfy) states what the receiver does, as functions on values.
  `Dispatch` handles one datagram and `Drain` handles a run of them. Both
  act on a `View` made of the acknowledgment latch and the per-port traffic
  map.
- `Retry` (retry.dfy) holds the connect loop over the schedule.
- `SsPy` (manager.dfy) holds the `Manager` class. Its fields are the
  registry, the running flag, the acknowledgment latch, the process/socket
  handles, whether the receiver thread was started and whether it died, and
  the log of sent datagrams. Its methods are proved against
  `Codec`, `Stats` and `Retry`. Three client methods (`Scenario`,
  `ReportTraffic`, `AcknowledgeThenStop`) are verified against the
  contracts for one concrete scenario.

JSON is abstract. `json.dumps` is a parameter `dumps: Config -> string`.
`json.loads(data.strip())` is a parameter `loads: string -> Option<StatItems>`
that yields the `(key, delta)` items in dictionary order. It is None where
`json.loads` raises, and also where the body is valid JSON but not an
object, because `.items()` then raises `AttributeError` (sspy.py:97).

Three consequences of the code, which the model keeps:

- `_ok` is only ever `set()` (sspy.py:88) and `wait()`ed (sspy.py:56, 75,
  81); nothing calls `clear()`. So the model treats it as a latch that stays
  set. After the first `ok`, every later wait returns at once
  (`AcknowledgeThenStop` shows two stop calls acknowledged by one `ok`).
- A datagram without `:` raises at the tuple unpacking on sspy.py:91. So
  does a stat body that `json.loads` rejects (sspy.py:96), a body that is
  JSON but not an object (`.items()` on sspy.py:97), and a key that `int()`
  rejects (sspy.py:98). None of these is caught, so the exception ends the
  receiver thread, and nothing starts it again. The model records this as
  `crashed` and marks the receiver dead; a dead receiver handles no further
  datagram. Items of the same frame that came before a bad key stay
  credited (`Stats.CreditPartialOnCrash`).
- The receiver thread object is created once, in the constructor
  (sspy.py:25). A second `start` calls `Thread.start` on it again at
  sspy.py:53, which raises; the model returns `ThreadAlreadyStarted`. When
  the connect loop runs out, sspy.py:52 raises before sspy.py:53, so the
  receiver is never started and handles nothing.

## Model

| member | source | states |
|---|---|---|
| `Codec.SplitFirst` | ssmanager/sspy.py:91 | `split(':', 1)`: None exactly when the datagram has no `:`. Otherwise head + `:` + tail rebuild the input and the head holds no `:`. |
| `Codec.SplitFirstAt` | ssmanager/sspy.py:91 | For a head without `:`, the split falls right after the head, whatever colons the tail holds. |
| `Codec.ParseInt` | ssmanager/sspy.py:98 | `int(port)` succeeds exactly on an optional sign followed by one or more ASCII digits. |
| `Codec.Digits` | ssmanager/sspy.py:80 | `str` of a natural number is a non-empty string of ASCII digits, with no leading zero: it starts with `0` exactly when the number is 0, and a number below 10 is one digit, so `str(0)` is `0`. |
| `Codec.Decimal` | ssmanager/sspy.py:80 | `str` of an integer is non-empty and starts with `-` exactly when the integer is negative; the rest is ASCII digits with no leading zero, and 0 is rendered as exactly `0`. |
| `Codec.DigitsValueOfDigits` | ssmanager/sspy.py:80 | The digits of `str(n)` read back as `n`. |
| `Codec.DecimalRoundTrip` | ssmanager/sspy.py:80 | `int(str(port)) == port` for every integer port, negatives included. |
| `Codec.DecimalHasNoDelimiters` | ssmanager/sspy.py:80 | A rendered port contains neither `:` nor `}`, so it cannot disturb the frame or the JSON object. |
| `Codec.EncodeRemovePort` | ssmanager/sspy.py:80 | The remove command starts with `remove: {"server_port":` and ends with `}`. |
| `Codec.RemovePortRoundTrip` | ssmanager/sspy.py:80 | The port can be read back from the remove command. |
| `Codec.RemovePortInjective` | ssmanager/sspy.py:80 | Two ports give the same remove command only when they are equal. |
| `Codec.RemovePortVerb` | ssmanager/sspy.py:80 | Split at its first `:`, the remove command has verb `remove` and body ` {"server_port":<decimal>}`. |
| `Codec.RemoveHeadSplit` | ssmanager/sspy.py:80 | Whatever text follows the `remove: {"server_port":` prefix, the first `:` is the one after `remove`, so the verb is `remove`. |
| `Codec.RenameAuth` | ssmanager/sspy.py:72-73 | Fails exactly when `auth` is absent (the `pop` KeyError). Otherwise the copy has no `auth`, `one_time_auth` holds the old `auth` value, the key set is the old one with `auth` swapped for `one_time_auth`, and every other key keeps its value. |
| `Codec.EncodeAdd` | ssmanager/sspy.py:72-74 | The add command is an error exactly when `auth` is missing, and that error is `KeyError("auth")`. |
| `Codec.AddVerb` | ssmanager/sspy.py:74 | Split at its first `:`, the add command has verb `add` and body ` ` + dumps(renamed configuration). |
| `Codec.Classify` | ssmanager/sspy.py:87-94 | Ack exactly for `ok`. Unsplittable exactly for other datagrams without `:`. A stat frame is `stat:` + body. Any other verb is colon-free, is not `stat`, and is followed by `:` in the datagram. |
| `Codec.ClassifyStat` | ssmanager/sspy.py:91-92 | `stat:` + body is a stat frame with that body, even when the body contains `:`. |
| `Codec.ClassifyUnknown` | ssmanager/sspy.py:91-94 | Any colon-free verb other than `stat`, followed by `:` and anything, is reported as that unknown verb. |
| `Stats.CreditOne` | ssmanager/sspy.py:98-102 | One `(port, delta)` item raises exactly when `int(port)` does, and never adds or removes a registry key. |
| `Stats.CreditOnePort` | ssmanager/sspy.py:98-102 | When the item does not raise, a registered port gains the delta exactly when the item names it, and keeps its traffic otherwise. |
| `Stats.Credit` | ssmanager/sspy.py:97-102 | No contract of its own: the items in order, stopping at the first key `int()` rejects. Its properties are stated by `Stats.CreditKeys`, `Stats.CreditCrashes`, `Stats.CreditTotals`, `Stats.CreditStopsAtCrash` and `Stats.CreditPartialOnCrash`. |
| `Stats.CreditKeys` | ssmanager/sspy.py:97-102 | Crediting a stat frame never adds or removes a registry key. |
| `Stats.CreditCrashes` | ssmanager/sspy.py:97-98 | A stat frame raises exactly when one of its keys is not an integer. |
| `Stats.CreditTotals` | ssmanager/sspy.py:97-102 | When every key parses, each known port ends at its old traffic plus the sum of its deltas. A port not mentioned keeps its traffic. |
| `Stats.CreditStopsAtCrash` | ssmanager/sspy.py:97-98 | Once `int(port)` has raised, the remaining items change nothing. |
| `Stats.CreditPartialOnCrash` | ssmanager/sspy.py:97-102 | When key k is the first bad key, the frame raises and items 0..k-1 stay credited. |
| `Stats.CreditUnknownPorts` | ssmanager/sspy.py:99-101 | Deltas that all name unknown ports leave the traffic map unchanged and do not raise. |
| `Stats.CreditSingle` | ssmanager/sspy.py:97-102 | A one-item frame is credited by that item alone. |
| `Stats.ParsePortLiterals` | ssmanager/sspy.py:98 | `int("8388") == 8388` and `int("9999") == 9999`. |
| `Stats.OnePortReport` | ssmanager/sspy.py:91-102 | A stat frame naming one port adds its delta when the port is known and changes nothing otherwise. It never raises or touches the latch. |
| `Stats.KnownThenUnknownPort` | ssmanager/sspy.py:96-102 | A frame for a registered port followed by one for an unknown port: the first adds exactly its delta and the second is a no-op. |
| `Stats.Dispatch` | ssmanager/sspy.py:86-102 | One datagram: the key set is kept. The latch is set afterwards exactly when it was set before or the datagram is `ok`. `ok` changes nothing else. An unknown verb changes nothing. A datagram without `:` kills the thread and changes nothing. |
| `Stats.DispatchSurvives` | ssmanager/sspy.py:87-102 | The receiver survives a datagram exactly when it is `ok`, an unknown verb, or a stat frame whose body parses and whose keys are all integers. |
| `Stats.DispatchTotals` | ssmanager/sspy.py:96-102 | On a datagram it survives, every known port gains exactly that datagram's delta for it. |
| `Stats.Drain` | ssmanager/sspy.py:84-102 | No contract of its own: `Dispatch` applied to each datagram in turn until one kills the receiver. Its properties are stated by `Stats.DrainKeys`, `Stats.DrainLatch`, `Stats.DrainTotals` and `Stats.DrainStopsAtCrash`. |
| `Stats.DrainKeys` | ssmanager/sspy.py:84-102 | A run of datagrams never adds or removes a registry key, and takes at most as many datagrams as were offered. |
| `Stats.DrainLatch` | ssmanager/sspy.py:84-89 | After a run the latch is set exactly when it was set before or an `ok` was among the datagrams taken. Nothing clears it. |
| `Stats.DrainTotals` | ssmanager/sspy.py:84-102 | If the receiver survives every datagram, it takes them all, and each known port ends at its initial traffic plus the sum of all its deltas across the frames. |
| `Stats.DrainStopsAtCrash` | ssmanager/sspy.py:84-102 | After the datagram that kills the receiver, no further datagram is taken. |
| `Retry.AttemptsFrom` | ssmanager/sspy.py:40-48 | Counting from attempt i: at least one more attempt and never past the schedule. Every attempt before the last is refused. Stopping short of the schedule's end means the last attempt was accepted. |
| `Retry.Attempts` | ssmanager/sspy.py:40-48 | Between 1 and 8 attempts, all but the last refused. The last is accepted exactly when some attempt in the schedule would be. |
| `Retry.Connect` | ssmanager/sspy.py:39-48 | Connected exactly when some attempt in the schedule is accepted. The delays slept are the schedule's first `Attempts` entries, in order. Every attempt before the last was refused and, when connected, the last was accepted. On failure all eight delays were slept. |
| `SsPy.Teardown` | ssmanager/sspy.py:59-68 | After stop: no connected socket and neither socket path on disk. A socket or process exists afterwards exactly when it existed before (close and terminate only act on existing handles). No process is left launched. |
| `SsPy.TeardownIdempotent` | ssmanager/sspy.py:59-68 | Stopping twice leaves the same handles as stopping once. |
| `SsPy.Manager.constructor` | ssmanager/sspy.py:14-25 | A new manager has no socket and no process, is not running, has the event clear and the receiver neither started nor dead, and has sent nothing. |
| `SsPy.Manager.Start` | ssmanager/sspy.py:27-57 | Sets the running flag and launches the process. If the client path exists, bind fails with nothing sent, no connect attempt, and the path left in place. Otherwise it sleeps the schedule's prefix given by `Retry.Attempts`. If no attempt is accepted it raises the connection error with the thread not started and nothing sent. If the receiver was already started it raises `ThreadAlreadyStarted`. Otherwise it sends exactly the handshake and waits on the event. |
| `SsPy.Manager.Stop` | ssmanager/sspy.py:59-68 | Clears the running flag and leaves the handles equal to `Teardown` of the old ones. A receiver thread that was started is ended for good: it sees the flag cleared (sspy.py:85) or its socket closed (sspy.py:62), and the thread object cannot be started again (sspy.py:53). The registry, event and sent log are unchanged. |
| `SsPy.Manager.StartInstance` | ssmanager/sspy.py:70-76 | Sets `isRunning` first, whatever follows. The instance's configuration is unchanged. With `auth` missing it raises KeyError and sends nothing. On an unconnected socket the send fails. Otherwise it sends exactly `EncodeAdd` of the configuration, then waits. |
| `SsPy.Manager.StopInstance` | ssmanager/sspy.py:78-82 | Clears `isRunning` first. On an unconnected socket the send fails. Otherwise it sends exactly `EncodeRemovePort(port)`, then waits. |
| `SsPy.Manager.ApplyStat` | ssmanager/sspy.py:96-102 | The registry's traffic becomes `Stats.Credit` of the old traffic, and the method reports the crash flag `Credit` gives. The registry map and every instance's `isRunning` and configuration are unchanged. |
| `SsPy.Manager.HandleDatagram` | ssmanager/sspy.py:86-102 | The latch, the traffic and the crash flag are exactly `Stats.Dispatch` of the old state. No other instance field changes. |
| `SsPy.Manager.ReceiveLoop` | ssmanager/sspy.py:85-102 | While the manager runs: the latch, the traffic, the count of datagrams taken and the crash flag are exactly `Stats.Drain` of the old state; the registry map and every instance's flag and configuration are unchanged. |
| `SsPy.Manager.Receive` | ssmanager/sspy.py:84-102 | When the manager runs and the receiver thread has been started and has not died, the latch, the traffic, the count of datagrams taken and the crash flag are exactly `Stats.Drain` of the old state, and afterwards a wait returns at once exactly when the event was already set or an `ok` was among the datagrams taken. Otherwise nothing is taken and nothing changes. A crash marks the receiver dead for good. |

## Left out

- Process control: the `Popen` arguments, stdout/stderr redirection, and the effect of `terminate` are not modelled. The process is a handle that is absent, launched or terminated. A launch failure is not modelled.
- Socket I/O: `socket`, `bind`, `connect`, `send` and `recvfrom(2048)` are reduced to a socket state and a log of sent datagrams. The received datagrams are an input sequence. Truncation to 2048 bytes is not modelled. The only bind failure modelled is a client path that already exists.
- SsPy.Manager.Start: a connect attempt is either accepted or refused. Connect errors other than `FileNotFoundError`/`ConnectionRefusedError`, which the source lets propagate, are not modelled. The manager's socket path is taken to exist once a connect succeeds; its creation by the proxy is otherwise not modelled.
- SsPy.Manager.Receive: the source loops until the running flag is cleared by another thread. The model handles a finite sequence of datagrams, during which the flag cannot change, because threads and blocking are not modelled. `Reply.AwaitingAck` stands for a caller blocked in `wait()`. Whether a receiver blocked in `recvfrom` when `stop` closes its socket raises or stays blocked is not modelled; either way it reads nothing more, and the model marks it dead.
- `time.sleep`: delays are recorded as integer milliseconds and no clock is modelled.
- JSON: `json.dumps` and `json.loads` (with the `strip`) are parameters. Non-integer deltas (a float, or a value `+=` rejects) are not modelled; the parser yields integer deltas or fails as a whole.
- UTF-8: datagrams are strings. The `UnicodeDecodeError` that `data.decode()` raises on invalid bytes is not modelled.
- Codec.ParseInt: Python's `int()` also accepts surrounding whitespace, `_` between digits and non-ASCII digits. The model treats such keys as raising.
- The base `_Manager` and `Server` classes are not part of this model. `super().start()` and `super().stop()` are taken to set and clear the running flag. The registry is given to the constructor. `Server` carries only the fields this code touches.
- Logging calls, and the unused `ServerAlreadyExistError`.
