# Security monitor core, modelled in Dafny

A model of the monitoring state machine of the Computer-Alarm desktop
utility (`SecurityMonitorGUI` in `alarm.py`), with the tkinter, psutil,
pygame and threading layers taken away. What remains:

- `security.dfy` (module `Security`): the battery threshold
  `(11 - sensitivity) * 10` and the security predicate evaluated once per
  loop iteration. No battery is always secure. A battery reading is secure
  exactly when it is plugged in and its charge is at least the threshold.
- `trace.dfy` (module `SecurityTrace`): incident counting as a pure
  function over the trace of statuses the loop has held. An incident is a
  secure status directly followed by an insecure one. Every start of
  monitoring puts a fresh secure status into the trace, because the loop's
  `was_secure` is a local that begins as `True`.
- `history.dfy` (module `History`): the bounded history of metric samples.
  Each step appends one sample and then drops the head once more than 100
  are held. The module proves that the history is always the newest 100
  samples in arrival order.
- `eventlog.dfy` (module `EventLog`): display-log entries. Each entry keeps
  its level as tag and gets the level's icon and colour. Unknown levels use
  the `info` style.
- `monitor.dfy` (module `Monitor`): class `SecurityMonitor` with the fields
  `monitoringActive`, `alertActive`, `incidentCount`, `wasSecure`, `log` and
  `metrics`. Its methods have the source's names:
  - `Tick` is one iteration of the `check_security` loop.
  - `CheckSecurity` is the `while` loop over a sequence of iterations.
  - The others are `TriggerAlert`, `StopAlert` (and `Dismiss`, the dismiss button, which keeps `Valid()`), `Start`, `Stop`, `Toggle`,
    `OnClosing`, `LogEvent`, `ClearLogs` and `RecordSample` (the history
    step of `update_metrics`).

  Two ghost fields, `trace` and `samples`, record everything the loop and the
  sampler have seen. The object invariant `Valid()` ties the real fields to
  them:
  - `incidentCount` equals `Incidents(trace)`.
  - `wasSecure` is the last status in `trace`.
  - An active alert implies that monitoring is on and the last status was
    insecure.
  - `metrics` equals `Recent(samples)`.

  Four client methods run scenarios:
  - `WalkThrough` runs the sensitivity-5 scenario: 70% plugged, 50% plugged, unplugged, then 80% plugged.
  - `DismissWalkThrough` shows that a manual dismissal during an insecure run counts no new incident.
  - `RestartWalkThrough` shows that after a stop and a restart the next insecure reading is a new incident.
  - `LoopWalkThrough` runs the loop over one low-charge reading and shows the alert raised and logged.

  The pure `Step` gives one iteration's effect on the stored status, the
  alert flag and the display log, and `Run` applies it in order. While
  monitoring is on, `Tick` is proved equal to one `Step`, and
  `CheckSecurity` to `Run` over its inputs. While it is off, both leave
  every field unchanged.

Inputs the program reads from the host or the user are method parameters:
- the battery reading, as `Option<Battery>` (psutil returns `None` without a battery);
- the slider's sensitivity, as an exact `real`;
- whether the alarm sound played, was muted or raised an error (`Audio`);
- a failed loop iteration (`ReadFailed`);
- the answers to confirmation dialogs (`confirmed`).

The source calls `start_monitoring` only from `toggle_monitoring` when
monitoring is off (alarm.py:430-431). `Start` therefore requires
`!monitoringActive`: a second start would run a second loop concurrently,
and this model does not cover concurrency.

## Model

| member | source | states |
|---|---|---|
| `Security.Threshold` | alarm.py:346 | for a sensitivity on the slider's range [1, 10] the threshold lies in [10, 100] |
| `Security.ThresholdDecreasing` | alarm.py:346 | a strictly higher sensitivity gives a strictly lower threshold |
| `Security.ThresholdOnWholeSteps` | alarm.py:161-166 | on each whole slider position 1..10 the threshold is the multiple of ten `(11 - k) * 10`, within [10, 100] |
| `Security.IsSecure` | alarm.py:342-347 | no battery is secure; with a battery the reading is secure iff plugged and percent >= threshold |
| `Security.UnpluggedIsInsecure` | alarm.py:343-347 | an unplugged battery is insecure at any charge and sensitivity |
| `Security.PluggedIsSecureIffCharged` | alarm.py:343-347 | a plugged battery is secure iff its charge reaches the threshold |
| `SecurityTrace.Incidents` | alarm.py:349-350 | the number of secure-to-insecure edges is smaller than the trace length |
| `SecurityTrace.IncidentsAppend` | alarm.py:349-359 | one more status adds exactly one incident on a secure-to-insecure edge and none otherwise |
| `SecurityTrace.IncidentsConcat` | alarm.py:340-359 | the incidents of a run are those before it plus the edges the run adds after the last earlier status |
| `SecurityTrace.IncidentsMonotone` | alarm.py:350 | the incident count never decreases as readings arrive |
| `SecurityTrace.InsecureRunCountsOnce` | alarm.py:349-359 | N >= 1 consecutive insecure readings add exactly one incident after a secure status and none after an insecure one |
| `SecurityTrace.SecureReadingsAddNothing` | alarm.py:349-359 | secure readings never add an incident |
| `SecurityTrace.RestartCountsAgain` | alarm.py:337-353 | after a restart (fresh secure status) the first insecure reading is a new incident, whatever the last session ended with |
| `History.Recent` | alarm.py:300-302 | the window holds min(n, 100) samples and they are the newest ones, in order |
| `History.PushBounded` | alarm.py:294-302 | from at most 100 samples a step keeps at most 100, ends with the new sample, and when full drops exactly the oldest, the rest in order |
| `History.PushKeepsRecent` | alarm.py:294-302 | a step on the window of a stream gives the window of the extended stream |
| `History.PushAllFromRecent` | alarm.py:294-302 | any number of steps from a window gives the window of the whole stream |
| `History.PushAllIsRecent` | alarm.py:294-304 | from an empty history, the steps leave exactly the newest 100 samples in arrival order |
| `EventLog.EntryRendering` | alarm.py:511-525 | an entry keeps its level as tag and its text is icon + space + message; a known level gets its own style from the table, an unknown one the `info` icon and colour |
| `Monitor.StatusesOf` | alarm.py:340-369 | at most one status per iteration; exactly one per iteration when none fails, and none when all fail |
| `Monitor.RunStatus` | alarm.py:349-359 | after any run of iterations the stored status is the last one evaluated, and an active alert implies that status is insecure |
| `Monitor.StatusesOfEvaluated` | alarm.py:342-347 | when no iteration fails, the statuses are exactly the readings' `IsSecure` values, one for one and in order |
| `Monitor.InsecureReadingsCountOnce` | alarm.py:340-359 | N >= 1 insecure readings in a row add one incident to the loop after a secure status and none after an insecure one |
| `Monitor.Step` | alarm.py:342-359 | one iteration: the stored status becomes the reading's; a failed iteration keeps status and alert; an alert is newly raised only on a secure-to-insecure edge; "alert implies insecure" is preserved |
| `Monitor.StepAppends` | alarm.py:506-525 | one iteration only appends to the display log |
| `Monitor.Run` | alarm.py:340-369 | the iterations applied in order only append to the display log; earlier entries stay as they were |
| `Monitor.ClearAnswerAsWritten` | alarm.py:327-331 | the clear dialog's truthiness test: no answer does not clear, the affirmative answer does |
| `Monitor.Confirmed` | alarm.py:540 | the closing dialog's test: every confirmation also passes the truthiness test; no answer does not confirm |
| `History.Push` | alarm.py:294-302 | the append-then-pop step ends with the new sample and keeps a history of at most 100 within 100 |
| `EventLog.StyleOf` | alarm.py:511-517 | the style is one of the three in the table, and an unknown level gets the `info` style |
| `EventLog.Entry` | alarm.py:517-525 | the entry is shown in a table style, and its text is the icon, a space and the message, which can be read back from it |
| `Monitor.SecurityMonitor.Dismiss` | alarm.py:128-136 | the dismiss button keeps the object invariant, clears the alert, logs the dismissal, and leaves the loop's status and the counter unchanged |
| `Monitor.RefusalClearsAsWritten` | alarm.py:327-333 | any non-empty answer other than "Oui", the refusal included, passes the clear dialog's truthiness test without confirming |
| `Monitor.ConfirmedOnlyByYes` | alarm.py:534-541 | only the answer "Oui" confirms; a closed dialog does not |
| `Monitor.SecurityMonitor.ClearLogsAsWritten` | alarm.py:325-333 | as written: any non-empty answer leaves exactly the `info` entry "Journal effacé"; no answer leaves the log unchanged |
| `Monitor.SecurityMonitor.constructor` | alarm.py:18-44 | flags off, no incidents, empty log, and the history holds the first sample taken while building the window |
| `Monitor.SecurityMonitor.LogEvent` | alarm.py:506-529 | appends exactly one entry and leaves the earlier ones unchanged |
| `Monitor.SecurityMonitor.ClearLogs` | alarm.py:325-333 | the intended command: confirmed, the log is exactly one `info` entry "Journal effacé"; declined, unchanged |
| `Monitor.SecurityMonitor.TriggerAlert` | alarm.py:371-392 | the alert is active; an `alert` entry is logged, followed by a warning if the audio failed |
| `Monitor.SecurityMonitor.StopAlert` | alarm.py:409-426 | the alert is inactive; loop status and counter are untouched, so it is idempotent on the flags |
| `Monitor.SecurityMonitor.Tick` | alarm.py:340-369 | counter +1 and alert raised exactly on a secure-to-insecure edge; recovery logged and an active alert cleared on the reverse edge; the status stored; a failed iteration only logs a warning; no effect once monitoring is off; the same as one `Step` |
| `Monitor.SecurityMonitor.CheckSecurity` | alarm.py:335-369 | the loop adds to the counter exactly the secure-to-insecure edges of the statuses it evaluates; its stored status, alert flag and display log are those of applying `Step` (the iteration of `Tick`) to each input in order; nothing happens when monitoring is off |
| `Monitor.SecurityMonitor.LoopIteration` | alarm.py:340-359 | one pass of the loop body while monitoring: the trace and the `Run` state grow by exactly that input, and the invariant is kept |
| `Monitor.SecurityMonitor.Start` | alarm.py:435-464 | monitoring on, the loop status reset to secure, the incident counter kept, one `info` entry logged |
| `Monitor.SecurityMonitor.Stop` | alarm.py:479-504 | monitoring and alert off, the dismissal logged if an alert was active, then the stop message |
| `Monitor.SecurityMonitor.Toggle` | alarm.py:428-433 | flips `monitoringActive` and has the effect of `Start` or `Stop` |
| `Monitor.SecurityMonitor.OnClosing` | alarm.py:531-554 | declined while monitoring: nothing changes and the window stays; otherwise both flags cleared and the shutdown logged |
| `Monitor.SecurityMonitor.RecordSample` | alarm.py:277-304 | the history stays within 100, ends with the new sample, drops exactly the oldest when it was full, and is the newest 100 samples ever recorded |

## Findings

| source | as written | input that shows it | evidently intended | confidence | as-written member | corrected member |
|---|---|---|---|---|---|---|
| alarm.py:327-331 | `clear_logs` clears when the dialog's answer is truthy. The dialog returns the label of the button pressed, so every button clears. | pressing the refusal button ("Non") clears the log (`RefusalClearsAsWritten`) | clear only when the user confirms, compared with "Oui" as `on_closing` does (alarm.py:540) | medium; it depends on the dialog returning the label, as alarm.py:540 assumes; not executed | `Monitor.SecurityMonitor.ClearLogsAsWritten` | `Monitor.SecurityMonitor.ClearLogs` |

`ClearLogsAsWritten` takes the dialog's answer: a button label, or `None`
when the dialog is closed. `ClearLogs` takes the confirmation as a boolean.
`Confirmed` is that boolean, and `ConfirmedOnlyByYes` proves that only "Oui"
confirms. The rest of the model uses `ClearLogs`.

## Left out

- Widget construction, layout, labels, metric cards, splash screen, progress animation, toasts and message boxes are presentation. Confirmation dialogs are boolean parameters, except for the as-written clear command under "## Findings", which takes the answer itself.
- psutil reads (battery, CPU, memory) are foreign calls; each reading is a method input.
- psutil's undetermined plug state (`power_plugged is None`) is modelled as `plugged == false`. The loop treats `None` as falsy at every use (alarm.py:343, 349, 354), so it behaves as unplugged.
- pygame audio loading, playing and stopping are foreign calls. Only their outcome (`Audio`) is an input, and it decides whether a warning is logged. Whether the sound is playing is not tracked.
- The `timestamp` field of each metrics sample (alarm.py:294-298) is clock-dependent and is dropped: a `Sample` holds only CPU and memory.
- The timestamp before each display-log line, the durable log file (`logging`) and `export_logs` are clock-dependent or file I/O. Only the in-memory display log is modelled.
- Threads, `time.sleep`, the 5-second back-off after an error and the `root.after` callbacks (flashing, startup animation, the 1-second metrics refresh) are timing and concurrency. One loop iteration is one `Tick` call, in sequence. Because of this, `Start` requires that monitoring is off: the source never starts twice, and a second start would mean two loops running at once.
- A `ReadFailed` iteration stands for an exception raised before any state changed. An exception raised midway through an iteration (for instance by a label update after the counter was incremented) is not modelled.
- The elapsed-time label and the incident label are presentation.
- `mixer.quit`, `root.destroy` and `sys.exit(0)` in `on_closing` are the process ending, shown as `closed == true`.
- `finish_startup`'s "ready" log entry and the startup error dialog (`__main__`) belong to the application shell, not to the monitoring core.
- The slider value is an exact `real`, with no floating-point rounding.
