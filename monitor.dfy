/** The state of the security monitor window with the GUI taken away: the
    monitoring and alert flags, the incident counter, the status the
    monitoring loop last saw, the display log and the metrics history. */
module Monitor {
  import opened Security
  import opened SecurityTrace
  import opened History
  import opened EventLog

  /** What happened when the alarm sound was to be played: the sound option
      was off, playback started, or loading/playing raised an error. */
  datatype Audio = Muted | Played | AudioFailed(reason: string)

  /** One iteration's input of the monitoring loop: the battery reading, the
      slider's sensitivity and the audio outcome should an alert be raised;
      or the error the iteration raised. */
  datatype Reading =
    | Reading(battery: Option<Battery>, sensitivity: real, audio: Audio)
    | ReadFailed(reason: string)

  /** The status a reading contributes to the trace; a failed iteration
      contributes none. */
  function StatusesOf(readings: seq<Reading>): (statuses: seq<bool>)
    ensures |statuses| <= |readings|
    ensures (forall i | 0 <= i < |readings| :: readings[i].Reading?) ==> |statuses| == |readings|
    ensures (forall i | 0 <= i < |readings| :: readings[i].ReadFailed?) ==> statuses == []
  {
    if readings == [] then []
    else
      var last := readings[|readings| - 1];
      StatusesOf(readings[..|readings| - 1]) +
        (if last.Reading? then [IsSecure(last.battery, last.sensitivity)] else [])
  }

  /** When no iteration fails, the statuses are those of the readings, one
      for one and in order. */
  lemma {:induction false} StatusesOfEvaluated(readings: seq<Reading>)
    requires forall i | 0 <= i < |readings| :: readings[i].Reading?
    ensures |StatusesOf(readings)| == |readings|
    ensures forall i | 0 <= i < |readings| ::
      StatusesOf(readings)[i] == IsSecure(readings[i].battery, readings[i].sensitivity)
  {
    if readings != [] {
      var init := readings[..|readings| - 1];
      StatusesOfEvaluated(init);
      assert forall i | 0 <= i < |init| :: init[i] == readings[i];
    }
  }

  const AlertMessage := "⚠️ ALERTE DE SÉCURITÉ: Alimentation compromise!"
  const RecoveredMessage := "✅ Système sécurisé - Retour à la normale"
  const DismissedMessage := "🔕 Alerte désactivée"
  const StartedMessage := "🟢 Système de surveillance activé"
  const StoppedMessage := "🔴 Système de surveillance désactivé"
  const ShutdownMessage := "💾 Sauvegarde et arrêt du système"
  const ClearedMessage := "Journal effacé"
  const LoopErrorPrefix := "Erreur de surveillance: "
  const AudioErrorPrefix := "Erreur audio: "

  /** The entries an alert adds to the log. */
  function AlertEntries(message: string, audio: Audio): seq<LogEntry>
  {
    [Entry(message, Alert)] + (if audio.AudioFailed? then [Entry(AudioErrorPrefix + audio.reason, Warning)] else [])
  }

  /** The entries a stop or shutdown adds before its own message. */
  function DismissalEntries(alertWasActive: bool): seq<LogEntry>
  {
    if alertWasActive then [Entry(DismissedMessage, Info)] else []
  }

  /** What one iteration of the monitoring loop reads and writes besides the
      counter: the last status, the alert flag and the display log. */
  datatype LoopState = LoopState(wasSecure: bool, alertActive: bool, entries: seq<LogEntry>)

  /** One evaluated iteration: raise the alert on a secure-to-insecure edge,
      log the recovery and clear an active alert on the reverse edge, and
      store the status; a failed iteration only logs a warning. */
  function Step(state: LoopState, reading: Reading): (next: LoopState)
    ensures reading.Reading? ==> next.wasSecure == IsSecure(reading.battery, reading.sensitivity)
    ensures reading.ReadFailed? ==>
      next.wasSecure == state.wasSecure && next.alertActive == state.alertActive
    ensures next.alertActive && !state.alertActive ==> state.wasSecure && !next.wasSecure
    ensures (state.alertActive ==> !state.wasSecure) ==> (next.alertActive ==> !next.wasSecure)
  {
    match reading
    case ReadFailed(reason) =>
      state.(entries := state.entries + [Entry(LoopErrorPrefix + reason, Warning)])
    case Reading(battery, sensitivity, audio) =>
      var secure := IsSecure(battery, sensitivity);
      if state.wasSecure && !secure then
        LoopState(false, true, state.entries + AlertEntries(AlertMessage, audio))
      else if !state.wasSecure && secure then
        LoopState(true, false, state.entries + [Entry(RecoveredMessage, Info)] + DismissalEntries(state.alertActive))
      else
        state.(wasSecure := secure)
  }

  /** One iteration only appends to the display log. */
  lemma StepAppends(state: LoopState, reading: Reading)
    ensures |state.entries| <= |Step(state, reading).entries|
    ensures Step(state, reading).entries[..|state.entries|] == state.entries
  {
  }

  /** The iterations applied in order. A run only appends to the display
      log: earlier entries are never removed or altered. */
  function Run(state: LoopState, readings: seq<Reading>): (final: LoopState)
    ensures |state.entries| <= |final.entries| && final.entries[..|state.entries|] == state.entries
  {
    if readings == [] then state
    else
      var before := Run(state, readings[..|readings| - 1]);
      var after := Step(before, readings[|readings| - 1]);
      StepAppends(before, readings[|readings| - 1]);
      assert after.entries[..|state.entries|] == before.entries[..|state.entries|] by {
        assert after.entries[..|before.entries|] == before.entries;
      }
      after
  }

  /** After any run the status held is the last one evaluated (or the one
      before the run if none was), and an alert can only be active while
      that status is insecure. */
  lemma {:induction false} RunStatus(state: LoopState, readings: seq<Reading>)
    requires state.alertActive ==> !state.wasSecure
    ensures Run(state, readings).wasSecure == Last([state.wasSecure] + StatusesOf(readings))
    ensures Run(state, readings).alertActive ==> !Run(state, readings).wasSecure
  {
    if readings != [] {
      RunStatus(state, readings[..|readings| - 1]);
    }
  }

  /** Extending a prefix of the loop's inputs by one input extends the
      statuses by that input's status and the run by one step. */
  lemma PrefixStep(state: LoopState, readings: seq<Reading>, i: nat)
    requires i < |readings|
    ensures StatusesOf(readings[..i + 1]) == StatusesOf(readings[..i]) +
      (if readings[i].Reading? then [IsSecure(readings[i].battery, readings[i].sensitivity)] else [])
    ensures Run(state, readings[..i + 1]) == Step(Run(state, readings[..i]), readings[i])
  {
    assert readings[..i + 1][..i] == readings[..i];
  }

  /** N >= 1 insecure readings in a row, with no failed iteration, add one
      incident to the loop's counter after a secure status and none after
      an insecure one. */
  lemma InsecureReadingsCountOnce(previous: bool, readings: seq<Reading>)
    requires |readings| >= 1
    requires forall i | 0 <= i < |readings| ::
      readings[i].Reading? && !IsSecure(readings[i].battery, readings[i].sensitivity)
    ensures NewIncidents(previous, StatusesOf(readings)) == if previous then 1 else 0
  {
    StatusesOfEvaluated(readings);
    assert StatusesOf(readings) == Repeat(false, |readings|);
    InsecureRunCountsOnce(previous, |readings|);
  }

  /** The answer as the log-clearing dialog tests it: any answer
      that is not empty counts, since the dialog returns the label of the
      button pressed, or nothing when it is closed. */
  function ClearAnswerAsWritten(answer: Option<string>): (clears: bool)
    ensures answer.None? ==> !clears
    ensures answer == Some(YesLabel) ==> clears
  {
    answer.Some? && answer.value != ""
  }

  const YesLabel := "Oui"

  /** The answer as the closing dialog tests it: only the affirmative
      button confirms. */
  function Confirmed(answer: Option<string>): (yes: bool)
    ensures yes ==> ClearAnswerAsWritten(answer)
    ensures answer.None? ==> !yes
  {
    answer == Some(YesLabel)
  }

  /** Pressing any button other than the affirmative one (for instance the
      refusal, "Non") clears the log as written, though it does not
      confirm. */
  lemma RefusalClearsAsWritten(button: string)
    requires button != "" && button != YesLabel
    ensures ClearAnswerAsWritten(Some(button)) && !Confirmed(Some(button))
  {
  }

  /** Only the affirmative answer confirms; closing the dialog without an
      answer does not. */
  lemma ConfirmedOnlyByYes(answer: Option<string>)
    ensures Confirmed(answer) <==> answer.Some? && answer.value == YesLabel
    ensures !Confirmed(None)
  {
  }

  class SecurityMonitor {
    var monitoringActive: bool
    var alertActive: bool
    var incidentCount: nat
    /** The monitoring loop's last status; reset to secure by each start. */
    var wasSecure: bool
    var log: seq<LogEntry>
    var metrics: seq<Sample>

    /** Every status the monitoring loop has held, oldest first. */
    ghost var trace: seq<bool>
    /** Every metrics sample recorded, oldest first. */
    ghost var samples: seq<Sample>

    ghost predicate Valid()
      reads this
    {
      |trace| >= 1 && wasSecure == Last(trace) &&
      incidentCount == Incidents(trace) &&
      (alertActive ==> monitoringActive && !wasSecure) &&
      metrics == Recent(samples)
    }

    /** The initial state; building the window records the first sample. */
    constructor (first: Sample)
      ensures Valid()
      ensures !monitoringActive && !alertActive && incidentCount == 0
      ensures log == [] && metrics == [first] && samples == [first]
    {
      monitoringActive := false;
      alertActive := false;
      incidentCount := 0;
      wasSecure := true;
      log := [];
      metrics := [first];
      trace := [true];
      samples := [first];
    }

    /** Appends one entry to the display log. */
    method LogEvent(message: string, level: string)
      modifies this`log
      ensures log == old(log) + [Entry(message, level)]
    {
      log := log + [Entry(message, level)];
    }

    /** Clears the display log if the user confirms, then records that. */
    method ClearLogs(confirmed: bool)
      requires Valid()
      modifies this`log
      ensures Valid()
      ensures confirmed ==> log == [Entry(ClearedMessage, Info)]
      ensures !confirmed ==> log == old(log)
    {
      if confirmed {
        log := [];
        LogEvent(ClearedMessage, Info);
      }
    }

    /** The log-clearing command as written: the dialog's answer is only
        tested for being non-empty, so a refusal clears the log too. */
    method ClearLogsAsWritten(answer: Option<string>)
      requires Valid()
      modifies this`log
      ensures Valid()
      ensures ClearAnswerAsWritten(answer) ==> log == [Entry(ClearedMessage, Info)]
      ensures !ClearAnswerAsWritten(answer) ==> log == old(log)
    {
      ClearLogs(ClearAnswerAsWritten(answer));
    }

    /** Raises the alert. */
    method TriggerAlert(message: string, audio: Audio)
      modifies this`alertActive, this`log
      ensures alertActive
      ensures log == old(log) + AlertEntries(message, audio)
    {
      alertActive := true;
      LogEvent(message, Alert);
      if audio.AudioFailed? {
        LogEvent(AudioErrorPrefix + audio.reason, Warning);
      }
    }

    /** Clears the alert; also the user's manual dismissal. It leaves the
        loop's status and the incident counter alone. */
    method StopAlert()
      modifies this`alertActive, this`log
      ensures !alertActive
      ensures log == old(log) + [Entry(DismissedMessage, Info)]
    {
      alertActive := false;
      LogEvent(DismissedMessage, Info);
    }

    /** The dismiss button: clears the alert during an insecure run without
        touching the loop's status, so no new incident is counted until a
        secure reading intervenes. */
    method Dismiss()
      requires Valid()
      modifies this`alertActive, this`log
      ensures Valid()
      ensures !alertActive
      ensures log == old(log) + [Entry(DismissedMessage, Info)]
    {
      StopAlert();
    }

    /** One iteration of the monitoring loop; nothing happens once
        monitoring is off. */
    method Tick(reading: Reading)
      requires Valid()
      modifies this`alertActive, this`incidentCount, this`wasSecure, this`log, this`trace
      ensures Valid()
      ensures !old(monitoringActive) ==>
        alertActive == old(alertActive) && incidentCount == old(incidentCount) &&
        wasSecure == old(wasSecure) && log == old(log) && trace == old(trace)
      ensures old(monitoringActive) && reading.ReadFailed? ==>
        alertActive == old(alertActive) && incidentCount == old(incidentCount) &&
        wasSecure == old(wasSecure) && trace == old(trace) &&
        log == old(log) + [Entry(LoopErrorPrefix + reading.reason, Warning)]
      ensures old(monitoringActive) && reading.Reading? ==>
        var secure := IsSecure(reading.battery, reading.sensitivity);
        var incident := old(wasSecure) && !secure;
        var recovery := !old(wasSecure) && secure;
        wasSecure == secure && trace == old(trace) + [secure] &&
        incidentCount == old(incidentCount) + (if incident then 1 else 0) &&
        alertActive == (if incident then true else if recovery then false else old(alertActive)) &&
        log == old(log) + (if incident then AlertEntries(AlertMessage, reading.audio)
                           else if recovery then [Entry(RecoveredMessage, Info)] + DismissalEntries(old(alertActive))
                           else [])
      ensures old(monitoringActive) ==>
        LoopState(wasSecure, alertActive, log) == Step(LoopState(old(wasSecure), old(alertActive), old(log)), reading)
    {
      if !monitoringActive {
        return;
      }
      match reading
      case ReadFailed(reason) =>
        LogEvent(LoopErrorPrefix + reason, Warning);
      case Reading(battery, sensitivity, audio) =>
        var secure := IsSecure(battery, sensitivity);
        IncidentsAppend(trace, secure);
        if wasSecure && !secure {
          incidentCount := incidentCount + 1;
          TriggerAlert(AlertMessage, audio);
        } else if !wasSecure && secure {
          LogEvent(RecoveredMessage, Info);
          if alertActive {
            StopAlert();
          }
        }
        wasSecure := secure;
        trace := trace + [secure];
    }

    /** Iteration `i` of the monitoring loop over `readings`: the state
        after it is that of the inputs up to and including `readings[i]`. */
    method LoopIteration(ghost start: LoopState, ghost trace0: seq<bool>, readings: seq<Reading>, i: nat)
      requires i < |readings|
      requires Valid() && monitoringActive
      requires trace == trace0 + StatusesOf(readings[..i])
      requires LoopState(wasSecure, alertActive, log) == Run(start, readings[..i])
      modifies this`alertActive, this`incidentCount, this`wasSecure, this`log, this`trace
      ensures Valid() && monitoringActive
      ensures trace == trace0 + StatusesOf(readings[..i + 1])
      ensures LoopState(wasSecure, alertActive, log) == Run(start, readings[..i + 1])
    {
      PrefixStep(start, readings, i);
      Tick(readings[i]);
    }

    /** The monitoring loop run over a sequence of iterations' inputs. The
        incidents it adds are exactly the secure-to-insecure edges of the
        statuses it evaluates, starting from the status it had. */
    method CheckSecurity(readings: seq<Reading>)
      requires Valid()
      modifies this`alertActive, this`incidentCount, this`wasSecure, this`log, this`trace
      ensures Valid()
      ensures old(monitoringActive) ==> trace == old(trace) + StatusesOf(readings)
      ensures old(monitoringActive) ==>
        incidentCount == old(incidentCount) + NewIncidents(old(wasSecure), StatusesOf(readings))
      ensures old(monitoringActive) ==>
        LoopState(wasSecure, alertActive, log) == Run(LoopState(old(wasSecure), old(alertActive), old(log)), readings)
      ensures !old(monitoringActive) ==>
        alertActive == old(alertActive) && incidentCount == old(incidentCount) &&
        wasSecure == old(wasSecure) && log == old(log) && trace == old(trace)
    {
      if !monitoringActive {
        return;
      }
      ghost var start := LoopState(wasSecure, alertActive, log);
      var i := 0;
      while i < |readings| && monitoringActive
        invariant 0 <= i <= |readings|
        invariant Valid() && monitoringActive
        invariant trace == old(trace) + StatusesOf(readings[..i])
        invariant LoopState(wasSecure, alertActive, log) == Run(start, readings[..i])
      {
        LoopIteration(start, old(trace), readings, i);
        i := i + 1;
      }
      assert readings[..i] == readings;
      IncidentsConcat(old(trace), StatusesOf(readings));
    }

    /** Starts monitoring; the loop begins by assuming a secure status.
        The incident counter is kept. */
    method Start()
      requires Valid()
      requires !monitoringActive
      modifies this`monitoringActive, this`wasSecure, this`log, this`trace
      ensures Valid()
      ensures monitoringActive && wasSecure && trace == old(trace) + [true]
      ensures log == old(log) + [Entry(StartedMessage, Info)]
    {
      monitoringActive := true;
      LogEvent(StartedMessage, Info);
      IncidentsAppend(trace, true);
      wasSecure := true;
      trace := trace + [true];
    }

    /** Stops monitoring and clears any active alert. */
    method Stop()
      requires Valid()
      modifies this`monitoringActive, this`alertActive, this`log
      ensures Valid()
      ensures !monitoringActive && !alertActive
      ensures log == old(log) + DismissalEntries(old(alertActive)) + [Entry(StoppedMessage, Info)]
    {
      monitoringActive := false;
      if alertActive {
        StopAlert();
      }
      LogEvent(StoppedMessage, Info);
    }

    /** The start/stop button. */
    method Toggle()
      requires Valid()
      modifies this`monitoringActive, this`alertActive, this`wasSecure, this`log, this`trace
      ensures Valid()
      ensures monitoringActive == !old(monitoringActive)
      ensures !old(monitoringActive) ==>
        wasSecure && trace == old(trace) + [true] && alertActive == old(alertActive) &&
        log == old(log) + [Entry(StartedMessage, Info)]
      ensures old(monitoringActive) ==>
        !alertActive && wasSecure == old(wasSecure) && trace == old(trace) &&
        log == old(log) + DismissalEntries(old(alertActive)) + [Entry(StoppedMessage, Info)]
    {
      if !monitoringActive {
        Start();
      } else {
        Stop();
      }
    }

    /** Closing the window. While monitoring, the user must confirm;
        declining changes nothing. `closed` means the process exits. */
    method OnClosing(confirmed: bool) returns (closed: bool)
      requires Valid()
      modifies this`monitoringActive, this`alertActive, this`log
      ensures Valid()
      ensures closed == (!old(monitoringActive) || confirmed)
      ensures !closed ==>
        monitoringActive == old(monitoringActive) && alertActive == old(alertActive) && log == old(log)
      ensures closed ==>
        !monitoringActive && !alertActive &&
        log == old(log) + DismissalEntries(old(alertActive)) + [Entry(ShutdownMessage, Info)]
    {
      if monitoringActive && !confirmed {
        return false;
      }
      monitoringActive := false;
      if alertActive {
        StopAlert();
      }
      LogEvent(ShutdownMessage, Info);
      closed := true;
    }

    /** Records one metrics sample in the bounded history. */
    method RecordSample(sample: Sample)
      requires Valid()
      modifies this`metrics, this`samples
      ensures Valid()
      ensures samples == old(samples) + [sample]
      ensures metrics == Push(old(metrics), sample)
      ensures |metrics| <= Capacity && metrics[|metrics| - 1] == sample
      ensures |old(metrics)| == Capacity ==> metrics == old(metrics)[1..] + [sample]
      ensures |old(metrics)| < Capacity ==> metrics == old(metrics) + [sample]
    {
      PushKeepsRecent(samples, sample);
      PushBounded(metrics, sample);
      metrics := metrics + [sample];
      if |metrics| > Capacity {
        metrics := metrics[1..];
      }
      samples := samples + [sample];
    }
  }

  /** The sensitivity-5 walk-through: 70% plugged is secure, 50% plugged
      raises the first incident, unplugged at 50% stays in the same
      incident, 80% plugged recovers and clears the alert. */
  method WalkThrough()
  {
    var m := new SecurityMonitor(Sample(0.0, 0.0));
    m.Start();
    assert Threshold(5.0) == 60.0;
    m.Tick(Reading(Some(Battery(70.0, true)), 5.0, Played));
    assert m.wasSecure && m.incidentCount == 0;
    m.Tick(Reading(Some(Battery(50.0, true)), 5.0, Played));
    assert !m.wasSecure && m.incidentCount == 1 && m.alertActive;
    m.Tick(Reading(Some(Battery(50.0, false)), 5.0, Played));
    assert m.incidentCount == 1 && m.alertActive;
    m.Tick(Reading(Some(Battery(80.0, true)), 5.0, Played));
    assert m.wasSecure && m.incidentCount == 1 && !m.alertActive;
  }

  /** A manual dismissal during an insecure run counts no new incident on
      the next insecure reading. */
  method DismissWalkThrough()
  {
    var m := new SecurityMonitor(Sample(0.0, 0.0));
    m.Start();
    m.Tick(Reading(Some(Battery(90.0, false)), 5.0, Muted));
    assert m.incidentCount == 1 && m.alertActive;
    m.Dismiss();
    assert !m.alertActive && !m.wasSecure;
    m.Tick(Reading(Some(Battery(90.0, false)), 5.0, Muted));
    assert m.incidentCount == 1 && !m.alertActive;
  }

  /** After a stop and a restart, an insecure reading is a new incident
      even though the last session ended insecure. */
  method RestartWalkThrough()
  {
    var m := new SecurityMonitor(Sample(0.0, 0.0));
    m.Start();
    m.Tick(Reading(Some(Battery(90.0, false)), 5.0, Muted));
    assert m.incidentCount == 1 && !m.wasSecure;
    m.Stop();
    m.Start();
    m.Tick(Reading(Some(Battery(90.0, false)), 5.0, Muted));
    assert m.incidentCount == 2;
  }

  /** The loop over one low-charge reading raises the alert, logs it and
      counts one incident. */
  method LoopWalkThrough()
  {
    var m := new SecurityMonitor(Sample(0.0, 0.0));
    m.Start();
    var before := m.log;
    var low := [Reading(Some(Battery(10.0, true)), 5.0, Played)];
    ghost var start := LoopState(m.wasSecure, m.alertActive, m.log);
    m.CheckSecurity(low);
    assert low[..0] == [];
    assert Run(start, low) == Step(start, low[0]);
    assert m.incidentCount == 1 && m.alertActive;
    assert m.log == before + AlertEntries(AlertMessage, Played);
  }
}
