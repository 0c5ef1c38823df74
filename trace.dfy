/** Incident counting over the trace of security statuses seen by the
    monitoring loop. Each monitoring session contributes a leading `true`
    (the loop starts out assuming the machine is secure) followed by the
    status of every reading it evaluated. An incident is a secure status
    immediately followed by an insecure one. */
module SecurityTrace {

  /** Number of secure-to-insecure edges in `trace`. */
  function Incidents(trace: seq<bool>): (n: nat)
    ensures |trace| >= 1 ==> n < |trace|
  {
    if |trace| < 2 then 0
    else (if trace[0] && !trace[1] then 1 else 0) + Incidents(trace[1..])
  }

  function Last(trace: seq<bool>): bool
    requires |trace| >= 1
  {
    trace[|trace| - 1]
  }

  /** Number of incidents produced by `statuses` when the previous status
      was `previous`. */
  function NewIncidents(previous: bool, statuses: seq<bool>): nat
  {
    Incidents([previous] + statuses)
  }

  /** One more status adds one incident exactly when it is an edge from
      secure to insecure. */
  lemma {:induction false} IncidentsAppend(trace: seq<bool>, status: bool)
    requires |trace| >= 1
    ensures Incidents(trace + [status]) ==
            Incidents(trace) + (if Last(trace) && !status then 1 else 0)
  {
    if |trace| >= 2 {
      assert (trace + [status])[1..] == trace[1..] + [status];
      IncidentsAppend(trace[1..], status);
    }
  }

  /** The incidents of a concatenation are those of the first part plus
      those the second part adds after the first part's last status. */
  lemma {:induction false} IncidentsConcat(trace: seq<bool>, statuses: seq<bool>)
    requires |trace| >= 1
    ensures Incidents(trace + statuses) == Incidents(trace) + NewIncidents(Last(trace), statuses)
  {
    if |trace| >= 2 {
      assert (trace + statuses)[1..] == trace[1..] + statuses;
      IncidentsConcat(trace[1..], statuses);
    } else {
      assert trace == [Last(trace)];
    }
  }

  /** The count never goes down as the trace grows. */
  lemma IncidentsMonotone(trace: seq<bool>, statuses: seq<bool>)
    requires |trace| >= 1
    ensures Incidents(trace) <= Incidents(trace + statuses)
  {
    IncidentsConcat(trace, statuses);
  }

  function Repeat(status: bool, n: nat): (r: seq<bool>)
    ensures |r| == n && forall i :: 0 <= i < n ==> r[i] == status
  {
    if n == 0 then [] else [status] + Repeat(status, n - 1)
  }

  /** A run of `n >= 1` insecure readings is one incident if the status
      before it was secure and none otherwise: repeated insecure readings
      are not counted twice. */
  lemma {:induction false} InsecureRunCountsOnce(previous: bool, n: nat)
    requires n >= 1
    ensures NewIncidents(previous, Repeat(false, n)) == if previous then 1 else 0
  {
    if n == 1 {
      assert [previous] + Repeat(false, 1) == [previous, false];
    } else {
      var run := [previous] + Repeat(false, n - 1);
      InsecureRunCountsOnce(previous, n - 1);
      assert [previous] + Repeat(false, n) == run + [false] by {
        assert Repeat(false, n) == Repeat(false, n - 1) + [false];
      }
      IncidentsAppend(run, false);
    }
  }

  /** Secure readings never add an incident. */
  lemma {:induction false} SecureReadingsAddNothing(previous: bool, statuses: seq<bool>)
    requires forall i :: 0 <= i < |statuses| ==> statuses[i]
    ensures NewIncidents(previous, statuses) == 0
    decreases statuses
  {
    if statuses != [] {
      assert ([previous] + statuses)[1..] == [statuses[0]] + statuses[1..];
      SecureReadingsAddNothing(statuses[0], statuses[1..]);
    }
  }

  /** A restart inserts a secure status, so the first insecure reading after
      it is a new incident whatever the previous session ended with. */
  lemma RestartCountsAgain(trace: seq<bool>)
    requires |trace| >= 1
    ensures Incidents(trace + [true] + [false]) == Incidents(trace) + 1
  {
    IncidentsAppend(trace, true);
    IncidentsAppend(trace + [true], false);
  }
}
