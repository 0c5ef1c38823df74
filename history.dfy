/** The bounded history of metric samples kept for the charts: after each
    sample is appended, the oldest one is dropped once the history holds
    more than `Capacity` samples. */
module History {

  /** One metrics sample (its timestamp is not modelled). */
  datatype Sample = Sample(cpu: real, memory: real)

  const Capacity: nat := 100

  /** One step of the history: append, then drop the head if too long. */
  function Push(history: seq<Sample>, sample: Sample): (next: seq<Sample>)
    ensures |next| >= 1 && next[|next| - 1] == sample
    ensures |history| <= Capacity ==> |next| <= Capacity
  {
    var h := history + [sample];
    if |h| > Capacity then h[1..] else h
  }

  /** The newest `Capacity` samples of `samples`, oldest first. */
  function Recent(samples: seq<Sample>): (window: seq<Sample>)
    ensures |window| == if |samples| <= Capacity then |samples| else Capacity
    ensures forall i :: 0 <= i < |window| ==> window[i] == samples[|samples| - |window| + i]
  {
    if |samples| <= Capacity then samples else samples[|samples| - Capacity..]
  }

  /** A step from a history of at most `Capacity` samples stays within
      `Capacity`, ends with the new sample, and drops exactly the oldest
      sample, keeping the others in order, when the history was full. */
  lemma PushBounded(history: seq<Sample>, sample: Sample)
    requires |history| <= Capacity
    ensures |Push(history, sample)| <= Capacity
    ensures Push(history, sample)[|Push(history, sample)| - 1] == sample
    ensures |history| < Capacity ==> Push(history, sample) == history + [sample]
    ensures |history| == Capacity ==> Push(history, sample) == history[1..] + [sample]
  {
  }

  /** Pushing onto the window of a sample stream gives the window of the
      stream extended by the new sample. */
  lemma PushKeepsRecent(samples: seq<Sample>, sample: Sample)
    ensures Push(Recent(samples), sample) == Recent(samples + [sample])
  {
  }

  function PushAll(history: seq<Sample>, samples: seq<Sample>): seq<Sample>
    decreases |samples|
  {
    if samples == [] then history
    else PushAll(Push(history, samples[0]), samples[1..])
  }

  /** Starting from an empty history, any number of steps leaves exactly the
      newest `Capacity` samples, in arrival order. */
  lemma {:induction false} PushAllIsRecent(samples: seq<Sample>)
    ensures PushAll([], samples) == Recent(samples)
  {
    PushAllFromRecent([], samples);
    assert Recent([]) == [];
    assert [] + samples == samples;
  }

  lemma {:induction false} PushAllFromRecent(seen: seq<Sample>, samples: seq<Sample>)
    ensures PushAll(Recent(seen), samples) == Recent(seen + samples)
    decreases |samples|
  {
    if samples == [] {
      assert seen + samples == seen;
    } else {
      PushKeepsRecent(seen, samples[0]);
      PushAllFromRecent(seen + [samples[0]], samples[1..]);
      assert seen + [samples[0]] + samples[1..] == seen + samples;
    }
  }
}
