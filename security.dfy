/** The security predicate evaluated once per iteration of the monitoring
    loop: a battery reading and the sensitivity setting decide whether the
    machine counts as secure. */
module Security {

  datatype Option<T> = None | Some(value: T)

  /** One battery reading. An undetermined plug state is modelled as
      `plugged == false`, which is how the monitor treats it. */
  datatype Battery = Battery(percent: real, plugged: bool)

  /** Lowest and highest positions of the sensitivity slider. */
  const MinSensitivity: real := 1.0
  const MaxSensitivity: real := 10.0

  /** The battery percentage below which a reading is insecure. */
  function Threshold(sensitivity: real): (t: real)
    ensures MinSensitivity <= sensitivity <= MaxSensitivity ==> 10.0 <= t <= 100.0
  {
    (11.0 - sensitivity) * 10.0
  }

  /** A higher sensitivity gives a strictly lower threshold. */
  lemma ThresholdDecreasing(s: real, s': real)
    requires s < s'
    ensures Threshold(s') < Threshold(s)
  {
  }

  /** On every whole slider position the threshold is a multiple of ten
      between 10 and 100. */
  lemma ThresholdOnWholeSteps(k: int)
    requires 1 <= k <= 10
    ensures Threshold(k as real) == ((11 - k) * 10) as real
    ensures 10 <= (11 - k) * 10 <= 100
  {
  }

  /** Whether one reading is secure: the plug state, overruled to insecure
      when the charge is below the threshold. Without a battery the reading
      is always secure. */
  function IsSecure(battery: Option<Battery>, sensitivity: real): (secure: bool)
    ensures battery.None? ==> secure
    ensures battery.Some? ==>
      (secure <==> battery.value.plugged && battery.value.percent >= Threshold(sensitivity))
  {
    var plugged := if battery.Some? then battery.value.plugged else true;
    if battery.Some? && battery.value.percent < Threshold(sensitivity) then false else plugged
  }

  /** An unplugged battery is insecure whatever its charge. */
  lemma UnpluggedIsInsecure(percent: real, sensitivity: real)
    ensures !IsSecure(Some(Battery(percent, false)), sensitivity)
  {
  }

  /** A plugged battery is insecure exactly when its charge is below the
      threshold. */
  lemma PluggedIsSecureIffCharged(percent: real, sensitivity: real)
    ensures IsSecure(Some(Battery(percent, true)), sensitivity) <==> percent >= Threshold(sensitivity)
  {
  }
}
