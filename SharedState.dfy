/** The published timer snapshot, the two classifications of the remaining time,
    and the store that the HTTP poller reads. */
module SharedState {
  import opened Results
  import opened Clock
  import opened Roster

  /** Seconds left at or below which the timer warns (fixed at one minute). */
  const WarningThreshold := 60

  /** Text published in place of a speaker's name and title when no speaker is current. */
  const NoSpeakerText := "N/A"

  /** The published warning flag: some time is left, but no more than the threshold. */
  predicate IsWarning(t: int) {
    0 < t <= WarningThreshold
  }

  /** The published past-zero flag: the speaker has overrun. */
  predicate IsPastZero(t: int)
    ensures IsPastZero(t) <==> Format(t)[0] == '-'
  {
    t < 0
  }

  /** The on-screen classification that a tick shows: TIME'S UP!, ROUND UP! or nothing. */
  datatype Band = Normal | Warning | PastZero

  function TickBand(t: int): (b: Band)
    ensures (b == PastZero) <==> IsPastZero(t)
    ensures (b == Warning) <==> (IsWarning(t) || t == 0)
  {
    if t < 0 then PastZero
    else if 0 <= t <= WarningThreshold then Warning
    else Normal
  }

  /** The warning message that goes with each band: none in the normal band, and an exclamation
      otherwise. */
  function WarningText(b: Band): (r: string)
    ensures r == [] <==> b == Normal
    ensures r != [] ==> r[|r| - 1] == '!'
  {
    match b
    case PastZero => "TIME'S UP!"
    case Warning => "ROUND UP!"
    case Normal => ""
  }

  /** The normal band is exactly the time with no flag raised other than zero, the two flags
      never clash, and at zero the screen says ROUND UP! although neither flag is raised. */
  lemma BandsAndFlags(t: int)
    ensures (TickBand(t) == Normal) <==> (!IsWarning(t) && !IsPastZero(t) && t != 0)
    ensures !(IsWarning(t) && IsPastZero(t))
    ensures t == 0 ==> !IsWarning(t) && !IsPastZero(t) && WarningText(TickBand(t)) == "ROUND UP!"
  {
  }

  /** The five-field record served to pollers and pushed to the speaker display. */
  datatype TimerSnapshot = TimerSnapshot(
    timeText: string,
    speakerName: string,
    speakerSegment: string,
    isWarning: bool,
    isPastZero: bool)

  /** What the store holds before anything is published. */
  const InitialSnapshot := TimerSnapshot("00:00", NoSpeakerText, NoSpeakerText, false, false)

  /** The snapshot for `t` seconds left with `speaker` current (`_update_shared_timer_state`):
      the flags never clash, the text starts with `-` exactly when the past-zero flag is set,
      and the speaker fields come from the current entry or read N/A. */
  function SnapshotOf(t: int, speaker: Option<Speaker>): (s: TimerSnapshot)
    ensures !(s.isWarning && s.isPastZero)
    ensures |s.timeText| >= 5 && (s.isPastZero <==> s.timeText[0] == '-')
    ensures speaker.Some? ==> s.speakerName == speaker.value.name && s.speakerSegment == speaker.value.title
    ensures speaker.None? ==> s.speakerName == NoSpeakerText && s.speakerSegment == NoSpeakerText
  {
    var (name, segment) :=
      match speaker
      case Some(sp) => (sp.name, sp.title)
      case None => (NoSpeakerText, NoSpeakerText);
    TimerSnapshot(Format(t), name, segment, IsWarning(t), IsPastZero(t))
  }

  /** A snapshot is self-consistent: its text determines the time it was taken at,
      and both flags are the classifications of that time. */
  lemma SnapshotSelfConsistent(t: int, speaker: Option<Speaker>)
    ensures var s := SnapshotOf(t, speaker);
      Parse(s.timeText) == Some(t) && s.isWarning == IsWarning(t) && s.isPastZero == IsPastZero(t)
  {
    ParseFormat(t);
  }

  /** The initial contents of the store are the snapshot of an idle timer. */
  lemma InitialIsIdle()
    ensures InitialSnapshot == SnapshotOf(0, None)
  {
    FormatExamples();
  }

  /** The shared store: one snapshot, replaced whole on publish and copied out whole on read. */
  class Store {
    var snapshot: TimerSnapshot

    constructor ()
      ensures snapshot == InitialSnapshot
    {
      snapshot := InitialSnapshot;
    }

    method Publish(s: TimerSnapshot)
      modifies this
      ensures snapshot == s
    {
      snapshot := s;
    }

    method Read() returns (s: TimerSnapshot)
      ensures s == snapshot
    {
      s := snapshot;
    }
  }
}
