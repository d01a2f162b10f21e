/** Roster entries: the speaker record, the input bounds it is checked against, and its list-box line. */
module Roster {
  import opened Text
  import opened Clock

  /** One roster entry. `notes` is carried along untouched. */
  datatype Speaker = Speaker(name: string, title: string, notes: string, minutes: int, seconds: int)

  /** Allocated minutes must lie in 0..999 and seconds in 0..59. */
  predicate ValidTime(minutes: int, seconds: int) {
    0 <= minutes < 1000 && 0 <= seconds < 60
  }

  /** What adding or updating an entry guarantees of it: a non-blank name and an allocation in range. */
  predicate ValidSpeaker(s: Speaker) {
    s.name != [] && ValidTime(s.minutes, s.seconds)
  }

  /** The speaker's allocated time in seconds; minutes and seconds are recovered from it. */
  function Allocation(s: Speaker): (secs: int)
    ensures ValidSpeaker(s) ==> 0 <= secs < 60000 && secs / 60 == s.minutes && secs % 60 == s.seconds
    ensures ValidSpeaker(s) ==> (secs == 0 <==> s.minutes == 0 && s.seconds == 0)
  {
    s.minutes * 60 + s.seconds
  }

  /** One line of the roster list box: it opens with the 1-based position in decimal and `. `
      (whose digits read back as `i + 1` by `DecimalValue`), and closes with the allocation in
      parentheses. */
  function RosterLine(i: nat, s: Speaker): (r: string)
    requires s.minutes >= 0 && s.seconds >= 0
    ensures |Decimal(i + 1)| + 2 <= |r| && r[..|Decimal(i + 1)| + 2] == Decimal(i + 1) + ". "
    ensures r[|r| - 1] == ')'
  {
    var head := Decimal(i + 1) + ". ";
    var line := head + s.name + " (" + Pad2(s.minutes) + ":" + Pad2(s.seconds) + ")";
    assert line[..|head|] == head;
    line
  }

  /** The allocation shown in a roster line is the very text the countdown label shows
      when that speaker is loaded. */
  lemma RosterLineShowsLabel(i: nat, s: Speaker)
    requires ValidSpeaker(s)
    ensures RosterLine(i, s) == Decimal(i + 1) + ". " + s.name + " (" + Format(Allocation(s)) + ")"
  {
    var a := Allocation(s);
    assert Format(a) == Pad2(s.minutes) + ":" + Pad2(s.seconds);
  }
}
