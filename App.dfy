/** The timer-and-roster state machine of the main window (`ChurchTimerApp`). Every command is a
    method; dialog boxes become `Fail` outcomes, and the one-second reschedule of the tick
    becomes the caller invoking `Tick` again. */
module App {
  import opened Results
  import opened Text
  import opened Roster
  import opened SharedState
  import opened Countdown

  /** The error dialogs the commands can raise. */
  datatype Error =
    | NoSpeaker       // start with nobody loaded and an empty roster
    | ZeroAllocation  // start with 00:00 left on a speaker allocated 00:00
    | NameRequired    // the speaker name is blank
    | NotANumber      // the minutes or seconds entry is not an integer
    | TimeOutOfRange  // minutes outside 0..999 or seconds outside 0..59
    | NoSelection     // remove with no roster entry selected
    | RosterEmpty     // next speaker on an empty roster

  /** The entry that add/update stores: the text fields stripped, the numbers as given. It is a
      valid entry exactly when the name is not blank and the time is in range. */
  function NewEntry(name: string, title: string, notes: string, minutes: int, seconds: int): (r: Speaker)
    ensures ValidSpeaker(r) <==> Strip(name) != [] && ValidTime(minutes, seconds)
    ensures Allocation(r) == minutes * 60 + seconds
  {
    Speaker(Strip(name), Strip(title), Strip(notes), minutes, seconds)
  }

  /** The input checks of add/update, in the order their dialogs appear. A request passes exactly
      when the name has a non-blank character and both numbers parsed and lie in range, and then
      the stored entry is a valid one, whatever its title and notes. */
  function CheckEntry(name: string, minutes: Option<int>, seconds: Option<int>): (r: Outcome<Error>)
    ensures r == Fail(NameRequired) <==> Strip(name) == []
    ensures r == Fail(NotANumber) <==> Strip(name) != [] && (minutes.None? || seconds.None?)
    ensures r == Fail(TimeOutOfRange) <==>
      Strip(name) != [] && minutes.Some? && seconds.Some? && !ValidTime(minutes.value, seconds.value)
    ensures r == Pass <==>
      Strip(name) != [] && minutes.Some? && seconds.Some? && ValidTime(minutes.value, seconds.value)
    ensures r == Pass ==>
      forall title, notes :: ValidSpeaker(NewEntry(name, title, notes, minutes.value, seconds.value))
  {
    if Strip(name) == [] then Fail(NameRequired)
    else if minutes.None? || seconds.None? then Fail(NotANumber)
    else if !ValidTime(minutes.value, seconds.value) then Fail(TimeOutOfRange)
    else Pass
  }

  /** Where loading entry `index` leaves the current index and the remaining time: that entry and
      its allocation when it exists, otherwise nobody and 00:00. */
  function LoadTarget(roster: seq<Speaker>, index: int): (r: (int, int))
    ensures r.0 == -1 || 0 <= r.0 < |roster|
    ensures 0 <= index < |roster| ==> r == (index, Allocation(roster[index]))
    ensures !(0 <= index < |roster|) ==> r == (-1, 0)
  {
    if 0 <= index < |roster| then (index, Allocation(roster[index])) else (-1, 0)
  }

  /** The index the next-speaker command moves to: one on, wrapping to the first entry. */
  function NextIndex(i: int, n: int): (r: int)
    requires n > 0 && -1 <= i < n
    ensures 0 <= r < n
    ensures r == (i + 1) % n
  {
    if i + 1 >= n then 0 else i + 1
  }

  /** `k` presses of next speaker. */
  function NextIter(i: int, n: int, k: nat): (r: int)
    requires n > 0 && -1 <= i < n
    ensures -1 <= r < n
    decreases k
  {
    if k == 0 then i else NextIter(NextIndex(i, n), n, k - 1)
  }

  /** Before the end of the roster, each press moves on by one. */
  lemma {:induction false} NextWithoutWrap(i: int, n: int, k: nat)
    requires n > 0 && -1 <= i && i + k < n
    ensures NextIter(i, n, k) == i + k
    decreases k
  {
    if k > 0 {
      NextWithoutWrap(i + 1, n, k - 1);
    }
  }

  lemma {:induction false} NextCompose(i: int, n: int, a: nat, b: nat)
    requires n > 0 && -1 <= i < n
    ensures NextIter(i, n, a + b) == NextIter(NextIter(i, n, a), n, b)
    decreases a
  {
    if a > 0 {
      NextCompose(NextIndex(i, n), n, a - 1, b);
    }
  }

  /** From nobody loaded, presses walk the roster in order from the first entry, and `n` presses
      from any entry of an `n`-entry roster come back to that entry. */
  lemma NextWalksRoster(i: int, n: int, k: nat)
    requires n > 0 && 0 <= i < n && k <= n
    ensures NextIter(-1, n, k) == k - 1
    ensures NextIter(i, n, n) == i
  {
    NextWithoutWrap(-1, n, k);
    var toLast := n - 1 - i;
    NextWithoutWrap(i, n, toLast);
    NextCompose(i, n, toLast, 1);
    NextCompose(i, n, toLast + 1, i);
    NextWithoutWrap(0, n, i);
  }

  /** The roster with entry `i` deleted: the entries before it keep their places, the ones
      after it move up by one. */
  function Without(roster: seq<Speaker>, i: nat): (r: seq<Speaker>)
    requires i < |roster|
    ensures |r| == |roster| - 1
    ensures forall k :: 0 <= k < |r| ==> r[k] == roster[if k < i then k else k + 1]
  {
    roster[..i] + roster[i + 1..]
  }

  /** Where the current index must point once entry `i` is deleted: nobody when the current entry
      itself goes, otherwise the same speaker at its new place. */
  function RepairedIndex(roster: seq<Speaker>, current: int, i: nat): (r: int)
    requires i < |roster| && -1 <= current < |roster|
    ensures r == -1 || 0 <= r < |roster| - 1
    ensures r == -1 <==> current == -1 || current == i
    ensures r != -1 ==> Without(roster, i)[r] == roster[current]
    ensures r != -1 ==> (if r < i then r else r + 1) == current
  {
    if current == i then -1 else if current > i then current - 1 else current
  }

  /** A line of the roster list box: its text and whether it is highlighted as current. */
  datatype RosterEntry = RosterEntry(text: string, highlighted: bool)

  /** The roster list box for `roster` with entry `current` as the current one: one line per entry,
      in order, and exactly the current entry highlighted. */
  function RosterView(roster: seq<Speaker>, current: int): (v: seq<RosterEntry>)
    requires forall k :: 0 <= k < |roster| ==> ValidSpeaker(roster[k])
    ensures |v| == |roster|
    ensures forall k :: 0 <= k < |roster| ==> ValidSpeaker(roster[k]) && v[k].text == RosterLine(k, roster[k])
    ensures forall k :: 0 <= k < |roster| ==> (v[k].highlighted <==> k == current)
  {
    seq(|roster|, k requires 0 <= k < |roster| && ValidSpeaker(roster[k]) =>
          RosterEntry(RosterLine(k, roster[k]), k == current))
  }

  /** Removing an entry as Timer.py:717-725 orders it: the list box is refreshed while the current
      index still has its old value, and only then is the index repaired. Deleting an entry before
      the current one leaves the current speaker's line unhighlighted, and deleting the current one
      highlights the speaker after it although nobody is current any more. */
  lemma StaleRefreshAfterRemove(roster: seq<Speaker>, current: int, i: nat)
    requires forall k :: 0 <= k < |roster| ==> ValidSpeaker(roster[k])
    requires i < |roster| && -1 <= current < |roster|
    ensures var v := RosterView(Without(roster, i), current);
      && (i < current ==> Without(roster, i)[current - 1] == roster[current] && !v[current - 1].highlighted)
      && (i == current < |roster| - 1 ==> v[current].highlighted && RepairedIndex(roster, current, i) == -1)
  {
  }

  /** Refreshing once the index is repaired highlights only the line of the speaker who was
      current, and that line is highlighted whenever that speaker is still on the roster. */
  lemma RefreshAfterRepair(roster: seq<Speaker>, current: int, i: nat)
    requires forall k :: 0 <= k < |roster| ==> ValidSpeaker(roster[k])
    requires i < |roster| && -1 <= current < |roster|
    ensures var rest := Without(roster, i); var v := RosterView(rest, RepairedIndex(roster, current, i));
      && (forall k :: 0 <= k < |v| && v[k].highlighted ==> current != i && rest[k] == roster[current])
      && (current != -1 && current != i ==>
            var c := RepairedIndex(roster, current, i); 0 <= c < |v| && v[c].highlighted)
  {
  }

  /** The main window's timer and roster state. `store` is the shared snapshot the poller reads. */
  class ChurchTimerApp {
    var timeLeft: int
    var running: bool
    var speakers: seq<Speaker>
    var current: int
    const store: Store

    /** `current` is -1 (nobody loaded) or the index of an entry. */
    predicate IndexValid()
      reads this
    {
      current == -1 || 0 <= current < |speakers|
    }

    /** Every entry passed the add/update checks. */
    ghost predicate SpeakersValid()
      reads this
    {
      forall i :: 0 <= i < |speakers| ==> ValidSpeaker(speakers[i])
    }

    /** The entry the timer is running for, if any. */
    function CurrentSpeaker(): (who: Option<Speaker>)
      reads this
      requires IndexValid()
      ensures who.Some? <==> current != -1
      ensures who.Some? ==> who.value == speakers[current]
    {
      if current != -1 && speakers != [] then Some(speakers[current]) else None
    }

    /** The object invariant: a valid roster and index, and a store that holds exactly the
        snapshot of the present time and current speaker. */
    ghost predicate Valid()
      reads this, store
    {
      IndexValid() && SpeakersValid() && store.snapshot == SnapshotOf(timeLeft, CurrentSpeaker())
    }

    ghost function State(): CountdownState
      reads this
    {
      CountdownState(timeLeft, running)
    }

    /** A fresh window: nobody loaded, 00:00, stopped, an empty roster, the initial snapshot. */
    constructor ()
      ensures Valid() && fresh(store)
      ensures timeLeft == 0 && !running && speakers == [] && current == -1
      ensures store.snapshot == InitialSnapshot
    {
      timeLeft, running, speakers, current := 0, false, [], -1;
      store := new Store();
      InitialIsIdle();
    }

    /** One firing of the countdown (`_update_timer`). While running it counts one second off,
        publishes, and returns the band shown on screen; the caller fires it again a second later.
        While stopped it changes nothing and returns None, which ends the chain of ticks. */
    method Tick() returns (shown: Option<Band>)
      requires Valid()
      modifies this, store
      ensures Valid()
      ensures State() == Step(old(State()))
      ensures speakers == old(speakers) && current == old(current)
      ensures old(running) ==> shown == Some(TickBand(timeLeft))
      ensures !old(running) ==> shown == None && unchanged(store)
    {
      if running {
        timeLeft := timeLeft - 1;
        shown := Some(TickBand(timeLeft));
        store.Publish(SnapshotOf(timeLeft, CurrentSpeaker()));
      } else {
        shown := None;
      }
    }

    /** Stop: only the running flag changes; nothing is republished. */
    method Stop()
      modifies this
      ensures State() == Halt(old(State()))
      ensures !running && timeLeft == old(timeLeft)
      ensures speakers == old(speakers) && current == old(current)
      ensures old(Valid()) ==> Valid()
    {
      running := false;
    }

    /** Load entry `index` (`_load_speaker_details`): that entry and its allocation when it exists,
        otherwise nobody and 00:00; then publish. The running flag is left as it was. */
    method Load(index: int)
      requires SpeakersValid()
      modifies this, store
      ensures Valid()
      ensures (current, timeLeft) == LoadTarget(speakers, index)
      ensures speakers == old(speakers) && running == old(running)
    {
      if 0 <= index < |speakers| {
        current := index;
        timeLeft := Allocation(speakers[index]);
      } else {
        current := -1;
        timeLeft := 0;
      }
      store.Publish(SnapshotOf(timeLeft, CurrentSpeaker()));
    }

    /** Reset: stop, then restore the current entry's allocation, or go to nobody and 00:00 when
        the current index names no entry; then publish. */
    method Reset()
      requires SpeakersValid() && current >= -1
      modifies this, store
      ensures Valid() && !running
      ensures (current, timeLeft) == LoadTarget(speakers, old(current))
      ensures speakers == old(speakers)
    {
      Stop();
      if current != -1 && speakers != [] && current < |speakers| {
        timeLeft := Allocation(speakers[current]);
      } else {
        current := -1;
        timeLeft := 0;
      }
      store.Publish(SnapshotOf(timeLeft, CurrentSpeaker()));
    }

    /** Start. Already running: nothing happens. Nobody loaded and an empty roster: NoSpeaker,
        nothing changes. Nobody loaded otherwise: the first entry is loaded. Then, with 00:00 left
        on an entry allocated 00:00: ZeroAllocation, still stopped. Otherwise the timer runs and
        the first tick happens at once. */
    method Start() returns (outcome: Outcome<Error>)
      requires Valid()
      modifies this, store
      ensures Valid() && speakers == old(speakers)
      ensures old(running) ==> outcome == Pass && unchanged(this) && unchanged(store)
      ensures !old(running) && old(current) == -1 && old(speakers) == [] ==>
        outcome == Fail(NoSpeaker) && unchanged(this) && unchanged(store)
      ensures !old(running) && (old(current) != -1 || old(speakers) != []) ==>
        var (c, t) := if old(current) == -1 then LoadTarget(speakers, 0) else (old(current), old(timeLeft));
        && 0 <= c < |speakers| && current == c
        && (if t == 0 && Allocation(speakers[c]) == 0
            then outcome == Fail(ZeroAllocation) && !running && timeLeft == t
            else outcome == Pass && running && timeLeft == t - 1)
    {
      if running {
        return Pass;
      }
      if current == -1 && speakers == [] {
        return Fail(NoSpeaker);
      } else if current == -1 {
        Load(0);
      }
      // Timer.py also refuses 00:00 with an empty roster; with somebody loaded the roster
      // cannot be empty, so that check never fires here.
      if timeLeft == 0 && current != -1 && speakers[current].minutes == 0 && speakers[current].seconds == 0 {
        return Fail(ZeroAllocation);
      }
      running := true;
      var shown := Tick();
      outcome := Pass;
    }

    /** Next speaker. Empty roster: RosterEmpty, nothing changes. Otherwise stop, move one entry
        on (from nobody to the first entry, from the last back to the first) and load it. */
    method Next() returns (outcome: Outcome<Error>)
      requires Valid()
      modifies this, store
      ensures Valid() && speakers == old(speakers)
      ensures old(speakers) == [] ==> outcome == Fail(RosterEmpty) && unchanged(this) && unchanged(store)
      ensures old(speakers) != [] ==>
        && outcome == Pass && !running
        && current == NextIndex(old(current), |speakers|)
        && timeLeft == Allocation(speakers[current])
    {
      if speakers == [] {
        return Fail(RosterEmpty);
      }
      Stop();
      current := current + 1;
      if current >= |speakers| {
        current := 0;
      }
      Load(current);
      outcome := Pass;
    }

    /** Remove the selected entry once the user confirms. No valid selection: NoSelection.
        Removing the current entry resets to nobody and 00:00, stopped. Removing an entry before
        it shifts the current index down so that it names the same speaker; removing one after it
        changes nothing else. */
    method Remove(selection: Option<nat>, confirmed: bool) returns (outcome: Outcome<Error>)
      requires Valid()
      modifies this, store
      ensures Valid()
      ensures (selection.None? || selection.value >= |old(speakers)|) ==>
        outcome == Fail(NoSelection) && unchanged(this) && unchanged(store)
      ensures selection.Some? && selection.value < |old(speakers)| && !confirmed ==>
        outcome == Pass && unchanged(this) && unchanged(store)
      ensures selection.Some? && selection.value < |old(speakers)| && confirmed ==>
        var i := selection.value;
        && outcome == Pass
        && speakers == Without(old(speakers), i)
        && (old(current) == i ==> current == -1 && timeLeft == 0 && !running)
        && (old(current) != i ==> timeLeft == old(timeLeft) && running == old(running))
        && (old(current) > i ==> current == old(current) - 1)
        && (old(current) < i ==> current == old(current))
        && (old(current) != i && old(current) != -1 ==> speakers[current] == old(speakers)[old(current)])
    {
      if selection.None? || selection.value >= |speakers| {
        return Fail(NoSelection);
      }
      var i := selection.value;
      if !confirmed {
        return Pass;
      }
      DeleteEntry(i);
      outcome := Pass;
    }

    /** The confirmed half of remove: delete entry `i` and repair the current index. */
    method DeleteEntry(i: nat)
      requires Valid() && i < |speakers|
      modifies this, store
      ensures Valid()
      ensures speakers == Without(old(speakers), i)
      ensures old(current) == i ==> current == -1 && timeLeft == 0 && !running
      ensures old(current) != i ==> timeLeft == old(timeLeft) && running == old(running)
      ensures old(current) > i ==> current == old(current) - 1
      ensures old(current) < i ==> current == old(current)
      ensures old(current) != i && old(current) != -1 ==> speakers[current] == old(speakers)[old(current)]
      ensures current == RepairedIndex(old(speakers), old(current), i)
    {
      ghost var before := speakers;
      ghost var who := CurrentSpeaker();
      speakers := Without(speakers, i);
      assert SpeakersValid();
      if current == i {
        current := -1;
        Reset();
      } else {
        if current > i {
          current := current - 1;
          assert speakers[current] == before[current + 1];
        } else if current != -1 {
          assert speakers[current] == before[current];
        }
        assert CurrentSpeaker() == who;
      }
    }

    /** Add or update an entry from the input fields. Any failed check leaves everything as it
        was. With a selection, only that entry is replaced, and it is reloaded if it is the
        current one. Without one, the entry is appended, and if nobody was loaded the first
        entry of the roster is loaded. The running flag is never touched. */
    method AddOrUpdate(selection: Option<nat>, name: string, title: string, notes: string,
                       minutes: Option<int>, seconds: Option<int>) returns (outcome: Outcome<Error>)
      requires Valid()
      requires selection.Some? ==> selection.value < |speakers|
      modifies this, store
      ensures Valid() && running == old(running)
      ensures outcome == CheckEntry(name, minutes, seconds)
      ensures outcome.Fail? ==> unchanged(this) && unchanged(store)
      ensures outcome == Pass ==>
        var entry := NewEntry(name, title, notes, minutes.value, seconds.value);
        match selection
        case Some(i) =>
          && speakers == old(speakers)[i := entry]
          && (old(current) == i ==> current == i && timeLeft == Allocation(entry))
          && (old(current) != i ==> current == old(current) && timeLeft == old(timeLeft))
        case None =>
          && speakers == old(speakers) + [entry]
          && (old(current) == -1 ==> current == 0 && timeLeft == Allocation(speakers[0]))
          && (old(current) != -1 ==> current == old(current) && timeLeft == old(timeLeft))
    {
      outcome := CheckEntry(name, minutes, seconds);
      if outcome.Fail? {
        return;
      }
      var entry := NewEntry(name, title, notes, minutes.value, seconds.value);
      match selection
      case Some(i) => ReplaceEntry(i, entry);
      case None => AppendEntry(entry);
    }

    /** The update half of add/update: overwrite entry `i`, reloading it if it is current. */
    method ReplaceEntry(i: nat, entry: Speaker)
      requires Valid() && ValidSpeaker(entry) && i < |speakers|
      modifies this, store
      ensures Valid() && running == old(running)
      ensures speakers == old(speakers)[i := entry]
      ensures old(current) == i ==> current == i && timeLeft == Allocation(entry)
      ensures old(current) != i ==> current == old(current) && timeLeft == old(timeLeft) && unchanged(store)
    {
      speakers := speakers[i := entry];
      if current == i {
        Load(i);
      }
    }

    /** The add half of add/update: append the entry, loading the first entry if nobody was. */
    method AppendEntry(entry: Speaker)
      requires Valid() && ValidSpeaker(entry)
      modifies this, store
      ensures Valid() && running == old(running)
      ensures speakers == old(speakers) + [entry]
      ensures old(current) == -1 ==> current == 0 && timeLeft == Allocation(speakers[0])
      ensures old(current) != -1 ==> current == old(current) && timeLeft == old(timeLeft) && unchanged(store)
    {
      speakers := speakers + [entry];
      if current == -1 {
        Load(0);
      }
    }

    /** Selecting a roster entry loads it, but only while stopped and only if it is not already
        the current one; an empty or stale selection does nothing. */
    method Select(selection: Option<nat>)
      requires Valid()
      modifies this, store
      ensures Valid() && speakers == old(speakers) && running == old(running)
      ensures selection.Some? && selection.value < |speakers| && !old(running) && old(current) != selection.value ==>
        current == selection.value && timeLeft == Allocation(speakers[current])
      ensures !(selection.Some? && selection.value < |speakers| && !old(running) && old(current) != selection.value) ==>
        unchanged(this) && unchanged(store)
    {
      if selection.Some? && selection.value < |speakers| {
        var i := selection.value;
        if !running && current != i {
          Load(i);
        }
      }
    }

    /** The roster list box (`_update_roster_display`), built line by line. */
    method RosterDisplay() returns (lines: seq<RosterEntry>)
      requires SpeakersValid()
      ensures lines == RosterView(speakers, current)
    {
      lines := [];
      for i := 0 to |speakers|
        invariant |lines| == i
        invariant forall j :: 0 <= j < i ==> lines[j] == RosterEntry(RosterLine(j, speakers[j]), j == current)
      {
        lines := lines + [RosterEntry(RosterLine(i, speakers[i]), i == current)];
      }
    }
  }

  /** A session as the window drives it: add a speaker with 01:05 to an empty roster, which
      loads them, then start, which counts the first second at once. */
  method SessionStart() returns (app: ChurchTimerApp)
    ensures app.Valid() && app.running && app.timeLeft == 64 && app.current == 0
  {
    app := new ChurchTimerApp();
    var added := app.AddOrUpdate(None, "Pastor", "Sermon", "", Some(1), Some(5));
    assert !IsSpace("Pastor"[0]);
    assert added == Pass && app.current == 0 && app.timeLeft == 65;
    var started := app.Start();
    assert started == Pass;
  }

  /** The session continued: four more seconds reach the warning band, two stops in a row,
      a tick that no longer counts, and a reset back to the allocation. */
  method SessionStop(app: ChurchTimerApp)
    requires app.Valid() && app.running && app.timeLeft == 64 && app.current == 0
    requires Allocation(app.speakers[0]) == 65
    modifies app, app.store
    ensures app.Valid() && !app.running && app.timeLeft == 65 && app.current == 0
  {
    var shown := app.Tick();
    shown := app.Tick();
    shown := app.Tick();
    shown := app.Tick();
    assert app.timeLeft == 60 && shown == Some(Warning);
    assert app.store.snapshot.isWarning && app.store.snapshot.timeText == Clock.Format(60);
    app.Stop();
    app.Stop();
    shown := app.Tick();
    assert shown == None && app.timeLeft == 60 && !app.running;
    app.Reset();
    assert app.timeLeft == 65 && app.current == 0;
  }
}
