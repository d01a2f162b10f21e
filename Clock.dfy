/** The countdown label text: `MM:SS`, zero-padded, with a leading `-` once time has run out. */
module Clock {
  import opened Results
  import opened Text

  /** The `MM:SS` rendering of a non-negative number of seconds. */
  function MinSec(t: nat): (r: string)
    ensures |r| >= 5 && r[|r| - 3] == ':' && IsDigit(r[0])
  {
    var r := Pad2(t / 60) + ":" + Pad2(t % 60);
    assert r[0] == Pad2(t / 60)[0];
    r
  }

  /** The label text for `t` seconds left (`_display_time`): the magnitude `|t|` as `MM:SS`,
      preceded by `-` exactly when `t` is negative. */
  function Format(t: int): (r: string)
    ensures |r| >= 5 && r[|r| - 3] == ':'
    ensures (r[0] == '-') <==> t < 0
  {
    if t >= 0 then MinSec(t) else "-" + MinSec(-t)
  }

  /** Reads back an `MM:SS` text: digits, a colon, then exactly two digits below 60. */
  function ParseMinSec(s: string): Option<nat> {
    if |s| >= 4 && s[|s| - 3] == ':' && AllDigits(s[..|s| - 3]) && AllDigits(s[|s| - 2..])
       && DigitsValue(s[|s| - 2..]) < 60
    then Some(DigitsValue(s[..|s| - 3]) * 60 + DigitsValue(s[|s| - 2..]))
    else None
  }

  /** Reads back a label text, with an optional leading `-`. */
  function Parse(s: string): Option<int> {
    var negative := |s| > 0 && s[0] == '-';
    match ParseMinSec(if negative then s[1..] else s)
    case Some(u) => Some(if negative then 0 - u as int else u)
    case None => None
  }

  lemma MinSecRoundTrip(t: nat)
    ensures ParseMinSec(MinSec(t)) == Some(t)
  {
    var m, sec := Pad2(t / 60), Pad2(t % 60);
    Pad2Value(t / 60);
    Pad2Value(t % 60);
    var s := MinSec(t);
    assert s == m + ":" + sec;
    assert |sec| == 2;
    assert s[..|s| - 3] == m;
    assert s[|s| - 2..] == sec;
  }

  /** The label text names the remaining time unambiguously: parsing it gives back `t`. */
  lemma ParseFormat(t: int)
    ensures Parse(Format(t)) == Some(t)
  {
    if t >= 0 {
      ParseMinSecText(t);
    } else {
      ParseOverrunText(-t);
    }
  }

  lemma ParseMinSecText(t: nat)
    ensures Parse(MinSec(t)) == Some(t)
  {
    MinSecRoundTrip(t);
    ParseUnsigned(MinSec(t));
  }

  lemma ParseOverrunText(t: nat)
    ensures Parse("-" + MinSec(t)) == Some(0 - t)
  {
    MinSecRoundTrip(t);
    ParseSigned(MinSec(t));
  }

  lemma ParseUnsigned(s: string)
    requires s != [] && s[0] != '-' && ParseMinSec(s).Some?
    ensures Parse(s) == Some(ParseMinSec(s).value as int)
  {
  }

  lemma ParseSigned(s: string)
    requires ParseMinSec(s).Some?
    ensures Parse("-" + s) == Some(0 - ParseMinSec(s).value as int)
  {
    assert ("-" + s)[1..] == s;
  }

  /** Two different remaining times never show the same label text. */
  lemma FormatInjective(t1: int, t2: int)
    requires Format(t1) == Format(t2)
    ensures t1 == t2
  {
    ParseFormat(t1);
    ParseFormat(t2);
  }

  /** The seconds field is always two digits below 60, whatever the sign or size of `t`. */
  lemma SecondsField(t: int)
    ensures var r := Format(t); AllDigits(r[|r| - 2..]) && DigitsValue(r[|r| - 2..]) < 60
  {
    ParseFormat(t);
    var r := Format(t);
    if t < 0 {
      assert r[1..][|r[1..]| - 2..] == r[|r| - 2..];
    }
  }

  /** A negative time shows as `-` followed by the text of its magnitude. */
  lemma FormatNegative(t: int)
    requires t < 0
    ensures Format(t) == "-" + Format(-t)
  {
  }

  /** Worked examples: 125 s, 65 s overrun and nothing left. */
  lemma FormatExamples()
    ensures Format(125) == "02:05"
    ensures Format(-65) == "-01:05"
    ensures Format(0) == "00:00"
  {
    assert MinSec(125) == "02:05" by { Pad2Small(2); Pad2Small(5); }
    assert MinSec(65) == "01:05" by { Pad2Small(1); Pad2Small(5); }
    assert MinSec(0) == "00:00" by { Pad2Small(0); }
  }

  /** The largest allocation an entry can hold, 999 minutes 59 seconds, needs a third minute digit. */
  lemma FormatLargest()
    ensures Format(59999) == "999:59"
  {
    Pad2Small(59);
    Decimal999();
  }

  lemma Decimal999()
    ensures Pad2(999) == "999"
  {
    assert Decimal(9) == "9";
    assert Decimal(99) == "99";
  }
}
