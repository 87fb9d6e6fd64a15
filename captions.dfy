/**
 * leo/xml2srt.py: turns the timed-text cues of a video into SubRip (SRT)
 * text. The cues arrive already parsed (start, dur, text); times are exact
 * reals rather than IEEE doubles.
 */
module Captions {
  import opened Options
  import opened Decimal

  /** One <text start=".." dur=".."> element of the timed-text document. */
  datatype Cue = Cue(start: real, dur: real, text: string)

  /** Whole hours, minutes and seconds of a time, and its fraction of a second. */
  datatype Clock = Clock(hours: int, minutes: int, seconds: int, frac: real)

  /** The fields an SRT time "HH:MM:SS,mmm" spells. */
  datatype SrtTime = SrtTime(hours: int, minutes: nat, seconds: nat, millis: nat)

  /**
   * The three divmod steps of `_format_time`: Python's float divmod floors,
   * so minutes and seconds are always in 0..59 and the fraction in [0, 1),
   * and the parts add back up to the input.
   */
  function Decompose(t: real): (c: Clock)
    ensures c.hours as real * 3600.0 + c.minutes as real * 60.0 + c.seconds as real + c.frac == t
    ensures 0 <= c.minutes < 60 && 0 <= c.seconds < 60 && 0.0 <= c.frac < 1.0
    ensures t >= 0.0 ==> c.hours >= 0
  {
    var whole := t.Floor;
    WholeParts(whole);
    Clock(whole / 3600, whole % 3600 / 60, whole % 3600 % 60, t - whole as real)
  }

  /** The two integer divmods by 3600 and 60 add back up. */
  lemma WholeParts(w: int)
    ensures (w / 3600) * 3600 + (w % 3600 / 60) * 60 + w % 3600 % 60 == w
    ensures 0 <= w % 3600 / 60 < 60 && 0 <= w % 3600 % 60 < 60
    ensures w >= 0 ==> w / 3600 >= 0
  {
    var r := w % 3600;
    assert w == (w / 3600) * 3600 + r;
    assert r == (r / 60) * 60 + r % 60;
  }

  /** Nothing else satisfies Decompose's contract: the decomposition is unique. */
  lemma DecomposeUnique(t: real, c: Clock)
    requires c.hours as real * 3600.0 + c.minutes as real * 60.0 + c.seconds as real + c.frac == t
    requires 0 <= c.minutes < 60 && 0 <= c.seconds < 60 && 0.0 <= c.frac < 1.0
    ensures c == Decompose(t)
  {
    var below := c.minutes as real * 60.0 + c.seconds as real + c.frac;
    assert 0.0 <= below < 3600.0;
    assert (t / 3600.0).Floor == c.hours;
    var r1 := t - c.hours as real * 3600.0;
    assert r1 == below;
    assert (r1 / 60.0).Floor == c.minutes;
    var r2 := r1 - c.minutes as real * 60.0;
    assert r2.Floor == c.seconds;
  }

  /**
   * Python 2's round() to an integer: halves go away from zero. Float error
   * and the tie rule of Python 3 are outside the model.
   */
  function Round(x: real): (n: int)
    ensures -0.5 <= x - n as real <= 0.5
  {
    if x >= 0.0 then (x + 0.5).Floor else -((-x + 0.5).Floor)
  }

  /**
   * `int(round(millisecs * 1000))` of a fraction of a second. It is not
   * carried into the seconds, so 1000 is a possible value.
   */
  function Millis(frac: real): (ms: nat)
    requires 0.0 <= frac < 1.0
    ensures ms <= 1000
    ensures -0.5 <= frac * 1000.0 - ms as real <= 0.5
    ensures ms == 1000 <==> frac * 1000.0 >= 999.5
  {
    Round(frac * 1000.0)
  }

  /** '{:0Nd}'.format(n): zero-padded to N characters, the '-' counted in them. */
  function PadInt(n: int, width: nat): string {
    if n < 0 then "-" + ZeroPad(-n, if width >= 1 then width - 1 else 0) else ZeroPad(n, width)
  }

  /** `_format_time`: "HH:MM:SS,mmm", hours at least two digits, millis at least three. */
  function FormatTime(t: real): string {
    var c := Decompose(t);
    PadInt(c.hours, 2) + (":" + ZeroPad(c.minutes, 2) + ":" + ZeroPad(c.seconds, 2)
      + "," + ZeroPad(Millis(c.frac), 3))
  }

  /** The index of the first c in s, if any. */
  function IndexOf(s: string, c: char): (r: Option<nat>)
    ensures r.Some? ==> r.value < |s| && s[r.value] == c
  {
    if s == [] then None
    else if s[0] == c then Some(0)
    else match IndexOf(s[1..], c)
      case Some(i) => Some(i + 1)
      case None => None
  }

  /**
   * Reads an SRT time back: digits, ':', two digits, ':', two digits, ',',
   * digits. The reference against which FormatTime is checked.
   */
  function ReadTime(s: string): Option<SrtTime> {
    match IndexOf(s, ':')
    case None => None
    case Some(i) => ReadFieldsAt(s, i)
  }

  /** The fields of s when its hours field ends at index i. */
  function ReadFieldsAt(s: string, i: nat): Option<SrtTime> {
    if i + 7 <= |s| && s[i + 3] == ':' && s[i + 6] == ','
       && AllDigits(s[..i]) && AllDigits(s[i + 1..i + 3]) && AllDigits(s[i + 4..i + 6])
       && AllDigits(s[i + 7..])
    then Some(SrtTime(ValueOf(s[..i]), ValueOf(s[i + 1..i + 3]), ValueOf(s[i + 4..i + 6]),
                      ValueOf(s[i + 7..])))
    else None
  }

  lemma NoColonInDigits(s: string)
    requires AllDigits(s)
    ensures IndexOf(s, ':') == None
  {
    NotInDigits(s, ':');
    IndexOfAbsent(s, ':');
  }

  lemma {:induction false} IndexOfAbsent(s: string, c: char)
    ensures IndexOf(s, c) == None <==> c !in s
  {
    if s != [] {
      IndexOfAbsent(s[1..], c);
      assert s == [s[0]] + s[1..];
    }
  }

  /** ReadTime takes apart the four digit fields it expects. */
  lemma ReadFields(s: string, hh: string, mm: string, ss: string, ms: string)
    requires AllDigits(hh) && AllDigits(mm) && AllDigits(ss) && AllDigits(ms)
    requires |mm| == 2 && |ss| == 2
    requires s == hh + (":" + mm + ":" + ss + "," + ms)
    ensures ReadTime(s) == Some(SrtTime(ValueOf(hh), ValueOf(mm), ValueOf(ss), ValueOf(ms)))
  {
    var tail := ":" + mm + ":" + ss + "," + ms;
    TailFields(mm, ss, ms);
    ReadAfterHours(s, hh, tail, mm, ss, ms);
  }

  lemma TailFields(mm: string, ss: string, ms: string)
    requires |mm| == 2 && |ss| == 2
    ensures var tail := ":" + mm + ":" + ss + "," + ms;
      && |tail| == 7 + |ms| && tail[0] == ':' && tail[1..3] == mm && tail[3] == ':'
      && tail[4..6] == ss && tail[6] == ',' && tail[7..] == ms
  {
  }

  lemma ReadAfterHours(s: string, hh: string, tail: string, mm: string, ss: string, ms: string)
    requires AllDigits(hh) && AllDigits(mm) && AllDigits(ss) && AllDigits(ms)
    requires |mm| == 2 && |ss| == 2 && |tail| == 7 + |ms|
    requires tail[0] == ':' && tail[1..3] == mm && tail[3] == ':' && tail[4..6] == ss
    requires tail[6] == ',' && tail[7..] == ms
    requires s == hh + tail
    ensures ReadTime(s) == Some(SrtTime(ValueOf(hh), ValueOf(mm), ValueOf(ss), ValueOf(ms)))
  {
    NoColonInDigits(hh);
    IndexOfAfterPrefix(hh, tail, ':');
    SlicesAfterPrefix(hh, tail, mm, ss, ms);
    ReadAt(s, |hh|, hh, mm, ss, ms);
  }

  lemma SlicesAfterPrefix(hh: string, tail: string, mm: string, ss: string, ms: string)
    requires |mm| == 2 && |ss| == 2 && |tail| == 7 + |ms|
    requires tail[1..3] == mm && tail[3] == ':' && tail[4..6] == ss && tail[6] == ',' && tail[7..] == ms
    ensures var s, i := hh + tail, |hh|;
      && s[..i] == hh && s[i + 1..i + 3] == mm && s[i + 3] == ':' && s[i + 4..i + 6] == ss
      && s[i + 6] == ',' && s[i + 7..] == ms
  {
    var s, i := hh + tail, |hh|;
    assert s[..i] == hh;
    assert s[i + 1..i + 3] == mm && s[i + 4..i + 6] == ss && s[i + 7..] == ms;
  }

  lemma ReadAt(s: string, i: nat, hh: string, mm: string, ss: string, ms: string)
    requires i + 7 <= |s|
    requires AllDigits(hh) && AllDigits(mm) && AllDigits(ss) && AllDigits(ms)
    requires s[..i] == hh && s[i + 1..i + 3] == mm && s[i + 3] == ':' && s[i + 4..i + 6] == ss
    requires s[i + 6] == ',' && s[i + 7..] == ms
    requires IndexOf(s, ':') == Some(i)
    ensures ReadTime(s) == Some(SrtTime(ValueOf(hh), ValueOf(mm), ValueOf(ss), ValueOf(ms)))
  {
    ReadTimeAt(s, i);
    FieldsAt(s, i, hh, mm, ss, ms);
  }

  lemma ReadTimeAt(s: string, i: nat)
    requires IndexOf(s, ':') == Some(i)
    ensures ReadTime(s) == ReadFieldsAt(s, i)
  {
  }

  lemma FieldsAt(s: string, i: nat, hh: string, mm: string, ss: string, ms: string)
    requires i + 7 <= |s|
    requires AllDigits(hh) && AllDigits(mm) && AllDigits(ss) && AllDigits(ms)
    requires s[..i] == hh && s[i + 1..i + 3] == mm && s[i + 3] == ':' && s[i + 4..i + 6] == ss
    requires s[i + 6] == ',' && s[i + 7..] == ms
    ensures ReadFieldsAt(s, i) == Some(SrtTime(ValueOf(hh), ValueOf(mm), ValueOf(ss), ValueOf(ms)))
  {
  }

  lemma {:induction false} IndexOfAfterPrefix(p: string, rest: string, c: char)
    requires IndexOf(p, c) == None && rest != [] && rest[0] == c
    ensures IndexOf(p + rest, c) == Some(|p|)
  {
    if p != [] {
      assert (p + rest)[1..] == p[1..] + rest;
      IndexOfAfterPrefix(p[1..], rest, c);
    }
  }

  /** The fields written for a time t >= 0 are exactly its decomposition, with the millis rounded. */
  lemma FormatTimeFields(t: real)
    requires t >= 0.0
    ensures var c := Decompose(t);
      ReadTime(FormatTime(t)) == Some(SrtTime(c.hours, c.minutes, c.seconds, Millis(c.frac)))
  {
    var c := Decompose(t);
    var hh, mm, ss, ms := ZeroPad(c.hours, 2), ZeroPad(c.minutes, 2), ZeroPad(c.seconds, 2), ZeroPad(Millis(c.frac), 3);
    assert Pow10(2) == 100;
    ZeroPadSpell(c.hours, 2); ZeroPadSpell(c.minutes, 2); ZeroPadSpell(c.seconds, 2);
    ZeroPadSpell(Millis(c.frac), 3);
    assert FormatTime(t) == hh + (":" + mm + ":" + ss + "," + ms);
    ReadFields(FormatTime(t), hh, mm, ss, ms);
  }

  /**
   * For a time t >= 0, the text `_format_time` writes reads back as whole
   * hours, minutes and seconds that add up to the whole seconds of t and a
   * millisecond field within half a millisecond of t's fraction; minutes and
   * seconds are below 60 and the milliseconds at most the uncarried 1000.
   */
  lemma FormatTimeReadsBack(t: real)
    requires t >= 0.0
    ensures var r := ReadTime(FormatTime(t));
      && r.Some?
      && var f := r.value;
      && f.hours >= 0 && f.minutes < 60 && f.seconds < 60 && f.millis <= 1000
      && f.hours as real * 3600.0 + f.minutes as real * 60.0 + f.seconds as real <= t
      && t < f.hours as real * 3600.0 + f.minutes as real * 60.0 + f.seconds as real + 1.0
      && var frac := t - (f.hours as real * 3600.0 + f.minutes as real * 60.0 + f.seconds as real);
      && -0.5 <= frac * 1000.0 - f.millis as real <= 0.5
  {
    FormatTimeFields(t);
  }

  /**
   * The layout of an SRT time with its first ':' at index i: a digit
   * field, ':', two digits, ':', two digits, ',' and a digit field of at
   * least three characters.
   */
  predicate TimeLayoutAt(s: string, i: nat) {
    && IndexOf(s, ':') == Some(i) && i + 10 <= |s|
    && s[i + 3] == ':' && s[i + 6] == ','
    && AllDigits(s[..i]) && AllDigits(s[i + 1..i + 3]) && AllDigits(s[i + 4..i + 6]) && AllDigits(s[i + 7..])
  }

  /**
   * A written time t >= 0 has the SRT layout, with an hours field of at
   * least two digits (exactly two below 100 hours) and a millisecond field
   * of exactly three digits unless the uncarried 1000 is written.
   */
  lemma FormatTimeShape(t: real)
    requires t >= 0.0
    ensures var s, c := FormatTime(t), Decompose(t);
      && IndexOf(s, ':').Some?
      && var i := IndexOf(s, ':').value;
      && TimeLayoutAt(s, i)
      && i >= 2 && (c.hours < 100 ==> i == 2)
      && (Millis(c.frac) < 1000 ==> |s| == i + 10)
  {
    var c := Decompose(t);
    var ms := Millis(c.frac);
    assert Pow10(2) == 100 && Pow10(3) == 1000;
    ZeroPadSpell(c.hours, 2); ZeroPadSpell(c.minutes, 2); ZeroPadSpell(c.seconds, 2);
    ZeroPadSpell(ms, 3);
    var hh, mm, ss, mss := ZeroPad(c.hours, 2), ZeroPad(c.minutes, 2), ZeroPad(c.seconds, 2), ZeroPad(ms, 3);
    assert FormatTime(t) == hh + (":" + mm + ":" + ss + "," + mss);
    TimeLayout(hh, mm, ss, mss);
  }

  /** Four digit fields joined as "hh:mm:ss,ms" have the SRT layout, the first ':' right after hh. */
  lemma TimeLayout(hh: string, mm: string, ss: string, ms: string)
    requires AllDigits(hh) && AllDigits(mm) && AllDigits(ss) && AllDigits(ms)
    requires |mm| == 2 && |ss| == 2 && |ms| >= 3
    ensures var s := hh + (":" + mm + ":" + ss + "," + ms);
      TimeLayoutAt(s, |hh|) && |s| == |hh| + 7 + |ms|
  {
    var tail := ":" + mm + ":" + ss + "," + ms;
    TailFields(mm, ss, ms);
    NoColonInDigits(hh);
    IndexOfAfterPrefix(hh, tail, ':');
    SlicesAfterPrefix(hh, tail, mm, ss, ms);
  }

  /** `'{:02d}:{:02d}:{:02d},{:03d}'` on whole and half seconds: 1.0 s and 3.5 s. */
  lemma SampleTimes()
    ensures ReadTime(FormatTime(1.0)) == Some(SrtTime(0, 0, 1, 0))
    ensures ReadTime(FormatTime(3.5)) == Some(SrtTime(0, 0, 3, 500))
  {
    FormatTimeFields(1.0);
    DecomposeUnique(1.0, Clock(0, 0, 1, 0.0));
    FormatTimeFields(3.5);
    DecomposeUnique(3.5, Clock(0, 0, 3, 0.5));
  }

  /** The text written for 1.0 s. */
  lemma SampleTextWhole()
    ensures FormatTime(1.0) == "00:00:01,000"
  {
    DecomposeUnique(1.0, Clock(0, 0, 1, 0.0));
    assert Millis(0.0) == 0;
    assert ZeroPad(0, 2) == "00" && ZeroPad(1, 2) == "01" && ZeroPad(0, 3) == "000";
  }

  /** The text written for 3.5 s. */
  lemma SampleTextHalf()
    ensures FormatTime(3.5) == "00:00:03,500"
  {
    DecomposeUnique(3.5, Clock(0, 0, 3, 0.5));
    assert Millis(0.5) == 500;
    assert Digits(500) == "500";
    assert ZeroPad(0, 2) == "00" && ZeroPad(3, 2) == "03" && ZeroPad(500, 3) == "500";
  }

  /** The seconds are whole, not rounded: 59.6 s is written as 59 s and 600 ms. */
  lemma SecondsNotRounded()
    ensures ReadTime(FormatTime(59.6)) == Some(SrtTime(0, 0, 59, 600))
  {
    FormatTimeFields(59.6);
    DecomposeUnique(59.6, Clock(0, 0, 59, 0.6));
  }

  /** The millisecond field is never carried: 59.9996 s is written as 59 s and 1000 ms. */
  lemma MillisecondsNotCarried()
    ensures ReadTime(FormatTime(59.9996)) == Some(SrtTime(0, 0, 59, 1000))
  {
    FormatTimeFields(59.9996);
    DecomposeUnique(59.9996, Clock(0, 0, 59, 0.9996));
  }

  /** The separator between the two times of a cue. */
  const Arrow := " --> "

  /** When a cue ends: its start plus its duration. */
  function End(c: Cue): real {
    c.start + c.dur
  }

  /**
   * The four lines `convert` appends for the cue at zero-based index i, its
   * times written by `fmt`. The structure of the SRT text does not depend on
   * how a time is written, so it is stated for any `fmt`; `convert` uses
   * FormatTime.
   */
  function CueLines(i: nat, c: Cue, fmt: real -> string): seq<string> {
    [Digits(i + 1), fmt(c.start) + Arrow + fmt(End(c)), c.text, ""]
  }

  /** The list `lines` after the cues have all been enumerated. */
  function SrtLines(cues: seq<Cue>, fmt: real -> string): (ls: seq<string>)
    ensures |ls| == 4 * |cues|
  {
    if cues == [] then []
    else
      var n := |cues| - 1;
      SrtLines(cues[..n], fmt) + CueLines(n, cues[n], fmt)
  }

  /**
   * Block k of the lines belongs to cue k: its number counting from 1,
   * "start --> end", its text and an empty line.
   */
  lemma {:induction false} SrtLinesAt(cues: seq<Cue>, fmt: real -> string, k: nat)
    requires k < |cues|
    ensures var ls := SrtLines(cues, fmt);
      && ls[4 * k] == Digits(k + 1) && ls[4 * k + 1] == fmt(cues[k].start) + Arrow + fmt(End(cues[k]))
      && ls[4 * k + 2] == cues[k].text && ls[4 * k + 3] == ""
  {
    var n := |cues| - 1;
    var pre, block := SrtLines(cues[..n], fmt), CueLines(n, cues[n], fmt);
    assert SrtLines(cues, fmt) == pre + block;
    if k < n {
      SrtLinesAt(cues[..n], fmt, k);
      assert cues[..n][k] == cues[k];
    } else {
      assert k == n && 4 * k == |pre|;
      var ls := pre + block;
      assert ls[4 * k] == block[0] && ls[4 * k + 1] == block[1];
      assert ls[4 * k + 2] == block[2] && ls[4 * k + 3] == block[3];
    }
  }

  lemma AppendFour<T>(s: seq<T>, a: T, b: T, c: T, d: T)
    ensures s + [a] + [b] + [c] + [d] == s + [a, b, c, d]
  {
  }

  lemma SrtLinesSnoc(cues: seq<Cue>, fmt: real -> string, i: nat)
    requires i < |cues|
    ensures SrtLines(cues[..i + 1], fmt) == SrtLines(cues[..i], fmt) + CueLines(i, cues[i], fmt)
  {
    assert cues[..i + 1][..i] == cues[..i];
  }

  lemma CueLinesFormatted(i: nat, c: Cue, startTime: real, endTime: real)
    requires startTime == c.start && endTime == End(c)
    ensures CueLines(i, c, FormatTime)
      == [Digits(i + 1), FormatTime(startTime) + Arrow + FormatTime(endTime), c.text, ""]
  {
  }

  /** `convert` over the cues of an already parsed timed-text document. */
  method Convert(cues: seq<Cue>) returns (srt: string)
    ensures srt == Join(SrtLines(cues, FormatTime))
  {
    var lines: seq<string> := [];
    var i := 0;
    while i < |cues|
      invariant 0 <= i <= |cues|
      invariant lines == SrtLines(cues[..i], FormatTime)
    {
      var c := cues[i];
      var startTime := c.start;
      var endTime := startTime + c.dur;
      ghost var before := lines;
      lines := lines + [Digits(i + 1)];
      lines := lines + [FormatTime(startTime) + Arrow + FormatTime(endTime)];
      lines := lines + [c.text];
      lines := lines + [""];
      AppendFour(before, Digits(i + 1), FormatTime(startTime) + Arrow + FormatTime(endTime), c.text, "");
      CueLinesFormatted(i, c, startTime, endTime);
      SrtLinesSnoc(cues, FormatTime, i);
      i := i + 1;
    }
    assert cues[..i] == cues;
    srt := Join(lines);
  }

  /** '\n'.join(ls). */
  function Join(ls: seq<string>): string {
    if ls == [] then ""
    else if |ls| == 1 then ls[0]
    else ls[0] + "\n" + Join(ls[1..])
  }

  /** s.split('\n'): the reference against which Join is checked. */
  function SplitLines(s: string): (ls: seq<string>)
    ensures |ls| >= 1
    decreases |s|
  {
    match IndexOf(s, '\n')
    case None => [s]
    case Some(i) => [s[..i]] + SplitLines(s[i + 1..])
  }

  /** No cue, no text: '\n'.join([]) is empty. */
  lemma ConvertEmpty(fmt: real -> string)
    ensures Join(SrtLines([], fmt)) == ""
  {
  }

  lemma {:induction false} JoinEndsWithNewline(ls: seq<string>)
    requires |ls| >= 2 && ls[|ls| - 1] == ""
    ensures var j := Join(ls); |j| >= 1 && j[|j| - 1] == '\n'
  {
    if |ls| > 2 {
      JoinEndsWithNewline(ls[1..]);
    }
  }

  /** With at least one cue the text ends with the newline before the last, empty line. */
  lemma ConvertEndsWithNewline(cues: seq<Cue>, fmt: real -> string)
    requires |cues| >= 1
    ensures var srt := Join(SrtLines(cues, fmt)); |srt| >= 1 && srt[|srt| - 1] == '\n'
  {
    SrtLinesAt(cues, fmt, |cues| - 1);
    JoinEndsWithNewline(SrtLines(cues, fmt));
  }

  /** Splitting at the first newline: a line without one comes off whole. */
  lemma SplitAfterLine(p: string, rest: string)
    requires '\n' !in p
    ensures SplitLines(p + "\n" + rest) == [p] + SplitLines(rest)
  {
    var s := p + "\n" + rest;
    assert s == p + ("\n" + rest);
    IndexOfAbsent(p, '\n');
    IndexOfAfterPrefix(p, "\n" + rest, '\n');
    assert s[..|p|] == p;
    assert s[|p| + 1..] == rest;
    assert SplitLines(s) == [s[..|p|]] + SplitLines(s[|p| + 1..]);
  }

  /** Splitting a join of lines without newlines gives the lines back. */
  lemma {:induction false} SplitJoin(ls: seq<string>)
    requires |ls| >= 1
    requires forall k :: 0 <= k < |ls| ==> '\n' !in ls[k]
    ensures SplitLines(Join(ls)) == ls
  {
    if |ls| == 1 {
      IndexOfAbsent(ls[0], '\n');
    } else {
      SplitAfterLine(ls[0], Join(ls[1..]));
      SplitJoin(ls[1..]);
      assert ls == [ls[0]] + ls[1..];
    }
  }

  lemma DigitsOneLine(s: string)
    requires AllDigits(s)
    ensures '\n' !in s
  {
    NotInDigits(s, '\n');
  }

  /** Digits, '-', ':' and ',' only: a written time holds no newline. */
  lemma FormatTimeOneLine(t: real)
    ensures '\n' !in FormatTime(t)
  {
    var c := Decompose(t);
    var h := PadInt(c.hours, 2);
    var mm, ss, ms := ZeroPad(c.minutes, 2), ZeroPad(c.seconds, 2), ZeroPad(Millis(c.frac), 3);
    assert '\n' !in h by {
      if c.hours < 0 {
        var d := ZeroPad(-c.hours, 1);
        ZeroPadSpell(-c.hours, 1);
        DigitsOneLine(d);
        assert h == "-" + d;
      } else {
        ZeroPadSpell(c.hours, 2);
        DigitsOneLine(h);
      }
    }
    ZeroPadSpell(c.minutes, 2); ZeroPadSpell(c.seconds, 2); ZeroPadSpell(Millis(c.frac), 3);
    DigitsOneLine(mm);
    DigitsOneLine(ss);
    DigitsOneLine(ms);
    assert FormatTime(t) == h + (":" + mm + ":" + ss + "," + ms);
  }

  lemma ArrowOneLine(a: string, b: string)
    requires '\n' !in a && '\n' !in b
    ensures '\n' !in a + Arrow + b
  {
    assert '\n' !in Arrow;
  }

  /** Line j of the collected lines is line j % 4 of the block of cue j / 4. */
  lemma {:induction false} SrtLinesLine(cues: seq<Cue>, fmt: real -> string, j: nat)
    requires j < 4 * |cues|
    ensures SrtLines(cues, fmt)[j] == CueLines(j / 4, cues[j / 4], fmt)[j % 4]
  {
    var n := |cues| - 1;
    var pre, block := SrtLines(cues[..n], fmt), CueLines(n, cues[n], fmt);
    assert SrtLines(cues, fmt) == pre + block;
    if j < 4 * n {
      SrtLinesLine(cues[..n], fmt, j);
      assert cues[..n][j / 4] == cues[j / 4];
    } else {
      assert j / 4 == n && j % 4 == j - |pre|;
    }
  }

  lemma CueLinesOneLine(i: nat, c: Cue, fmt: real -> string, m: nat)
    requires m < 4
    requires '\n' !in fmt(c.start) && '\n' !in fmt(End(c)) && '\n' !in c.text
    ensures '\n' !in CueLines(i, c, fmt)[m]
  {
    if m == 0 {
      DigitsSpell(i + 1);
      DigitsOneLine(Digits(i + 1));
    } else if m == 1 {
      ArrowOneLine(fmt(c.start), fmt(End(c)));
    }
  }

  /**
   * When neither the time format nor any caption text produces a newline,
   * the SRT text splits back into exactly the lines `convert` collected.
   */
  lemma ConvertSplitsBack(cues: seq<Cue>, fmt: real -> string)
    requires |cues| >= 1
    requires forall t :: '\n' !in fmt(t)
    requires forall k :: 0 <= k < |cues| ==> '\n' !in cues[k].text
    ensures SplitLines(Join(SrtLines(cues, fmt))) == SrtLines(cues, fmt)
  {
    var ls := SrtLines(cues, fmt);
    forall j | 0 <= j < |ls|
      ensures '\n' !in ls[j]
    {
      var c := cues[j / 4];
      assert '\n' !in fmt(c.start) && '\n' !in fmt(End(c)) && '\n' !in c.text;
      SrtLinesLine(cues, fmt, j);
      CueLinesOneLine(j / 4, c, fmt, j % 4);
    }
    SplitJoin(ls);
  }

  /**
   * For the text `convert` returns, when no caption text holds a newline:
   * it splits back into four lines per cue, its number counting from 1,
   * "start --> end" as FormatTime writes them, its text and an empty line.
   */
  lemma ConvertLines(cues: seq<Cue>, k: nat)
    requires k < |cues|
    requires forall k :: 0 <= k < |cues| ==> '\n' !in cues[k].text
    ensures var ls := SplitLines(Join(SrtLines(cues, FormatTime)));
      && |ls| == 4 * |cues|
      && ls[4 * k] == Digits(k + 1)
      && ls[4 * k + 1] == FormatTime(cues[k].start) + Arrow + FormatTime(End(cues[k]))
      && ls[4 * k + 2] == cues[k].text && ls[4 * k + 3] == ""
  {
    forall t | true
      ensures '\n' !in FormatTime(t)
    {
      FormatTimeOneLine(t);
    }
    ConvertSplitsBack(cues, FormatTime);
    SrtLinesAt(cues, FormatTime, k);
  }
}
