/** The logger: the timer table, the layout of a log line, section headers,
    the retention rule for old log files and the integer form of
    `format_number`. The clock, the timestamp text and file modification
    times are inputs; elapsed times are counted in hundredths of a second. */
module Logging {
  import opened Text

  // ---------------------------------------------------------------------
  // Log types and prefixes

  const INFO := "INFO"
  const SUCCESS := "SUCESSO"
  const WARNING := "AVISO"
  const ERROR := "ERRO"
  const STEP := "ETAPA"
  const DEBUG := "DEBUG"

  /** The marker shown before a message. DEBUG, INFO and every other text
      share the neutral marker. */
  function Prefix(logType: string): (p: string)
    ensures |p| == 3 && p[0] == '[' && p[2] == ']'
    ensures p == "[✓]" <==> logType == SUCCESS
    ensures p == "[!]" <==> logType == WARNING
    ensures p == "[✗]" <==> logType == ERROR
    ensures p == "[→]" <==> logType == STEP
    ensures p == "[•]" <==> logType != SUCCESS && logType != WARNING && logType != ERROR && logType != STEP
  {
    if logType == SUCCESS then "[✓]"
    else if logType == WARNING then "[!]"
    else if logType == ERROR then "[✗]"
    else if logType == STEP then "[→]"
    else "[•]"
  }

  /** `f"{s:<width}"`: `s` padded with spaces on the right to `width`. */
  function AlignLeft(s: string, width: int): (r: string)
    ensures |r| == if |s| < width then width else |s|
    ensures r[..|s|] == s && forall i :: |s| <= i < |r| ==> r[i] == ' '
  {
    var pad := Repeat(" ", width - |s|);
    assert forall i :: 0 <= i < |pad| ==> pad[i] == ' ' by {
      forall i | 0 <= i < |pad| ensures pad[i] == ' ' { assert pad[i] in pad; }
    }
    s + pad
  }

  // ---------------------------------------------------------------------
  // Line layout

  /** `f" [{elapsed:.2f}s]"` for an elapsed time given in hundredths of a second. */
  function TimeInfo(centis: int): string {
    " [" + Seconds2(centis) + "s]"
  }

  /** `f"{x:.2f}"` for the value `centis / 100`. */
  function Seconds2(centis: int): string
    decreases if centis < 0 then 1 else 0
  {
    if centis < 0 then "-" + Seconds2(-centis)
    else NatToString(centis / 100) + "." + Pad2(centis % 100)
  }

  /** The two-decimal text reads back as the whole seconds before the point
      and the hundredths after it. */
  lemma Seconds2Value(centis: nat)
    ensures var r := Seconds2(centis); var k := |r| - 3;
            0 < k && r[k] == '.' && AllDigits(r[..k]) && AllDigits(r[k + 1..])
            && DigitsValue(r[..k]) * 100 + DigitsValue(r[k + 1..]) == centis
  {
    var w, f := NatToString(centis / 100), Pad2(centis % 100);
    NatToStringValue(centis / 100);
    Pad2Value(centis % 100);
    DotSplit(w, f, Seconds2(centis));
  }

  /** A text made of `w`, a point and two characters `f` splits back into them. */
  lemma DotSplit(w: string, f: string, r: string)
    requires r == w + "." + f && |f| == 2
    ensures |r| - 3 == |w| && r[|w|] == '.' && r[..|w|] == w && r[|w| + 1..] == f
  {
    assert r[..|w|] == w && r[|w| + 1..] == f;
  }

  function TimestampPart(timestamp: string, addTimestamp: bool): string {
    if addTimestamp then "[" + timestamp + "] " else ""
  }

  /** `f"{timestamp_part}{indent}{prefix:<3} {message}{time_info}"`. */
  function FormatLine(timestamp: string, addTimestamp: bool, indentLevel: int, logType: string,
                      message: string, timeInfo: string): (r: string)
    ensures StartsWith(r, TimestampPart(timestamp, addTimestamp))
    ensures EndsWith(r, " " + message + timeInfo)
  {
    var tp := TimestampPart(timestamp, addTimestamp);
    var head := tp + Repeat("  ", indentLevel) + AlignLeft(Prefix(logType), 3);
    assert head + " " + message + timeInfo == head + (" " + message + timeInfo);
    assert (head + " " + message + timeInfo)[..|tp|] == tp;
    TimestampPart(timestamp, addTimestamp) + Repeat("  ", indentLevel)
      + AlignLeft(Prefix(logType), 3) + " " + message + timeInfo
  }

  /** How a line reads from left to right: the optional timestamp part, two
      spaces per indentation level, the three-character marker (whose '['
      ends the indentation, so the level can be read back), one space, the
      message and the elapsed-time suffix. */
  lemma LineLayout(timestamp: string, addTimestamp: bool, indentLevel: int, logType: string,
                   message: string, timeInfo: string)
    ensures var line := FormatLine(timestamp, addTimestamp, indentLevel, logType, message, timeInfo);
            var t := |TimestampPart(timestamp, addTimestamp)|;
            var k := t + (if indentLevel <= 0 then 0 else 2 * indentLevel);
            && |line| == k + 4 + |message| + |timeInfo|
            && line[..t] == TimestampPart(timestamp, addTimestamp)
            && (forall i :: t <= i < k ==> line[i] == ' ')
            && line[k] == '[' && line[k..k + 3] == Prefix(logType) && line[k + 3] == ' '
            && line[k + 4..k + 4 + |message|] == message
            && line[k + 4 + |message|..] == timeInfo
  {
    var tp := TimestampPart(timestamp, addTimestamp);
    var indent := Repeat("  ", indentLevel);
    var p := Prefix(logType);
    assert AlignLeft(p, 3) == p;
    var line := FormatLine(timestamp, addTimestamp, indentLevel, logType, message, timeInfo);
    assert line == tp + indent + p + " " + message + timeInfo;
    var t, k := |tp|, |tp| + |indent|;
    forall i | t <= i < k ensures line[i] == ' ' {
      assert line[i] == indent[i - t];
      assert indent[i - t] in indent;
    }
    var head := tp + indent + p + " ";
    assert line == head + message + timeInfo;
    assert line[k..k + 3] == p;
    assert line[k + 4..k + 4 + |message|] == message;
  }

  // ---------------------------------------------------------------------
  // Section headers

  /** The rule line of a level-1 or level-2 header. */
  function Separator(level: int): (r: string)
    requires level == 1 || level == 2
    ensures |r| == (if level == 1 then 80 else 70)
    ensures forall c :: c in r ==> c == (if level == 1 then '=' else '-')
  {
    if level == 1 then Repeat("=", 80) else Repeat("-", 70)
  }

  /** The title as a header shows it: upper-cased at level 1 only. */
  function HeaderTitle(title: string, level: int): string {
    if level == 1 then Upper(title) else title
  }

  /** The lines `log_section` writes to the log file by itself; at other
      levels it writes through `log` instead. */
  function SectionFileLines(title: string, level: int, timestamp: string): (r: seq<string>)
    requires level == 1 || level == 2
  {
    var ts, sep := "[" + timestamp + "] ", Separator(level);
    [ts + sep, ts + (" " + HeaderTitle(title, level) + " "), ts + sep]
  }

  /** The text logged for a header of any other level. */
  function MinorSection(title: string): string {
    "\n--- " + title + " ---"
  }

  /** A header framed by rules has its title between two identical rule
      lines; the title line carries the title with one space on each side. */
  lemma SectionShape(title: string, level: int, timestamp: string)
    requires level == 1 || level == 2
    ensures var r := SectionFileLines(title, level, timestamp);
            var ts := "[" + timestamp + "] ";
            && |r| == 3 && r[0] == r[2]
            && r[0][..|ts|] == ts && r[0][|ts|..] == Separator(level)
            && r[1][..|ts|] == ts && r[1][|ts|..] == " " + HeaderTitle(title, level) + " "
  {
    var r := SectionFileLines(title, level, timestamp);
    var ts := "[" + timestamp + "] ";
    var sep, shown := Separator(level), " " + HeaderTitle(title, level) + " ";
    FramedShape(ts, sep, shown, r);
  }

  /** Three lines, each `ts` followed by a rule, a title and the rule again. */
  lemma FramedShape(ts: string, sep: string, shown: string, r: seq<string>)
    requires |r| == 3 && r[0] == ts + sep && r[1] == ts + shown && r[2] == ts + sep
    ensures r[0] == r[2] && r[0][..|ts|] == ts && r[0][|ts|..] == sep
    ensures r[1][..|ts|] == ts && r[1][|ts|..] == shown
  {
    assert (ts + sep)[..|ts|] == ts && (ts + sep)[|ts|..] == sep;
    assert (ts + shown)[..|ts|] == ts && (ts + shown)[|ts|..] == shown;
  }

  // ---------------------------------------------------------------------
  // Timers

  /** The result of `end_timer(name)` at time `now`: the elapsed time and
      the table without `name`, or 0 and the table unchanged. */
  function TimerEnd(starts: map<string, int>, name: string, now: int): (r: (int, map<string, int>))
    ensures name in starts ==> r.0 == now - starts[name] && r.1.Keys == starts.Keys - {name}
    ensures name !in starts ==> r == (0, starts)
    ensures forall k :: k in r.1 ==> k in starts && r.1[k] == starts[k]
  {
    if name in starts then (now - starts[name], starts - {name}) else (0, starts)
  }

  /** Starting a timer and ending it returns the time that passed in
      between, and leaves every other timer as it was. */
  lemma TimerRoundTrip(starts: map<string, int>, name: string, t0: int, t1: int)
    ensures TimerEnd(starts[name := t0], name, t1).0 == t1 - t0
    ensures TimerEnd(starts[name := t0], name, t1).1 == starts - {name}
    ensures name !in starts ==> TimerEnd(starts[name := t0], name, t1).1 == starts
  {
  }

  /** `log` ends the timer `operation_name` only when asked to show the time,
      the name is given (and not empty) and its timer is running. */
  predicate Consumes(starts: map<string, int>, showTime: bool, operationName: Option<string>) {
    showTime && operationName.Some? && operationName.value != "" && operationName.value in starts
  }

  /** Three appends of one line each are one append of the three lines. */
  lemma AppendThree(s: seq<string>, a: string, b: string, c: string)
    ensures s + [a] + [b] + [c] == s + [a, b, c]
  {
  }

  class Logger {
    /** `start_times`: running timers by operation name. */
    var startTimes: map<string, int>
    /** The lines shown on the terminal, colour codes left out. */
    var console: seq<string>
    /** The lines appended to the log file, each without its final "\n". */
    var file: seq<string>

    constructor ()
      ensures startTimes == map[] && console == [] && file == []
    {
      startTimes := map[];
      console := [];
      file := [];
    }

    /** `start_timer(name)` at time `now`. */
    method StartTimer(name: string, now: int)
      modifies this`startTimes
      ensures startTimes == old(startTimes)[name := now]
    {
      startTimes := startTimes[name := now];
    }

    /** `end_timer(name)` at time `now`. */
    method EndTimer(name: string, now: int) returns (elapsed: int)
      modifies this`startTimes
      ensures (elapsed, startTimes) == TimerEnd(old(startTimes), name, now)
    {
      if name in startTimes {
        elapsed := now - startTimes[name];
        startTimes := startTimes - {name};
        return;
      }
      return 0;
    }

    /** `log(...)` at time `now`, with `timestamp` the text of the current time. */
    method Log(message: string, logType: string, indentLevel: int, showTime: bool,
               operationName: Option<string>, addTimestamp: bool, writeToFile: bool,
               timestamp: string, now: int)
      modifies this
      ensures var consumed := Consumes(old(startTimes), showTime, operationName);
              var info := if consumed then TimeInfo(now - old(startTimes)[operationName.value]) else "";
              var line := FormatLine(timestamp, addTimestamp, indentLevel, logType, message, info);
              && startTimes == (if consumed then old(startTimes) - {operationName.value} else old(startTimes))
              && console == old(console) + [line]
              && file == (if writeToFile then old(file) + [line] else old(file))
    {
      var timeInfo := "";
      if showTime && operationName.Some? && operationName.value != "" && operationName.value in startTimes {
        var elapsed := EndTimer(operationName.value, now);
        timeInfo := TimeInfo(elapsed);
      }
      var indent := Repeat("  ", indentLevel);
      var prefix := Prefix(logType);
      var timestampPart := if addTimestamp then "[" + timestamp + "] " else "";
      var logMessage := timestampPart + indent + AlignLeft(prefix, 3) + " " + message + timeInfo;
      console := console + [logMessage];
      if writeToFile {
        file := file + [logMessage];
      }
    }

    /** `log_section(title, level)`. Levels 1 and 2 show three untimestamped
        lines on the terminal and write three timestamped lines to the file;
        any other level logs one ordinary line. No timer is touched. */
    method LogSection(title: string, level: int, timestamp: string, now: int)
      modifies this
      ensures startTimes == old(startTimes)
      ensures level == 1 || level == 2 ==>
                var shown := HeaderTitle(title, level);
                && console == old(console) + [FormatLine("", false, 0, INFO, Separator(level), ""),
                                              FormatLine("", false, 0, INFO, " " + shown + " ", ""),
                                              FormatLine("", false, 0, INFO, Separator(level), "")]
                && file == old(file) + SectionFileLines(title, level, timestamp)
      ensures level != 1 && level != 2 ==>
                var line := FormatLine(timestamp, true, 0, INFO, MinorSection(title), "");
                console == old(console) + [line] && file == old(file) + [line]
    {
      if level == 1 || level == 2 {
        var separator := Separator(level);
        var shown := HeaderTitle(title, level);
        ghost var console0, file0 := console, file;
        Log(separator, INFO, 0, false, None, false, false, timestamp, now);
        Log(" " + shown + " ", INFO, 0, false, None, false, false, timestamp, now);
        Log(separator, INFO, 0, false, None, false, false, timestamp, now);
        AppendThree(console0, FormatLine("", false, 0, INFO, separator, ""),
                    FormatLine("", false, 0, INFO, " " + shown + " ", ""), FormatLine("", false, 0, INFO, separator, ""));
        var stamp := "[" + timestamp + "] ";
        file := file + [stamp + separator];
        file := file + [stamp + (" " + shown + " ")];
        file := file + [stamp + separator];
        AppendThree(file0, stamp + separator, stamp + (" " + shown + " "), stamp + separator);
      } else {
        Log(MinorSection(title), INFO, 0, false, None, true, true, timestamp, now);
      }
    }
  }

  // ---------------------------------------------------------------------
  // Retention of old log files

  /** A `.txt` file of the `logs` folder, with its modification time. */
  datatype LogFile = LogFile(name: string, mtime: int)

  predicate SortedByMtime(fs: seq<LogFile>) {
    forall i, j :: 0 <= i < j < |fs| ==> fs[i].mtime <= fs[j].mtime
  }

  /** Places `f` after every file not newer than it. */
  function InsertByMtime(s: seq<LogFile>, f: LogFile): (r: seq<LogFile>)
    requires SortedByMtime(s)
    ensures SortedByMtime(r)
    ensures multiset(r) == multiset(s) + multiset{f}
    decreases |s|
  {
    if s == [] || s[|s| - 1].mtime <= f.mtime then
      assert forall k :: 0 <= k < |s| ==> s[k].mtime <= f.mtime by {
        if s != [] { assert forall k :: 0 <= k < |s| ==> s[k].mtime <= s[|s| - 1].mtime; }
      }
      SnocSorted(s, f);
      s + [f]
    else
      var init, last := s[..|s| - 1], s[|s| - 1];
      assert s == init + [last];
      var r' := InsertByMtime(init, f);
      BelowLast(s, f, r');
      SnocSorted(r', last);
      r' + [last]
  }

  /** A file not older than any of a sorted sequence may go at its end. */
  lemma SnocSorted(r: seq<LogFile>, x: LogFile)
    requires SortedByMtime(r)
    requires forall k :: 0 <= k < |r| ==> r[k].mtime <= x.mtime
    ensures SortedByMtime(r + [x]) && multiset(r + [x]) == multiset(r) + multiset{x}
  {
  }

  /** Every file of `r`, holding `f` and the files of `s` but its last, is
      not newer than that last one when `f` is older than it. */
  lemma BelowLast(s: seq<LogFile>, f: LogFile, r: seq<LogFile>)
    requires SortedByMtime(s) && |s| > 0 && f.mtime < s[|s| - 1].mtime
    requires multiset(r) == multiset(s[..|s| - 1]) + multiset{f}
    ensures forall k :: 0 <= k < |r| ==> r[k].mtime <= s[|s| - 1].mtime
  {
    forall k | 0 <= k < |r| ensures r[k].mtime <= s[|s| - 1].mtime {
      var x := r[k];
      assert x in multiset(r);
      if x != f {
        assert x in s[..|s| - 1];
        var m :| 0 <= m < |s| - 1 && s[..|s| - 1][m] == x;
        assert s[m] == x;
      }
    }
  }

  /** `log_files.sort(key=os.path.getmtime)`: a stable sort, oldest first. */
  function SortByMtime(fs: seq<LogFile>): (r: seq<LogFile>)
    ensures SortedByMtime(r)
    ensures multiset(r) == multiset(fs) && |r| == |fs|
    decreases |fs|
  {
    if fs == [] then []
    else
      assert fs == fs[..|fs| - 1] + [fs[|fs| - 1]];
      var r := InsertByMtime(SortByMtime(fs[..|fs| - 1]), fs[|fs| - 1]);
      assert |r| == |multiset(r)|;
      r
  }

  /** The files of `fs` whose modification time is `t`, in their order. */
  function WithMtime(fs: seq<LogFile>, t: int): seq<LogFile>
    decreases |fs|
  {
    if fs == [] then []
    else WithMtime(fs[..|fs| - 1], t) + (if fs[|fs| - 1].mtime == t then [fs[|fs| - 1]] else [])
  }

  /** `f` goes after every file of its own modification time, so the files
      of each modification time keep their order, with `f` last among its own. */
  lemma {:induction false} InsertByMtimeStable(s: seq<LogFile>, f: LogFile)
    requires SortedByMtime(s)
    ensures forall t :: WithMtime(InsertByMtime(s, f), t) == WithMtime(s, t) + (if f.mtime == t then [f] else [])
    decreases |s|
  {
    var r := InsertByMtime(s, f);
    if s == [] || s[|s| - 1].mtime <= f.mtime {
      assert r == s + [f];
      forall t ensures WithMtime(r, t) == WithMtime(s, t) + (if f.mtime == t then [f] else []) {
        WithMtimeSnoc(s, f, t);
      }
    } else {
      var init, last := s[..|s| - 1], s[|s| - 1];
      var r' := InsertByMtime(init, f);
      InsertByMtimeStable(init, f);
      assert r == r' + [last] && s == init + [last];
      forall t ensures WithMtime(r, t) == WithMtime(s, t) + (if f.mtime == t then [f] else []) {
        StableStep(init, last, f, r', t);
      }
    }
  }

  /** `WithMtime` takes a file added at the end exactly when it has the age `t`. */
  lemma WithMtimeSnoc(fs: seq<LogFile>, x: LogFile, t: int)
    ensures WithMtime(fs + [x], t) == WithMtime(fs, t) + (if x.mtime == t then [x] else [])
  {
    assert (fs + [x])[..|fs|] == fs;
  }

  /** One step of `InsertByMtimeStable`: a last file newer than `f` keeps its
      place after `f` among the files of each age. */
  lemma StableStep(init: seq<LogFile>, last: LogFile, f: LogFile, r: seq<LogFile>, t: int)
    requires f.mtime < last.mtime
    requires WithMtime(r, t) == WithMtime(init, t) + (if f.mtime == t then [f] else [])
    ensures WithMtime(r + [last], t) == WithMtime(init + [last], t) + (if f.mtime == t then [f] else [])
  {
    WithMtimeSnoc(r, last, t);
    WithMtimeSnoc(init, last, t);
  }

  /** The sort is stable: sorted by modification time, and the files of each
      modification time in their glob order. These two facts single out the
      result of `list.sort`, which decides which of several files of the
      same age are deleted. */
  lemma {:induction false} SortByMtimeStable(fs: seq<LogFile>)
    ensures SortedByMtime(SortByMtime(fs))
    ensures forall t :: WithMtime(SortByMtime(fs), t) == WithMtime(fs, t)
    decreases |fs|
  {
    if fs != [] {
      var init, last := fs[..|fs| - 1], fs[|fs| - 1];
      SortByMtimeStable(init);
      InsertByMtimeStable(SortByMtime(init), last);
    }
  }

  /** The files the retention rule means to delete, "leaving only the
      `max_files` newest": all but the `maxFiles` newest, or none when there
      are at most `maxFiles`. */
  function Oldest(fs: seq<LogFile>, maxFiles: nat): (r: seq<LogFile>)
    ensures |r| == if |fs| > maxFiles then |fs| - maxFiles else 0
  {
    if |fs| > maxFiles then SortByMtime(fs)[..|fs| - maxFiles] else []
  }

  /** The files that remain in the listing afterwards. */
  function Newest(fs: seq<LogFile>, maxFiles: nat): (r: seq<LogFile>)
    ensures |r| == if |fs| > maxFiles then maxFiles else |fs|
  {
    if |fs| > maxFiles then SortByMtime(fs)[|fs| - maxFiles..] else fs
  }

  /** Deleted and kept files together are exactly the listed files, and no
      deleted file is newer than a kept one. */
  lemma OldestBeforeNewest(fs: seq<LogFile>, maxFiles: nat)
    ensures multiset(Oldest(fs, maxFiles)) + multiset(Newest(fs, maxFiles)) == multiset(fs)
    ensures forall i, j :: 0 <= i < |Oldest(fs, maxFiles)| && 0 <= j < |Newest(fs, maxFiles)| ==>
              Oldest(fs, maxFiles)[i].mtime <= Newest(fs, maxFiles)[j].mtime
  {
    if |fs| > maxFiles {
      var s := SortByMtime(fs);
      var k := |fs| - maxFiles;
      assert s == s[..k] + s[k..];
      forall i, j | 0 <= i < k && 0 <= j < maxFiles ensures s[..k][i].mtime <= s[k..][j].mtime {
        assert s[..k][i] == s[i] && s[k..][j] == s[k + j];
      }
    }
  }

  /** Python's `s[:stop]`: a negative `stop` counts from the end, and both
      ends are clamped to the sequence. */
  function SliceTo(s: seq<LogFile>, stop: int): (r: seq<LogFile>)
    ensures |r| == if stop >= 0 then (if stop < |s| then stop else |s|)
                   else (if |s| + stop > 0 then |s| + stop else 0)
    ensures r == s[..|r|]
  {
    if stop >= 0 then (if stop < |s| then s[..stop] else s)
    else if |s| + stop > 0 then s[..|s| + stop] else []
  }

  /** The selection as the source writes it, `log_files[:-max_files]` on the
      sorted files: with `max_files = 0` the stop is `-0`, which is 0. */
  function OldestAsWritten(fs: seq<LogFile>, maxFiles: nat): seq<LogFile> {
    if |fs| > maxFiles then SliceTo(SortByMtime(fs), -(maxFiles as int)) else []
  }

  /** The names removed by deleting each of `fs` in turn, where deleting a
      name of `undeletable` raises and is only reported. */
  function Deleted(fs: seq<LogFile>, undeletable: set<string>): set<string>
    decreases |fs|
  {
    if fs == [] then {}
    else
      var last := fs[|fs| - 1];
      Deleted(fs[..|fs| - 1], undeletable) + (if last.name in undeletable then {} else {last.name})
  }

  /** The error reports for the files that could not be deleted, in order. */
  function Failures(fs: seq<LogFile>, undeletable: set<string>): seq<string>
    decreases |fs|
  {
    if fs == [] then []
    else
      var last := fs[|fs| - 1];
      Failures(fs[..|fs| - 1], undeletable) + (if last.name in undeletable then [last.name] else [])
  }

  /** The names deleted are exactly those of the files not in `undeletable`. */
  lemma {:induction false} DeletedNames(fs: seq<LogFile>, undeletable: set<string>)
    ensures Deleted(fs, undeletable) == set f | f in fs && f.name !in undeletable :: f.name
    decreases |fs|
  {
    if fs != [] {
      var init, last := fs[..|fs| - 1], fs[|fs| - 1];
      DeletedNames(init, undeletable);
      assert fs == init + [last];
      assert forall f :: f in fs <==> f in init || f == last;
    }
  }

  /** The failures are exactly the names of the files in `undeletable`. */
  lemma {:induction false} FailuresNames(fs: seq<LogFile>, undeletable: set<string>)
    ensures forall n :: n in Failures(fs, undeletable) <==> n in undeletable && exists f :: f in fs && f.name == n
    decreases |fs|
  {
    if fs != [] {
      var init, last := fs[..|fs| - 1], fs[|fs| - 1];
      FailuresNames(init, undeletable);
      assert fs == init + [last];
      assert forall f :: f in fs <==> f in init || f == last;
    }
  }

  /** The failures are reported file by file, in the order of the files. */
  lemma {:induction false} FailuresAppend(a: seq<LogFile>, b: seq<LogFile>, undeletable: set<string>)
    ensures Failures(a + b, undeletable) == Failures(a, undeletable) + Failures(b, undeletable)
    ensures |b| == 1 ==> Failures(b, undeletable) == if b[0].name in undeletable then [b[0].name] else []
    decreases |b|
  {
    if b == [] {
      assert a + b == a;
    } else {
      var init, last := b[..|b| - 1], b[|b| - 1];
      var own := if last.name in undeletable then [last.name] else [];
      assert (a + b)[..|a + b| - 1] == a + init && (a + b)[|a + b| - 1] == last;
      assert Failures(a + b, undeletable) == Failures(a + init, undeletable) + own;
      assert Failures(b, undeletable) == Failures(init, undeletable) + own;
      FailuresAppend(a, init, undeletable);
      assert Failures(a, undeletable) + Failures(init, undeletable) + own
          == Failures(a, undeletable) + (Failures(init, undeletable) + own);
    }
  }

  /** `limit_log_files(max_files)` on a log folder holding `present`, whose `.txt`
      files are `globbed`. Returns the names left in the folder and
      the names whose deletion failed. */
  method LimitLogFiles(present: set<string>, globbed: seq<LogFile>, maxFiles: nat, undeletable: set<string>)
    returns (remaining: set<string>, failed: seq<string>)
    ensures remaining == present - Deleted(OldestAsWritten(globbed, maxFiles), undeletable)
    ensures failed == Failures(OldestAsWritten(globbed, maxFiles), undeletable)
  {
    var logFiles := globbed;
    remaining, failed := present, [];
    if |logFiles| > maxFiles {
      logFiles := SortByMtime(logFiles);
      var toRemove := SliceTo(logFiles, -(maxFiles as int));
      for i := 0 to |toRemove|
        invariant remaining == present - Deleted(toRemove[..i], undeletable)
        invariant failed == Failures(toRemove[..i], undeletable)
      {
        assert toRemove[..i + 1][..i] == toRemove[..i];
        var fileToRemove := toRemove[i];
        if fileToRemove.name in undeletable {
          failed := failed + [fileToRemove.name];
        } else {
          remaining := remaining - {fileToRemove.name};
        }
      }
      assert toRemove[..|toRemove|] == toRemove;
    }
  }

  /** With `max_files = 0` the source deletes nothing, although every file
      is beyond the limit; for any positive limit it agrees with `Oldest`. */
  lemma ZeroLimitKeepsEverything(fs: seq<LogFile>, maxFiles: nat)
    ensures |fs| > 0 ==> OldestAsWritten(fs, 0) == [] && |Oldest(fs, 0)| == |fs|
    ensures maxFiles > 0 ==> OldestAsWritten(fs, maxFiles) == Oldest(fs, maxFiles)
  {
  }

  // ---------------------------------------------------------------------
  // format_number, integer path

  /** The digits with a '.' before each group of three, counted from the
      right: `f"{n:,}".replace(",", ".")` on the digits of `n`. */
  function GroupThousands(d: string): (r: string)
    decreases |d|
  {
    if |d| <= 3 then d else GroupThousands(d[..|d| - 3]) + "." + d[|d| - 3..]
  }

  /** `s` with every `c` taken out. */
  function Without(s: string, c: char): (r: string)
    ensures c !in r
    decreases |s|
  {
    if s == [] then [] else Without(s[..|s| - 1], c) + (if s[|s| - 1] == c then [] else [s[|s| - 1]])
  }

  lemma {:induction false} WithoutAppend(a: string, b: string, c: char)
    ensures Without(a + b, c) == Without(a, c) + Without(b, c)
    decreases |b|
  {
    if b == [] {
      assert a + b == a;
    } else {
      assert (a + b)[..|a + b| - 1] == a + b[..|b| - 1];
      WithoutAppend(a, b[..|b| - 1], c);
    }
  }

  lemma {:induction false} WithoutAbsent(s: string, c: char)
    requires c !in s
    ensures Without(s, c) == s
    decreases |s|
  {
    if s != [] {
      WithoutAbsent(s[..|s| - 1], c);
    }
  }

  /** Digits hold no dot. */
  lemma DigitsNoDot(d: string)
    requires AllDigits(d)
    ensures '.' !in d
  {
    forall i | 0 <= i < |d| ensures d[i] != '.' { assert IsDigit(d[i]); }
  }

  lemma {:induction false} UngroupStep(g: string, back: string)
    requires '.' !in back
    ensures Without(g + "." + back, '.') == Without(g, '.') + back
  {
    var gd := g + ".";
    WithoutAppend(gd, back, '.');
    WithoutAbsent(back, '.');
    assert gd[..|gd| - 1] == g && gd[|gd| - 1] == '.';
    assert Without(gd, '.') == Without(g, '.');
  }

  /** Taking the dots out of the grouped digits gives the digits back. */
  lemma {:induction false} GroupThousandsUngroup(d: string)
    requires AllDigits(d)
    ensures Without(GroupThousands(d), '.') == d
    decreases |d|
  {
    if |d| <= 3 {
      DigitsNoDot(d);
      WithoutAbsent(d, '.');
    } else {
      var front, back := d[..|d| - 3], d[|d| - 3..];
      assert front + back == d;
      assert AllDigits(front) && AllDigits(back);
      assert GroupThousands(d) == GroupThousands(front) + "." + back;
      GroupThousandsUngroup(front);
      DigitsNoDot(back);
      UngroupStep(GroupThousands(front), back);
    }
  }

  /** A dot stands exactly at every fourth place counted from the right end. */
  predicate DotsEveryFourth(r: string) {
    forall i :: 0 <= i < |r| ==> (r[i] == '.' <==> (|r| - i) % 4 == 0)
  }

  lemma {:induction false} GroupThousandsDots(d: string)
    requires AllDigits(d)
    ensures DotsEveryFourth(GroupThousands(d))
    decreases |d|
  {
    var r := GroupThousands(d);
    if |d| <= 3 {
      DigitsNoDot(d);
      forall i | 0 <= i < |r| ensures r[i] != '.' && (|r| - i) % 4 != 0 {
        assert r[i] in d;
      }
    } else {
      var front, back := d[..|d| - 3], d[|d| - 3..];
      assert AllDigits(front) && AllDigits(back);
      GroupThousandsDots(front);
      DigitsNoDot(back);
      var g := GroupThousands(front);
      assert r == g + "." + back;
      forall i | 0 <= i < |r| ensures r[i] == '.' <==> (|r| - i) % 4 == 0 {
        if i < |g| {
          assert r[i] == g[i];
          assert |r| - i == (|g| - i) + 4;
          assert ((|g| - i) + 4) % 4 == (|g| - i) % 4;
        } else if i == |g| {
          assert r[i] == '.' && |r| - i == 4;
        } else {
          assert r[i] == back[i - |g| - 1];
          assert r[i] in back;
          assert 1 <= |r| - i <= 3;
        }
      }
    }
  }

  /** The integer path of `format_number`: thousands separated by '.'. */
  function FormatInteger(n: int): string {
    if n < 0 then "-" + GroupThousands(NatToString(-n)) else GroupThousands(NatToString(n))
  }

  /** The formatted number has its dots every fourth place from the right
      and, with them taken out, reads back as itself. */
  lemma FormatIntegerValue(n: nat)
    ensures DotsEveryFourth(FormatInteger(n))
    ensures AllDigits(Without(FormatInteger(n), '.'))
    ensures DigitsValue(Without(FormatInteger(n), '.')) == n
  {
    GroupThousandsDots(NatToString(n));
    GroupThousandsUngroup(NatToString(n));
    NatToStringValue(n);
  }
}
