/** The control skeleton of `main`: the gate, the walk over the video
    folders and the videos inside them, the lines that describe a listed
    row, the time summary and the registration of the run. The browser is
    replaced by what it is observed to show at each step. */
module App {
  import opened Text
  import opened Executions
  import Logging

  // ---------------------------------------------------------------------
  // Row text

  /** `text.replace("\n", " - ").split(" ")`. */
  function RowParts(text: string): (parts: seq<string>)
    ensures |parts| >= 1 && forall i :: 0 <= i < |parts| ==> ' ' !in parts[i]
  {
    Split(ReplaceAll(text, "\n", " - "), ' ')
  }

  /** A listed row: its name and the two trailing fields (views, downloads). */
  datatype Row = Row(name: string, views: string, downloads: string)

  /** The name is every space-separated field but the last two; a row with
      fewer than two fields has no such split. */
  function SplitRow(text: string): (r: Option<Row>)
    ensures r.None? <==> |RowParts(text)| < 2
    ensures r.Some? ==> ' ' !in r.value.views && ' ' !in r.value.downloads
  {
    var parts := RowParts(text);
    if |parts| < 2 then None
    else Some(Row(Join(parts[..|parts| - 2], " "), parts[|parts| - 2], parts[|parts| - 1]))
  }

  /** The split loses nothing: name, views and downloads joined by single
      spaces give the row text back, with its newlines shown as " - ". */
  lemma {:induction false} SplitRowRejoins(text: string)
    requires SplitRow(text).Some?
    ensures var row := SplitRow(text).value;
            var shown := ReplaceAll(text, "\n", " - ");
            if |RowParts(text)| == 2 then row.name == "" && row.views + " " + row.downloads == shown
            else row.name + " " + row.views + " " + row.downloads == shown
  {
    JoinSplit(ReplaceAll(text, "\n", " - "), ' ');
    JoinLastTwo(RowParts(text));
  }

  /** Joining fields by spaces: the last two fields after the others. */
  lemma {:induction false} JoinLastTwo(parts: seq<string>)
    requires |parts| >= 2
    ensures var n := |parts|;
            if n == 2 then Join(parts, " ") == parts[0] + " " + parts[1]
            else Join(parts, " ") == Join(parts[..n - 2], " ") + " " + parts[n - 2] + " " + parts[n - 1]
  {
    var n := |parts|;
    var tail := parts[n - 2..];
    assert Join(tail, " ") == parts[n - 2] + " " + parts[n - 1] by {
      assert tail[1..] == [parts[n - 1]];
    }
    if n > 2 {
      assert parts == parts[..n - 2] + tail;
      JoinAppend(parts[..n - 2], tail, " ");
    } else {
      assert parts == tail;
    }
  }

  /** A row is a single field exactly when its text has no space and no newline. */
  lemma SingleField(text: string)
    requires ' ' !in text && '\n' !in text
    ensures RowParts(text) == [text] && SplitRow(text).None?
  {
    forall j | 0 <= j < |text| ensures !OccursAt(text, "\n", j) {
      assert text[j..j + 1][0] == text[j];
      assert text[j] in text;
    }
    ReplaceAbsent(text, "\n", " - ");
    SplitJoin([text], ' ');
  }

  /** What the first listing shows of a row whose text could be read
      (`Some`) or not (`None`): its name, or nothing (then "N/A") when the
      text cannot be read or has fewer than two fields, since indexing the
      fields raises then. */
  function FirstShown(text: Option<string>): Option<string> {
    if text.Some? && SplitRow(text.value).Some? then Some(SplitRow(text.value).value.name) else None
  }

  /** What the listing repeated on each iteration shows of a row: its name,
      its text when it has fewer than two fields, "N/A" when unreadable. */
  function CurrentShown(text: Option<string>): string {
    if text.None? then "N/A"
    else if SplitRow(text.value).Some? then SplitRow(text.value).value.name
    else ReplaceAll(text.value, "\n", " - ")
  }

  /** The two listings agree on rows of two fields or more and on unreadable
      rows; a readable row of a single field is "N/A" in the first listing
      and its own text in the repeated one. */
  lemma ListingsDisagreeOnShortRows(text: Option<string>)
    ensures FirstShown(text).Some? <==> text.Some? && |RowParts(text.value)| >= 2
    ensures FirstShown(text).Some? ==> CurrentShown(text) == FirstShown(text).value
    ensures text.None? ==> CurrentShown(text) == "N/A"
    ensures text.Some? && ' ' !in text.value && '\n' !in text.value ==>
              FirstShown(text).None? && CurrentShown(text) == text.value
  {
    if text.Some? && ' ' !in text.value && '\n' !in text.value {
      SingleField(text.value);
      ReplaceAbsent(text.value, "\n", " - ");
    }
  }

  // ---------------------------------------------------------------------
  // Time summary

  /** `divmod` twice on the total time, given in hundredths of a second, and
      `int` of each part. Division by a positive number floors, in Python
      as here, so a negative total keeps the minutes and seconds in range. */
  function Hms(centis: int): (r: (int, nat, nat))
    ensures r.0 * 3600 + r.1 * 60 + r.2 == centis / 100
    ensures r.1 < 60 && r.2 < 60
    ensures centis >= 0 ==> r.0 >= 0
  {
    var hours := centis / 360000;
    var remainder := centis % 360000;
    (hours, remainder / 6000, (remainder % 6000) / 100)
  }

  /** The decomposition is the only one with minutes and seconds below 60. */
  lemma HmsUnique(centis: int, h: int, m: nat, s: nat)
    requires h * 3600 + m * 60 + s == centis / 100 && m < 60 && s < 60
    ensures Hms(centis) == (h, m, s)
  {
    var r := Hms(centis);
    var t := centis / 100;
    assert (r.0 - h) * 3600 == (m - r.1) * 60 + (s - r.2);
    assert r.0 == h;
    assert (r.1 - m) * 60 == s - r.2;
  }

  /** `f"{h:02d}h {m:02d}m {s:02d}s"`. */
  function TimeSummary(centis: int): string {
    var (h, m, s) := Hms(centis);
    Pad2Int(h) + "h " + Pad2(m) + "m " + Pad2(s) + "s"
  }

  /** The summary of a non-negative total reads back: the hours in at least
      two digits, "h ", two digits of minutes, "m ", two digits of seconds and
      "s", which together make up the whole seconds of the total. */
  lemma TimeSummaryValue(centis: nat)
    ensures var r := TimeSummary(centis); var k := |r| - 9;
            && k >= 2 && AllDigits(r[..k]) && r[k..k + 2] == "h "
            && AllDigits(r[k + 2..k + 4]) && r[k + 4..k + 6] == "m "
            && AllDigits(r[k + 6..k + 8]) && r[k + 8..] == "s"
            && DigitsValue(r[..k]) * 3600 + DigitsValue(r[k + 2..k + 4]) * 60 + DigitsValue(r[k + 6..k + 8])
               == centis / 100
  {
    var (h, m, sec) := Hms(centis);
    Pad2Value(h);
    Pad2Value(m);
    Pad2Value(sec);
    var hs, ms, ss := Pad2(h), Pad2(m), Pad2(sec);
    assert TimeSummary(centis) == hs + "h " + ms + "m " + ss + "s";
    SummaryLayout(hs, ms, ss);
  }

  /** Where each part of the summary text sits. */
  lemma SummaryLayout(hs: string, ms: string, ss: string)
    requires |ms| == 2 && |ss| == 2
    ensures var r := hs + "h " + ms + "m " + ss + "s"; var k := |hs|;
            && |r| == k + 9 && r[..k] == hs && r[k..k + 2] == "h " && r[k + 2..k + 4] == ms
            && r[k + 4..k + 6] == "m " && r[k + 6..k + 8] == ss && r[k + 8..] == "s"
  {
  }

  // ---------------------------------------------------------------------
  // The walk

  /** What the browser shows while one video is handled. */
  datatype VideoObs = VideoObs(
    available: nat,          // rows listed when the video list is re-read
    dropdownFirst: bool,     // the first attempt to open the UTM dropdown completes
    dropdownSecond: bool,    // the second attempt does
    optionClicked: bool,     // the utm_content option can be clicked
    nameText: Option<string>,// the text of the video name element, if found
    stillOnAnalytics: bool)  // the analytics link and the Download button both still show after going back three pages

  /** What the browser shows while one folder is handled. */
  datatype FolderObs = FolderObs(
    available: nat,          // rows listed when the folder list is re-read
    hasVideo: bool,          // a video row shows up within the wait
    videos: seq<VideoObs>)   // one per video row counted in the folder

  /** What the walk does, step by step. */
  datatype Event =
    | NoFolder(folder: nat)
    | EmptyFolder(folder: nat)
    | MissingVideo(folder: nat, video: nat)
    | Aborted(folder: nat, video: nat)
    | Processed(folder: nat, video: nat, destination: string, backSteps: nat)
    | FolderDone(folder: nat)

  /** The UTM dropdown (both attempts) or the utm_content option failing
      raises out of the walk. */
  predicate Aborts(o: VideoObs) {
    !(o.dropdownFirst || o.dropdownSecond) || !o.optionClicked
  }

  /** The folder the CSV files of a video are moved to. */
  function Destination(o: VideoObs): string {
    "./analytics/" + (if o.nameText.Some? then o.nameText.value else "VIDEO_NAME_NOT_FOUND")
  }

  /** Pages gone back after a video: three, and one more when the analytics
      page is still showing. */
  function BackSteps(o: VideoObs): (n: nat)
    ensures n == 3 || n == 4
    ensures n == 4 <==> o.stillOnAnalytics
  {
    if o.stillOnAnalytics then 4 else 3
  }

  /** The events of the videos of folder `i` from video `v` on, and whether
      one of them aborted the run. */
  function VideosFrom(i: nat, vs: seq<VideoObs>, v: nat): (r: (seq<Event>, bool))
    requires v <= |vs|
    ensures r.1 ==> |r.0| > 0 && r.0[|r.0| - 1].Aborted?
    decreases |vs| - v
  {
    if v == |vs| then ([], false)
    else if v >= vs[v].available then
      var rest := VideosFrom(i, vs, v + 1);
      ([MissingVideo(i, v)] + rest.0, rest.1)
    else if Aborts(vs[v]) then ([Aborted(i, v)], true)
    else
      var rest := VideosFrom(i, vs, v + 1);
      ([Processed(i, v, Destination(vs[v]), BackSteps(vs[v]))] + rest.0, rest.1)
  }

  /** The events of folder `i`, whether it aborted the run, and whether the
      folder loop stops there. */
  function FolderEvents(i: nat, f: FolderObs): (seq<Event>, bool, bool) {
    if i >= f.available then ([NoFolder(i)], false, true)
    else if !f.hasVideo then ([EmptyFolder(i)], false, false)
    else
      var vr := VideosFrom(i, f.videos, 0);
      if vr.1 then (vr.0, true, true) else (vr.0 + [FolderDone(i)], false, false)
  }

  /** The events of the walk from folder `i` on, and whether it aborted. */
  function WalkFrom(w: seq<FolderObs>, i: nat): (r: (seq<Event>, bool))
    ensures r.1 ==> |r.0| > 0 && r.0[|r.0| - 1].Aborted?
    decreases |w| - i
  {
    if i >= |w| then ([], false)
    else
      var fe := FolderEvents(i, w[i]);
      if fe.2 then (fe.0, fe.1)
      else
        var rest := WalkFrom(w, i + 1);
        (fe.0 + rest.0, rest.1)
  }

  /** The inner loop of `main`, over the videos counted in folder `index`:
      the events of the videos and whether one of them raised. */
  method VisitVideos(index: nat, videos: seq<VideoObs>) returns (events: seq<Event>, aborted: bool)
    ensures (events, aborted) == VideosFrom(index, videos, 0)
  {
    events, aborted := [], false;
    var videosCount := |videos|;
    for videoIndex := 0 to videosCount
      invariant events + VideosFrom(index, videos, videoIndex).0 == VideosFrom(index, videos, 0).0
      invariant VideosFrom(index, videos, videoIndex).1 == VideosFrom(index, videos, 0).1
    {
      var o := videos[videoIndex];
      VideoStep(index, videos, videoIndex, events);
      if videoIndex >= o.available {
        events := events + [MissingVideo(index, videoIndex)];
        continue;
      }
      if Aborts(o) {
        events := events + [Aborted(index, videoIndex)];
        aborted := true;
        return;
      }
      var name := if o.nameText.Some? then o.nameText.value else "VIDEO_NAME_NOT_FOUND";
      var backSteps := 3;
      if o.stillOnAnalytics {
        backSteps := backSteps + 1;
      }
      events := events + [Processed(index, videoIndex, "./analytics/" + name, backSteps)];
    }
    assert events + VideosFrom(index, videos, videosCount).0 == events;
  }

  /** One step of the video loop, with the events before it: the event of
      video `v` comes first, and the loop goes on after it unless it aborted. */
  lemma VideoStep(i: nat, vs: seq<VideoObs>, v: nat, before: seq<Event>)
    requires v < |vs|
    ensures var o := vs[v]; var here := VideosFrom(i, vs, v); var next := VideosFrom(i, vs, v + 1);
            && (v >= o.available ==>
                  before + here.0 == (before + [MissingVideo(i, v)]) + next.0 && here.1 == next.1)
            && (v < o.available && Aborts(o) ==> here == ([Aborted(i, v)], true))
            && (v < o.available && !Aborts(o) ==>
                  before + here.0 == (before + [Processed(i, v, Destination(o), BackSteps(o))]) + next.0
                  && here.1 == next.1)
  {
    var o := vs[v];
    var next := VideosFrom(i, vs, v + 1);
    if v >= o.available {
      assert before + ([MissingVideo(i, v)] + next.0) == (before + [MissingVideo(i, v)]) + next.0;
    } else if !Aborts(o) {
      var e := Processed(i, v, Destination(o), BackSteps(o));
      assert before + ([e] + next.0) == (before + [e]) + next.0;
    }
  }

  /** One step of the folder loop, with the text before it: the events of
      folder `i` come first and the walk goes on after it unless it stopped. */
  lemma WalkStep(w: seq<FolderObs>, i: nat, before: seq<Event>)
    requires i < |w|
    ensures var f := w[i]; var rest := WalkFrom(w, i + 1);
            var vr := VideosFrom(i, f.videos, 0);
            && (i >= f.available ==> before + WalkFrom(w, i).0 == before + [NoFolder(i)] && !WalkFrom(w, i).1)
            && (i < f.available && !f.hasVideo ==>
                  before + WalkFrom(w, i).0 == (before + [EmptyFolder(i)]) + rest.0 && WalkFrom(w, i).1 == rest.1)
            && (i < f.available && f.hasVideo && vr.1 ==> before + WalkFrom(w, i).0 == before + vr.0 && WalkFrom(w, i).1)
            && (i < f.available && f.hasVideo && !vr.1 ==>
                  before + WalkFrom(w, i).0 == (before + vr.0 + [FolderDone(i)]) + rest.0 && WalkFrom(w, i).1 == rest.1)
  {
    var f := w[i];
    var rest := WalkFrom(w, i + 1);
    var vr := VideosFrom(i, f.videos, 0);
    if i < f.available && !f.hasVideo {
      assert before + ([EmptyFolder(i)] + rest.0) == (before + [EmptyFolder(i)]) + rest.0;
    } else if i < f.available && f.hasVideo && !vr.1 {
      assert before + (vr.0 + [FolderDone(i)] + rest.0) == (before + vr.0 + [FolderDone(i)]) + rest.0;
    }
  }

  /** The outer loop of `main`, over the folders counted once before the
      loop (one observation each): the events of the walk and whether an
      exception ended it. */
  method Walk(w: seq<FolderObs>) returns (trace: seq<Event>, aborted: bool)
    ensures (trace, aborted) == WalkFrom(w, 0)
  {
    trace, aborted := [], false;
    var folderCount := |w|;
    for index := 0 to folderCount
      invariant trace + WalkFrom(w, index).0 == WalkFrom(w, 0).0
      invariant WalkFrom(w, index).1 == WalkFrom(w, 0).1 && !aborted
    {
      var f := w[index];
      WalkStep(w, index, trace);
      if index >= f.available {
        trace := trace + [NoFolder(index)];
        break;
      }
      if !f.hasVideo {
        trace := trace + [EmptyFolder(index)];
        continue;
      }
      var events;
      events, aborted := VisitVideos(index, f.videos);
      if aborted {
        trace := trace + events;
        return;
      }
      trace := trace + events + [FolderDone(index)];
    }
    assert trace + WalkFrom(w, folderCount).0 == trace;
  }

  // ---------------------------------------------------------------------
  // What the walk does

  /** The event of video `v` of folder `i` is decided by that video's own
      observation: missing when not listed, the abort when the UTM step
      fails, otherwise processed into its destination. */
  predicate VideoEvent(e: Event, i: nat, v: nat, o: VideoObs) {
    if v >= o.available then e == MissingVideo(i, v)
    else if Aborts(o) then e == Aborted(i, v)
    else e == Processed(i, v, Destination(o), BackSteps(o))
  }

  /** The videos are handled one event each, in order from `v`, until one
      aborts: the abort can only be the last event, and without it every
      video has its event. */
  lemma {:induction false} VideosFromShape(i: nat, vs: seq<VideoObs>, v: nat)
    requires v <= |vs|
    ensures var (t, ab) := VideosFrom(i, vs, v);
            && |t| <= |vs| - v
            && (!ab ==> |t| == |vs| - v)
            && (forall k :: 0 <= k < |t| ==> VideoEvent(t[k], i, v + k, vs[v + k]))
            && (forall k :: 0 <= k < |t| - 1 ==> !t[k].Aborted?)
            && (ab <==> |t| > 0 && t[|t| - 1].Aborted?)
    decreases |vs| - v
  {
    if v < |vs| && (v >= vs[v].available || !Aborts(vs[v])) {
      VideosFromShape(i, vs, v + 1);
      var rest := VideosFrom(i, vs, v + 1).0;
      var e := if v >= vs[v].available then MissingVideo(i, v)
               else Processed(i, v, Destination(vs[v]), BackSteps(vs[v]));
      assert VideosFrom(i, vs, v) == ([e] + rest, VideosFrom(i, vs, v + 1).1);
      EventsCons(e, rest, i, vs, v);
    }
  }

  /** One more video event that is not an abort, put in front of the events
      of the later videos, keeps them one per video and in order. */
  lemma EventsCons(e: Event, rest: seq<Event>, i: nat, vs: seq<VideoObs>, v: nat)
    requires v < |vs| && VideoEvent(e, i, v, vs[v]) && !e.Aborted?
    requires |rest| <= |vs| - (v + 1)
    requires forall k :: 0 <= k < |rest| ==> VideoEvent(rest[k], i, v + 1 + k, vs[v + 1 + k])
    requires forall k :: 0 <= k < |rest| - 1 ==> !rest[k].Aborted?
    ensures var t := [e] + rest;
            && (forall k :: 0 <= k < |t| ==> VideoEvent(t[k], i, v + k, vs[v + k]))
            && (forall k :: 0 <= k < |t| - 1 ==> !t[k].Aborted?)
            && (|t| > 0 && t[|t| - 1].Aborted? <==> |rest| > 0 && rest[|rest| - 1].Aborted?)
  {
    var t := [e] + rest;
    forall k | 0 <= k < |t| ensures VideoEvent(t[k], i, v + k, vs[v + k]) {
      if k > 0 { assert t[k] == rest[k - 1]; }
    }
    forall k | 0 <= k < |t| - 1 ensures !t[k].Aborted? {
      if k > 0 { assert t[k] == rest[k - 1]; }
    }
  }

  /** The videos of a folder abort the run exactly when one of them is
      listed and fails the UTM step. */
  lemma {:induction false} VideosAbortIff(i: nat, vs: seq<VideoObs>, v: nat)
    requires v <= |vs|
    ensures VideosFrom(i, vs, v).1 <==> exists u :: v <= u < |vs| && u < vs[u].available && Aborts(vs[u])
    decreases |vs| - v
  {
    if v < |vs| {
      VideosAbortIff(i, vs, v + 1);
    }
  }

  /** The events of the folders before `j`, in folder order. */
  function EventsBefore(w: seq<FolderObs>, j: nat): seq<Event>
    requires j <= |w|
  {
    if j == 0 then [] else EventsBefore(w, j - 1) + FolderEvents(j - 1, w[j - 1]).0
  }

  /** A folder stops the folder loop exactly when it is not listed or one
      of its videos aborts; an empty folder or a missing video does not. */
  lemma StopsIff(i: nat, f: FolderObs)
    ensures FolderEvents(i, f).2 <==>
              i >= f.available
              || (f.hasVideo && exists u :: 0 <= u < |f.videos| && u < f.videos[u].available && Aborts(f.videos[u]))
    ensures FolderEvents(i, f).1 ==> FolderEvents(i, f).2
  {
    VideosAbortIff(i, f.videos, 0);
  }

  /** A folder is reached when no folder before it stops the loop: the
      walk's events are those of the earlier folders, then the walk from it. */
  lemma {:induction false} WalkReaches(w: seq<FolderObs>, j: nat)
    requires j <= |w|
    requires forall i :: 0 <= i < j ==> !FolderEvents(i, w[i]).2
    ensures WalkFrom(w, 0).0 == EventsBefore(w, j) + WalkFrom(w, j).0
    ensures WalkFrom(w, 0).1 == WalkFrom(w, j).1
  {
    if j > 0 {
      WalkReaches(w, j - 1);
      var fe := FolderEvents(j - 1, w[j - 1]);
      assert WalkFrom(w, j - 1).0 == fe.0 + WalkFrom(w, j).0;
    }
  }

  /** Every event of the walk from folder `i` names a folder from `i` on,
      the folders in order, and the walk stops (folder not listed, or an
      abort) only at its last event; it aborted exactly when that event is
      an abort. */
  lemma {:induction false} WalkShape(w: seq<FolderObs>, i: nat)
    ensures var (t, ab) := WalkFrom(w, i);
            && (forall k :: 0 <= k < |t| ==> i <= t[k].folder < |w|)
            && (forall k1, k2 :: 0 <= k1 <= k2 < |t| ==> t[k1].folder <= t[k2].folder)
            && (forall k :: 0 <= k < |t| - 1 ==> !t[k].NoFolder? && !t[k].Aborted?)
            && (ab <==> |t| > 0 && t[|t| - 1].Aborted?)
    decreases |w| - i
  {
    if i < |w| {
      var fe := FolderEvents(i, w[i]);
      FolderShape(i, w[i]);
      if !fe.2 {
        WalkShape(w, i + 1);
        ShapeAppend(fe.0, WalkFrom(w, i + 1).0, i, |w|);
      }
    }
  }

  /** The events of one folder all name it; a folder that does not stop
      the loop has neither a missing-folder event nor an abort, and one
      that stops has them only as its last event. */
  lemma FolderShape(i: nat, f: FolderObs)
    ensures var (t, ab, stops) := FolderEvents(i, f);
            && (forall k :: 0 <= k < |t| ==> t[k].folder == i)
            && (forall k :: 0 <= k < (if stops then |t| - 1 else |t|) ==> !t[k].NoFolder? && !t[k].Aborted?)
            && (stops ==> (ab <==> |t| > 0 && t[|t| - 1].Aborted?))
  {
    if i < f.available && f.hasVideo {
      VideosFromShape(i, f.videos, 0);
    }
  }

  /** The shape facts of a folder's events followed by the walk after it. */
  lemma ShapeAppend(own: seq<Event>, rest: seq<Event>, i: nat, n: nat)
    requires i < n
    requires forall k :: 0 <= k < |own| ==> own[k].folder == i
    requires forall k :: 0 <= k < |own| ==> !own[k].NoFolder? && !own[k].Aborted?
    requires forall k :: 0 <= k < |rest| ==> i + 1 <= rest[k].folder < n
    requires forall k1, k2 :: 0 <= k1 <= k2 < |rest| ==> rest[k1].folder <= rest[k2].folder
    requires forall k :: 0 <= k < |rest| - 1 ==> !rest[k].NoFolder? && !rest[k].Aborted?
    ensures var t := own + rest;
            && (forall k :: 0 <= k < |t| ==> i <= t[k].folder < n)
            && (forall k1, k2 :: 0 <= k1 <= k2 < |t| ==> t[k1].folder <= t[k2].folder)
            && (forall k :: 0 <= k < |t| - 1 ==> !t[k].NoFolder? && !t[k].Aborted?)
            && (|t| > 0 && t[|t| - 1].Aborted? <==> |rest| > 0 && rest[|rest| - 1].Aborted?)
  {
  }

  /** The number of videos processed in a trace. */
  function ProcessedCount(t: seq<Event>): nat {
    if t == [] then 0 else (if t[0].Processed? then 1 else 0) + ProcessedCount(t[1..])
  }

  lemma {:induction false} ProcessedCountAppend(a: seq<Event>, b: seq<Event>)
    ensures ProcessedCount(a + b) == ProcessedCount(a) + ProcessedCount(b)
    decreases |a|
  {
    if a != [] {
      assert (a + b)[1..] == a[1..] + b;
      ProcessedCountAppend(a[1..], b);
    } else {
      assert a + b == b;
    }
  }

  lemma {:induction false} ProcessedCountAll(t: seq<Event>)
    requires forall k :: 0 <= k < |t| ==> t[k].Processed?
    ensures ProcessedCount(t) == |t|
    decreases |t|
  {
    if t != [] {
      assert t[0].Processed?;
      ProcessedCountAll(t[1..]);
    }
  }

  /** Every folder is listed and has videos, and every video is listed and
      gets through the UTM step. */
  predicate AllGood(w: seq<FolderObs>) {
    forall i :: 0 <= i < |w| ==>
      i < w[i].available && w[i].hasVideo
      && forall v :: 0 <= v < |w[i].videos| ==> v < w[i].videos[v].available && !Aborts(w[i].videos[v])
  }

  /** The videos counted in the folders from `i` on. */
  function TotalVideos(w: seq<FolderObs>, i: nat): nat
    decreases |w| - i
  {
    if i >= |w| then 0 else |w[i].videos| + TotalVideos(w, i + 1)
  }

  /** When everything the browser shows is as expected, the walk does not
      abort and processes every video of every folder. */
  lemma {:induction false} AllGoodProcessesAll(w: seq<FolderObs>, i: nat)
    requires AllGood(w)
    ensures !WalkFrom(w, i).1
    ensures ProcessedCount(WalkFrom(w, i).0) == TotalVideos(w, i)
    decreases |w| - i
  {
    if i < |w| {
      var vs := w[i].videos;
      VideosAbortIff(i, vs, 0);
      VideosFromShape(i, vs, 0);
      var t := VideosFrom(i, vs, 0).0;
      assert forall k :: 0 <= k < |t| ==> t[k].Processed? by {
        forall k | 0 <= k < |t| ensures t[k].Processed? {
          assert VideoEvent(t[k], i, k, vs[k]);
        }
      }
      ProcessedCountAll(t);
      ProcessedCountAppend(t, [FolderDone(i)]);
      assert ProcessedCount([FolderDone(i)]) == 0;
      AllGoodProcessesAll(w, i + 1);
      ProcessedCountAppend(t + [FolderDone(i)], WalkFrom(w, i + 1).0);
    }
  }

  // ---------------------------------------------------------------------
  // Registering the run

  /** The records a run adds to the table, one per registration. */
  function RecordsOf(day: int, time: SecOfDay, registrations: seq<bool>): (r: seq<Execution>)
    ensures |r| == |registrations|
    ensures forall k :: 0 <= k < |r| ==> r[k].date == day && r[k].time == time && r[k].success == registrations[k]
  {
    seq(|registrations|, k requires 0 <= k < |registrations| => Execution(day, time, registrations[k]))
  }

  /** The registrations of `main` as written, for a run that got to the
      summary (`completes`) or not: a failure on the way registers one failed
      run; a run that completes registers a success, and when closing the
      browser then raises, the handler registers a failure too. */
  function RegistrationsAsWritten(completes: bool, closeOk: bool): (r: seq<bool>)
    ensures 1 <= |r| <= 2 && r[0] == completes
    ensures |r| == 2 <==> completes && !closeOk
    ensures |r| == 2 ==> !r[1]
  {
    if !completes then [false] else if closeOk then [true] else [true, false]
  }

  /** The records of each case of `RegistrationsAsWritten`, written out. */
  lemma RecordsAsWritten(day: int, time: SecOfDay, completes: bool, closeOk: bool)
    ensures var success, failure := Execution(day, time, true), Execution(day, time, false);
            RecordsOf(day, time, RegistrationsAsWritten(completes, closeOk))
            == if !completes then [failure] else if closeOk then [success] else [success, failure]
  {
    var r := RecordsOf(day, time, RegistrationsAsWritten(completes, closeOk));
    assert |r| == |RegistrationsAsWritten(completes, closeOk)|;
  }

  /** A completed run whose browser fails to close is registered twice,
      once as a success and once as a failure. */
  lemma CloseFailureRegistersTwice(es: seq<Execution>, day: int, time: SecOfDay)
    ensures var r := es + RecordsOf(day, time, RegistrationsAsWritten(true, false));
            |r| == |es| + 2 && r[|es|] == Execution(day, time, true) && r[|es| + 1] == Execution(day, time, false)
  {
  }

  /** Every run registered exactly once, with whether it completed. */
  function Registrations(completes: bool): (r: seq<bool>)
    ensures |r| == 1 && r[0] == completes
  {
    [completes]
  }

  /** The two agree except on a completed run whose browser fails to
      close; there the extra failed record does not change the gate. */
  lemma RegistrationsAgree(es: seq<Execution>, completes: bool, closeOk: bool, day: int, time: SecOfDay,
                           today: int, now: SecOfDay)
    ensures (!completes || closeOk) <==> RegistrationsAsWritten(completes, closeOk) == Registrations(completes)
    ensures Allowed(es + RecordsOf(day, time, RegistrationsAsWritten(completes, closeOk)), today, now)
            == Allowed(es + RecordsOf(day, time, Registrations(completes)), today, now)
  {
    if completes && !closeOk {
      var one := es + RecordsOf(day, time, [true]);
      assert es + RecordsOf(day, time, [true, false]) == one + [Execution(day, time, false)] + [];
      IrrelevantRecord(one, Execution(day, time, false), [], today, now);
      assert one + [] == one;
    }
  }

  // ---------------------------------------------------------------------
  // The run

  /** The events of a run and whether it gets to the summary: a run whose
      setup fails walks nothing; otherwise it completes unless the walk aborts. */
  function Outcome(setupOk: bool, w: seq<FolderObs>): (r: (seq<Event>, bool))
    ensures r.1 <==> setupOk && !WalkFrom(w, 0).1
    ensures !setupOk ==> r.0 == []
  {
    if setupOk then (WalkFrom(w, 0).0, !WalkFrom(w, 0).1) else ([], false)
  }

  /** The `try` block of `main` and its handler, once the gate let the run
      through: walk when the setup goes through; when the run completes, stop
      the total timer, build the summary, register a success and close the
      browser, which may raise (`closeOk` false) and so register a failure
      as well; a run that does not complete registers a failure. */
  method Execute(m: ExecutionManager, lg: Logging.Logger, setupOk: bool, w: seq<FolderObs>, closeOk: bool,
                 endDay: int, endTime: SecOfDay, endClock: int)
    returns (trace: seq<Event>, summary: Option<string>)
    requires "execucao_total" in lg.startTimes
    modifies m, lg`startTimes
    ensures trace == Outcome(setupOk, w).0
    ensures m.executions == old(m.executions)
                            + RecordsOf(endDay, endTime, RegistrationsAsWritten(Outcome(setupOk, w).1, closeOk))
    ensures summary == if Outcome(setupOk, w).1
                       then Some(TimeSummary(endClock - old(lg.startTimes["execucao_total"]))) else None
    ensures ("execucao_total" in lg.startTimes) <==> !Outcome(setupOk, w).1
  {
    ghost var started := lg.startTimes["execucao_total"];
    trace, summary := [], None;
    var aborted := true;
    if setupOk {
      trace, aborted := Walk(w);
    }
    assert (trace, !aborted) == Outcome(setupOk, w);
    var completes := !aborted;
    ghost var before := m.executions;
    ghost var success, failure := Execution(endDay, endTime, true), Execution(endDay, endTime, false);
    if completes {
      var totalTime := lg.EndTimer("execucao_total", endClock);
      assert totalTime == endClock - started;
      summary := Some(TimeSummary(totalTime));
      assert summary == Some(TimeSummary(endClock - old(lg.startTimes["execucao_total"])));
      m.RegisterExecution(endDay, endTime, true);
      if !closeOk {
        m.RegisterExecution(endDay, endTime, false);
        assert m.executions == before + [success, failure];
      }
    } else {
      m.RegisterExecution(endDay, endTime, false);
    }
    RecordsAsWritten(endDay, endTime, completes, closeOk);
  }

  /** `main`, with what the browser shows given as observations: `setupOk`
      says whether loading the environment, opening the browser and logging
      in go through, `w` is what each folder shows and `closeOk` whether
      closing the browser goes through; the clock readings at the start and
      at the end are parameters. */
  method Run(m: ExecutionManager, lg: Logging.Logger, today: int, now: SecOfDay, startClock: int,
             setupOk: bool, w: seq<FolderObs>, closeOk: bool, endDay: int, endTime: SecOfDay, endClock: int)
    returns (ran: bool, trace: seq<Event>, summary: Option<string>)
    modifies m, lg`startTimes
    ensures ran == Allowed(Prune(old(m.executions), today - 7), today, now)
    ensures !ran ==> m.executions == Prune(old(m.executions), today - 7) && trace == [] && summary == None
    ensures ran ==>
              && trace == Outcome(setupOk, w).0
              && m.executions == Prune(old(m.executions), today - 7)
                                 + RecordsOf(endDay, endTime, RegistrationsAsWritten(Outcome(setupOk, w).1, closeOk))
              && summary == if Outcome(setupOk, w).1 then Some(TimeSummary(endClock - startClock)) else None
    ensures ("execucao_total" in lg.startTimes) <==> !(ran && Outcome(setupOk, w).1)
  {
    lg.StartTimer("execucao_total", startClock);
    m.ClearOldRecords(today, 7);
    ran := m.ShouldExecute(today, now);
    trace, summary := [], None;
    if ran {
      trace, summary := Execute(m, lg, setupOk, w, closeOk, endDay, endTime, endClock);
    }
  }

  /** After a run that completed, a start later that day in the same period
      is refused, even after the next purge of old records, whether or not
      closing the browser added a failed record. */
  lemma CompletedRunBlocksPeriod(es: seq<Execution>, today: int, t: SecOfDay, now: SecOfDay, closeOk: bool)
    requires InMorning(t) == InMorning(now)
    ensures var kept := Prune(es, today - 7) + RecordsOf(today, t, RegistrationsAsWritten(true, closeOk));
            !Allowed(Prune(kept, today - 7), today, now)
  {
    var p := Prune(es, today - 7);
    var recs := RecordsOf(today, t, RegistrationsAsWritten(true, closeOk));
    var success, failure := Execution(today, t, true), Execution(today, t, false);
    RecordsAsWritten(today, t, true, closeOk);
    PruneAppend(p, recs, today - 7);
    PruneIdempotent(es, today - 7);
    PruneNothingOld(recs, today - 7);
    assert Prune(p + recs, today - 7) == p + recs;
    RegisteredRunBlocks(p, today, t, now);
    if !closeOk {
      assert p + recs == (p + [success]) + [failure] + [];
      IrrelevantRecord(p + [success], failure, [], today, now);
      assert (p + [success]) + [] == p + [success];
    }
  }

  /** After a run that failed, the next start is allowed or refused exactly
      as it would have been before the run. */
  lemma FailedRunRetried(es: seq<Execution>, today: int, t: SecOfDay, d: int, now: SecOfDay, closeOk: bool)
    ensures var kept := Prune(es, today - 7);
            Allowed(Prune(kept + RecordsOf(today, t, RegistrationsAsWritten(false, closeOk)), today - 7), d, now)
            == Allowed(kept, d, now)
  {
    var kept := Prune(es, today - 7);
    var e := Execution(today, t, false);
    RecordsAsWritten(today, t, false, closeOk);
    PruneAppend(kept, [e], today - 7);
    PruneIdempotent(es, today - 7);
    assert Prune([e], today - 7) == [e];
    IrrelevantRecord(kept, e, [], d, now);
    assert kept + [e] + [] == kept + [e] && kept + [] == kept;
  }
}
