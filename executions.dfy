/** The run gate: a table of execution records and the rule that allows one
    successful run in the window [05:00, 17:00) and one outside it, each day. */
module Executions {
  import opened Text

  /** A time of day in whole seconds, the resolution of the stored `%H:%M:%S`. */
  type SecOfDay = t: int | 0 <= t < 86400

  /** `datetime.time(5, 0)` and `datetime.time(17, 0)`. */
  const MorningStart: SecOfDay := 5 * 3600
  const MorningEnd: SecOfDay := 17 * 3600

  /** One row of the `executions` table. `date` is a day number, so that the
      order of days is the order of their ISO `YYYY-MM-DD` texts. */
  datatype Execution = Execution(date: int, time: SecOfDay, success: bool)

  function Clock(h: nat, m: nat, s: nat): (t: SecOfDay)
    requires h < 24 && m < 60 && s < 60
    ensures t / 3600 == h && t % 3600 / 60 == m && t % 60 == s
  {
    var below := m * 60 + s;
    DivMod3600(h, below);
    DivMod60(m, s);
    DivMod60(h * 60 + m, s);
    h * 3600 + below
  }

  /** Quotient and remainder by 3600 of a number written as `q * 3600 + r`. */
  lemma DivMod3600(q: int, r: int)
    requires 0 <= r < 3600
    ensures (q * 3600 + r) / 3600 == q && (q * 3600 + r) % 3600 == r
  {
  }

  /** Quotient and remainder by 60 of a number written as `q * 60 + r`. */
  lemma DivMod60(q: int, r: int)
    requires 0 <= r < 60
    ensures (q * 60 + r) / 60 == q && (q * 60 + r) % 60 == r
  {
  }

  // ---------------------------------------------------------------------
  // The stored `time` text

  /** `time.strftime('%H:%M:%S')`. */
  function FormatClock(t: SecOfDay): (r: string)
    ensures |r| == 8 && r[2] == ':' && r[5] == ':'
  {
    Pad2(t / 3600) + ":" + Pad2(t % 3600 / 60) + ":" + Pad2(t % 60)
  }

  /** `strptime(text, '%H:%M:%S')` on the two-digit form that `FormatClock`
      writes; any other text is rejected. */
  function ParseClock(s: string): (r: Option<SecOfDay>)
    ensures r.Some? ==> |s| == 8 && s[2] == ':' && s[5] == ':'
                        && AllDigits(s[0..2]) && AllDigits(s[3..5]) && AllDigits(s[6..8])
                        && r.value / 3600 == DigitsValue(s[0..2])
                        && r.value % 3600 / 60 == DigitsValue(s[3..5])
                        && r.value % 60 == DigitsValue(s[6..8])
  {
    if |s| == 8 && s[2] == ':' && s[5] == ':'
       && AllDigits(s[0..2]) && AllDigits(s[3..5]) && AllDigits(s[6..8])
    then
      var h, m, sec := DigitsValue(s[0..2]), DigitsValue(s[3..5]), DigitsValue(s[6..8]);
      if h < 24 && m < 60 && sec < 60 then Some(Clock(h, m, sec)) else None
    else None
  }

  /** Quotient and remainder by 10 of a number written as `q * 10 + r`. */
  lemma DivMod10(q: int, r: int)
    requires 0 <= r < 10
    ensures (q * 10 + r) / 10 == q && (q * 10 + r) % 10 == r
  {
  }

  /** The two-digit `%02d` text of a number below 100, digit by digit. */
  lemma Pad2Digits(a: nat, b: nat)
    requires a < 10 && b < 10
    ensures Pad2(a * 10 + b) == [DigitChar(a), DigitChar(b)]
  {
    DivMod10(a, b);
    if a == 0 {
      assert a * 10 + b == b;
      assert Pad2(b) == "0" + [DigitChar(b)];
    } else {
      assert NatToString(a * 10 + b) == NatToString(a) + [DigitChar(b)];
    }
  }

  /** Two digits are the `%02d` text of the number they denote. */
  lemma TwoDigitsCanonical(d: string)
    requires |d| == 2 && AllDigits(d)
    ensures DigitsValue(d) < 100 && Pad2(DigitsValue(d)) == d
  {
    var a, b := DigitValue(d[0]), DigitValue(d[1]);
    assert d[..1] == [d[0]] && d[..1][..0] == [];
    assert DigitsValue(d[..1]) == a;
    assert DigitsValue(d) == a * 10 + b;
    Pad2Digits(a, b);
    assert DigitChar(a) == d[0] && DigitChar(b) == d[1];
    assert d == [d[0], d[1]];
  }

  /** The text written for a time reads back as that time. */
  lemma ClockRoundTrip(t: SecOfDay)
    ensures ParseClock(FormatClock(t)) == Some(t)
  {
    var h, m, sec := t / 3600, t % 3600 / 60, t % 60;
    var s := FormatClock(t);
    Fields(Pad2(h), Pad2(m), Pad2(sec));
    Pad2Value(h);
    Pad2Value(m);
    Pad2Value(sec);
    assert h * 3600 + m * 60 + sec == t;
  }

  lemma Fields(a: string, b: string, c: string)
    requires |a| == 2 && |b| == 2 && |c| == 2
    ensures var s := a + ":" + b + ":" + c;
            s[0..2] == a && s[3..5] == b && s[6..8] == c && |s| == 8 && s[2] == ':' && s[5] == ':'
  {
  }

  /** Every text that parses is the one `FormatClock` writes for its time. */
  lemma ClockCanonical(s: string, t: SecOfDay)
    requires ParseClock(s) == Some(t)
    ensures FormatClock(t) == s
  {
    TwoDigitsCanonical(s[0..2]);
    TwoDigitsCanonical(s[3..5]);
    TwoDigitsCanonical(s[6..8]);
    assert s == s[0..2] + ":" + s[3..5] + ":" + s[6..8];
  }

  // ---------------------------------------------------------------------
  // The decision rule

  /** The morning window [05:00, 17:00): the hours 5 to 16. */
  function InMorning(t: SecOfDay): (r: bool)
    ensures r <==> 5 <= t / 3600 <= 16
  {
    MorningStart <= t < MorningEnd
  }

  /** The window is half-open: 05:00 and 16:59:59 are in it, 17:00 and 04:59:59
      are not, and a night run at 02:00 belongs to the afternoon period. */
  lemma WindowEdges()
    ensures InMorning(Clock(5, 0, 0)) && InMorning(Clock(16, 59, 59))
    ensures !InMorning(Clock(17, 0, 0)) && !InMorning(Clock(4, 59, 59))
    ensures !InMorning(Clock(2, 0, 0))
  {
  }

  /** A record that the gate looks at: successful, dated today. */
  predicate Qualifies(e: Execution, today: int) {
    e.success && e.date == today
  }

  /** The table's `search(success == True & date == today)`, in table order. */
  function TodaysSuccesses(es: seq<Execution>, today: int): (r: seq<Execution>)
    ensures |r| <= |es|
    ensures forall e :: e in r <==> e in es && Qualifies(e, today)
    decreases |es|
  {
    if es == [] then []
    else
      var rest := TodaysSuccesses(es[1..], today);
      assert forall e :: e in es <==> e == es[0] || e in es[1..];
      if Qualifies(es[0], today) then [es[0]] + rest else rest
  }

  /** Some qualifying record of `today` falls in the given period. */
  ghost predicate RanIn(es: seq<Execution>, today: int, morning: bool) {
    exists i :: 0 <= i < |es| && Qualifies(es[i], today) && InMorning(es[i].time) == morning
  }

  /** The gate's answer at time `now` of day `today`: run unless a qualifying
      record already exists for the current period. */
  ghost predicate Allowed(es: seq<Execution>, today: int, now: SecOfDay) {
    !RanIn(es, today, InMorning(now))
  }

  /** A record that does not qualify (failed, or of another day) can be added
      anywhere without changing the answer. */
  lemma IrrelevantRecord(a: seq<Execution>, e: Execution, b: seq<Execution>, today: int, now: SecOfDay)
    requires !Qualifies(e, today)
    ensures Allowed(a + [e] + b, today, now) == Allowed(a + b, today, now)
  {
    var m := InMorning(now);
    var long, short := a + [e] + b, a + b;
    if RanIn(long, today, m) {
      var i :| 0 <= i < |long| && Qualifies(long[i], today) && InMorning(long[i].time) == m;
      var j := if i < |a| then i else i - 1;
      assert short[j] == long[i];
    }
    if RanIn(short, today, m) {
      var j :| 0 <= j < |short| && Qualifies(short[j], today) && InMorning(short[j].time) == m;
      var i := if j < |a| then j else j + 1;
      assert long[i] == short[j];
    }
  }

  /** After a successful run is registered at `t`, the gate refuses every
      later time of the same day and period. */
  lemma RegisteredRunBlocks(es: seq<Execution>, today: int, t: SecOfDay, now: SecOfDay)
    requires InMorning(t) == InMorning(now)
    ensures !Allowed(es + [Execution(today, t, true)], today, now)
  {
    var es' := es + [Execution(today, t, true)];
    assert Qualifies(es'[|es|], today) && InMorning(es'[|es|].time) == InMorning(now);
  }

  /** A run registered in the other period does not change the answer. */
  lemma OtherPeriodUnaffected(es: seq<Execution>, today: int, t: SecOfDay, now: SecOfDay)
    requires InMorning(t) != InMorning(now)
    ensures Allowed(es + [Execution(today, t, true)], today, now) == Allowed(es, today, now)
  {
    var m := InMorning(now);
    var es' := es + [Execution(today, t, true)];
    if RanIn(es', today, m) {
      var i :| 0 <= i < |es'| && Qualifies(es'[i], today) && InMorning(es'[i].time) == m;
      assert i < |es| && es[i] == es'[i];
    }
    if RanIn(es, today, m) {
      var i :| 0 <= i < |es| && Qualifies(es[i], today) && InMorning(es[i].time) == m;
      assert es'[i] == es[i];
    }
  }

  /** The number of qualifying records of day `d` in one period. */
  function CountIn(es: seq<Execution>, d: int, morning: bool): nat
    decreases |es|
  {
    if es == [] then 0
    else CountIn(es[..|es| - 1], d, morning)
         + (if Qualifies(es[|es| - 1], d) && InMorning(es[|es| - 1].time) == morning then 1 else 0)
  }

  lemma {:induction false} CountInZero(es: seq<Execution>, d: int, morning: bool)
    ensures CountIn(es, d, morning) == 0 <==> !RanIn(es, d, morning)
    decreases |es|
  {
    if es != [] {
      var init := es[..|es| - 1];
      CountInZero(init, d, morning);
      if RanIn(init, d, morning) {
        var i :| 0 <= i < |init| && Qualifies(init[i], d) && InMorning(init[i].time) == morning;
        assert es[i] == init[i];
      }
      if RanIn(es, d, morning) {
        var i :| 0 <= i < |es| && Qualifies(es[i], d) && InMorning(es[i].time) == morning;
        if i < |init| { assert init[i] == es[i]; }
      }
    }
  }

  /** One invocation of the program: it asks the gate at (`day`, `time`) and,
      when allowed, runs and registers the run with its success flag at the
      moment it ends, (`endDay`, `endTime`), as `register_execution` reads
      the clock only then. */
  datatype Attempt = Attempt(day: int, time: SecOfDay, endDay: int, endTime: SecOfDay, succeeds: bool)

  ghost function Simulate(es: seq<Execution>, attempts: seq<Attempt>): seq<Execution>
    decreases |attempts|
  {
    if attempts == [] then es
    else
      var a := attempts[0];
      var es' := if Allowed(es, a.day, a.time) then es + [Execution(a.endDay, a.endTime, a.succeeds)] else es;
      Simulate(es', attempts[1..])
  }

  /** The run ends on the day and in the period it started in. */
  predicate EndsInItsPeriod(a: Attempt) {
    a.endDay == a.day && InMorning(a.endTime) == InMorning(a.time)
  }

  /** However often the program is started, each day gets at most one
      successful run per period, as long as every run ends in the period
      it started in. */
  lemma {:induction false} OncePerPeriod(es: seq<Execution>, attempts: seq<Attempt>, d: int, morning: bool)
    requires CountIn(es, d, morning) <= 1
    requires forall k :: 0 <= k < |attempts| ==> EndsInItsPeriod(attempts[k])
    ensures CountIn(Simulate(es, attempts), d, morning) <= 1
    decreases |attempts|
  {
    if attempts != [] {
      var a := attempts[0];
      assert EndsInItsPeriod(a);
      assert forall k :: 0 <= k < |attempts[1..]| ==> attempts[1..][k] == attempts[k + 1];
      if Allowed(es, a.day, a.time) {
        var es' := es + [Execution(a.endDay, a.endTime, a.succeeds)];
        assert es'[..|es'| - 1] == es;
        if a.succeeds && a.endDay == d && InMorning(a.endTime) == morning {
          CountInZero(es, d, morning);
        }
        OncePerPeriod(es', attempts[1..], d, morning);
      } else {
        OncePerPeriod(es, attempts[1..], d, morning);
      }
    }
  }

  /** A run that starts before 17:00 and ends after it is registered in the
      afternoon period, so a day can get two successful afternoon runs: one
      at 02:00 that ends at 02:30, then one at 16:50 that ends at 17:10. */
  lemma LateEndSecondSuccess(d: int)
    ensures var attempts := [Attempt(d, Clock(2, 0, 0), d, Clock(2, 30, 0), true),
                             Attempt(d, Clock(16, 50, 0), d, Clock(17, 10, 0), true)];
            CountIn(Simulate([], attempts), d, false) == 2
  {
    var a0 := Attempt(d, Clock(2, 0, 0), d, Clock(2, 30, 0), true);
    var a1 := Attempt(d, Clock(16, 50, 0), d, Clock(17, 10, 0), true);
    var e0, e1 := Execution(d, Clock(2, 30, 0), true), Execution(d, Clock(17, 10, 0), true);
    assert Allowed([], d, a0.time);
    assert !InMorning(e0.time) && InMorning(a1.time) && !InMorning(e1.time);
    assert Allowed([e0], d, a1.time);
    assert [a0, a1][0] == a0 && [a0, a1][1..] == [a1] && [a1][1..] == [];
    assert [] + [e0] == [e0] && [e0] + [e1] == [e0, e1];
    assert Simulate([e0, e1], []) == [e0, e1];
    assert Simulate([e0], [a1]) == Simulate([e0, e1], []);
    assert Simulate([], [a0, a1]) == Simulate([e0], [a1]);
    assert [e0, e1][..1] == [e0] && [e0][..0] == [];
    assert CountIn([], d, false) == 0;
    assert CountIn([e0], d, false) == 1;
    assert CountIn([e0, e1], d, false) == 2;
  }

  // ---------------------------------------------------------------------
  // Purging old records

  /** The table's `remove(date < cutoff)`: the records kept, in table order. */
  function Prune(es: seq<Execution>, cutoff: int): (r: seq<Execution>)
    ensures |r| <= |es|
    ensures forall e :: e in r <==> e in es && e.date >= cutoff
    decreases |es|
  {
    if es == [] then []
    else
      var rest := Prune(es[1..], cutoff);
      assert forall e :: e in es <==> e == es[0] || e in es[1..];
      if es[0].date < cutoff then rest else [es[0]] + rest
  }

  /** Pruning works record by record, so it keeps the table order. */
  lemma {:induction false} PruneAppend(a: seq<Execution>, b: seq<Execution>, cutoff: int)
    ensures Prune(a + b, cutoff) == Prune(a, cutoff) + Prune(b, cutoff)
    decreases |a|
  {
    if a != [] {
      assert (a + b)[0] == a[0] && (a + b)[1..] == a[1..] + b;
      PruneAppend(a[1..], b, cutoff);
      var head := if a[0].date < cutoff then [] else [a[0]];
      assert Prune(a + b, cutoff) == head + Prune(a[1..] + b, cutoff);
      assert Prune(a, cutoff) == head + Prune(a[1..], cutoff);
    } else {
      assert a + b == b;
    }
  }

  /** A table without old records is left as it is. */
  lemma {:induction false} PruneNothingOld(es: seq<Execution>, cutoff: int)
    requires forall i :: 0 <= i < |es| ==> es[i].date >= cutoff
    ensures Prune(es, cutoff) == es
    decreases |es|
  {
    if es != [] {
      PruneNothingOld(es[1..], cutoff);
    }
  }

  /** Pruning twice with the same cutoff prunes nothing more. */
  lemma PruneIdempotent(es: seq<Execution>, cutoff: int)
    ensures Prune(Prune(es, cutoff), cutoff) == Prune(es, cutoff)
  {
    var r := Prune(es, cutoff);
    assert forall i :: 0 <= i < |r| ==> r[i] in r;
    PruneNothingOld(r, cutoff);
  }

  // ---------------------------------------------------------------------
  // The table

  class ExecutionManager {
    /** The rows of the `executions` table, in insertion order. */
    var executions: seq<Execution>

    /** Opens the table with the rows already stored in it. */
    constructor (stored: seq<Execution>)
      ensures executions == stored
    {
      executions := stored;
    }

    /** `should_execute` at time `now` of day `today`. */
    method ShouldExecute(today: int, now: SecOfDay) returns (r: bool)
      ensures r == Allowed(executions, today, now)
    {
      var lastSuccessful := TodaysSuccesses(executions, today);
      var morningPeriod := InMorning(now);
      var morningExecution := false;
      var afternoonExecution := false;
      for i := 0 to |lastSuccessful|
        invariant morningExecution <==> exists j :: 0 <= j < i && InMorning(lastSuccessful[j].time)
        invariant afternoonExecution <==> exists j :: 0 <= j < i && !InMorning(lastSuccessful[j].time)
      {
        if InMorning(lastSuccessful[i].time) {
          morningExecution := true;
        } else {
          afternoonExecution := true;
        }
      }
      SearchMatchesRanIn(executions, today, true, lastSuccessful);
      SearchMatchesRanIn(executions, today, false, lastSuccessful);
      if morningPeriod && !morningExecution {
        return true;
      }
      if !morningPeriod && !afternoonExecution {
        return true;
      }
      return false;
    }

    /** `register_execution(success)` at time `now` of day `today`. */
    method RegisterExecution(today: int, now: SecOfDay, success: bool)
      modifies this
      ensures executions == old(executions) + [Execution(today, now, success)]
    {
      executions := executions + [Execution(today, now, success)];
    }

    /** `clear_old_records(days)` on day `today`. */
    method ClearOldRecords(today: int, days: int)
      modifies this
      ensures executions == Prune(old(executions), today - days)
    {
      executions := Prune(executions, today - days);
    }
  }

  lemma SearchMatchesRanIn(es: seq<Execution>, today: int, morning: bool, ls: seq<Execution>)
    requires ls == TodaysSuccesses(es, today)
    ensures (exists j :: 0 <= j < |ls| && InMorning(ls[j].time) == morning) <==> RanIn(es, today, morning)
  {
    if exists j :: 0 <= j < |ls| && InMorning(ls[j].time) == morning {
      var j :| 0 <= j < |ls| && InMorning(ls[j].time) == morning;
      assert ls[j] in ls;
      var i :| 0 <= i < |es| && es[i] == ls[j];
      assert Qualifies(es[i], today) && InMorning(es[i].time) == morning;
    }
    if RanIn(es, today, morning) {
      var i :| 0 <= i < |es| && Qualifies(es[i], today) && InMorning(es[i].time) == morning;
      assert es[i] in es;
      assert es[i] in ls;
      var j :| 0 <= j < |ls| && ls[j] == es[i];
      assert InMorning(ls[j].time) == morning;
    }
  }
}
