/**
 * Reminder scheduling and the daily refresh of salatime.py: the global job
 * list of the `schedule` library as a class field, `schedule_notifications`
 * appending one reminder per upcoming Iqama, and `main` clearing the list
 * before re-registering.
 * Clock times are minutes of the day, "now" is seconds of the day.
 */
module Scheduler {
  import opened Strings
  import opened Decoder
  import opened Scraper

  // ---------------------------------------------------------------------
  // "HH:MM" texts
  // ---------------------------------------------------------------------

  /** A clock text that splitting at ':', `int()` and `datetime.replace`
      accept: two hour digits 00-23, a colon, then one or two minute digits
      whose value is at most 59. `format_time` of a three-character window
      gives the one-digit form ("12:3" for "123"). */
  predicate IsClock(s: string)
  {
    (|s| == 4 || |s| == 5) && s[2] == ':' && AllDigits(s[..2]) && AllDigits(s[3..])
    && ParseDigits(s[..2]) <= 23 && ParseDigits(s[3..]) <= 59
  }

  /** Minutes after midnight of a clock text, "HH:MM" or "HH:M". */
  function ClockMinutes(s: string): (m: nat)
    requires IsClock(s)
    ensures m < 1440
  {
    ParseDigits(s[..2]) * 60 + ParseDigits(s[3..])
  }

  /** `strftime('%H:%M')` of a minute of the day. */
  function ClockText(m: nat): (r: string)
    requires m < 1440
    ensures |r| == 5 && r[2] == ':' && AllDigits(r[..2]) && AllDigits(r[3..])
  {
    Digits(m / 60, 2) + ":" + Digits(m % 60, 2)
  }

  /** Formatting a minute of the day and reading it back gives that minute. */
  lemma ClockTextRoundTrip(m: nat)
    requires m < 1440
    ensures IsClock(ClockText(m)) && ClockMinutes(ClockText(m)) == m
  {
    var s := ClockText(m);
    assert s[..2] == Digits(m / 60, 2);
    assert s[3..] == Digits(m % 60, 2);
    ParseDigitsOfDigits(m / 60, 2);
    ParseDigitsOfDigits(m % 60, 2);
  }

  /** One digit padded to width two gets a leading '0'. */
  lemma PadDigit(c: char)
    requires IsDigit(c)
    ensures Digits(DigitValue(c), 2) == ['0', c]
  {
    var d := DigitValue(c);
    DivModTen(0, d);
    assert DigitChar(d) == c;
    assert Digits(0, 1) == ['0'];
    assert Digits(d, 2) == Digits(0, 1) + [DigitChar(d)];
  }

  /** Padding a one- or two-digit minute text to two digits. */
  lemma MinuteDigits(ms: string)
    requires (|ms| == 1 || |ms| == 2) && AllDigits(ms)
    ensures Digits(ParseDigits(ms), 2) == if |ms| == 2 then ms else "0" + ms
  {
    if |ms| == 2 {
      DigitsOfParseDigits(ms);
    } else {
      assert ms[..0] == [];
      assert ParseDigits(ms) == DigitValue(ms[0]);
      PadDigit(ms[0]);
      assert ms == [ms[0]];
    }
  }

  lemma HourMinute(h: nat, m: nat)
    requires m < 60
    ensures (h * 60 + m) / 60 == h && (h * 60 + m) % 60 == m
  {
  }

  /** Reading a clock text and formatting it again gives the same text, with
      a one-digit minute padded to two digits. */
  lemma ClockMinutesRoundTrip(s: string)
    requires IsClock(s)
    ensures ClockText(ClockMinutes(s)) == if |s| == 5 then s else s[..3] + "0" + s[3..]
  {
    var hs, ms := s[..2], s[3..];
    HourMinute(ParseDigits(hs), ParseDigits(ms));
    DigitsOfParseDigits(hs);
    MinuteDigits(ms);
    assert ClockText(ClockMinutes(s)) == hs + ":" + Digits(ParseDigits(ms), 2);
    assert s == hs + ":" + ms;
    assert s[..3] == hs + ":";
  }

  /** The one-digit form reads as its hour and minute: "12:3" is 12:03. */
  lemma ShortClockExample()
    ensures IsClock("12:3") && ClockMinutes("12:3") == 12 * 60 + 3
    ensures ClockText(ClockMinutes("12:3")) == "12:03"
  {
    var s := "12:3";
    assert s[..2] == "12" && s[3..] == "3";
    assert ParseDigits("12") == 12;
    assert ParseDigits("3") == 3;
    ClockMinutesRoundTrip(s);
  }

  // ---------------------------------------------------------------------
  // Jobs and the reminders one day's times call for
  // ---------------------------------------------------------------------

  /** What a job calls when its time comes. */
  datatype Action = Notify(prayer: Prayer, iqama: string) | RunMain

  /** One job of the list: a daily "HH:MM" and its call. */
  datatype Job = Job(at: string, action: Action)

  /** The 05:00 refresh registered once after start-up. */
  const DAILY_REFRESH: Job := Job("05:00", RunMain)

  /** The order of the `prayers` list. */
  const ORDER: seq<Prayer> := [Fajr, Zuhr, Asr, Maghrib, Isha]

  function Rank(p: Prayer): nat
  {
    match p
    case Fajr => 0
    case Zuhr => 1
    case Asr => 2
    case Maghrib => 3
    case Isha => 4
  }

  /** Every present Iqama can be read as a clock time. The scheduler raises
      on other texts, except the signs, spaces and underscores `int()` also
      tolerates. */
  predicate Readable(t: DaySchedule)
  {
    forall p :: Times(t, p).iqama.Some? ==> IsClock(Times(t, p).iqama.value)
  }

  /** Seconds after today's midnight of the reminder for an Iqama: ten
      minutes earlier, negative when that falls on the previous day. */
  function FireSecond(iqama: string): (sec: int)
    requires IsClock(iqama)
    ensures -600 <= sec < 86400 - 600 && sec % 60 == 0
  {
    (ClockMinutes(iqama) - 10) * 60
  }

  /** Prayer `p` gets a reminder: its Iqama is present and the reminder is
      strictly later than now. */
  predicate Due(t: DaySchedule, p: Prayer, now: nat)
    requires Readable(t)
  {
    Times(t, p).iqama.Some? && FireSecond(Times(t, p).iqama.value) > now
  }

  /** The daily job registered for a prayer: the notification call, ten minutes before its Iqama. */
  function ReminderJob(p: Prayer, iqama: string): (j: Job)
    requires IsClock(iqama)
    ensures j.action == Notify(p, iqama) && |j.at| == 5 && j.at[2] == ':'
  {
    Job(ClockText((ClockMinutes(iqama) - 10) % 1440), Notify(p, iqama))
  }

  /** The reminder, if any, for one prayer. */
  function ReminderFor(t: DaySchedule, p: Prayer, now: nat): (r: seq<Job>)
    requires Readable(t)
    ensures |r| <= 1 && (|r| == 1 <==> Due(t, p, now))
  {
    if Due(t, p, now) then [ReminderJob(p, Times(t, p).iqama.value)] else []
  }

  /** The reminders for the prayers `ps`, in their order. */
  function RemindersOf(t: DaySchedule, ps: seq<Prayer>, now: nat): (r: seq<Job>)
    requires Readable(t)
    ensures |r| <= |ps|
  {
    if ps == [] then []
    else RemindersOf(t, ps[..|ps| - 1], now) + ReminderFor(t, ps[|ps| - 1], now)
  }

  /** One more prayer of `ps` adds its own reminder, if any, at the end. */
  lemma RemindersOfPrefix(t: DaySchedule, ps: seq<Prayer>, i: nat, now: nat)
    requires Readable(t) && i < |ps|
    ensures RemindersOf(t, ps[..i + 1], now) == RemindersOf(t, ps[..i], now) + ReminderFor(t, ps[i], now)
  {
    assert ps[..i + 1][..i] == ps[..i];
  }

  lemma RemindersOfWhole(t: DaySchedule, now: nat)
    requires Readable(t)
    ensures RemindersOf(t, ORDER[..|ORDER|], now) == Reminders(t, now)
  {
    assert ORDER[..|ORDER|] == ORDER;
  }

  /** The jobs `schedule_notifications` adds. */
  function Reminders(t: DaySchedule, now: nat): (r: seq<Job>)
    requires Readable(t)
    ensures |r| <= 5
  {
    RemindersOf(t, ORDER, now)
  }

  /** A correct reminder's time is the text `strftime('%H:%M')` writes for
      Iqama minus 10 minutes. */
  lemma ReminderTimeText(t: DaySchedule, j: Job, now: nat)
    requires Readable(t) && IsReminder(t, j, now)
    ensures j.at == ClockText(ClockMinutes(j.action.iqama) - 10)
  {
    ClockMinutesRoundTrip(j.at);
  }

  /** A job is a correct reminder: for a due prayer, carrying its Iqama text,
      set at the five-character "HH:MM" ten minutes before that Iqama, at a
      time later today than now. */
  predicate IsReminder(t: DaySchedule, j: Job, now: nat)
    requires Readable(t)
  {
    && j.action.Notify?
    && Due(t, j.action.prayer, now)
    && j.action.iqama == Times(t, j.action.prayer).iqama.value
    && IsClock(j.at) && |j.at| == 5
    && ClockMinutes(j.at) + 10 == ClockMinutes(j.action.iqama)
    && ClockMinutes(j.at) * 60 > now
  }

  lemma ReminderJobIsReminder(t: DaySchedule, p: Prayer, now: nat)
    requires Readable(t) && Due(t, p, now)
    ensures IsReminder(t, ReminderJob(p, Times(t, p).iqama.value), now)
    ensures ReminderJob(p, Times(t, p).iqama.value).action.prayer == p
  {
    var m := ClockMinutes(Times(t, p).iqama.value);
    assert m >= 11;
    assert (m - 10) % 1440 == m - 10;
    ClockTextRoundTrip(m - 10);
  }

  /** Some job of `r` is a reminder for `p`. */
  predicate Covers(r: seq<Job>, p: Prayer)
  {
    exists k :: 0 <= k < |r| && r[k].action.Notify? && r[k].action.prayer == p
  }

  lemma CoversAppend(a: seq<Job>, b: seq<Job>, p: Prayer)
    ensures Covers(a + b, p) <==> Covers(a, p) || Covers(b, p)
  {
    if Covers(a + b, p) {
      var k :| 0 <= k < |a + b| && (a + b)[k].action.Notify? && (a + b)[k].action.prayer == p;
      if k < |a| {
        assert a[k] == (a + b)[k];
      } else {
        assert b[k - |a|] == (a + b)[k];
      }
    }
    if Covers(a, p) {
      var k :| 0 <= k < |a| && a[k].action.Notify? && a[k].action.prayer == p;
      assert (a + b)[k] == a[k];
    }
    if Covers(b, p) {
      var k :| 0 <= k < |b| && b[k].action.Notify? && b[k].action.prayer == p;
      assert (a + b)[|a| + k] == b[k];
    }
  }

  /** The reminders for `ps` are correct reminders for prayers of `ps`, at
      most one per prayer of `ps`. */
  lemma {:induction false} RemindersOfCorrect(t: DaySchedule, ps: seq<Prayer>, now: nat)
    requires Readable(t)
    ensures var r := RemindersOf(t, ps, now);
      && |r| <= |ps|
      && forall k :: 0 <= k < |r| ==> IsReminder(t, r[k], now) && r[k].action.prayer in ps
  {
    if ps != [] {
      var init, p := ps[..|ps| - 1], ps[|ps| - 1];
      RemindersOfCorrect(t, init, now);
      var r0, tail := RemindersOf(t, init, now), ReminderFor(t, p, now);
      var r := r0 + tail;
      assert RemindersOf(t, ps, now) == r;
      if Due(t, p, now) {
        ReminderJobIsReminder(t, p, now);
      }
      forall k | 0 <= k < |r| ensures IsReminder(t, r[k], now) && r[k].action.prayer in ps {
        if k < |r0| {
          assert r[k] == r0[k];
          assert r0[k].action.prayer in init;
        } else {
          assert r[k] == tail[0];
        }
      }
    }
  }

  /** The reminder for `p` covers exactly `p`, and only when it is due. */
  lemma ReminderForCover(t: DaySchedule, p: Prayer, now: nat, q: Prayer)
    requires Readable(t)
    ensures Covers(ReminderFor(t, p, now), q) <==> q == p && Due(t, p, now)
  {
    var tail := ReminderFor(t, p, now);
    if Due(t, p, now) {
      assert tail[0].action == Notify(p, Times(t, p).iqama.value);
    }
  }

  /** A prayer gets a reminder for `ps` exactly when it is in `ps` and due. */
  lemma {:induction false} RemindersOfCover(t: DaySchedule, ps: seq<Prayer>, now: nat, q: Prayer)
    requires Readable(t)
    ensures Covers(RemindersOf(t, ps, now), q) <==> q in ps && Due(t, q, now)
  {
    if ps != [] {
      var init, p := ps[..|ps| - 1], ps[|ps| - 1];
      RemindersOfCover(t, init, now, q);
      var r0, tail := RemindersOf(t, init, now), ReminderFor(t, p, now);
      assert RemindersOf(t, ps, now) == r0 + tail;
      CoversAppend(r0, tail, q);
      ReminderForCover(t, p, now, q);
      assert q in ps <==> q in init || q == p by {
        assert ps == init + [p];
      }
    }
  }

  predicate RankIncreasing(ps: seq<Prayer>)
  {
    forall i, j :: 0 <= i < j < |ps| ==> Rank(ps[i]) < Rank(ps[j])
  }

  /** Jobs for prayers whose ranks strictly increase along the list. */
  predicate JobsOrdered(r: seq<Job>)
  {
    forall i, j :: 0 <= i < j < |r| && r[i].action.Notify? && r[j].action.Notify? ==>
      Rank(r[i].action.prayer) < Rank(r[j].action.prayer)
  }

  /** A job ranked after every job of an ordered list keeps it ordered. */
  lemma JobsOrderedSnoc(r0: seq<Job>, j: Job)
    requires JobsOrdered(r0) && j.action.Notify?
    requires forall i :: 0 <= i < |r0| && r0[i].action.Notify? ==>
      Rank(r0[i].action.prayer) < Rank(j.action.prayer)
    ensures JobsOrdered(r0 + [j])
  {
    var r := r0 + [j];
    forall i, k | 0 <= i < k < |r| && r[i].action.Notify? && r[k].action.Notify?
      ensures Rank(r[i].action.prayer) < Rank(r[k].action.prayer)
    {
      assert r[i] == r0[i];
      if k < |r0| {
        assert r[k] == r0[k];
      }
    }
  }

  /** The reminders keep the order of `ps`. */
  lemma {:induction false} RemindersOfOrdered(t: DaySchedule, ps: seq<Prayer>, now: nat)
    requires Readable(t) && RankIncreasing(ps)
    ensures JobsOrdered(RemindersOf(t, ps, now))
  {
    if ps != [] {
      var init, p := ps[..|ps| - 1], ps[|ps| - 1];
      assert RankIncreasing(init);
      RemindersOfOrdered(t, init, now);
      RemindersOfCorrect(t, init, now);
      var r0, tail := RemindersOf(t, init, now), ReminderFor(t, p, now);
      assert RemindersOf(t, ps, now) == r0 + tail;
      if Due(t, p, now) {
        var j := ReminderJob(p, Times(t, p).iqama.value);
        assert tail == [j];
        forall i | 0 <= i < |r0| && r0[i].action.Notify?
          ensures Rank(r0[i].action.prayer) < Rank(j.action.prayer)
        {
          var n :| 0 <= n < |init| && init[n] == r0[i].action.prayer;
          assert ps[n] == init[n];
        }
        JobsOrderedSnoc(r0, j);
      } else {
        assert r0 + tail == r0;
      }
    }
  }

  /** `schedule_notifications` adds at most five jobs, each a correct
      reminder; prayer p gets one exactly when it is due; Fajr, Zuhr, Asr,
      Maghrib, Isha order; never a refresh job. */
  lemma RemindersSpec(t: DaySchedule, now: nat)
    requires Readable(t)
    ensures var r := Reminders(t, now);
      && |r| <= 5
      && (forall k :: 0 <= k < |r| ==> IsReminder(t, r[k], now))
      && (forall p :: Covers(r, p) <==> Due(t, p, now))
      && JobsOrdered(r)
      && DAILY_REFRESH !in r
  {
    assert RankIncreasing(ORDER);
    RemindersOfCorrect(t, ORDER, now);
    RemindersOfOrdered(t, ORDER, now);
    forall p ensures Covers(Reminders(t, now), p) <==> Due(t, p, now) {
      assert ORDER[Rank(p)] == p;
      RemindersOfCover(t, ORDER, now, p);
    }
  }

  /** The example: with Fajr's Iqama at 05:40 the reminder is set for 05:30
      while now is before 05:30, and there is none once it is 05:35. */
  lemma FajrReminderExample(t: DaySchedule, now: nat)
    requires Readable(t) && t.fajr.iqama == Some("05:40")
    ensures Due(t, Fajr, now) <==> now < 5 * 3600 + 30 * 60
    ensures !Due(t, Fajr, 5 * 3600 + 35 * 60)
  {
    var s := "05:40";
    assert s[..2] == "05" && s[3..] == "40";
    assert ParseDigits("05") == 5;
    assert ParseDigits("40") == 40;
    assert Times(t, Fajr) == t.fajr;
  }

  // ---------------------------------------------------------------------
  // The job list and main()
  // ---------------------------------------------------------------------

  /** The messages sent out: the daily confirmation or the failure alert. */
  datatype Message = Confirmation(times: DaySchedule) | FailureAlert

  predicate ReadableResult(r: Option<DaySchedule>)
  {
    r.None? || Readable(r.value)
  }

  /** The message `main` sends after a fetch. */
  function Report(r: Option<DaySchedule>): Message
  {
    match r
    case Some(t) => Confirmation(t)
    case None => FailureAlert
  }

  /** The job list after `main`: a failed fetch leaves it alone; a successful
      one clears it, refresh job included, and adds the day's reminders. */
  function AfterRefresh(js: seq<Job>, r: Option<DaySchedule>, now: nat): seq<Job>
    requires ReadableResult(r)
  {
    match r
    case None => js
    case Some(t) => Reminders(t, now)
  }

  /** The job list after a refresh that registers the 05:00 job again after
      clearing. */
  function AfterRefreshKeepingDaily(js: seq<Job>, r: Option<DaySchedule>, now: nat): seq<Job>
    requires ReadableResult(r)
  {
    match r
    case None => js
    case Some(t) => [DAILY_REFRESH] + Reminders(t, now)
  }

  /** Refreshing twice with the same times and the same now gives the same list. */
  lemma RefreshIdempotent(js: seq<Job>, r: Option<DaySchedule>, now: nat)
    requires ReadableResult(r)
    ensures AfterRefresh(AfterRefresh(js, r, now), r, now) == AfterRefresh(js, r, now)
    ensures AfterRefreshKeepingDaily(AfterRefreshKeepingDaily(js, r, now), r, now)
         == AfterRefreshKeepingDaily(js, r, now)
  {
  }

  /** As written, a successful refresh leaves no 05:00 job: after start-up
      has registered it and its first run has refreshed, nothing will ever
      refresh again. */
  lemma RefreshDropsDailyJob(js: seq<Job>, r0: Option<DaySchedule>, now0: nat, t: DaySchedule, now: nat)
    requires ReadableResult(r0) && Readable(t)
    ensures DAILY_REFRESH in AfterRefresh(js, r0, now0) + [DAILY_REFRESH]
    ensures DAILY_REFRESH !in AfterRefresh(AfterRefresh(js, r0, now0) + [DAILY_REFRESH], Some(t), now)
  {
    RemindersSpec(t, now);
  }

  /** Re-registering after clearing keeps exactly one 05:00 job after every
      successful refresh, and keeps it through failed ones. */
  lemma RefreshKeepsDailyJob(js: seq<Job>, r: Option<DaySchedule>, now: nat)
    requires ReadableResult(r)
    ensures DAILY_REFRESH in js ==> DAILY_REFRESH in AfterRefreshKeepingDaily(js, r, now)
    ensures r.Some? ==>
      var after := AfterRefreshKeepingDaily(js, r, now);
      after[0] == DAILY_REFRESH && DAILY_REFRESH !in after[1..]
  {
    if r.Some? {
      RemindersSpec(r.value, now);
      assert AfterRefreshKeepingDaily(js, r, now)[1..] == Reminders(r.value, now);
    }
  }

  /** How many 05:00 refresh jobs a list holds. */
  function DailyJobs(js: seq<Job>): nat
  {
    multiset(js)[DAILY_REFRESH]
  }

  /** The job list after the corrected start-up: the corrected `main`, then
      the 05:00 job only when the list does not hold it already. */
  function AfterStartKeepingDaily(js: seq<Job>, r: Option<DaySchedule>, now: nat): seq<Job>
    requires ReadableResult(r)
  {
    var after := AfterRefreshKeepingDaily(js, r, now);
    if DAILY_REFRESH in after then after else after + [DAILY_REFRESH]
  }

  /** The corrected start-up leaves exactly one 05:00 job, whether the first
      fetch succeeds or fails. */
  lemma StartKeepsOneDailyJob(r: Option<DaySchedule>, now: nat)
    requires ReadableResult(r)
    ensures DailyJobs(AfterStartKeepingDaily([], r, now)) == 1
  {
    if r.Some? {
      var t := r.value;
      RemindersSpec(t, now);
      assert DAILY_REFRESH in AfterRefreshKeepingDaily([], r, now);
      assert multiset(AfterStartKeepingDaily([], r, now))
          == multiset([DAILY_REFRESH]) + multiset(Reminders(t, now));
    } else {
      assert AfterStartKeepingDaily([], r, now) == [DAILY_REFRESH];
    }
  }

  /** A list holding exactly one 05:00 job still holds exactly one after a
      corrected refresh, whatever the fetch gives. */
  lemma RefreshKeepsOneDailyJob(js: seq<Job>, r: Option<DaySchedule>, now: nat)
    requires ReadableResult(r) && DailyJobs(js) == 1
    ensures DailyJobs(AfterRefreshKeepingDaily(js, r, now)) == 1
  {
    if r.Some? {
      var t := r.value;
      RemindersSpec(t, now);
      assert multiset(AfterRefreshKeepingDaily(js, r, now))
          == multiset([DAILY_REFRESH]) + multiset(Reminders(t, now));
    }
  }

  /** The corrected `main` alone is not enough: the unchanged start-up appends
      the 05:00 job after `main` has registered one, so a successful first
      fetch leaves two. */
  lemma StartAfterCorrectedRefreshDoubles(t: DaySchedule, now: nat)
    requires Readable(t)
    ensures DailyJobs(AfterRefreshKeepingDaily([], Some(t), now) + [DAILY_REFRESH]) == 2
  {
    RemindersSpec(t, now);
    assert multiset(AfterRefreshKeepingDaily([], Some(t), now) + [DAILY_REFRESH])
        == multiset([DAILY_REFRESH]) + multiset(Reminders(t, now)) + multiset([DAILY_REFRESH]);
  }

  /** The `schedule` library's default job list, and the messages sent. */
  class JobList {
    var jobs: seq<Job>
    var sent: seq<Message>

    constructor ()
      ensures jobs == [] && sent == []
    {
      jobs := [];
      sent := [];
    }

    /** `schedule.every().day.at(job.at).do(...)` */
    method Add(job: Job)
      modifies this
      ensures jobs == old(jobs) + [job] && sent == old(sent)
    {
      jobs := jobs + [job];
    }

    /** `schedule.clear()`: every job goes, the refresh job too. */
    method Clear()
      modifies this
      ensures jobs == [] && sent == old(sent)
    {
      jobs := [];
    }

    /** One pass of the loop in `schedule_notifications`: the reminder for `p`,
        if it is due. */
    method ScheduleOne(t: DaySchedule, p: Prayer, now: nat)
      requires Readable(t)
      modifies this
      ensures jobs == old(jobs) + ReminderFor(t, p, now) && sent == old(sent)
    {
      var iqama := Times(t, p).iqama;
      if iqama.Some? {
        var minutes: int := ClockMinutes(iqama.value);
        var notificationSecond := (minutes - 10) * 60;
        if notificationSecond > now {
          Add(Job(ClockText((minutes - 10) % 1440), Notify(p, iqama.value)));
        }
      }
    }

    /** `schedule_notifications`: appends the day's reminders and leaves the
        jobs already there untouched. */
    method ScheduleNotifications(t: DaySchedule, now: nat)
      requires Readable(t)
      modifies this
      ensures jobs == old(jobs) + Reminders(t, now) && sent == old(sent)
    {
      for i := 0 to |ORDER|
        invariant jobs == old(jobs) + RemindersOf(t, ORDER[..i], now)
        invariant sent == old(sent)
      {
        RemindersOfPrefix(t, ORDER, i, now);
        ScheduleOne(t, ORDER[i], now);
      }
      RemindersOfWhole(t, now);
    }

    /** `main`: fetch today's times; on success clear every job, schedule the
        reminders and confirm; on failure keep the jobs and send the alert. */
    method Refresh(fetched: Option<string>, today: Date, now: nat)
      requires ValidDate(today) && ReadableResult(TodayTimes(fetched, today))
      modifies this
      ensures jobs == AfterRefresh(old(jobs), TodayTimes(fetched, today), now)
      ensures sent == old(sent) + [Report(TodayTimes(fetched, today))]
    {
      var times := GetPrayerTimes(fetched, today);
      if times.Some? {
        Clear();
        ScheduleNotifications(times.value, now);
        sent := sent + [Confirmation(times.value)];
      } else {
        sent := sent + [FailureAlert];
      }
    }

    /** Start-up: run `main` once, then register the 05:00 refresh. */
    method Start(fetched: Option<string>, today: Date, now: nat)
      requires ValidDate(today) && ReadableResult(TodayTimes(fetched, today))
      modifies this
      ensures jobs == AfterRefresh(old(jobs), TodayTimes(fetched, today), now) + [DAILY_REFRESH]
      ensures sent == old(sent) + [Report(TodayTimes(fetched, today))]
    {
      Refresh(fetched, today, now);
      Add(DAILY_REFRESH);
    }

    /** Corrected start-up: the corrected `main` once, then the 05:00 job
        registered only if the list does not already hold it. */
    method StartKeepingDaily(fetched: Option<string>, today: Date, now: nat)
      requires ValidDate(today) && ReadableResult(TodayTimes(fetched, today))
      modifies this
      ensures jobs == AfterStartKeepingDaily(old(jobs), TodayTimes(fetched, today), now)
      ensures sent == old(sent) + [Report(TodayTimes(fetched, today))]
    {
      RefreshKeepingDaily(fetched, today, now);
      if DAILY_REFRESH !in jobs {
        Add(DAILY_REFRESH);
      }
    }

    /** `main` with the 05:00 job registered again right after the clear. */
    method RefreshKeepingDaily(fetched: Option<string>, today: Date, now: nat)
      requires ValidDate(today) && ReadableResult(TodayTimes(fetched, today))
      modifies this
      ensures jobs == AfterRefreshKeepingDaily(old(jobs), TodayTimes(fetched, today), now)
      ensures sent == old(sent) + [Report(TodayTimes(fetched, today))]
    {
      var times := GetPrayerTimes(fetched, today);
      if times.Some? {
        Clear();
        Add(DAILY_REFRESH);
        assert jobs == [DAILY_REFRESH];
        ScheduleNotifications(times.value, now);
        sent := sent + [Confirmation(times.value)];
      } else {
        sent := sent + [FailureAlert];
      }
    }
  }
}
