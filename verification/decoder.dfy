/**
 * The day-record decoder of salatime.py: ten fixed four-character windows of
 * an encoded record, each turned into an absent time or an "HH:MM" text.
 */
module Decoder {
  import opened Strings

  /** `format_time`: an empty slice or the sentinel "0000" is absent; anything
      else gets a ':' after its first two characters (no range check). */
  function FormatTime(t: string): (r: Option<string>)
    ensures r.None? <==> t == [] || t == "0000"
    ensures r.Some? ==>
      var k := Min(2, |t|);
      |r.value| == |t| + 1 && r.value[k] == ':' && r.value[..k] + r.value[k + 1..] == t
  {
    if t == [] || t == "0000" then None
    else Some(Slice(t, 0, 2) + ":" + Slice(t, 2, |t|))
  }

  /** "HH:MM" without its colon. */
  function Uncolon(s: string): string
    requires |s| == 5
  {
    s[..2] + s[3..]
  }

  /** Formatting the colon-less form of an "HH:MM" text gives that text back,
      unless the digits are the "0000" sentinel. */
  lemma FormatTimeOfUncolon(s: string)
    requires |s| == 5 && s[2] == ':' && Uncolon(s) != "0000"
    ensures FormatTime(Uncolon(s)) == Some(s)
  {
    var t := Uncolon(s);
    assert Slice(t, 0, 2) == s[..2];
    assert Slice(t, 2, 4) == s[3..];
    assert s == s[..2] + ":" + s[3..];
  }

  datatype Prayer = Fajr | Zuhr | Asr | Maghrib | Isha

  /** Athan (start) and Iqama times of one prayer; None when the slot is empty. */
  datatype PrayerTime = PrayerTime(start: Option<string>, iqama: Option<string>)

  /** The dictionary `decode_prayer_times` returns: always all five prayers. */
  datatype DaySchedule = DaySchedule(
    fajr: PrayerTime, zuhr: PrayerTime, asr: PrayerTime, maghrib: PrayerTime, isha: PrayerTime)

  /** `times['fajr']` and so on. */
  function Times(d: DaySchedule, p: Prayer): PrayerTime
  {
    match p
    case Fajr => d.fajr
    case Zuhr => d.zuhr
    case Asr => d.asr
    case Maghrib => d.maghrib
    case Isha => d.isha
  }

  /** Where a prayer's start window begins in the record; its Iqama window
      follows immediately. Characters 0-7 and 16-19 belong to no window. */
  function StartOffset(p: Prayer): nat
  {
    match p
    case Fajr => 8
    case Zuhr => 20
    case Asr => 28
    case Maghrib => 36
    case Isha => 44
  }

  /** The shape every decoded field has: absent, or a short text holding a ':'. */
  predicate FieldShape(o: Option<string>)
  {
    o.None? || (2 <= |o.value| <= 5 && ':' in o.value)
  }

  /** `decode_prayer_times`: total on every record, short ones included. */
  function Decode(data: string): DaySchedule
  {
    DaySchedule(
      PrayerTime(FormatTime(Slice(data, 8, 12)), FormatTime(Slice(data, 12, 16))),
      PrayerTime(FormatTime(Slice(data, 20, 24)), FormatTime(Slice(data, 24, 28))),
      PrayerTime(FormatTime(Slice(data, 28, 32)), FormatTime(Slice(data, 32, 36))),
      PrayerTime(FormatTime(Slice(data, 36, 40)), FormatTime(Slice(data, 40, 44))),
      PrayerTime(FormatTime(Slice(data, 44, 48)), FormatTime(Slice(data, 48, 52))))
  }

  /** Each prayer's two fields are `format_time` of its two windows, wherever
      the table of offsets puts them. */
  lemma DecodeAtOffsets(data: string, p: Prayer)
    ensures Times(Decode(data), p) == PrayerTime(
      FormatTime(Slice(data, StartOffset(p), StartOffset(p) + 4)),
      FormatTime(Slice(data, StartOffset(p) + 4, StartOffset(p) + 8)))
  {
  }

  /** A window of at most four characters formats to a field of the decoded shape. */
  lemma FormatWindowShape(t: string)
    requires |t| <= 4
    ensures FieldShape(FormatTime(t))
  {
    if FormatTime(t).Some? {
      var k := Min(2, |t|);
      assert FormatTime(t).value[k] == ':';
    }
  }

  /** Decoding is total: on any record, however short, every field is absent
      or a text of two to five characters holding a ':'. */
  lemma DecodeFieldShapes(data: string, p: Prayer)
    ensures FieldShape(Times(Decode(data), p).start) && FieldShape(Times(Decode(data), p).iqama)
  {
    var o := StartOffset(p);
    DecodeAtOffsets(data, p);
    FormatWindowShape(Slice(data, o, o + 4));
    FormatWindowShape(Slice(data, o + 4, o + 8));
  }

  /** One prayer's fields agree when the windows around them agree. */
  lemma PrayerReadsOnlyWindows(a: string, b: string, p: Prayer)
    requires Slice(a, 8, 16) == Slice(b, 8, 16)
    requires Slice(a, 20, 52) == Slice(b, 20, 52)
    ensures Times(Decode(a), p) == Times(Decode(b), p)
  {
    var o := StartOffset(p);
    DecodeAtOffsets(a, p);
    DecodeAtOffsets(b, p);
    var lo, hi := if p == Fajr then 8 else 20, if p == Fajr then 16 else 52;
    SliceOfSlice(a, lo, o, o + 4, hi);
    SliceOfSlice(b, lo, o, o + 4, hi);
    SliceOfSlice(a, lo, o + 4, o + 8, hi);
    SliceOfSlice(b, lo, o + 4, o + 8, hi);
  }

  /** Only characters 8-15 and 20-51 (as far as the record reaches) matter:
      two records that agree on those windows decode alike, whatever they hold
      elsewhere and however long they are beyond 52. */
  lemma DecodeReadsOnlyWindows(a: string, b: string)
    requires Slice(a, 8, 16) == Slice(b, 8, 16)
    requires Slice(a, 20, 52) == Slice(b, 20, 52)
    ensures Decode(a) == Decode(b)
  {
    PrayerReadsOnlyWindows(a, b, Fajr);
    PrayerReadsOnlyWindows(a, b, Zuhr);
    PrayerReadsOnlyWindows(a, b, Asr);
    PrayerReadsOnlyWindows(a, b, Maghrib);
    PrayerReadsOnlyWindows(a, b, Isha);
  }

  /** "HH:MM" with decimal digits around the colon (hours and minutes unchecked). */
  predicate ClockShaped(s: string)
  {
    |s| == 5 && s[2] == ':' && AllDigits(Uncolon(s))
  }

  /** A digit window decodes to absent exactly when it is "0000", and
      otherwise to a clock-shaped text whose digits are the window's. */
  lemma FormatDigitWindow(t: string)
    requires |t| == 4 && AllDigits(t)
    ensures FormatTime(t).None? <==> t == "0000"
    ensures FormatTime(t).Some? ==> ClockShaped(FormatTime(t).value) && Uncolon(FormatTime(t).value) == t
  {
    if t != "0000" {
      var s := FormatTime(t).value;
      assert s[..2] + s[3..] == t;
    }
  }

  /** The digit-record property for one prayer. */
  predicate DigitFields(data: string, p: Prayer)
    requires |data| >= 52
  {
    var o := StartOffset(p);
    var f := Times(Decode(data), p);
    && (f.start.None? <==> data[o..o + 4] == "0000")
    && (f.iqama.None? <==> data[o + 4..o + 8] == "0000")
    && (f.start.Some? ==> ClockShaped(f.start.value))
    && (f.iqama.Some? ==> ClockShaped(f.iqama.value))
  }

  /** One four-digit window of an all-digit record. */
  lemma DigitWindow(data: string, o: nat)
    requires o + 4 <= |data| && AllDigits(data)
    ensures var f := FormatTime(Slice(data, o, o + 4));
      && (f.None? <==> data[o..o + 4] == "0000")
      && (f.Some? ==> ClockShaped(f.value))
  {
    var w := data[o..o + 4];
    assert Slice(data, o, o + 4) == w;
    FormatDigitWindow(w);
  }

  lemma PrayerDigitFields(data: string, p: Prayer)
    requires |data| >= 52 && AllDigits(data)
    ensures DigitFields(data, p)
  {
    var o := StartOffset(p);
    DecodeAtOffsets(data, p);
    DigitWindow(data, o);
    DigitWindow(data, o + 4);
  }

  /** A record of at least 52 decimal digits decodes every present field to a
      clock-shaped text, and a field is absent exactly when its window is "0000". */
  lemma DecodeDigitRecord(data: string)
    requires |data| >= 52 && AllDigits(data)
    ensures forall p :: DigitFields(data, p)
  {
    forall p ensures DigitFields(data, p) {
      PrayerDigitFields(data, p);
    }
  }

  /** A record of eight characters or fewer has no time at all. */
  lemma DecodeShortRecord(data: string)
    requires |data| <= 8
    ensures forall p :: Times(Decode(data), p) == PrayerTime(None, None)
  {
  }

  /** The worked example: Fajr windows "0530" and "0540". */
  lemma FajrExample(data: string)
    requires |data| >= 16 && data[8..12] == "0530" && data[12..16] == "0540"
    ensures Decode(data).fajr == PrayerTime(Some("05:30"), Some("05:40"))
  {
    assert Slice(data, 8, 12) == "0530";
    assert Slice(data, 12, 16) == "0540";
    assert Slice("0530", 0, 2) + ":" + Slice("0530", 2, 4) == "05:30";
    assert Slice("0540", 0, 2) + ":" + Slice("0540", 2, 4) == "05:40";
  }
}
