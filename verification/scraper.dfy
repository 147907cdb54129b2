/**
 * The string half of `get_prayer_times` in salatime.py: find the page's
 * `MPT={...}` blob, collect its `DDDDDDDD:"record"` entries into a dictionary
 * (a later key overwrites an earlier one), and decode today's record.
 * The page arrives as a parameter: None stands for a request that raised.
 */
module Scraper {
  import opened Strings
  import opened Decoder

  // ---------------------------------------------------------------------
  // Searching the page for the blob
  // ---------------------------------------------------------------------

  /** The pattern matches at the very start of `h`: the marker, then one or
      more characters other than '}', then '}'. */
  predicate MatchHere(h: string)
  {
    |h| >= 5 && h[..5] == "MPT={" && 0 < IndexOf(h[5..], '}') < |h| - 5
  }

  /** The captured group of a match at the start of `h`: up to the first '}'. */
  function BodyHere(h: string): (body: string)
    requires MatchHere(h)
    ensures |body| > 0 && '}' !in body
  {
    h[5..5 + IndexOf(h[5..], '}')]
  }

  predicate MatchAt(h: string, i: nat)
  {
    i <= |h| && MatchHere(h[i..])
  }

  /** The leftmost match's group, scanning forward one position at a time. */
  function MptSearch(h: string): (r: Option<string>)
    ensures r.Some? ==> |r.value| > 0 && '}' !in r.value
    decreases |h|
  {
    if |h| < 5 then None
    else if MatchHere(h) then Some(BodyHere(h))
    else MptSearch(h[1..])
  }

  /** The search fails exactly when no position matches; otherwise it yields
      the group of the leftmost matching position. */
  lemma {:induction false} MptSearchSpec(h: string)
    ensures MptSearch(h).None? <==> forall i :: 0 <= i <= |h| ==> !MatchAt(h, i)
    ensures MptSearch(h).Some? ==> exists i ::
      && 0 <= i <= |h| && MatchAt(h, i)
      && (forall k :: 0 <= k < i ==> !MatchAt(h, k))
      && MptSearch(h).value == BodyHere(h[i..])
    decreases |h|
  {
    if |h| < 5 {
      forall i | 0 <= i <= |h| ensures !MatchAt(h, i) {
      }
    } else if MatchHere(h) {
      assert h[0..] == h;
      assert MatchAt(h, 0);
    } else {
      assert !MatchAt(h, 0) by { assert h[0..] == h; }
      MptSearchSpec(h[1..]);
      forall i | 0 <= i <= |h| - 1 ensures MatchAt(h[1..], i) == MatchAt(h, i + 1) {
        assert h[1..][i..] == h[i + 1..];
      }
      if MptSearch(h).Some? {
        var i :| && 0 <= i <= |h| - 1 && MatchAt(h[1..], i)
                 && (forall k :: 0 <= k < i ==> !MatchAt(h[1..], k))
                 && MptSearch(h[1..]).value == BodyHere(h[1..][i..]);
        assert h[1..][i..] == h[i + 1..];
        forall k | 0 <= k < i + 1 ensures !MatchAt(h, k) {
          if k > 0 {
            assert !MatchAt(h[1..], k - 1);
          }
        }
      } else {
        forall i | 0 <= i <= |h| ensures !MatchAt(h, i) {
          if i > 0 {
            assert !MatchAt(h[1..], i - 1);
          }
        }
      }
    }
  }

  /** Text before `h` at none of whose positions the pattern matches does
      not change the search result. */
  lemma {:induction false} MptSearchSkips(pre: string, h: string)
    requires forall k :: 0 <= k < |pre| ==> !MatchAt(pre + h, k)
    ensures MptSearch(pre + h) == MptSearch(h)
  {
    if pre != [] {
      var page := pre + h;
      assert !MatchHere(page) by {
        assert page[0..] == page;
        assert !MatchAt(page, 0);
      }
      assert page[1..] == pre[1..] + h;
      forall k | 0 <= k < |pre[1..]| ensures !MatchAt(pre[1..] + h, k) {
        assert (pre[1..] + h)[k..] == page[k + 1..];
        assert !MatchAt(page, k + 1);
      }
      MptSearchSkips(pre[1..], h);
      if |page| < 5 {
        assert |h| < 5;
      }
    } else {
      assert pre + h == h;
    }
  }

  /** In particular, text holding no 'M' matches at none of its positions. */
  lemma NoMarkerNoMatch(pre: string, h: string)
    requires 'M' !in pre
    ensures forall k :: 0 <= k < |pre| ==> !MatchAt(pre + h, k)
  {
    forall k | 0 <= k < |pre| ensures !MatchAt(pre + h, k) {
      assert (pre + h)[k..][0] == pre[k];
    }
  }

  /** A marker followed by a non-empty, '}'-free body and a '}' is found, and
      its body is the group, whatever follows. */
  lemma MptSearchFindsBlob(body: string, post: string)
    requires |body| > 0 && '}' !in body
    ensures MptSearch("MPT={" + body + "}" + post) == Some(body)
  {
    var h := "MPT={" + body + "}" + post;
    assert h[5..] == body + ['}'] + post;
    IndexOfAfter(body, '}', post);
    assert h[..5] == "MPT={";
    assert MatchHere(h);
    assert h[5..5 + |body|] == body;
  }

  // ---------------------------------------------------------------------
  // Scanning the blob for its date-keyed entries
  // ---------------------------------------------------------------------

  /** One `(date_key, times_str)` pair of the findall result. */
  datatype Entry = Entry(key: string, value: string)

  /** What the pattern guarantees of every pair it yields. */
  predicate WellFormedEntry(e: Entry)
  {
    |e.key| == 8 && AllDigits(e.key) && |e.value| > 0 && '"' !in e.value
  }

  /** The pattern matches at the very start of `b`: eight digits, `:"`, one or
      more characters other than '"', then '"'. */
  predicate EntryHere(b: string)
  {
    |b| >= 10 && AllDigits(b[..8]) && b[8] == ':' && b[9] == '"'
    && 0 < IndexOf(b[10..], '"') < |b| - 10
  }

  /** Where a match at the start of `b` ends (just past its closing quote). */
  function EntryEnd(b: string): (n: nat)
    requires EntryHere(b)
    ensures 11 < n <= |b|
  {
    11 + IndexOf(b[10..], '"')
  }

  /** All non-overlapping matches, left to right: after a match the scan
      resumes where it ended, otherwise one position further on. */
  function FindEntries(b: string): (r: seq<Entry>)
    ensures forall k :: 0 <= k < |r| ==> WellFormedEntry(r[k])
    decreases |b|
  {
    if b == [] then []
    else if EntryHere(b) then [Entry(b[..8], b[10..EntryEnd(b) - 1])] + FindEntries(b[EntryEnd(b)..])
    else FindEntries(b[1..])
  }

  /** The text of one entry as the page writes it. */
  function EntryText(e: Entry): string
  {
    e.key + ":\"" + e.value + "\""
  }

  /** A well-formed entry's text matches at its start, whatever follows, and
      the match gives back its key and value and ends right after it. */
  lemma EntryTextHere(e: Entry, after: string)
    requires WellFormedEntry(e)
    ensures var b := EntryText(e) + after;
      && EntryHere(b) && b[..8] == e.key
      && b[10..EntryEnd(b) - 1] == e.value && b[EntryEnd(b)..] == after
  {
    var b := EntryText(e) + after;
    assert b == e.key + ":\"" + e.value + ['"'] + after;
    assert b[..8] == e.key;
    assert b[10..] == e.value + ['"'] + after;
    IndexOfAfter(e.value, '"', after);
  }

  /** A blob body listing the entries as an object literal does: separated
      by commas, the last one running straight into the closing brace. */
  function Join(es: seq<Entry>): string
  {
    if es == [] then []
    else if |es| == 1 then EntryText(es[0])
    else EntryText(es[0]) + "," + Join(es[1..])
  }

  /** What may follow the last entry before '}': nothing, or a trailing comma. */
  predicate EndOfList(tail: string)
  {
    tail == [] || tail == ","
  }

  lemma FindEntriesOfEnd(tail: string)
    requires EndOfList(tail)
    ensures FindEntries(tail) == []
  {
    if tail != [] {
      assert tail[1..] == [];
    }
  }

  /** A well-formed entry at the front is scanned as one match, and the scan
      goes on right after it. */
  lemma FindEntriesStep(e: Entry, after: string)
    requires WellFormedEntry(e)
    ensures FindEntries(EntryText(e) + after) == [e] + FindEntries(after)
  {
    EntryTextHere(e, after);
  }

  /** A separating comma is skipped. */
  lemma FindEntriesSkipsComma(rest: string)
    ensures FindEntries("," + rest) == FindEntries(rest)
  {
    var b := "," + rest;
    if |b| >= 10 {
      assert !IsDigit(b[..8][0]);
    }
    assert b[1..] == rest;
  }

  lemma JoinCons(e: Entry, more: seq<Entry>, tail: string)
    requires more != []
    ensures Join([e] + more) + tail == EntryText(e) + ("," + (Join(more) + tail))
  {
    assert ([e] + more)[1..] == more;
  }

  /** Scanning a list of well-formed entries, with or without a trailing
      comma, yields exactly that list, repeated keys and all. */
  lemma {:induction false} FindEntriesOfJoin(es: seq<Entry>, tail: string)
    requires forall k :: 0 <= k < |es| ==> WellFormedEntry(es[k])
    requires EndOfList(tail)
    ensures FindEntries(Join(es) + tail) == es
  {
    FindEntriesOfEnd(tail);
    if es == [] {
      assert Join(es) + tail == tail;
    } else if |es| == 1 {
      assert Join(es) + tail == EntryText(es[0]) + tail;
      FindEntriesStep(es[0], tail);
    } else {
      var e, more := es[0], es[1..];
      var rest := Join(more) + tail;
      JoinCons(e, more, tail);
      FindEntriesStep(e, "," + rest);
      FindEntriesSkipsComma(rest);
      assert forall k :: 0 <= k < |more| ==> WellFormedEntry(more[k]) by {
        forall k | 0 <= k < |more| ensures more[k] == es[k + 1] { }
      }
      FindEntriesOfJoin(more, tail);
      assert es == [e] + more;
    }
  }

  /** No '}' in the values means none in the joined body. */
  lemma {:induction false} JoinHasNoBrace(es: seq<Entry>)
    requires forall k :: 0 <= k < |es| ==> WellFormedEntry(es[k]) && '}' !in es[k].value
    ensures '}' !in Join(es)
    ensures es != [] ==> |Join(es)| > 0
  {
    if es != [] {
      var e := es[0];
      assert '}' !in e.key;
      assert '}' !in EntryText(e);
      if |es| > 1 {
        JoinHasNoBrace(es[1..]);
        assert Join(es) == EntryText(e) + "," + Join(es[1..]);
      }
    }
  }

  // ---------------------------------------------------------------------
  // mpt_data: the dictionary filled by the for loop
  // ---------------------------------------------------------------------

  /** The dictionary after storing the pairs in order. */
  function ToMap(es: seq<Entry>): (m: map<string, string>)
    ensures forall k :: 0 <= k < |es| ==> es[k].key in m
    ensures forall x :: x in m ==> exists k :: 0 <= k < |es| && es[k].key == x
  {
    if es == [] then map[]
    else ToMap(es[..|es| - 1])[es[|es| - 1].key := es[|es| - 1].value]
  }

  /** When a key repeats, the dictionary holds the value of its last occurrence. */
  lemma {:induction false} ToMapLastWins(es: seq<Entry>, i: nat)
    requires i < |es|
    requires forall j :: i < j < |es| ==> es[j].key != es[i].key
    ensures es[i].key in ToMap(es) && ToMap(es)[es[i].key] == es[i].value
    decreases |es|
  {
    if i < |es| - 1 {
      var init := es[..|es| - 1];
      ToMapLastWins(init, i);
    }
  }

  /** The loop that stores each pair in `mpt_data`, in order. */
  method CollectEntries(es: seq<Entry>) returns (m: map<string, string>)
    ensures m == ToMap(es)
  {
    m := map[];
    for i := 0 to |es|
      invariant m == ToMap(es[..i])
    {
      assert es[..i + 1][..i] == es[..i];
      m := m[es[i].key := es[i].value];
    }
    assert es[..|es|] == es;
  }

  // ---------------------------------------------------------------------
  // today.strftime('%Y%m%d') and the lookup
  // ---------------------------------------------------------------------

  datatype Date = Date(year: nat, month: nat, day: nat)

  predicate ValidDate(d: Date)
  {
    1000 <= d.year <= 9999 && 1 <= d.month <= 12 && 1 <= d.day <= 31
  }

  /** The `YYYYMMDD` key of a date. */
  function DateKey(d: Date): (k: string)
    requires ValidDate(d)
    ensures |k| == 8 && AllDigits(k)
  {
    Digits(d.year, 4) + Digits(d.month, 2) + Digits(d.day, 2)
  }

  /** Reads a `YYYYMMDD` key back into a date. */
  function ParseDateKey(k: string): Date
    requires |k| == 8 && AllDigits(k)
  {
    assert AllDigits(k[..4]) && AllDigits(k[4..6]) && AllDigits(k[6..]);
    Date(ParseDigits(k[..4]), ParseDigits(k[4..6]), ParseDigits(k[6..]))
  }

  /** The key determines the date: distinct days look up distinct entries. */
  lemma DateKeyRoundTrip(d: Date)
    requires ValidDate(d)
    ensures ParseDateKey(DateKey(d)) == d
  {
    var k := DateKey(d);
    assert k[..4] == Digits(d.year, 4);
    assert k[4..6] == Digits(d.month, 2);
    assert k[6..] == Digits(d.day, 2);
    ParseDigitsOfDigits(d.year, 4);
    ParseDigitsOfDigits(d.month, 2);
    ParseDigitsOfDigits(d.day, 2);
  }

  /** What `get_prayer_times` returns, as a specification. */
  function TodayTimes(fetched: Option<string>, today: Date): Option<DaySchedule>
    requires ValidDate(today)
  {
    match fetched
    case None => None
    case Some(html) =>
      match MptSearch(html)
      case None => None
      case Some(body) =>
        var m := ToMap(FindEntries(body));
        if DateKey(today) in m then Some(Decode(m[DateKey(today)])) else None
  }

  /** `get_prayer_times`: a failed request, a page without a blob, or a blob
      without today's key all give None; otherwise today's decoded record. */
  method GetPrayerTimes(fetched: Option<string>, today: Date) returns (r: Option<DaySchedule>)
    requires ValidDate(today)
    ensures r == TodayTimes(fetched, today)
  {
    if fetched.None? {
      return None;
    }
    var mpt := MptSearch(fetched.value);
    if mpt.None? {
      return None;
    }
    var mptData := CollectEntries(FindEntries(mpt.value));
    var dateKey := DateKey(today);
    if dateKey !in mptData {
      return None;
    }
    r := Some(Decode(mptData[dateKey]));
  }

  /** The fetch fails exactly when the page has no matching blob, or the
      blob has no entry under today's key. */
  lemma TodayTimesFailsIff(html: string, today: Date)
    requires ValidDate(today)
    ensures TodayTimes(Some(html), today).None? <==>
      (forall i :: 0 <= i <= |html| ==> !MatchAt(html, i))
      || (MptSearch(html).Some? && DateKey(today) !in ToMap(FindEntries(MptSearch(html).value)))
  {
    MptSearchSpec(html);
  }

  /** A blob preceded by text where the pattern matches nowhere is the one the
      search finds. */
  lemma MptSearchOfPage(pre: string, body: string, post: string)
    requires forall k :: 0 <= k < |pre| ==> !MatchAt(pre + "MPT={" + body + "}" + post, k)
    requires |body| > 0 && '}' !in body
    ensures MptSearch(pre + "MPT={" + body + "}" + post) == Some(body)
  {
    var blob := "MPT={" + body + "}" + post;
    MptSearchFindsBlob(body, post);
    assert pre + "MPT={" + body + "}" + post == pre + blob;
    MptSearchSkips(pre, blob);
  }

  /** The lookup once the search has found `body` and the scan of `body` has
      given `es`: the last entry under today's key is decoded. */
  lemma TodayTimesOfBlob(html: string, body: string, es: seq<Entry>, today: Date, i: nat)
    requires ValidDate(today) && MptSearch(html) == Some(body) && FindEntries(body) == es
    requires i < |es| && es[i].key == DateKey(today)
    requires forall j :: i < j < |es| ==> es[j].key != es[i].key
    ensures TodayTimes(Some(html), today) == Some(Decode(es[i].value))
  {
    ToMapLastWins(es, i);
  }

  /** End to end: on a page where the pattern matches nowhere before the blob,
      and whose blob lists well-formed entries (with or without a trailing
      comma), today's times are the decoding of the last entry under today's
      key. */
  lemma TodayTimesOfPage(pre: string, es: seq<Entry>, tail: string, post: string, today: Date, i: nat)
    requires ValidDate(today) && EndOfList(tail)
    requires forall k :: 0 <= k < |pre| ==> !MatchAt(pre + "MPT={" + (Join(es) + tail) + "}" + post, k)
    requires forall k :: 0 <= k < |es| ==> WellFormedEntry(es[k]) && '}' !in es[k].value
    requires i < |es| && es[i].key == DateKey(today)
    requires forall j :: i < j < |es| ==> es[j].key != es[i].key
    ensures TodayTimes(Some(pre + "MPT={" + (Join(es) + tail) + "}" + post), today) == Some(Decode(es[i].value))
  {
    var body := Join(es) + tail;
    JoinHasNoBrace(es);
    assert '}' !in tail;
    MptSearchOfPage(pre, body, post);
    FindEntriesOfJoin(es, tail);
    TodayTimesOfBlob(pre + "MPT={" + body + "}" + post, body, es, today, i);
  }
}
