/**
 * The events management list: reading the hosts and tags arrays of an event (which may hold
 * JSON-encoded strings), turning a 12-hour time into the 24-hour form of a time input, the
 * comma-separated lists sent back on save, and the image removals.
 */
module EventsListPage {
  import opened Common
  import opened Text
  import opened Seqs
  import J = Json

  // ---------------------------------------------------------------- hosts and tags

  /**
   * One element of a hosts or tags array: a string starting with `[` is parsed as JSON
   * (`parse` returns `None` where parsing throws) and an array yields its first element.
   */
  function ParseItem(item: J.Json, parse: string -> Option<J.Json>): J.Json
  {
    if item.JStr? && StartsWith(item.s, "[") then
      match parse(item.s)
      case None => item
      case Some(p) => if p.JArr? then (if |p.items| > 0 then p.items[0] else J.JUndefined) else p
    else item
  }

  /** Whether a parsed element is kept: truthy and not blank once written out. */
  predicate Keep(item: J.Json)
  {
    J.Truthy(item) && Trim(J.Display(item)) != ""
  }

  /** `parseArrayField`. */
  function ParseArrayField(field: J.Json, parse: string -> Option<J.Json>): seq<J.Json>
  {
    if !field.JArr? then []
    else Filter(seq(|field.items|, i requires 0 <= i < |field.items| => ParseItem(field.items[i], parse)), Keep)
  }

  /**
   * A value that is not an array gives no items; otherwise every element kept is the parsed
   * form of some input element, non-blank, and each element that parses to a non-blank value
   * is kept, in order.
   */
  lemma ParseArrayFieldExact(field: J.Json, parse: string -> Option<J.Json>, x: J.Json)
    ensures !field.JArr? ==> ParseArrayField(field, parse) == []
    ensures x in ParseArrayField(field, parse) <==>
              field.JArr? && Keep(x) && exists i :: 0 <= i < |field.items| && ParseItem(field.items[i], parse) == x
    ensures forall y :: y in ParseArrayField(field, parse) ==> Keep(y)
    ensures field.JArr? ==> |ParseArrayField(field, parse)| <= |field.items|
  {
    if field.JArr? {
      var mapped := seq(|field.items|, i requires 0 <= i < |field.items| => ParseItem(field.items[i], parse));
      FilterMembership(mapped, Keep, x);
      if x in mapped {
        var i :| 0 <= i < |mapped| && mapped[i] == x;
      }
      if exists i :: 0 <= i < |field.items| && ParseItem(field.items[i], parse) == x {
        var i :| 0 <= i < |field.items| && ParseItem(field.items[i], parse) == x;
        assert mapped[i] == x;
      }
      forall y | y in ParseArrayField(field, parse) ensures Keep(y) {
        FilterMembership(mapped, Keep, y);
      }
    }
  }

  /** A plain name (not starting with `[`) passes through unchanged. */
  lemma PlainItemKept(s: string, parse: string -> Option<J.Json>)
    requires !StartsWith(s, "[")
    ensures ParseItem(J.JStr(s), parse) == J.JStr(s)
    ensures Keep(J.JStr(s)) <==> Trim(s) != ""
  {
  }

  /** `names.join(", ")`. */
  function JoinComma(names: seq<string>): string
  {
    if names == [] then ""
    else if |names| == 1 then names[0]
    else names[0] + ", " + JoinComma(names[1..])
  }

  /** A comma-separated text as the list sent on save: split at commas, trimmed, blanks dropped. */
  function SplitList(s: string): seq<string>
  {
    var parts := Split(s, ',');
    Filter(seq(|parts|, i requires 0 <= i < |parts| => Trim(parts[i])), (p: string) => p != "")
  }

  /** The hosts or tags sent on save: nothing for a blank text, otherwise the list. */
  function ListField(s: string): (r: Option<seq<string>>)
    ensures r.Some? <==> Trim(s) != ""
    ensures r.Some? ==> forall p :: p in r.value ==> p != "" && ',' !in p
  {
    if Trim(s) == "" then None
    else
      var r := SplitList(s);
      var parts := Split(s, ',');
      forall p | p in r ensures p != "" && ',' !in p {
        var trimmed := seq(|parts|, i requires 0 <= i < |parts| => Trim(parts[i]));
        FilterMembership(trimmed, (q: string) => q != "", p);
        var i :| 0 <= i < |trimmed| && trimmed[i] == p;
        TrimSlice(parts[i]);
      }
      Some(r)
  }

  /** A name the editor can round-trip: trimmed, non-empty, without commas. */
  predicate CleanName(s: string)
  {
    s != "" && Trim(s) == s && ',' !in s
  }

  /** The list shown in the editor (`join(", ")`) comes back unchanged from the save's split. */
  lemma {:induction false} JoinSplitRoundTrip(names: seq<string>)
    requires forall i :: 0 <= i < |names| ==> CleanName(names[i])
    ensures SplitList(JoinComma(names)) == names
  {
    SplitJoinComma(names);
    var parts := Split(JoinComma(names), ',');
    assert names != [] ==> parts == CommaParts(names);
    var trimmed := seq(|parts|, i requires 0 <= i < |parts| => Trim(parts[i]));
    if names == [] {
      assert trimmed == [""];
    } else {
      assert trimmed == names by {
        forall i | 0 <= i < |names| ensures trimmed[i] == names[i] {
          if i > 0 {
            TrimLeadingSpace(names[i]);
          }
        }
      }
      FilterAll(trimmed, (p: string) => p != "");
    }
  }

  /** The parts of the joined text: the first name, then each further name behind one space. */
  function CommaParts(names: seq<string>): (r: seq<string>)
    requires names != []
    ensures |r| == |names| && r[0] == names[0]
    ensures forall i :: 0 < i < |names| ==> r[i] == " " + names[i]
  {
    [names[0]] + seq(|names| - 1, i requires 0 <= i < |names| - 1 => " " + names[i + 1])
  }

  lemma {:induction false} SplitJoinComma(names: seq<string>)
    requires forall i :: 0 <= i < |names| ==> CleanName(names[i])
    ensures names == [] ==> Split(JoinComma(names), ',') == [""]
    ensures names != [] ==> Split(JoinComma(names), ',') == CommaParts(names)
  {
    if |names| == 1 {
      SplitNone(names[0], ',');
    } else if |names| > 1 {
      SplitJoinComma(names[1..]);
      SplitJoinStep(names);
    }
  }

  /** One more name in front: its part comes first and the others keep theirs behind a space. */
  lemma SplitJoinStep(names: seq<string>)
    requires |names| > 1 && CleanName(names[0])
    requires Split(JoinComma(names[1..]), ',') == CommaParts(names[1..])
    ensures Split(JoinComma(names), ',') == CommaParts(names)
  {
    var tail := JoinComma(names[1..]);
    JoinCommaCons(names);
    SplitFirst(names[0], " " + tail, ',');
    SplitLeadingSpace(tail);
    CommaPartsCons(names);
  }

  lemma JoinCommaCons(names: seq<string>)
    requires |names| > 1
    ensures JoinComma(names) == names[0] + [','] + (" " + JoinComma(names[1..]))
  {
    var tail := JoinComma(names[1..]);
    assert JoinComma(names) == names[0] + ", " + tail;
    assert names[0] + ", " + tail == names[0] + [','] + (" " + tail);
  }

  lemma CommaPartsCons(names: seq<string>)
    requires |names| > 1
    ensures var ps := CommaParts(names[1..]); CommaParts(names) == [names[0]] + ([" " + ps[0]] + ps[1..])
  {
    var ps := CommaParts(names[1..]);
    var r := [names[0]] + ([" " + ps[0]] + ps[1..]);
    forall i | 0 <= i < |names| ensures CommaParts(names)[i] == r[i] {
      if i > 1 {
        assert r[i] == ps[i - 1];
      }
    }
  }

  lemma SplitLeadingSpace(s: string)
    ensures Split(" " + s, ',') == [" " + Split(s, ',')[0]] + Split(s, ',')[1..]
  {
    assert (" " + s)[1..] == s;
    assert (" " + s)[0] == ' ';
  }

  lemma TrimLeadingSpace(s: string)
    requires CleanName(s)
    ensures Trim(" " + s) == s
  {
    assert TrimStart(" " + s) == TrimStart(s) by {
      assert (" " + s)[1..] == s;
    }
    TrimSlice(s);
    TrimSlice(" " + s);
  }

  // ---------------------------------------------------------------- times

  /** `^\d{2}:\d{2}(:\d{2})?$`. */
  predicate Is24(t: string)
  {
    (|t| == 5 || (|t| == 8 && t[5] == ':' && IsDigit(t[6]) && IsDigit(t[7])))
    && IsDigit(t[0]) && IsDigit(t[1]) && t[2] == ':' && IsDigit(t[3]) && IsDigit(t[4])
  }

  /** The result of `parseInt`: the value of the leading digits, or `NaN` without any. */
  datatype Num = NaN | N(n: nat)

  function ParseInt(s: string): (r: Num)
    ensures AllDigits(s) && s != "" ==> r == N(DigitsValue(s))
  {
    var d := LeadingDigits(s);
    if d == [] then NaN else N(DigitsValue(d))
  }

  /** `String(x)` of a number. */
  function NumText(x: Num): string
  {
    match x
    case NaN => "NaN"
    case N(n) => NatToString(n)
  }

  /** `convertTo24Hour`. A missing minutes part prints as `undefined`. */
  function ConvertTo24Hour(t: string): string
  {
    if t == "" then ""
    else if Is24(t) then t[..5]
    else
      var parts := Split(t, ' ');
      var pm := |parts| > 1 && parts[1] == "PM";
      var clock := Split(parts[0], ':');
      var minutes := if |clock| > 1 then clock[1] else "undefined";
      PadStart(ShownHours(clock[0], pm), 2, '0') + ":" + minutes
  }

  /** The hours as written before padding: `12` counts as `00`, and PM adds twelve. */
  function ShownHours(raw: string, pm: bool): string
  {
    var hours := if raw == "12" then "00" else raw;
    if pm then NumText(match ParseInt(hours) case NaN => NaN case N(n) => N(n + 12)) else hours
  }

  /** The hour of `h` o'clock (1 to 12) in the 24-hour clock: 12 AM is 0 and 12 PM is 12. */
  function Hour24(h: nat, pm: bool): nat
  {
    if h == 12 then (if pm then 12 else 0) else if pm then h + 12 else h
  }

  lemma ShownHoursExact(h: nat, pm: bool)
    requires 1 <= h <= 12
    ensures PadStart(ShownHours(NatToString(h), pm), 2, '0') == TwoDigits(Hour24(h, pm))
  {
    TwelveText(h);
    if h == 12 {
      TwelveZero("00", pm);
    } else if pm {
      assert ParseInt(NatToString(h)) == N(h);
    }
  }

  /** The twelfth hour: written `00`, it reads as 0, so AM gives `00` and PM gives 12. */
  lemma TwelveZero(z: string, pm: bool)
    requires z == "00"
    ensures PadStart(ShownHours("12", pm), 2, '0') == TwoDigits(Hour24(12, pm))
  {
    assert ShownHours("12", pm) == if pm then NumText(match ParseInt(z) case NaN => NaN case N(n) => N(n + 12)) else z;
    assert AllDigits(z);
    assert z[..1] == "0";
    assert DigitsValue(z[..1]) == 0 by { assert z[..1][..0] == []; }
    assert DigitsValue(z) == 0;
    assert ParseInt(z) == N(0);
    if !pm {
      assert NatToString(0) == "0";
      assert PadStart("0", 2, '0') == PadStart(['0'] + "0", 2, '0');
      assert ['0'] + "0" == z;
    }
  }

  /** The empty time stays empty and a 24-hour time keeps its hours and minutes. */
  lemma ConvertTo24HourPlain(t: string)
    ensures t == "" ==> ConvertTo24Hour(t) == ""
    ensures Is24(t) ==> ConvertTo24Hour(t) == t[..5] && Is24(ConvertTo24Hour(t))
  {
  }

  /**
   * A 12-hour time `h:mm AM` or `h:mm PM` becomes its 24-hour hour, zero-padded to two
   * digits, and the same minutes.
   */
  lemma ConvertTo24HourTwelve(h: nat, mm: string, pm: bool)
    requires 1 <= h <= 12 && |mm| == 2 && AllDigits(mm)
    ensures ConvertTo24Hour(NatToString(h) + ":" + mm + " " + (if pm then "PM" else "AM"))
            == TwoDigits(Hour24(h, pm)) + ":" + mm
  {
    var hs := NatToString(h);
    var mod := if pm then "PM" else "AM";
    TwelveParts(h, mm, pm);
    assert mod == "PM" <==> pm;
    ConvertParts(hs + ":" + mm + " " + mod, hs + ":" + mm, mod, hs, mm);
    ShownHoursExact(h, pm);
  }

  /** The converted time is a 24-hour time holding that hour, and converting it again changes nothing. */
  lemma ConvertedIs24(n: nat, mm: string)
    requires n < 24 && |mm| == 2 && AllDigits(mm)
    ensures var out := TwoDigits(n) + ":" + mm;
            Is24(out) && out[..2] == TwoDigits(n) && ConvertTo24Hour(out) == out
    ensures var out := TwoDigits(n) + ":" + mm;
            AllDigits(out[..2]) && DigitsValue(out[..2]) == n
  {
    TwoDigitsExact(n);
    ClockIs24(TwoDigits(n), mm);
    ConvertTo24HourPlain(TwoDigits(n) + ":" + mm);
  }

  /** Two digits, a colon and two digits make a 24-hour time of five characters. */
  lemma ClockIs24(hh: string, mm: string)
    requires |hh| == 2 && AllDigits(hh) && |mm| == 2 && AllDigits(mm)
    ensures var out := hh + ":" + mm;
            Is24(out) && out[..2] == hh && out[..5] == out
  {
    var out := hh + ":" + mm;
    assert out[3..] == mm;
  }

  /** The conversion of a time that splits into hours, minutes and a modifier. */
  lemma ConvertParts(t: string, clock: string, mod: string, hs: string, mm: string)
    requires t != "" && !Is24(t)
    requires Split(t, ' ') == [clock, mod] && Split(clock, ':') == [hs, mm]
    ensures ConvertTo24Hour(t) == PadStart(ShownHours(hs, mod == "PM"), 2, '0') + ":" + mm
  {
  }

  /** How a 12-hour time splits: at the space into clock and modifier, the clock at the colon. */
  lemma TwelveParts(h: nat, mm: string, pm: bool)
    requires 1 <= h <= 12 && |mm| == 2 && AllDigits(mm)
    ensures var hs := NatToString(h);
            var mod := if pm then "PM" else "AM";
            var t := hs + ":" + mm + " " + mod;
            && Split(t, ' ') == [hs + ":" + mm, mod]
            && Split(hs + ":" + mm, ':') == [hs, mm]
            && !Is24(t) && t != ""
  {
    var hs := NatToString(h);
    assert 1 <= |hs| <= 2 && AllDigits(hs) by {
      if h >= 10 {
        assert NatToString(h / 10) == [DigitChar(h / 10)];
      }
    }
    ClockParts(hs, mm, if pm then "PM" else "AM");
  }

  lemma ClockParts(hs: string, mm: string, mod: string)
    requires 1 <= |hs| <= 2 && AllDigits(hs) && |mm| == 2 && AllDigits(mm) && (mod == "AM" || mod == "PM")
    ensures var t := hs + ":" + mm + " " + mod;
            && Split(t, ' ') == [hs + ":" + mm, mod]
            && Split(hs + ":" + mm, ':') == [hs, mm]
            && !Is24(t) && t != ""
  {
    ClockSpaceSplit(hs, mm, mod);
    ClockColonSplit(hs, mm);
    ClockNot24(hs, mm, mod);
  }

  lemma ClockSpaceSplit(hs: string, mm: string, mod: string)
    requires AllDigits(hs) && AllDigits(mm) && (mod == "AM" || mod == "PM")
    ensures Split(hs + ":" + mm + " " + mod, ' ') == [hs + ":" + mm, mod]
  {
    var clock := hs + ":" + mm;
    assert ' ' !in clock by {
      forall i | 0 <= i < |clock| ensures clock[i] != ' ' {
        if i < |hs| { assert IsDigit(hs[i]); } else if i > |hs| { assert clock[i] == mm[i - |hs| - 1]; }
      }
    }
    assert clock + " " + mod == clock + [' '] + mod;
    SplitFirst(clock, mod, ' ');
    SplitNone(mod, ' ');
  }

  lemma ClockColonSplit(hs: string, mm: string)
    requires AllDigits(hs) && AllDigits(mm)
    ensures Split(hs + ":" + mm, ':') == [hs, mm]
  {
    assert ':' !in hs by {
      forall i | 0 <= i < |hs| ensures hs[i] != ':' { assert IsDigit(hs[i]); }
    }
    assert ':' !in mm by {
      forall i | 0 <= i < |mm| ensures mm[i] != ':' { assert IsDigit(mm[i]); }
    }
    assert hs + ":" + mm == hs + [':'] + mm;
    SplitFirst(hs, mm, ':');
    SplitNone(mm, ':');
  }

  lemma ClockNot24(hs: string, mm: string, mod: string)
    requires 1 <= |hs| <= 2 && |mm| == 2 && |mod| == 2
    ensures var t := hs + ":" + mm + " " + mod; !Is24(t) && t != ""
  {
    var t := hs + ":" + mm + " " + mod;
    if |t| == 8 {
      assert t[5] == ' ';
    }
  }

  /** The twelfth hour is the only one written `12`. */
  lemma TwelveText(h: nat)
    ensures NatToString(h) == "12" <==> h == 12
  {
    var t := NatToString(12);
    assert t == NatToString(1) + [DigitChar(2)];
    assert t == "12";
    NatToStringInjective(h, 12);
  }

  /** A number below 100 written with two digits (`String(n).padStart(2, '0')`). */
  function TwoDigits(n: nat): string
  {
    PadStart(NatToString(n), 2, '0')
  }

  lemma TwoDigitsExact(n: nat)
    requires n < 100
    ensures |TwoDigits(n)| == 2 && AllDigits(TwoDigits(n)) && DigitsValue(TwoDigits(n)) == n
  {
    var s := NatToString(n);
    var r := TwoDigits(n);
    if n < 10 {
      assert s == [DigitChar(n)];
      assert r == ['0'] + s;
      assert r[..1] == "0";
      assert DigitsValue(r[..1]) == 0 by { assert r[..1][..0] == []; }
    } else {
      assert NatToString(n / 10) == [DigitChar(n / 10)];
      assert |s| == 2;
    }
  }

  // ---------------------------------------------------------------- images

  /** An event as listed: its id and the ids of its stored images. */
  datatype ListedEvent = ListedEvent(id: nat, images: seq<nat>)

  /** `deleteImage` after the request succeeded: the image leaves that one event. */
  function DeleteImage(events: seq<ListedEvent>, eventId: nat, imgId: nat): (r: seq<ListedEvent>)
    ensures |r| == |events|
    ensures forall i :: 0 <= i < |events| ==> r[i].id == events[i].id
    ensures forall i :: 0 <= i < |events| && events[i].id != eventId ==> r[i] == events[i]
  {
    seq(|events|, i requires 0 <= i < |events| =>
      if events[i].id == eventId then events[i].(images := Filter(events[i].images, (g: nat) => g != imgId))
      else events[i])
  }

  /** In the event concerned, exactly that image is gone and the others keep their order. */
  lemma DeleteImageExact(events: seq<ListedEvent>, eventId: nat, imgId: nat, i: nat, g: nat)
    requires i < |events| && events[i].id == eventId
    ensures imgId !in DeleteImage(events, eventId, imgId)[i].images
    ensures g != imgId ==> (g in DeleteImage(events, eventId, imgId)[i].images <==> g in events[i].images)
    ensures IsSubsequence(DeleteImage(events, eventId, imgId)[i].images, events[i].images)
  {
    FilterMembership(events[i].images, (x: nat) => x != imgId, g);
    FilterMembership(events[i].images, (x: nat) => x != imgId, imgId);
    FilterIsSubsequence(events[i].images, (x: nat) => x != imgId);
  }

  // ---------------------------------------------------------------- save

  /** A form-data value: a text, a JSON list of names, or a pending file. */
  datatype FormValue = Str(s: string) | Names(names: seq<string>) | File(name: string)

  /** The edit form. */
  datatype EditForm = EditForm(title: string, content: string, about: string, date: string, startTime: string,
                               endTime: string, venue: string, capacity: string, category: string,
                               speakers: string, tags: string, images: seq<string>)

  /** The fixed fields of the save, in order. */
  function FixedEntries(f: EditForm): seq<(string, FormValue)>
  {
    [("title", Str(f.title)), ("content", Str(f.content)), ("description", Str(f.about)),
     ("date", Str(f.date)), ("time_from", Str(f.startTime)), ("time_to", Str(f.endTime)),
     ("location", Str(f.venue)), ("total_seats", Str(f.capacity)), ("event_type", Str(f.category))]
  }

  function ListEntry(key: string, s: string): seq<(string, FormValue)>
  {
    match ListField(s)
    case None => []
    case Some(names) => [(key, Names(names))]
  }

  function ImageEntries(files: seq<string>): (r: seq<(string, FormValue)>)
    ensures |r| == |files| && forall i :: 0 <= i < |r| ==> r[i] == ("image", File(files[i]))
  {
    seq(|files|, i requires 0 <= i < |files| => ("image", File(files[i])))
  }

  /** What `saveEdit` appends before the files: the fixed fields, then the two lists. */
  function SaveHead(f: EditForm): seq<(string, FormValue)>
  {
    FixedEntries(f) + ListEntry("hosts", f.speakers) + ListEntry("tags", f.tags)
  }

  /** The body of `saveEdit`. */
  function SaveEntries(f: EditForm): seq<(string, FormValue)>
  {
    SaveHead(f) + ImageEntries(f.images)
  }

  /** `saveEdit` up to the request: the fixed fields, the lists, then one `image` entry per file. */
  method SaveEdit(f: EditForm) returns (entries: seq<(string, FormValue)>)
    ensures entries == SaveEntries(f)
  {
    var head := SaveHead(f);
    entries := head;
    var i := 0;
    while i < |f.images|
      invariant 0 <= i <= |f.images|
      invariant entries == head + ImageEntries(f.images[..i])
    {
      ImageEntriesSnoc(head, f.images, i);
      entries := entries + [("image", File(f.images[i]))];
      i := i + 1;
    }
    assert f.images[..|f.images|] == f.images;
  }

  lemma ImageEntriesSnoc(head: seq<(string, FormValue)>, files: seq<string>, i: nat)
    requires i < |files|
    ensures head + ImageEntries(files[..i]) + [("image", File(files[i]))] == head + ImageEntries(files[..i + 1])
  {
    assert ImageEntries(files[..i + 1]) == ImageEntries(files[..i]) + [("image", File(files[i]))];
  }

  /**
   * The save always carries the nine fixed fields first; `hosts` and `tags` appear iff their
   * text is not blank; the pending files follow, one per entry, in order.
   */
  lemma SaveEntriesExact(f: EditForm)
    ensures SaveEntries(f)[..9] == FixedEntries(f)
    ensures |SaveEntries(f)| == 9 + (if Trim(f.speakers) != "" then 1 else 0) + (if Trim(f.tags) != "" then 1 else 0) + |f.images|
    ensures SaveEntries(f)[|SaveEntries(f)| - |f.images|..] == ImageEntries(f.images)
  {
    var h := SaveHead(f);
    assert h == FixedEntries(f) + ListEntry("hosts", f.speakers) + ListEntry("tags", f.tags);
    assert SaveEntries(f) == h + ImageEntries(f.images);
  }
}
