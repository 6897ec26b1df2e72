/**
 * The XMLTV guide parser: an event-driven state machine over the tokens of an XML reader,
 * the XMLTV date and time-zone offset rules, and the stable sort of each schedule by start.
 * The XML tokenizer is a parameter (a list of events, ended by `Eof` or an error), and so is
 * the calendar parse of the fourteen-digit local time, which yields seconds since the epoch.
 */
module EpgParser {
  import opened Wrappers
  import opened Text
  import opened Utf8
  import opened Decimal
  import opened Models

  // ---------------------------------------------------------------- offsets and dates

  /** The sign of an offset and the text after it. */
  function SignAndRest(t: string): (int, string)
    requires t != []
  {
    if t[0] == '+' then (1, t[1..]) else if t[0] == '-' then (-1, t[1..]) else (1, t)
  }

  /**
   * `parse_tz_offset`: blank text is offset 0; otherwise an optional sign, then two
   * characters of hours and two of minutes, each read as an `i32`.
   */
  function ParseTzOffset(s: string): (r: Option<int>)
    ensures Trim(s) == [] ==> r == Some(0)
    ensures Trim(s) != [] && |SignAndRest(Trim(s)).1| < 4 ==> r.None?
  {
    var t := Trim(s);
    if t == [] then Some(0)
    else
      var (sign, rest) := SignAndRest(t);
      if |rest| < 4 then None
      else
        match (ParseInt(rest[..2]), ParseInt(rest[2..4]))
        case (Some(hours), Some(minutes)) => Some(sign * (hours * 3600 + minutes * 60))
        case _ => None
  }

  /** The offset text "+HHMM" or "-HHMM", the partner of `ParseTzOffset`. */
  function TzOffsetText(negative: bool, hours: nat, minutes: nat): (s: string)
    requires hours < 100 && minutes < 100
  {
    (if negative then "-" else "+") + PadNat(hours, 2) + PadNat(minutes, 2)
  }

  lemma PadTwoDigits(n: nat)
    requires n < 100
    ensures |PadNat(n, 2)| == 2 && AllDigits(PadNat(n, 2))
  {
    assert Pow10(1) == 10;
    assert Pow10(2) == 100;
    NatToStringShort(n, 2);
  }

  lemma ParseDigitPair(p: string)
    requires |p| == 2 && AllDigits(p)
    ensures ParseInt(p) == Some(DigitsValue(p))
  {
    assert IsDigit(p[0]);
  }

  lemma TwoDigits(n: nat)
    requires n < 100
    ensures |PadNat(n, 2)| == 2 && AllDigits(PadNat(n, 2))
    ensures ParseInt(PadNat(n, 2)) == Some(n)
  {
    PadTwoDigits(n);
    PadNatValue(n, 2);
    ParseDigitPair(PadNat(n, 2));
  }

  /** A sign and two pairs of characters that read as `i32`s: the offset in seconds. */
  lemma ParseTzOffsetSigned(c: char, hh: string, mm: string, h: int, m: int)
    requires c == '+' || c == '-'
    requires |hh| == 2 && |mm| == 2 && ParseInt(hh) == Some(h) && ParseInt(mm) == Some(m)
    requires Trim([c] + hh + mm) == [c] + hh + mm
    ensures ParseTzOffset([c] + hh + mm) == Some((if c == '-' then -1 else 1) * (h * 3600 + m * 60))
  {
    var t := [c] + hh + mm;
    assert t[1..] == hh + mm;
    assert (hh + mm)[..2] == hh;
    assert (hh + mm)[2..4] == mm;
  }

  lemma TrimSigned(c: char, hh: string, mm: string)
    requires c == '+' || c == '-'
    requires |mm| == 2 && IsDigit(mm[1])
    ensures Trim([c] + hh + mm) == [c] + hh + mm
  {
    var t := [c] + hh + mm;
    assert t[0] == c && t[|t| - 1] == mm[1];
    TrimNoop(t);
  }

  /** Reading an offset written as "+HHMM" or "-HHMM" gives its signed number of seconds. */
  lemma ParseTzOffsetOfText(negative: bool, hours: nat, minutes: nat)
    requires hours < 100 && minutes < 100
    ensures ParseTzOffset(TzOffsetText(negative, hours, minutes))
      == Some((if negative then -1 else 1) * (hours * 3600 + minutes * 60))
  {
    var hh, mm := PadNat(hours, 2), PadNat(minutes, 2);
    TwoDigits(hours);
    TwoDigits(minutes);
    var c := if negative then '-' else '+';
    assert TzOffsetText(negative, hours, minutes) == [c] + hh + mm;
    assert IsDigit(mm[1]);
    TrimSigned(c, hh, mm);
    ParseTzOffsetSigned(c, hh, mm, hours, minutes);
  }

  lemma ParseLiteralPair(p: string, v: nat)
    requires |p| == 2 && IsDigit(p[0]) && IsDigit(p[1]) && v == (p[0] as int - '0' as int) * 10 + (p[1] as int - '0' as int)
    ensures ParseInt(p) == Some(v)
  {
    assert AllDigits(p) by {
      forall i | 0 <= i < |p|
        ensures IsDigit(p[i])
      {
        if i != 0 {
          assert i == 1;
        }
      }
    }
    ParseDigitPair(p);
    assert p[..1][..0] == [] && p[..1][0] == p[0];
    assert DigitsValue(p[..1]) == p[0] as int - '0' as int;
  }

  lemma ParseTzOffsetLiteral(c: char, hh: string, mm: string, h: nat, m: nat)
    requires c == '+' || c == '-'
    requires |hh| == 2 && IsDigit(hh[0]) && IsDigit(hh[1]) && h == (hh[0] as int - '0' as int) * 10 + (hh[1] as int - '0' as int)
    requires |mm| == 2 && IsDigit(mm[0]) && IsDigit(mm[1]) && m == (mm[0] as int - '0' as int) * 10 + (mm[1] as int - '0' as int)
    ensures ParseTzOffset([c] + hh + mm) == Some((if c == '-' then -1 else 1) * (h * 3600 + m * 60))
  {
    ParseLiteralPair(hh, h);
    ParseLiteralPair(mm, m);
    TrimSigned(c, hh, mm);
    ParseTzOffsetSigned(c, hh, mm, h, m);
  }

  /** The offsets the parser's own examples use. */
  lemma ParseTzOffsetExamples()
    ensures ParseTzOffset("+0000") == Some(0)
    ensures ParseTzOffset("+0100") == Some(3600)
    ensures ParseTzOffset("-0530") == Some(-19800)
    ensures ParseTzOffset("") == Some(0)
  {
    ParseTzOffsetLiteral('+', "00", "00", 0, 0);
    assert ['+'] + "00" + "00" == "+0000";
    ParseTzOffsetLiteral('+', "01", "00", 1, 0);
    assert ['+'] + "01" + "00" == "+0100";
    ParseTzOffsetLiteral('-', "05", "30", 5, 30);
    assert ['-'] + "05" + "30" == "-0530";
  }

  /** The largest offset `FixedOffset` accepts is one second short of a day either way. */
  predicate FixedOffsetInRange(secs: int) {
    -86400 < secs < 86400
  }

  /** The local part and the offset of an XMLTV date after trimming. */
  function SplitDatetime(t: string): (string, int) {
    if |t| > 14 then (t[..14], ParseTzOffset(Trim(t[14..])).GetOr(0)) else (t, 0)
  }

  /**
   * `parse_xmltv_datetime`: the fourteen-character local time, read by `naiveParse` as
   * seconds since the epoch, less the offset that follows it (0 when there is none or it
   * does not parse); None when the local part does not parse or the offset is out of range.
   */
  function ParseXmltvDatetime(s: string, naiveParse: string -> Option<int>): (r: Option<int>)
    ensures var (local, offset) := SplitDatetime(Trim(s));
      r.Some? <==> naiveParse(local).Some? && FixedOffsetInRange(offset)
    ensures var (local, offset) := SplitDatetime(Trim(s));
      r.Some? ==> r.value == naiveParse(local).value - offset
  {
    var (local, offset) := SplitDatetime(Trim(s));
    match naiveParse(local)
    case None => None
    case Some(naive) => if FixedOffsetInRange(offset) then Some(naive - offset) else None
  }

  lemma SplitExample(s: string)
    requires s == "20260211150000 +0100"
    ensures SplitDatetime(Trim(s)) == ("20260211150000", 3600)
  {
    TrimNoop(s);
    assert s[..14] == "20260211150000";
    var tail := s[14..];
    assert tail == " +0100";
    assert TrimStart(tail) == "+0100" by {
      assert IsSpace(tail[0]) && tail[1..] == "+0100";
    }
    assert Trim(tail) == "+0100" by {
      assert TrimEnd("+0100") == "+0100";
    }
    ParseTzOffsetExamples();
  }

  /** "+0100" after the local time means the UTC instant is an hour earlier. */
  lemma ParseXmltvDatetimeExample(s: string, naiveParse: string -> Option<int>, local: int)
    requires s == "20260211150000 +0100" && naiveParse("20260211150000") == Some(local)
    ensures ParseXmltvDatetime(s, naiveParse) == Some(local - 3600)
  {
    SplitExample(s);
  }

  // ---------------------------------------------------------------- the stable sort

  ghost predicate SortedByStart(ps: seq<EpgProgram>) {
    forall i, j :: 0 <= i < j < |ps| ==> ps[i].start <= ps[j].start
  }

  /** Puts `p` after every programme of `ps` that starts no later than it. */
  function InsertByStart(ps: seq<EpgProgram>, p: EpgProgram): (r: seq<EpgProgram>)
    ensures |r| == |ps| + 1
    decreases |ps|
  {
    if ps == [] || ps[|ps| - 1].start <= p.start then ps + [p]
    else InsertByStart(ps[..|ps| - 1], p) + [ps[|ps| - 1]]
  }

  lemma {:induction false} InsertPermutes(ps: seq<EpgProgram>, p: EpgProgram)
    ensures multiset(InsertByStart(ps, p)) == multiset(ps) + multiset{p}
    decreases |ps|
  {
    if !(ps == [] || ps[|ps| - 1].start <= p.start) {
      InsertPermutes(ps[..|ps| - 1], p);
      assert ps == ps[..|ps| - 1] + [ps[|ps| - 1]];
    }
  }

  /** `sort_by_key(|p| p.start)`: a stable sort, written as an insertion sort. */
  function SortByStart(ps: seq<EpgProgram>): (r: seq<EpgProgram>)
    ensures |r| == |ps|
    decreases |ps|
  {
    if ps == [] then [] else InsertByStart(SortByStart(ps[..|ps| - 1]), ps[|ps| - 1])
  }

  /** The programmes of `ps` that start at `t`, in order. */
  function StartingAt(ps: seq<EpgProgram>, t: int): seq<EpgProgram>
    decreases |ps|
  {
    if ps == [] then []
    else StartingAt(ps[..|ps| - 1], t) + (if ps[|ps| - 1].start == t then [ps[|ps| - 1]] else [])
  }

  lemma StartingAtSnoc(ps: seq<EpgProgram>, p: EpgProgram, t: int)
    ensures StartingAt(ps + [p], t) == StartingAt(ps, t) + (if p.start == t then [p] else [])
  {
    assert (ps + [p])[..|ps|] == ps;
  }

  lemma {:induction false} InsertSorted(ps: seq<EpgProgram>, p: EpgProgram)
    requires SortedByStart(ps)
    ensures SortedByStart(InsertByStart(ps, p))
    decreases |ps|
  {
    if !(ps == [] || ps[|ps| - 1].start <= p.start) {
      var init, last := ps[..|ps| - 1], ps[|ps| - 1];
      InsertSorted(init, p);
      var q := InsertByStart(init, p);
      InsertPermutes(init, p);
      forall x | x in q
        ensures x.start <= last.start
      {
        assert x in multiset(q);
        if x != p {
          assert x in multiset(init);
          var i :| 0 <= i < |init| && init[i] == x;
          assert ps[i] == x;
        }
      }
      var r := q + [last];
      forall i, j | 0 <= i < j < |r|
        ensures r[i].start <= r[j].start
      {
        if j == |r| - 1 {
          assert r[i] in q;
        }
      }
    }
  }

  /** Inserting keeps the order among programmes that start at the same time. */
  lemma {:induction false} InsertStable(ps: seq<EpgProgram>, p: EpgProgram, t: int)
    ensures StartingAt(InsertByStart(ps, p), t) == StartingAt(ps, t) + (if p.start == t then [p] else [])
    decreases |ps|
  {
    if ps == [] || ps[|ps| - 1].start <= p.start {
      StartingAtSnoc(ps, p, t);
    } else {
      var init, last := ps[..|ps| - 1], ps[|ps| - 1];
      var q := InsertByStart(init, p);
      assert InsertByStart(ps, p) == q + [last];
      assert init + [last] == ps;
      InsertStable(init, p, t);
      StartingAtSnoc(q, last, t);
      StartingAtSnoc(init, last, t);
      if p.start == t {
        // `last` starts later than `p`, so it is not among the programmes at `t`.
        assert StartingAt(q + [last], t) == StartingAt(q, t);
        assert StartingAt(ps, t) == StartingAt(init, t);
      } else {
        assert StartingAt(q, t) == StartingAt(init, t) + [];
      }
    }
  }

  lemma {:induction false} SortSorted(ps: seq<EpgProgram>)
    ensures SortedByStart(SortByStart(ps))
    decreases |ps|
  {
    if ps != [] {
      SortSorted(ps[..|ps| - 1]);
      InsertSorted(SortByStart(ps[..|ps| - 1]), ps[|ps| - 1]);
    }
  }

  lemma {:induction false} SortPermutes(ps: seq<EpgProgram>)
    ensures multiset(SortByStart(ps)) == multiset(ps)
    decreases |ps|
  {
    if ps != [] {
      var init, last := ps[..|ps| - 1], ps[|ps| - 1];
      SortPermutes(init);
      InsertPermutes(SortByStart(init), last);
      assert ps == init + [last];
    }
  }

  lemma {:induction false} SortStable(ps: seq<EpgProgram>, t: int)
    ensures StartingAt(SortByStart(ps), t) == StartingAt(ps, t)
    decreases |ps|
  {
    if ps != [] {
      var init, last := ps[..|ps| - 1], ps[|ps| - 1];
      var inL: seq<EpgProgram> := if last.start == t then [last] else [];
      assert SortByStart(ps) == InsertByStart(SortByStart(init), last);
      InsertStable(SortByStart(init), last, t);
      SortStable(init, t);
      assert StartingAt(SortByStart(ps), t) == StartingAt(init, t) + inL;
      assert StartingAt(ps, t) == StartingAt(init, t) + inL;
    }
  }

  /**
   * The sort orders by start, keeps every programme, and keeps programmes that start at
   * the same time in their original order.
   */
  lemma SortByStartSpec(ps: seq<EpgProgram>, t: int)
    ensures SortedByStart(SortByStart(ps))
    ensures multiset(SortByStart(ps)) == multiset(ps)
    ensures StartingAt(SortByStart(ps), t) == StartingAt(ps, t)
  {
    SortSorted(ps);
    SortPermutes(ps);
    SortStable(ps, t);
  }

  // ---------------------------------------------------------------- attributes

  /** An attribute as the reader yields it: the value is None when it is not valid UTF-8. */
  datatype Attr = Attr(key: string, value: Option<string>)

  /** The index of the last attribute named `key`, or -1. */
  function LastKeyAt(attrs: seq<Attr>, key: string): (k: int)
    ensures -1 <= k < |attrs|
    ensures k >= 0 ==> attrs[k].key == key
    ensures forall j :: k < j < |attrs| ==> attrs[j].key != key
    decreases |attrs|
  {
    if attrs == [] then -1
    else if attrs[|attrs| - 1].key == key then |attrs| - 1
    else LastKeyAt(attrs[..|attrs| - 1], key)
  }

  /** An attribute a value is taken from: named `key`, valid UTF-8 and, if asked, not empty. */
  predicate Usable(a: Attr, key: string, nonEmpty: bool) {
    a.key == key && a.value.Some? && (!nonEmpty || a.value.value != "")
  }

  /** The index of the last usable attribute named `key`, or -1. */
  function LastUsableAt(attrs: seq<Attr>, key: string, nonEmpty: bool): (k: int)
    ensures -1 <= k < |attrs|
    ensures k >= 0 ==> Usable(attrs[k], key, nonEmpty)
    ensures forall j :: k < j < |attrs| ==> !Usable(attrs[j], key, nonEmpty)
    decreases |attrs|
  {
    if attrs == [] then -1
    else if Usable(attrs[|attrs| - 1], key, nonEmpty) then |attrs| - 1
    else LastUsableAt(attrs[..|attrs| - 1], key, nonEmpty)
  }

  /** The value of the last usable attribute named `key`: the one a forward scan keeps. */
  function LastUsable(attrs: seq<Attr>, key: string, nonEmpty: bool): Option<string> {
    var k := LastUsableAt(attrs, key, nonEmpty);
    if k < 0 then None else attrs[k].value
  }

  /** The `<channel>` id: the last valid `id` attribute, or "" (the id is cleared first). */
  method ChannelElemId(attrs: seq<Attr>) returns (id: string)
    ensures id == LastUsable(attrs, "id", false).GetOr("")
  {
    id := "";
    for i := 0 to |attrs|
      invariant id == LastUsable(attrs[..i], "id", false).GetOr("")
    {
      assert attrs[..i + 1][..i] == attrs[..i];
      if attrs[i].key == "id" && attrs[i].value.Some? {
        id := attrs[i].value.value;
      }
    }
    assert attrs[..|attrs|] == attrs;
  }

  /** The `src` of an `<icon>`: the last valid, non-empty one, else the icon kept so far. */
  method IconSrc(attrs: seq<Attr>, current: Option<string>) returns (icon: Option<string>)
    ensures icon == (if LastUsable(attrs, "src", true).Some? then LastUsable(attrs, "src", true) else current)
  {
    icon := current;
    for i := 0 to |attrs|
      invariant icon == (if LastUsable(attrs[..i], "src", true).Some? then LastUsable(attrs[..i], "src", true) else current)
    {
      assert attrs[..i + 1][..i] == attrs[..i];
      if attrs[i].key == "src" && attrs[i].value.Some? && attrs[i].value.value != "" {
        icon := attrs[i].value;
      }
    }
    assert attrs[..|attrs|] == attrs;
  }

  /** A `<programme>` attribute's text: an invalid value reads as "". */
  function AttrText(attrs: seq<Attr>, k: int): string
    requires -1 <= k < |attrs|
  {
    if k < 0 then "" else attrs[k].value.GetOr("")
  }

  /** The channel, start and stop a `<programme>` element's attributes give. */
  datatype ProgrammeHead = ProgrammeHead(channel: string, start: Option<int>, stop: Option<int>)

  /** Each of `channel`, `start` and `stop` is taken from the last attribute of that name. */
  function ProgrammeHeadOf(attrs: seq<Attr>, naiveParse: string -> Option<int>): ProgrammeHead {
    var c, b, e := LastKeyAt(attrs, "channel"), LastKeyAt(attrs, "start"), LastKeyAt(attrs, "stop");
    ProgrammeHead(
      AttrText(attrs, c),
      if b < 0 then None else ParseXmltvDatetime(AttrText(attrs, b), naiveParse),
      if e < 0 then None else ParseXmltvDatetime(AttrText(attrs, e), naiveParse))
  }

  /** The attribute loop of a `<programme>` start tag. */
  method ReadProgrammeHead(attrs: seq<Attr>, naiveParse: string -> Option<int>) returns (head: ProgrammeHead)
    ensures head == ProgrammeHeadOf(attrs, naiveParse)
  {
    head := ProgrammeHead("", None, None);
    for i := 0 to |attrs|
      invariant head == ProgrammeHeadOf(attrs[..i], naiveParse)
    {
      assert attrs[..i + 1][..i] == attrs[..i];
      var key := attrs[i].key;
      var value := attrs[i].value.GetOr("");
      if key == "channel" {
        head := head.(channel := value);
      } else if key == "start" {
        head := head.(start := ParseXmltvDatetime(value, naiveParse));
      } else if key == "stop" {
        head := head.(stop := ParseXmltvDatetime(value, naiveParse));
      }
    }
    assert attrs[..|attrs|] == attrs;
  }

  // ---------------------------------------------------------------- the state machine

  /** One event of the XML reader (text already trimmed, blank text dropped, names local). */
  datatype XmlEvent =
    | Start(name: string, attrs: seq<Attr>)
    | Empty(name: string, attrs: seq<Attr>)
    | Text(text: Option<string>)   // None: the text does not unescape
    | End(name: string)
    | Eof
    | Other                        // declarations, comments, CDATA and the like

  /** What the reader yields at each read: an event, or an error message. */
  type Token = Result<XmlEvent, string>

  /** The locals of `parse_xmltv`: the flags, the accumulators and the two maps being built. */
  datatype ParserState = ParserState(
    inProgramme: bool,
    channelId: string,
    start: Option<int>,
    stop: Option<int>,
    inTitle: bool,
    inDesc: bool,
    inCategory: bool,
    title: string,
    desc: string,
    category: string,
    iconUrl: Option<string>,
    inChannel: bool,
    channelElemId: string,
    inDisplayName: bool,
    schedules: map<string, EpgSchedule>,
    displayNames: map<string, string>)

  const Initial := ParserState(false, "", None, None, false, false, false, "", "", "", None,
                               false, "", false, map[], map[])

  /** An empty description or category is no description or category. */
  function NonEmpty(s: string): (r: Option<string>)
    ensures r.Some? <==> s != ""
    ensures r.Some? ==> r.value == s
  {
    if s == "" then None else Some(s)
  }

  /** The programmes stored under `key`, none when there is no schedule for it. */
  function Programs(schedules: map<string, EpgSchedule>, key: string): seq<EpgProgram> {
    if key in schedules then schedules[key].programs else []
  }

  /** Pushes `p` onto the schedule of `key`, creating the schedule when it is missing. */
  function Push(schedules: map<string, EpgSchedule>, key: string, p: EpgProgram): map<string, EpgSchedule> {
    var schedule := if key in schedules then schedules[key] else EpgSchedule(key, []);
    schedules[key := schedule.(programs := schedule.programs + [p])]
  }

  /** Whether the closing `</programme>` keeps the programme. */
  predicate Keeps(st: ParserState, known: seq<string>) {
    st.title != "" && (|known| == 0 || st.channelId in known) && st.start.Some? && st.stop.Some?
  }

  /** The programme the accumulators describe; its id is "{channel}-{start epoch seconds}". */
  function ProgrammeOf(st: ParserState): EpgProgram
    requires st.start.Some? && st.stop.Some?
  {
    EpgProgram(st.channelId + "-" + IntToString(st.start.value), st.channelId, st.title, NonEmpty(st.desc),
               st.start.value, st.stop.value, NonEmpty(st.category), st.iconUrl)
  }

  /** The local element names the parser reacts to. */
  datatype Tag = ChannelTag | DisplayNameTag | ProgrammeTag | TitleTag | DescTag | CategoryTag | IconTag | OtherTag

  function TagOf(name: string): Tag {
    if name == "channel" then ChannelTag
    else if name == "display-name" then DisplayNameTag
    else if name == "programme" then ProgrammeTag
    else if name == "title" then TitleTag
    else if name == "desc" then DescTag
    else if name == "category" then CategoryTag
    else if name == "icon" then IconTag
    else OtherTag
  }

  function OnStart(st: ParserState, name: string, attrs: seq<Attr>, naiveParse: string -> Option<int>): (r: ParserState)
    ensures r.schedules == st.schedules && r.displayNames == st.displayNames
    ensures TagOf(name) == ProgrammeTag ==> r.inProgramme && r.title == "" && r.iconUrl.None?
  {
    var tag := TagOf(name);
    if tag == ChannelTag then st.(inChannel := true, channelElemId := LastUsable(attrs, "id", false).GetOr(""))
    else if tag == DisplayNameTag && st.inChannel then st.(inDisplayName := true)
    else if tag == ProgrammeTag then
      var head := ProgrammeHeadOf(attrs, naiveParse);
      st.(inProgramme := true, channelId := head.channel, start := head.start, stop := head.stop,
          title := "", desc := "", category := "", iconUrl := None)
    else if tag == TitleTag && st.inProgramme then st.(inTitle := true)
    else if tag == DescTag && st.inProgramme then st.(inDesc := true)
    else if tag == CategoryTag && st.inProgramme then st.(inCategory := true)
    else st
  }

  function OnEmpty(st: ParserState, name: string, attrs: seq<Attr>): (r: ParserState)
    ensures r.schedules == st.schedules && r.displayNames == st.displayNames
    ensures r.iconUrl != st.iconUrl ==> st.inProgramme && TagOf(name) == IconTag
  {
    if TagOf(name) == IconTag && st.inProgramme then
      var src := LastUsable(attrs, "src", true);
      st.(iconUrl := if src.Some? then src else st.iconUrl)
    else st
  }

  function OnText(st: ParserState, text: Option<string>): (r: ParserState)
    ensures r.schedules == st.schedules && r.iconUrl == st.iconUrl
    ensures text.None? ==> r == st
  {
    if st.inDisplayName then
      if text.Some? && Trim(text.value) != "" && st.channelElemId != ""
         && ToLower(Trim(text.value)) !in st.displayNames
      then st.(displayNames := st.displayNames[ToLower(Trim(text.value)) := st.channelElemId])
      else st
    else if st.inTitle then (if text.Some? then st.(title := st.title + text.value) else st)
    else if st.inDesc then (if text.Some? then st.(desc := st.desc + text.value) else st)
    else if st.inCategory then (if text.Some? then st.(category := st.category + text.value) else st)
    else st
  }

  function CloseProgramme(st: ParserState, known: seq<string>): ParserState {
    if Keeps(st, known) then st.(schedules := Push(st.schedules, st.channelId, ProgrammeOf(st))) else st
  }

  function OnEnd(st: ParserState, name: string, known: seq<string>): (r: ParserState)
    ensures r.displayNames == st.displayNames && r.iconUrl == st.iconUrl
    ensures TagOf(name) != ProgrammeTag ==> r.schedules == st.schedules
  {
    var tag := TagOf(name);
    if tag == ChannelTag then st.(inChannel := false)
    else if tag == DisplayNameTag then st.(inDisplayName := false)
    else if tag == ProgrammeTag then CloseProgramme(st.(inProgramme := false), known)
    else if tag == TitleTag then st.(inTitle := false)
    else if tag == DescTag then st.(inDesc := false)
    else if tag == CategoryTag then st.(inCategory := false)
    else st
  }

  /** One turn of the event loop; an error or the end of input changes nothing here. */
  function Step(st: ParserState, token: Token, known: seq<string>, naiveParse: string -> Option<int>): (r: ParserState)
    ensures Stops(token) ==> r == st
  {
    match token
    case Err(_) => st
    case Ok(event) =>
      match event
      case Start(name, attrs) => OnStart(st, name, attrs, naiveParse)
      case Empty(name, attrs) => OnEmpty(st, name, attrs)
      case Text(text) => OnText(st, text)
      case End(name) => OnEnd(st, name, known)
      case Eof => st
      case Other => st
  }

  /** The state after the tokens, read in order from the initial state. */
  function Run(tokens: seq<Token>, known: seq<string>, naiveParse: string -> Option<int>): ParserState
    decreases |tokens|
  {
    if tokens == [] then Initial
    else Step(Run(tokens[..|tokens| - 1], known, naiveParse), tokens[|tokens| - 1], known, naiveParse)
  }

  predicate Stops(token: Token) {
    token.Err? || token.value.Eof?
  }

  /** The index of the first error or end of input from `from` on, or `|tokens|`. */
  function StopAt(tokens: seq<Token>, from: nat): (k: nat)
    requires from <= |tokens|
    ensures from <= k <= |tokens|
    ensures k < |tokens| ==> Stops(tokens[k])
    ensures forall j :: from <= j < k ==> !Stops(tokens[j])
    decreases |tokens| - from
  {
    if from == |tokens| || Stops(tokens[from]) then from else StopAt(tokens, from + 1)
  }

  /** 50 MiB: the largest input, in bytes, the parser reads. */
  const MaxXmlSize: nat := 50 * 1024 * 1024

  datatype EpgParseError = TooLarge | Xml(message: string)

  datatype ParsedXmltv = ParsedXmltv(schedules: map<string, EpgSchedule>, displayNames: map<string, string>)

  /** Every schedule sorted by start, stably. */
  function SortSchedules(schedules: map<string, EpgSchedule>): (r: map<string, EpgSchedule>)
    ensures r.Keys == schedules.Keys
  {
    map k | k in schedules :: schedules[k].(programs := SortByStart(schedules[k].programs))
  }

  /** What `parse_xmltv` answers for an input, its known channel ids and its tokens. */
  function ParseXmltvSpec(xml: string, known: seq<string>, tokenize: string -> seq<Token>,
                          naiveParse: string -> Option<int>): (r: Result<ParsedXmltv, EpgParseError>)
    ensures r == Err(TooLarge) <==> |Encode(xml)| > MaxXmlSize
  {
    if |Encode(xml)| > MaxXmlSize then Err(TooLarge)
    else
      var tokens := tokenize(xml);
      var k := StopAt(tokens, 0);
      if k < |tokens| && tokens[k].Err? then Err(Xml(tokens[k].error))
      else
        var st := Run(tokens[..k], known, naiveParse);
        Ok(ParsedXmltv(SortSchedules(st.schedules), st.displayNames))
  }

  /** The `Event::Start` arm of the loop. */
  method HandleStart(state: ParserState, name: string, attrs: seq<Attr>, naiveParse: string -> Option<int>)
    returns (next: ParserState)
    ensures next == OnStart(state, name, attrs, naiveParse)
  {
    next := state;
    var tag := TagOf(name);
    if tag == ChannelTag {
      var id := ChannelElemId(attrs);
      next := next.(inChannel := true, channelElemId := id);
    } else if tag == DisplayNameTag && state.inChannel {
      next := next.(inDisplayName := true);
    } else if tag == ProgrammeTag {
      var head := ReadProgrammeHead(attrs, naiveParse);
      next := next.(inProgramme := true, channelId := head.channel, start := head.start, stop := head.stop,
                    title := "", desc := "", category := "", iconUrl := None);
    } else if tag == TitleTag && state.inProgramme {
      next := next.(inTitle := true);
    } else if tag == DescTag && state.inProgramme {
      next := next.(inDesc := true);
    } else if tag == CategoryTag && state.inProgramme {
      next := next.(inCategory := true);
    }
  }

  /** The `Event::Empty` arm of the loop: only `<icon/>` inside a programme matters. */
  method HandleEmpty(state: ParserState, name: string, attrs: seq<Attr>) returns (next: ParserState)
    ensures next == OnEmpty(state, name, attrs)
  {
    next := state;
    if TagOf(name) == IconTag && state.inProgramme {
      var icon := IconSrc(attrs, state.iconUrl);
      next := next.(iconUrl := icon);
    }
  }

  /** The `Event::Text` arm of the loop. */
  method HandleText(state: ParserState, text: Option<string>) returns (next: ParserState)
    ensures next == OnText(state, text)
  {
    next := state;
    if state.inDisplayName {
      if text.Some? {
        var name := Trim(text.value);
        if name != "" && state.channelElemId != "" && ToLower(name) !in state.displayNames {
          next := next.(displayNames := state.displayNames[ToLower(name) := state.channelElemId]);
        }
      }
    } else if state.inTitle {
      if text.Some? {
        next := next.(title := state.title + text.value);
      }
    } else if state.inDesc {
      if text.Some? {
        next := next.(desc := state.desc + text.value);
      }
    } else if state.inCategory {
      if text.Some? {
        next := next.(category := state.category + text.value);
      }
    }
  }

  /** The `Event::End` arm of the loop; `</programme>` stores the programme when it is kept. */
  method HandleEnd(state: ParserState, name: string, known: seq<string>, acceptAll: bool) returns (next: ParserState)
    requires acceptAll <==> |known| == 0
    ensures next == OnEnd(state, name, known)
  {
    next := state;
    var tag := TagOf(name);
    if tag == ChannelTag {
      next := next.(inChannel := false);
    } else if tag == DisplayNameTag {
      next := next.(inDisplayName := false);
    } else if tag == ProgrammeTag {
      next := next.(inProgramme := false);
      var accepted := acceptAll || next.channelId in known;
      if next.title != "" && accepted && next.start.Some? && next.stop.Some? {
        var program := ProgrammeOf(next);
        var schedule := if next.channelId in next.schedules then next.schedules[next.channelId]
                        else EpgSchedule(next.channelId, []);
        next := next.(schedules := next.schedules[next.channelId := schedule.(programs := schedule.programs + [program])]);
      }
    } else if tag == TitleTag {
      next := next.(inTitle := false);
    } else if tag == DescTag {
      next := next.(inDesc := false);
    } else if tag == CategoryTag {
      next := next.(inCategory := false);
    }
  }

  /** One turn of the loop for an event other than the end of input. */
  method HandleEvent(state: ParserState, event: XmlEvent, known: seq<string>, acceptAll: bool,
                     naiveParse: string -> Option<int>) returns (next: ParserState)
    requires acceptAll <==> |known| == 0
    ensures next == Step(state, Ok(event), known, naiveParse)
  {
    match event {
      case Start(name, attrs) =>
        next := HandleStart(state, name, attrs, naiveParse);
      case Empty(name, attrs) =>
        next := HandleEmpty(state, name, attrs);
      case Text(text) =>
        next := HandleText(state, text);
      case End(name) =>
        next := HandleEnd(state, name, known, acceptAll);
      case Eof =>
        next := state;
      case Other =>
        next := state;
    }
  }

  /**
   * `parse_xmltv`: rejects input over 50 MiB, then runs the event loop until the end of
   * input, returning on the first reader error, and finally sorts every schedule.
   */
  method ParseXmltv(xml: string, known: seq<string>, tokenize: string -> seq<Token>,
                    naiveParse: string -> Option<int>) returns (r: Result<ParsedXmltv, EpgParseError>)
    ensures r == ParseXmltvSpec(xml, known, tokenize, naiveParse)
  {
    if |Encode(xml)| > MaxXmlSize {
      return Err(TooLarge);
    }
    var acceptAll := |known| == 0;
    var tokens := tokenize(xml);
    var state := Initial;
    var i := 0;
    while i < |tokens|
      invariant i <= StopAt(tokens, 0)
      invariant StopAt(tokens, 0) == StopAt(tokens, i)
      invariant state == Run(tokens[..i], known, naiveParse)
    {
      assert tokens[..i + 1][..i] == tokens[..i];
      if tokens[i].Err? {
        return Err(Xml(tokens[i].error));
      }
      if tokens[i].value.Eof? {
        break;
      }
      state := HandleEvent(state, tokens[i].value, known, acceptAll, naiveParse);
      i := i + 1;
    }
    return Ok(ParsedXmltv(SortSchedules(state.schedules), state.displayNames));
  }

  // ---------------------------------------------------------------- properties of the event loop

  /** What every stored programme satisfies: it sits under its own channel, is titled and accepted. */
  ghost predicate ProgramOk(p: EpgProgram, key: string, known: seq<string>) {
    && p.channelId == key
    && p.id == key + "-" + IntToString(p.start)
    && p.title != ""
    && (|known| == 0 || key in known)
    && p.description != Some("")
    && p.category != Some("")
    && p.iconUrl != Some("")
  }

  ghost predicate ScheduleOk(s: EpgSchedule, key: string, known: seq<string>) {
    s.channelId == key && |s.programs| > 0 && forall p | p in s.programs :: ProgramOk(p, key, known)
  }

  /** The invariant the event loop keeps. */
  ghost predicate Consistent(st: ParserState, known: seq<string>) {
    && st.iconUrl != Some("")
    && (forall k | k in st.schedules :: ScheduleOk(st.schedules[k], k, known))
    && (forall n | n in st.displayNames :: n != "" && ToLower(n) == n && st.displayNames[n] != "")
  }

  lemma LastUsableNonEmpty(attrs: seq<Attr>, key: string)
    ensures LastUsable(attrs, key, true) != Some("")
  {
  }

  lemma PushConsistent(st: ParserState, known: seq<string>)
    requires Consistent(st, known) && Keeps(st, known)
    ensures Consistent(st.(schedules := Push(st.schedules, st.channelId, ProgrammeOf(st))), known)
  {
    var p := ProgrammeOf(st);
    var k := st.channelId;
    assert ProgramOk(p, k, known);
    var after := Push(st.schedules, k, p);
    forall key | key in after
      ensures ScheduleOk(after[key], key, known)
    {
      if key == k {
        assert after[key].programs == Programs(st.schedules, k) + [p];
      }
    }
  }

  /** Start tags touch neither map, and clear the icon or leave it. */
  lemma OnStartFrame(st: ParserState, name: string, attrs: seq<Attr>, naiveParse: string -> Option<int>)
    ensures var next := OnStart(st, name, attrs, naiveParse);
      next.schedules == st.schedules && next.displayNames == st.displayNames
      && (next.iconUrl == None || next.iconUrl == st.iconUrl)
  {
    var tag := TagOf(name);
    if tag == ChannelTag {
    } else if tag == DisplayNameTag {
    } else if tag == ProgrammeTag {
    } else if tag == TitleTag {
    } else if tag == DescTag {
    } else if tag == CategoryTag {
    }
  }

  /** Empty tags touch neither map, and set the icon only to a non-empty URL. */
  lemma OnEmptyFrame(st: ParserState, name: string, attrs: seq<Attr>)
    ensures var next := OnEmpty(st, name, attrs);
      next.schedules == st.schedules && next.displayNames == st.displayNames
      && (next.iconUrl == st.iconUrl || (next.iconUrl.Some? && next.iconUrl.value != ""))
  {
  }

  /** Text touches no schedule and the icon, and adds at most a new display name. */
  lemma OnTextFrame(st: ParserState, text: Option<string>)
    ensures var next := OnText(st, text);
      next.schedules == st.schedules && next.iconUrl == st.iconUrl
      && (next.displayNames == st.displayNames
          || (st.inDisplayName && text.Some? && st.channelElemId != ""
              && var n := ToLower(Trim(text.value));
                 n != "" && n !in st.displayNames && next.displayNames == st.displayNames[n := st.channelElemId]))
  {
    if st.inDisplayName && text.Some? && Trim(text.value) != "" {
      assert |ToLower(Trim(text.value))| == |Trim(text.value)|;
    }
  }

  lemma CloseFrame(st: ParserState, known: seq<string>)
    ensures var next := CloseProgramme(st.(inProgramme := false), known);
      next.displayNames == st.displayNames && next.iconUrl == st.iconUrl
      && (next.schedules == st.schedules
          || (Keeps(st, known) && next.schedules == Push(st.schedules, st.channelId, ProgrammeOf(st))))
  {
    var closed := st.(inProgramme := false);
    assert Keeps(closed, known) == Keeps(st, known);
    if Keeps(st, known) {
      assert ProgrammeOf(closed) == ProgrammeOf(st);
    }
  }

  /** End tags touch no display name and the icon, and change the schedules only by closing a programme. */
  lemma OnEndFrame(st: ParserState, name: string, known: seq<string>)
    ensures var next := OnEnd(st, name, known);
      next.displayNames == st.displayNames && next.iconUrl == st.iconUrl
      && (next.schedules == st.schedules
          || (TagOf(name) == ProgrammeTag && Keeps(st, known)
              && next.schedules == Push(st.schedules, st.channelId, ProgrammeOf(st))))
  {
    var tag := TagOf(name);
    if tag == ChannelTag {
    } else if tag == DisplayNameTag {
    } else if tag == ProgrammeTag {
      CloseFrame(st, known);
    } else if tag == TitleTag {
    } else if tag == DescTag {
    } else if tag == CategoryTag {
    }
  }

  lemma StepConsistent(st: ParserState, token: Token, known: seq<string>, naiveParse: string -> Option<int>)
    requires Consistent(st, known)
    ensures Consistent(Step(st, token, known, naiveParse), known)
  {
    if token.Ok? {
      match token.value
      case Start(name, attrs) =>
        OnStartFrame(st, name, attrs, naiveParse);
      case Empty(name, attrs) =>
        OnEmptyFrame(st, name, attrs);
      case Text(text) =>
        OnTextFrame(st, text);
        if text.Some? {
          ToLowerIdempotent(Trim(text.value));
        }
      case End(name) =>
        OnEndFrame(st, name, known);
        if TagOf(name) == ProgrammeTag && Keeps(st, known) {
          PushConsistent(st, known);
        }
      case _ =>
    }
  }

  /** Every state the loop reaches is consistent. */
  lemma {:induction false} RunConsistent(tokens: seq<Token>, known: seq<string>, naiveParse: string -> Option<int>)
    ensures Consistent(Run(tokens, known, naiveParse), known)
    decreases |tokens|
  {
    if tokens != [] {
      RunConsistent(tokens[..|tokens| - 1], known, naiveParse);
      StepConsistent(Run(tokens[..|tokens| - 1], known, naiveParse), tokens[|tokens| - 1], known, naiveParse);
    }
  }

  /**
   * `b` grows `a`: every schedule only gains programmes at its end, and a display name,
   * once mapped, keeps the first channel it was mapped to.
   */
  ghost predicate Extends(a: ParserState, b: ParserState) {
    && (forall k | k in a.schedules :: k in b.schedules && a.schedules[k].programs <= b.schedules[k].programs)
    && (forall n | n in a.displayNames :: n in b.displayNames && b.displayNames[n] == a.displayNames[n])
  }

  lemma StepExtends(st: ParserState, token: Token, known: seq<string>, naiveParse: string -> Option<int>)
    ensures Extends(st, Step(st, token, known, naiveParse))
  {
    if token.Ok? {
      match token.value
      case Start(name, attrs) =>
        OnStartFrame(st, name, attrs, naiveParse);
      case Empty(name, attrs) =>
        OnEmptyFrame(st, name, attrs);
      case Text(text) =>
        OnTextFrame(st, text);
      case End(name) =>
        OnEndFrame(st, name, known);
      case _ =>
    }
  }

  lemma ExtendsTrans(a: ParserState, b: ParserState, c: ParserState)
    requires Extends(a, b) && Extends(b, c)
    ensures Extends(a, c)
  {
  }

  /** The state after the tokens is one step past the state before the last of them. */
  lemma RunSnoc(tokens: seq<Token>, known: seq<string>, naiveParse: string -> Option<int>)
    requires tokens != []
    ensures Run(tokens, known, naiveParse)
         == Step(Run(tokens[..|tokens| - 1], known, naiveParse), tokens[|tokens| - 1], known, naiveParse)
  {
  }

  lemma ExtendsThenStep(a: ParserState, b: ParserState, token: Token, known: seq<string>,
                        naiveParse: string -> Option<int>)
    requires Extends(a, b)
    ensures Extends(a, Step(b, token, known, naiveParse))
  {
    StepExtends(b, token, known, naiveParse);
    ExtendsTrans(a, b, Step(b, token, known, naiveParse));
  }

  /** Reading more tokens never removes or reorders a stored programme, nor remaps a display name. */
  lemma {:induction false} RunExtends(xs: seq<Token>, ys: seq<Token>, known: seq<string>,
                                      naiveParse: string -> Option<int>)
    ensures Extends(Run(xs, known, naiveParse), Run(xs + ys, known, naiveParse))
    decreases |ys|
  {
    if ys == [] {
      assert xs + ys == xs;
    } else {
      var zs := xs + ys[..|ys| - 1];
      RunExtends(xs, ys[..|ys| - 1], known, naiveParse);
      ExtendsThenStep(Run(xs, known, naiveParse), Run(zs, known, naiveParse), ys[|ys| - 1], known, naiveParse);
      assert (xs + ys)[..|xs + ys| - 1] == zs;
      RunSnoc(xs + ys, known, naiveParse);
    }
  }

  /**
   * Closing a `<programme>` appends exactly one programme to its channel's schedule when it
   * has a title, an accepted channel and both times, and changes no schedule otherwise.
   */
  lemma CloseProgrammeSpec(st: ParserState, name: string, known: seq<string>, naiveParse: string -> Option<int>,
                           key: string)
    requires TagOf(name) == ProgrammeTag
    ensures var after := Step(st, Ok(End(name)), known, naiveParse);
      && !after.inProgramme
      && Programs(after.schedules, key) ==
         Programs(st.schedules, key) + (if key == st.channelId && Keeps(st, known) then [ProgrammeOf(st)] else [])
  {
    var after := Step(st, Ok(End(name)), known, naiveParse);
    if key == st.channelId && Keeps(st, known) {
      assert after.schedules == Push(st.schedules, key, ProgrammeOf(st.(inProgramme := false)));
    } else if !Keeps(st, known) {
      assert after.schedules == st.schedules;
      assert Programs(st.schedules, key) + [] == Programs(st.schedules, key);
    } else {
      assert Programs(st.schedules, key) + [] == Programs(st.schedules, key);
    }
  }

  /** StopAt finds the first stopping token. */
  lemma {:induction false} StopAtFirst(tokens: seq<Token>, from: nat, k: nat)
    requires from <= k < |tokens| && Stops(tokens[k])
    requires forall j :: from <= j < k ==> !Stops(tokens[j])
    ensures StopAt(tokens, from) == k
    decreases k - from
  {
    if from < k {
      StopAtFirst(tokens, from + 1, k);
    }
  }

  /** A reader error before the end of input is the answer, whatever came before it. */
  lemma ParseXmltvError(xml: string, known: seq<string>, tokenize: string -> seq<Token>,
                        naiveParse: string -> Option<int>, k: nat)
    requires |Encode(xml)| <= MaxXmlSize
    requires k < |tokenize(xml)| && tokenize(xml)[k].Err?
    requires forall j :: 0 <= j < k ==> !Stops(tokenize(xml)[j])
    ensures ParseXmltvSpec(xml, known, tokenize, naiveParse) == Err(Xml(tokenize(xml)[k].error))
  {
    StopAtFirst(tokenize(xml), 0, k);
  }

  /**
   * A successful parse: every schedule sits under its own channel id, is non-empty, sorted
   * by start, and holds only titled programmes of accepted channels with the
   * "{channel}-{start}" id; every display name is a non-empty lower-case key.
   */
  lemma ParseXmltvOk(xml: string, known: seq<string>, tokenize: string -> seq<Token>,
                     naiveParse: string -> Option<int>)
    requires ParseXmltvSpec(xml, known, tokenize, naiveParse).Ok?
    ensures var parsed := ParseXmltvSpec(xml, known, tokenize, naiveParse).value;
      && (forall k | k in parsed.schedules ::
            ScheduleOk(parsed.schedules[k], k, known) && SortedByStart(parsed.schedules[k].programs))
      && (forall n | n in parsed.displayNames :: n != "" && ToLower(n) == n && parsed.displayNames[n] != "")
  {
    var tokens := tokenize(xml);
    var st := Run(tokens[..StopAt(tokens, 0)], known, naiveParse);
    RunConsistent(tokens[..StopAt(tokens, 0)], known, naiveParse);
    var sorted := SortSchedules(st.schedules);
    forall k | k in sorted
      ensures ScheduleOk(sorted[k], k, known) && SortedByStart(sorted[k].programs)
    {
      var ps := st.schedules[k].programs;
      SortByStartSpec(ps, 0);
      assert ScheduleOk(st.schedules[k], k, known);
      forall p | p in SortByStart(ps)
        ensures ProgramOk(p, k, known)
      {
        assert p in multiset(SortByStart(ps));
      }
      assert |SortByStart(ps)| == |multiset(SortByStart(ps))|;
    }
  }
}
