/**
 * The M3U playlist reader (backend/src/services/m3u_parser.rs): a line scanner over
 * `#EXTM3U` / `#EXTINF` text (RFC 8216, sections 4.3.1.1 and 4.3.2.1) that also reads the
 * `tvg-id`, `tvg-name`, `tvg-logo` and `group-title` attributes many IPTV lists carry.
 *
 * The channel id comes from hashing the stream URL with the standard library's
 * `DefaultHasher`; that hash is the parameter `idOf`.
 */
module M3uParser {
  import opened Wrappers
  import opened Text
  import opened Models

  const ExtinfTag: string := "#EXTINF:"

  /**
   * The second half of `extract_attribute`: in the text after `key="`, the characters before
   * the next '"', or None when no '"' closes them or there are none.
   */
  function QuotedValue(rest: string): (r: Option<string>)
    ensures r.Some? ==> r.value != []
  {
    match FindChar(rest, '"')
    case None => None
    case Some(end) =>
      var value := rest[..end];
      if value == [] then None else Some(value)
  }

  /**
   * A quoted value is a non-empty run of characters other than '"' that a '"' closes; there
   * is none exactly when no '"' follows or one follows right away.
   */
  lemma QuotedValueSpec(rest: string)
    ensures QuotedValue(rest).None? <==> ('"' !in rest || rest[0] == '"')
    ensures QuotedValue(rest).Some? ==>
      '"' !in QuotedValue(rest).value && StartsWith(rest, QuotedValue(rest).value + "\"")
  {
    FindCharSpec(rest, '"');
    match FindChar(rest, '"')
    case None =>
    case Some(e) =>
      assert rest[..e + 1] == rest[..e] + "\"";
  }

  /**
   * `extract_attribute`: the text between the first `key="` of the line and the next '"',
   * or None when the key is absent, the quote is never closed or the value is empty.
   */
  function ExtractAttribute(line: string, key: string): (r: Option<string>)
    ensures Find(line, key + "=\"").None? ==> r.None?
    ensures r.Some? ==> r.value != []
    ensures Find(line, key + "=\"").Some? ==>
      r == QuotedValue(line[Find(line, key + "=\"").value + |key| + 2..])
  {
    var search := key + "=\"";
    match Find(line, search)
    case None => None
    case Some(start) => QuotedValue(line[start + |search|..])
  }

  /**
   * Once the line has a `key="`, `extract_attribute` finds nothing exactly when no '"' follows
   * that or one follows right away.
   */
  lemma ExtractAttributeNone(line: string, key: string)
    requires Find(line, key + "=\"").Some?
    ensures var rest := line[Find(line, key + "=\"").value + |key| + 2..];
      ExtractAttribute(line, key).None? <==> ('"' !in rest || rest[0] == '"')
  {
    var search := key + "=\"";
    var rest := line[Find(line, search).value + |search|..];
    assert ExtractAttribute(line, key) == QuotedValue(rest);
    QuotedValueSpec(rest);
  }

  /**
   * A value `extract_attribute` finds holds no '"' and sits right after the first `key="` of
   * the line, closed by a '"'.
   */
  lemma ExtractAttributeFound(line: string, key: string)
    requires ExtractAttribute(line, key).Some?
    ensures '"' !in ExtractAttribute(line, key).value
    ensures OccursAt(line, key + "=\"" + ExtractAttribute(line, key).value + "\"", Find(line, key + "=\"").value)
  {
    var search := key + "=\"";
    var start := Find(line, search).value;
    var rest := line[start + |search|..];
    assert ExtractAttribute(line, key) == QuotedValue(rest);
    QuotedValueSpec(rest);
    var value := QuotedValue(rest).value;
    FindSpec(line, search);
    var closed := value + "\"";
    assert line[start + |search|..start + |search| + |closed|] == rest[..|closed|];
    OccursConcat(line, search, closed, start);
    assert search + closed == key + "=\"" + value + "\"";
  }

  /** The `key="` it reads from is the first one of the line. */
  lemma ExtractAttributeFirst(line: string, key: string)
    requires Find(line, key + "=\"").Some?
    ensures forall q :: 0 <= q < Find(line, key + "=\"").value ==> !OccursAt(line, key + "=\"", q)
  {
    FindSpec(line, key + "=\"");
  }

  /**
   * `extract_display_name`: the trimmed text after the last ',' of the line, or None when
   * there is no ',' or nothing but white space after it.
   */
  function ExtractDisplayName(line: string): (r: Option<string>)
    ensures r.Some? ==> ',' in line && r.value != []
  {
    match RFindChar(line, ',')
    case None => None
    case Some(pos) =>
      var name := Trim(line[pos + 1..]);
      if name == [] then None else Some(name)
  }

  /** The display name is the trimmed last comma-separated field, when that is not blank. */
  lemma ExtractDisplayNameSpec(line: string)
    ensures ExtractDisplayName(line).Some? <==> ',' in line && Trim(AfterLast(line, ',')) != []
    ensures ExtractDisplayName(line).Some? ==>
      ExtractDisplayName(line).value == Trim(AfterLast(line, ',')) && ',' !in ExtractDisplayName(line).value
  {
    RFindCharSpec(line, ',');
    AfterLastSpec(line, ',');
    TrimSpec(AfterLast(line, ','));
  }

  /** A channel's name: `tvg-name`, else the display name after the last comma, else "". */
  function NameOf(line: string): string {
    match ExtractAttribute(line, "tvg-name")
    case Some(n) => n
    case None => ExtractDisplayName(line).GetOr("")
  }

  /** The channel an `#EXTINF:` line (already trimmed) and its URL line (already trimmed) make. */
  function MakeChannel(line: string, url: string, idOf: string -> string): (ch: Channel)
    ensures ch.streamUrl == url && ch.id == idOf(ch.streamUrl) && !ch.isLive
    ensures ch.logoUrl.Some? ==> ch.logoUrl.value != []
    ensures ch.tvgId.Some? ==> ch.tvgId.value != []
    ensures ExtractAttribute(line, "group-title").None? ==> ch.group == []
  {
    Channel(idOf(url), NameOf(line), ExtractAttribute(line, "group-title").GetOr(""),
            ExtractAttribute(line, "tvg-logo"), url, false, ExtractAttribute(line, "tvg-id"))
  }

  /** How the scan of `parse_m3u` sees a line once it is trimmed. */
  datatype LineKind = Extinf | Url | Other

  /**
   * A trimmed line starting with `#EXTINF:` opens an entry; one that is neither blank nor
   * starts with '#' can be a stream URL; blank and other '#' lines are passed over.
   */
  function KindOf(line: string): (k: LineKind)
    ensures k == Url <==> Trim(line) != [] && Trim(line)[0] != '#'
    ensures k == Extinf ==> StartsWith(Trim(line), ExtinfTag) && Trim(line)[0] == '#'
    ensures k == Other ==> Trim(line) == [] || Trim(line)[0] == '#'
  {
    var t := Trim(line);
    if StartsWith(t, ExtinfTag) then Extinf
    else if t != [] && t[0] != '#' then Url
    else Other
  }

  /** The kind of every line, in order. */
  function Kinds(lines: seq<string>): (ks: seq<LineKind>)
    ensures |ks| == |lines|
  {
    if lines == [] then [] else [KindOf(lines[0])] + Kinds(lines[1..])
  }

  lemma {:induction false} KindAt(lines: seq<string>, m: nat)
    requires m < |lines|
    ensures Kinds(lines)[m] == KindOf(lines[m])
  {
    if m > 0 {
      KindAt(lines[1..], m - 1);
    }
  }

  /** The index of the first URL line at or after `j`, or `|ks|` when there is none. */
  function SkipToUrl(ks: seq<LineKind>, j: nat): (k: nat)
    requires j <= |ks|
    ensures j <= k <= |ks|
    decreases |ks| - j
  {
    if j == |ks| || ks[j] == Url then j else SkipToUrl(ks, j + 1)
  }

  /** `SkipToUrl` stops at the first URL line and passes over nothing else. */
  lemma {:induction false} SkipToUrlSpec(ks: seq<LineKind>, j: nat)
    requires j <= |ks|
    ensures SkipToUrl(ks, j) < |ks| ==> ks[SkipToUrl(ks, j)] == Url
    ensures forall m :: j <= m < SkipToUrl(ks, j) ==> ks[m] != Url
    decreases |ks| - j
  {
    if j < |ks| && ks[j] != Url {
      SkipToUrlSpec(ks, j + 1);
    }
  }

  /** The inner loop of `parse_m3u`: steps over blank and comment lines from `from` on. */
  method SkipBlankAndComments(lines: seq<string>, from: nat) returns (i: nat)
    requires from <= |lines|
    ensures i == SkipToUrl(Kinds(lines), from)
  {
    ghost var ks := Kinds(lines);
    i := from;
    while i < |lines|
      invariant from <= i <= |lines|
      invariant SkipToUrl(ks, from) == SkipToUrl(ks, i)
      decreases |lines| - i
    {
      KindAt(lines, i);
      var next := Trim(lines[i]);
      if next == [] || next[0] == '#' {
        i := i + 1;
        continue;
      }
      break;
    }
  }

  /**
   * The entries the scan finds in the lines from `i` on, as pairs (`#EXTINF:` line, URL
   * line): each `#EXTINF:` line takes the next URL line as its stream, and the scan goes on
   * after that URL line.
   */
  function Entries(ks: seq<LineKind>, i: nat): seq<(nat, nat)>
    decreases |ks| - i
  {
    if i >= |ks| then []
    else if ks[i] == Extinf then
      var j := SkipToUrl(ks, i + 1);
      if j < |ks| then [(i, j)] + Entries(ks, j + 1) else []
    else Entries(ks, i + 1)
  }

  /** `e` pairs an `#EXTINF:` line at or after `i` with the first URL line after it. */
  predicate EntryAt(ks: seq<LineKind>, i: nat, e: (nat, nat)) {
    i <= e.0 < e.1 < |ks| && ks[e.0] == Extinf && ks[e.1] == Url && e.1 == SkipToUrl(ks, e.0 + 1)
  }

  predicate ValidEntries(n: nat, es: seq<(nat, nat)>) {
    forall k :: 0 <= k < |es| ==> es[k].0 < n && es[k].1 < n
  }

  lemma EntriesUnfold(ks: seq<LineKind>, i: nat, j: nat)
    requires i < |ks| && ks[i] == Extinf && j == SkipToUrl(ks, i + 1) < |ks|
    ensures Entries(ks, i) == [(i, j)] + Entries(ks, j + 1)
  {
  }

  /**
   * Every entry pairs an `#EXTINF:` line with the first URL line after it, so each
   * `#EXTINF:` line gives at most one channel.
   */
  lemma {:induction false} EntriesSpec(ks: seq<LineKind>, i: nat)
    ensures forall k :: 0 <= k < |Entries(ks, i)| ==> EntryAt(ks, i, Entries(ks, i)[k])
    decreases |ks| - i
  {
    var r := Entries(ks, i);
    if i < |ks| {
      if ks[i] == Extinf {
        var j := SkipToUrl(ks, i + 1);
        if j < |ks| {
          SkipToUrlSpec(ks, i + 1);
          EntriesSpec(ks, j + 1);
          var t := Entries(ks, j + 1);
          EntriesUnfold(ks, i, j);
          forall k | 0 <= k < |r|
            ensures EntryAt(ks, i, r[k])
          {
            if k > 0 {
              assert r[k] == t[k - 1] && EntryAt(ks, j + 1, t[k - 1]);
            }
          }
        }
      } else {
        EntriesSpec(ks, i + 1);
        assert r == Entries(ks, i + 1);
        forall k | 0 <= k < |r|
          ensures EntryAt(ks, i, r[k])
        {
          assert EntryAt(ks, i + 1, r[k]);
        }
      }
    }
  }

  lemma EntriesValid(ks: seq<LineKind>, i: nat)
    ensures ValidEntries(|ks|, Entries(ks, i))
  {
    EntriesSpec(ks, i);
  }

  /** The entries come in the order of their lines and do not overlap. */
  lemma {:induction false} EntriesOrdered(ks: seq<LineKind>, i: nat)
    ensures forall k :: 0 <= k < |Entries(ks, i)| - 1 ==> Entries(ks, i)[k].1 < Entries(ks, i)[k + 1].0
    decreases |ks| - i
  {
    var r := Entries(ks, i);
    if i < |ks| {
      if ks[i] == Extinf {
        var j := SkipToUrl(ks, i + 1);
        if j < |ks| {
          EntriesOrdered(ks, j + 1);
          EntriesSpec(ks, j + 1);
          EntriesUnfold(ks, i, j);
          var t := Entries(ks, j + 1);
          forall k | 0 <= k < |r| - 1
            ensures r[k].1 < r[k + 1].0
          {
            if k == 0 {
              assert r[1] == t[0] && EntryAt(ks, j + 1, t[0]);
            } else {
              assert r[k] == t[k - 1] && r[k + 1] == t[k];
            }
          }
        }
      } else {
        EntriesOrdered(ks, i + 1);
      }
    }
  }

  /** The number of `#EXTINF:` lines from `i` on. */
  function CountExtinf(ks: seq<LineKind>, i: nat): nat
    decreases |ks| - i
  {
    if i >= |ks| then 0
    else (if ks[i] == Extinf then 1 else 0) + CountExtinf(ks, i + 1)
  }

  lemma {:induction false} CountExtinfMono(ks: seq<LineKind>, i: nat, j: nat)
    requires i <= j
    ensures CountExtinf(ks, j) <= CountExtinf(ks, i)
    decreases j - i
  {
    if i < j {
      CountExtinfMono(ks, i + 1, j);
    }
  }

  /** There are no more entries than `#EXTINF:` lines. */
  lemma {:induction false} EntriesCount(ks: seq<LineKind>, i: nat)
    ensures |Entries(ks, i)| <= CountExtinf(ks, i)
    decreases |ks| - i
  {
    if i < |ks| {
      if ks[i] == Extinf {
        var j := SkipToUrl(ks, i + 1);
        if j < |ks| {
          EntriesCount(ks, j + 1);
          CountExtinfMono(ks, i + 1, j + 1);
        }
      } else {
        EntriesCount(ks, i + 1);
      }
    }
  }

  /** The channels made from a list of entries, one per entry, in order. */
  function ChannelsOf(lines: seq<string>, es: seq<(nat, nat)>, idOf: string -> string): (r: seq<Channel>)
    requires ValidEntries(|lines|, es)
    ensures |r| == |es|
  {
    if es == [] then []
    else
      var e := es[|es| - 1];
      ChannelsOf(lines, es[..|es| - 1], idOf) + [MakeChannel(Trim(lines[e.0]), Trim(lines[e.1]), idOf)]
  }

  lemma {:induction false} ChannelsOfIndex(lines: seq<string>, es: seq<(nat, nat)>, idOf: string -> string, k: nat)
    requires ValidEntries(|lines|, es) && k < |es|
    ensures ChannelsOf(lines, es, idOf)[k] == MakeChannel(Trim(lines[es[k].0]), Trim(lines[es[k].1]), idOf)
    decreases |es|
  {
    if k < |es| - 1 {
      ChannelsOfIndex(lines, es[..|es| - 1], idOf, k);
    }
  }

  /** What `parse_m3u` returns for the lines of a text: one channel per entry, in order. */
  function Parse(lines: seq<string>, idOf: string -> string): seq<Channel> {
    EntriesValid(Kinds(lines), 0);
    ChannelsOf(lines, Entries(Kinds(lines), 0), idOf)
  }

  /** An `#EXTINF:` line that finds its URL adds one entry and the scan goes on after the URL. */
  lemma ScanFound(ks: seq<LineKind>, done: seq<(nat, nat)>, start: nat, url: nat, next: nat)
    requires ValidEntries(|ks|, done) && done + Entries(ks, start) == Entries(ks, 0)
    requires start < |ks| && ks[start] == Extinf && url == SkipToUrl(ks, start + 1) < |ks| && next == url + 1
    ensures ValidEntries(|ks|, done + [(start, url)])
    ensures (done + [(start, url)]) + Entries(ks, next) == Entries(ks, 0)
  {
    EntriesUnfold(ks, start, url);
    assert done + ([(start, url)] + Entries(ks, next)) == (done + [(start, url)]) + Entries(ks, next);
  }

  /** A line that is not `#EXTINF:`, or one with no URL after it, adds no entry. */
  lemma ScanPast(ks: seq<LineKind>, done: seq<(nat, nat)>, i: nat, next: nat)
    requires i < |ks| && done + Entries(ks, i) == Entries(ks, 0)
    requires (ks[i] != Extinf && next == i + 1) || (ks[i] == Extinf && next == SkipToUrl(ks, i + 1) + 1 > |ks|)
    ensures done + Entries(ks, next) == Entries(ks, 0)
  {
  }

  /** Pushing the channel of one more entry. */
  lemma PushChannel(lines: seq<string>, done: seq<(nat, nat)>, start: nat, url: nat, idOf: string -> string)
    requires ValidEntries(|lines|, done) && start < url < |lines|
    ensures ValidEntries(|lines|, done + [(start, url)])
    ensures ChannelsOf(lines, done + [(start, url)], idOf)
      == ChannelsOf(lines, done, idOf) + [MakeChannel(Trim(lines[start]), Trim(lines[url]), idOf)]
  {
    assert (done + [(start, url)])[..|done|] == done;
  }

  /** `parse_m3u`: scans the lines of `content` once, pushing a channel per complete entry. */
  method ParseM3u(content: string, idOf: string -> string) returns (channels: seq<Channel>)
    ensures channels == Parse(Lines(content), idOf)
    ensures content == [] ==> channels == []
  {
    var lines := Lines(content);
    ghost var ks := Kinds(lines);
    channels := [];
    ghost var done: seq<(nat, nat)> := [];
    var i: nat := 0;
    while i < |lines|
      invariant i <= |lines| + 1
      invariant done + Entries(ks, i) == Entries(ks, 0)
      invariant ValidEntries(|lines|, done)
      invariant channels == ChannelsOf(lines, done, idOf)
      decreases |lines| + 1 - i
    {
      ghost var here := i;
      var line := Trim(lines[i]);
      KindAt(lines, here);
      if StartsWith(line, ExtinfTag) {
        var name := NameOf(line);
        var logoUrl := ExtractAttribute(line, "tvg-logo");
        var group := ExtractAttribute(line, "group-title").GetOr("");
        var tvgId := ExtractAttribute(line, "tvg-id");
        i := SkipBlankAndComments(lines, i + 1);
        if i < |lines| {
          var streamUrl := Trim(lines[i]);
          SkipToUrlSpec(ks, here + 1);
          KindAt(lines, i);
          assert KindOf(lines[i]) == Url;
          if streamUrl != [] {
            var channel := Channel(idOf(streamUrl), name, group, logoUrl, streamUrl, false, tvgId);
            assert channel == MakeChannel(Trim(lines[here]), Trim(lines[i]), idOf);
            channels := channels + [channel];
          }
          PushChannel(lines, done, here, i, idOf);
          ghost var before := done;
          ghost var url := i;
          done := done + [(here, i)];
          i := i + 1;
          ScanFound(ks, before, here, url, i);
        } else {
          i := i + 1;
          ScanPast(ks, done, here, i);
        }
      } else {
        i := i + 1;
        ScanPast(ks, done, here, i);
      }
    }
    assert Entries(ks, i) == [] && done == Entries(ks, 0);
  }

  /**
   * Every parsed channel is made from its entry's `#EXTINF:` line and URL line. Its stream
   * URL is non-empty, is its own trim and does not start with '#'; it is not marked live;
   * its id comes from its URL alone.
   */
  lemma ParseChannel(lines: seq<string>, idOf: string -> string, k: nat)
    requires k < |Parse(lines, idOf)|
    ensures var r := Parse(lines, idOf)[k];
      var e := Entries(Kinds(lines), 0)[k];
      && EntryAt(Kinds(lines), 0, e)
      && r == MakeChannel(Trim(lines[e.0]), Trim(lines[e.1]), idOf)
      && r.streamUrl != [] && Trim(r.streamUrl) == r.streamUrl && r.streamUrl[0] != '#'
      && !r.isLive && r.id == idOf(r.streamUrl)
  {
    var ks := Kinds(lines);
    var es := Entries(ks, 0);
    EntriesSpec(ks, 0);
    assert EntryAt(ks, 0, es[k]);
    KindAt(lines, es[k].1);
    ChannelsOfIndex(lines, es, idOf, k);
    TrimIdempotent(lines[es[k].1]);
  }

  /** There are no more channels than `#EXTINF:` lines, and they keep the order of their lines. */
  lemma ParseCount(lines: seq<string>, idOf: string -> string)
    ensures |Parse(lines, idOf)| == |Entries(Kinds(lines), 0)| <= CountExtinf(Kinds(lines), 0)
  {
    EntriesCount(Kinds(lines), 0);
  }

  /**
   * An entry with no URL before the next `#EXTINF:` takes that entry's URL, and the second
   * entry is lost: its `#EXTINF:` line is passed over like a comment.
   */
  lemma LostEntry(rest: seq<LineKind>)
    ensures Entries([Extinf, Extinf, Url] + rest, 0) == [(0, 2)] + Entries([Extinf, Extinf, Url] + rest, 3)
  {
    var ks := [Extinf, Extinf, Url] + rest;
    assert ks[0] == Extinf && ks[1] == Extinf && ks[2] == Url;
    assert SkipToUrl(ks, 1) == 2;
  }

  /** An `#EXTINF:` line followed only by blank and comment lines gives no channel. */
  lemma NoUrlNoEntry(ks: seq<LineKind>, i: nat)
    requires i < |ks| && ks[i] == Extinf
    requires forall m :: i < m < |ks| ==> ks[m] != Url
    ensures Entries(ks, i) == []
  {
    NoUrlSkip(ks, i + 1);
  }

  lemma {:induction false} NoUrlSkip(ks: seq<LineKind>, j: nat)
    requires j <= |ks|
    requires forall m :: j <= m < |ks| ==> ks[m] != Url
    ensures SkipToUrl(ks, j) == |ks|
    decreases |ks| - j
  {
    if j < |ks| {
      NoUrlSkip(ks, j + 1);
    }
  }

  /**
   * The name rule: `tvg-name` when present and non-empty, else the trimmed text after the
   * last comma when that is non-empty, else "".
   */
  lemma NameRule(line: string)
    ensures ExtractAttribute(line, "tvg-name").Some? ==> NameOf(line) == ExtractAttribute(line, "tvg-name").value
    ensures ExtractAttribute(line, "tvg-name").None? && ',' in line && Trim(AfterLast(line, ',')) != []
      ==> NameOf(line) == Trim(AfterLast(line, ','))
    ensures ExtractAttribute(line, "tvg-name").None? && (',' !in line || Trim(AfterLast(line, ',')) == [])
      ==> NameOf(line) == []
  {
    ExtractDisplayNameSpec(line);
  }
}
