/**
 * The playlist endpoints (backend/src/routes/playlist.rs): the upload that replaces the
 * playlist or appends the channels whose stream URL is new, the wholesale update, and the
 * M3U writer. HTTP extraction and the liveness-check notification are not modelled; a
 * multipart body is the list of its parts as read.
 */
module PlaylistRoutes {
  import opened Wrappers
  import opened Text
  import opened Utf8
  import opened Models
  import opened M3uParser

  /** The server's playlist, which the upload and update handlers change in place. */
  class PlaylistState {
    var name: string
    var channels: seq<Channel>
    var lastChecked: Option<string>
    var source: string

    function Value(): PlaylistValue
      reads this
    {
      PlaylistValue(name, channels, lastChecked, source)
    }

    constructor (p: PlaylistValue)
      ensures Value() == p
    {
      name := p.name;
      channels := p.channels;
      lastChecked := p.lastChecked;
      source := p.source;
    }
  }

  /**
   * One step of reading a multipart body: a field with its name and its bytes (None when
   * reading them fails), or a malformed body.
   */
  datatype MultipartItem = Field(fieldName: Option<string>, body: Option<seq<byte>>) | Malformed

  datatype UploadError = InvalidMultipart | ReadFailed | NotUtf8 | MissingFile

  /** The `channels_loaded` and `total_channels` of a successful upload. */
  datatype UploadReply = UploadReply(loaded: nat, total: nat)

  /** The set of stream URLs of a channel list. */
  function UrlSet(chs: seq<Channel>): set<string> {
    set c | c in chs :: c.streamUrl
  }

  /** The uploaded channels whose stream URL is not among `existing`, in upload order. */
  function FreshChannels(existing: set<string>, chs: seq<Channel>): (r: seq<Channel>)
    ensures |r| <= |chs|
  {
    if chs == [] then []
    else
      var rest := FreshChannels(existing, chs[..|chs| - 1]);
      var c := chs[|chs| - 1];
      if c.streamUrl in existing then rest else rest + [c]
  }

  /** A channel is kept exactly when it was uploaded and its URL is not among `existing`. */
  lemma {:induction false} FreshChannelsSpec(existing: set<string>, chs: seq<Channel>)
    ensures forall c :: c in FreshChannels(existing, chs) <==> c in chs && c.streamUrl !in existing
  {
    if chs != [] {
      var init := chs[..|chs| - 1];
      FreshChannelsSpec(existing, init);
      assert chs == init + [chs[|chs| - 1]];
    }
  }

  /** Filtering keeps upload order: it distributes over the parts of the upload. */
  lemma {:induction false} FreshChannelsAppend(existing: set<string>, a: seq<Channel>, b: seq<Channel>)
    ensures FreshChannels(existing, a + b) == FreshChannels(existing, a) + FreshChannels(existing, b)
    decreases |b|
  {
    if b != [] {
      var b' := b[..|b| - 1];
      assert (a + b)[..|a + b| - 1] == a + b';
      assert (a + b)[|a + b| - 1] == b[|b| - 1];
      FreshChannelsAppend(existing, a, b');
    } else {
      assert a + b == a;
    }
  }

  /**
   * Deduplication is only against the playlist as it was: two uploaded channels that share a
   * URL the playlist does not have are both kept.
   */
  lemma DuplicatesKept(existing: set<string>, a: Channel, b: Channel)
    requires a.streamUrl == b.streamUrl && a.streamUrl !in existing
    ensures FreshChannels(existing, [a, b]) == [a, b]
  {
    assert [a, b][..1] == [a];
    assert [a][..0] == [];
  }

  /** The playlist after an upload: the parsed list, or the previous list followed by the uploaded channels with new URLs. */
  function Merge(prev: seq<Channel>, parsed: seq<Channel>, append: bool): (r: seq<Channel>)
    ensures !append ==> r == parsed
    ensures append ==> |prev| <= |r| <= |prev| + |parsed| && r[..|prev|] == prev
  {
    if append then prev + FreshChannels(UrlSet(prev), parsed) else parsed
  }

  /**
   * Append leaves the previous channels in place as a prefix, adds only channels of the upload
   * whose URL is new, and afterwards every uploaded URL is in the playlist.
   */
  lemma MergeAppend(prev: seq<Channel>, parsed: seq<Channel>)
    ensures var m := Merge(prev, parsed, true);
      && |prev| <= |m| && m[..|prev|] == prev
      && (forall k :: |prev| <= k < |m| ==> m[k] in parsed && m[k].streamUrl !in UrlSet(prev))
      && UrlSet(m) == UrlSet(prev) + UrlSet(parsed)
  {
    var added := FreshChannels(UrlSet(prev), parsed);
    var m := Merge(prev, parsed, true);
    FreshChannelsSpec(UrlSet(prev), parsed);
    assert m[..|prev|] == prev;
    forall k | |prev| <= k < |m|
      ensures m[k] in parsed && m[k].streamUrl !in UrlSet(prev)
    {
      assert m[k] == added[k - |prev|];
    }
    forall u | u in UrlSet(m)
      ensures u in UrlSet(prev) + UrlSet(parsed)
    {
      var c :| c in m && c.streamUrl == u;
      if c !in prev {
        assert c in added;
      }
    }
    forall u | u in UrlSet(prev) + UrlSet(parsed)
      ensures u in UrlSet(m)
    {
      if u !in UrlSet(prev) {
        var c :| c in parsed && c.streamUrl == u;
        assert c in added;
        assert c in m;
      } else {
        var c :| c in prev && c.streamUrl == u;
        assert c in m;
      }
    }
  }

  /** Nothing is kept from an upload whose URLs are all among `existing`. */
  lemma {:induction false} FreshChannelsNone(existing: set<string>, chs: seq<Channel>)
    requires forall c :: c in chs ==> c.streamUrl in existing
    ensures FreshChannels(existing, chs) == []
  {
    if chs != [] {
      FreshChannelsNone(existing, chs[..|chs| - 1]);
    }
  }

  /** Appending the same upload a second time adds nothing. */
  lemma MergeAppendIdempotent(prev: seq<Channel>, parsed: seq<Channel>)
    ensures Merge(Merge(prev, parsed, true), parsed, true) == Merge(prev, parsed, true)
  {
    var m := Merge(prev, parsed, true);
    MergeAppend(prev, parsed);
    forall c | c in parsed
      ensures c.streamUrl in UrlSet(m)
    {
      assert c.streamUrl in UrlSet(parsed);
    }
    FreshChannelsNone(UrlSet(m), parsed);
  }

  /**
   * The part of a multipart body an upload uses: the first field named `file`. A malformed
   * body met before it, or a failure to read its bytes, is an error, and so is a body
   * without such a field.
   */
  function FileField(items: seq<MultipartItem>): Result<seq<byte>, UploadError> {
    if items == [] then Err(MissingFile)
    else
      match items[0]
      case Malformed => Err(InvalidMultipart)
      case Field(n, body) =>
        if n == Some("file") then
          (if body.Some? then Ok(body.value) else Err(ReadFailed))
        else FileField(items[1..])
  }

  /** The text of the upload, when its file field was read and is UTF-8. */
  function UploadText(items: seq<MultipartItem>): Result<string, UploadError> {
    match FileField(items)
    case Err(e) => Err(e)
    case Ok(bytes) =>
      match Decode(bytes)
      case None => Err(NotUtf8)
      case Some(text) => Ok(text)
  }

  /**
   * `upload_playlist`: reads the parts in order until the `file` field, parses its text and,
   * in append mode (`mode` exactly "append"), appends the channels with new URLs, otherwise
   * replaces the channels; either way the source becomes "upload". On any error nothing
   * changes.
   */
  method UploadPlaylist(state: PlaylistState, mode: Option<string>, items: seq<MultipartItem>,
                        idOf: string -> string)
    returns (r: Result<UploadReply, UploadError>)
    modifies state
    ensures UploadText(items).Err? ==> r == Err(UploadText(items).error) && unchanged(state)
    ensures UploadText(items).Ok? ==>
      var parsed := Parse(Lines(UploadText(items).value), idOf);
      var append := mode == Some("append");
      && state.channels == Merge(old(state.channels), parsed, append)
      && state.source == "upload"
      && state.name == old(state.name) && state.lastChecked == old(state.lastChecked)
      && r.Ok? && r.value.total == |state.channels|
      && r.value.loaded == if append then |FreshChannels(UrlSet(old(state.channels)), parsed)| else |parsed|
  {
    var appendMode := mode == Some("append");
    var i := 0;
    while i < |items|
      invariant 0 <= i <= |items|
      invariant FileField(items) == FileField(items[i..])
      decreases |items| - i
    {
      assert items[i..][0] == items[i] && items[i..][1..] == items[i + 1..];
      match items[i]
      case Malformed =>
        return Err(InvalidMultipart);
      case Field(n, body) =>
        if n == Some("file") {
          if body.None? {
            return Err(ReadFailed);
          }
          var bytes := body.value;
          var decoded := Decode(bytes);
          if decoded.None? {
            return Err(NotUtf8);
          }
          var content := decoded.value;
          var newChannels := ParseM3u(content, idOf);
          var newCount := |newChannels|;
          if appendMode {
            var existingUrls := UrlSet(state.channels);
            var uniqueNew := FreshChannels(existingUrls, newChannels);
            var appended := |uniqueNew|;
            state.channels := state.channels + uniqueNew;
            state.source := "upload";
            return Ok(UploadReply(appended, |state.channels|));
          }
          state.channels := newChannels;
          state.source := "upload";
          return Ok(UploadReply(newCount, |state.channels|));
        }
      i := i + 1;
    }
    return Err(MissingFile);
  }

  /** `update_playlist`: the posted playlist replaces the whole state; the reply is its channel count. */
  method UpdatePlaylist(state: PlaylistState, updated: PlaylistValue) returns (count: nat)
    modifies state
    ensures state.Value() == updated
    ensures count == |updated.channels|
  {
    count := |updated.channels|;
    state.name := updated.name;
    state.channels := updated.channels;
    state.lastChecked := updated.lastChecked;
    state.source := updated.source;
  }

  /** ` key="value"` when the value is present, else nothing. */
  function OptionalAttr(key: string, v: Option<string>): string {
    match v
    case None => ""
    case Some(x) => " " + key + "=\"" + x + "\""
  }

  /** The `#EXTINF:` line the writer emits for a channel (without its "\n"). */
  function ExtinfLineOf(ch: Channel): (r: string)
    ensures StartsWith(r, "#EXTINF:-1") && EndsWith(r, "," + ch.name)
  {
    "#EXTINF:-1" + OptionalAttr("tvg-id", ch.tvgId) + " tvg-name=\"" + ch.name + "\" group-title=\""
    + ch.group + "\"" + OptionalAttr("tvg-logo", ch.logoUrl) + "," + ch.name
  }

  /** The two lines the writer emits for a channel. */
  function EntryText(ch: Channel): string {
    ExtinfLineOf(ch) + "\n" + ch.streamUrl + "\n"
  }

  function EntriesText(chs: seq<Channel>): string {
    if chs == [] then [] else EntriesText(chs[..|chs| - 1]) + EntryText(chs[|chs| - 1])
  }

  /** The M3U text of a playlist: the `#EXTM3U` header and two lines per channel, in order. */
  function WriteM3u(chs: seq<Channel>): (r: string)
    ensures StartsWith(r, "#EXTM3U\n")
    ensures r == "#EXTM3U\n" <==> chs == []
  {
    "#EXTM3U\n" + EntriesText(chs)
  }

  lemma EntriesTextSnoc(chs: seq<Channel>, i: nat)
    requires i < |chs|
    ensures EntriesText(chs[..i + 1]) == EntriesText(chs[..i]) + EntryText(chs[i])
  {
    assert chs[..i + 1][..i] == chs[..i];
  }

  /** `get_playlist_m3u`: builds the text by appending one entry per channel. */
  method GetPlaylistM3u(state: PlaylistState) returns (m3u: string)
    ensures m3u == WriteM3u(state.channels)
  {
    var chs := state.channels;
    var header := "#EXTM3U\n";
    m3u := header;
    var i := 0;
    while i < |chs|
      invariant 0 <= i <= |chs|
      invariant m3u == header + EntriesText(chs[..i])
      decreases |chs| - i
    {
      var ch := chs[i];
      var tvgIdAttr := OptionalAttr("tvg-id", ch.tvgId);
      var logoAttr := OptionalAttr("tvg-logo", ch.logoUrl);
      var entry := "#EXTINF:-1" + tvgIdAttr + " tvg-name=\"" + ch.name + "\" group-title=\"" + ch.group
                   + "\"" + logoAttr + "," + ch.name + "\n" + ch.streamUrl + "\n";
      assert entry == EntryText(ch);
      EntriesTextSnoc(chs, i);
      ConcatAssoc(header, EntriesText(chs[..i]), entry);
      m3u := m3u + entry;
      i := i + 1;
    }
    assert chs[..i] == chs;
  }

  /** A text field the writer can carry on one line. */
  predicate OneLine(s: string) {
    '\n' !in s && '\r' !in s
  }

  /** The lines of an entry list: the `#EXTINF:` line and the URL line of each channel in turn. */
  function EntryLines(chs: seq<Channel>): seq<string> {
    if chs == [] then [] else EntryLines(chs[..|chs| - 1]) + [ExtinfLineOf(chs[|chs| - 1]), chs[|chs| - 1].streamUrl]
  }

  predicate WritableLines(chs: seq<Channel>) {
    forall k :: 0 <= k < |chs| ==> OneLine(ExtinfLineOf(chs[k])) && OneLine(chs[k].streamUrl)
  }

  /** Two one-line strings, each followed by "\n", read as two lines. */
  lemma LinesTwo(x: string, y: string, e: string, t: string)
    requires OneLine(x) && OneLine(y) && e == x + "\n" + y + "\n"
    ensures Lines(e + t) == [x, y] + Lines(t)
  {
    assert e + t == x + "\n" + (y + "\n" + t);
    LinesCons(x, y + "\n" + t);
    LinesCons(y, t);
  }

  lemma HeaderLines(body: string)
    ensures Lines("#EXTM3U\n" + body) == ["#EXTM3U"] + Lines(body)
  {
    assert "#EXTM3U\n" + body == "#EXTM3U" + "\n" + body;
    LinesCons("#EXTM3U", body);
  }

  /** Reading the written text back line by line gives the header and two lines per channel. */
  lemma WrittenLines(chs: seq<Channel>)
    requires WritableLines(chs)
    ensures Lines(WriteM3u(chs)) == ["#EXTM3U"] + EntryLines(chs)
    ensures |EntryLines(chs)| == 2 * |chs|
  {
    var body := EntriesText(chs);
    HeaderLines(body);
    EntriesTextLines(chs, []);
    assert body + [] == body;
    assert Lines([]) == [];
    assert EntryLines(chs) + [] == EntryLines(chs);
  }

  lemma WritableInit(chs: seq<Channel>)
    requires chs != [] && WritableLines(chs)
    ensures WritableLines(chs[..|chs| - 1])
    ensures OneLine(ExtinfLineOf(chs[|chs| - 1])) && OneLine(chs[|chs| - 1].streamUrl)
  {
    var init := chs[..|chs| - 1];
    forall k | 0 <= k < |init| ensures OneLine(ExtinfLineOf(init[k])) && OneLine(init[k].streamUrl) {
      assert init[k] == chs[k];
    }
  }

  /** `EntriesText(chs) + t` reads as the entry lines followed by the lines of `t`. */
  lemma {:induction false} EntriesTextLines(chs: seq<Channel>, t: string)
    requires WritableLines(chs)
    ensures Lines(EntriesText(chs) + t) == EntryLines(chs) + Lines(t)
    ensures |EntryLines(chs)| == 2 * |chs|
    decreases |chs|
  {
    if chs != [] {
      var init := chs[..|chs| - 1];
      var ch := chs[|chs| - 1];
      var x := ExtinfLineOf(ch);
      var y := ch.streamUrl;
      var e := EntryText(ch);
      var before := EntriesText(init);
      WritableInit(chs);
      assert EntriesText(chs) == before + e;
      ConcatAssoc(before, e, t);
      assert EntriesText(chs) + t == before + (e + t);
      EntriesTextLines(init, e + t);
      LinesTwo(x, y, e, t);
      var lt := Lines(t);
      assert Lines(EntriesText(chs) + t) == EntryLines(init) + ([x, y] + lt);
      assert EntryLines(chs) == EntryLines(init) + [x, y];
      ConcatAssoc(EntryLines(init), [x, y], lt);
    } else {
      assert EntriesText(chs) + t == t;
      assert EntryLines(chs) + Lines(t) == Lines(t);
    }
  }
}
