# IPTV backend and pallets — a Dafny model

This project models the deterministic core of an IPTV player's backend and of the three
chain pallets that sit beside it, and proves properties of that model with Dafny.

- **M3U playlists** (`m3u_parser.dfy`, `playlist_routes.dfy`, `m3u_round_trip.dfy`): the line
  scanner of `parse_m3u` with `extract_attribute` and `extract_display_name`; the
  replace-or-append merge of an uploaded playlist, the whole-playlist update and the M3U
  writer, kept as a class whose methods update the server's playlist in place. The writer and
  the parser are proved to round-trip: reading back a written playlist gives each channel back,
  with its id recomputed from its URL and `is_live` cleared.
- **On-chain playlists** (`chain_routes.dfy`): the base16 decoder of remarks, the djb2 URL hash
  in 64-bit wrapping arithmetic, the decoding of the compact JSON channel list, and the
  newest-first scan for the first `IPTV:` remark.
- **XMLTV guides** (`epg_parser.dfy`): the event-driven parser state machine over the events of
  an XML reader, the time-zone offset and date rules, and the stable sort of each schedule.
- **The guide cache and its endpoints** (`epg_cache.dfy`, `epg_routes.dfy`): the now/next search,
  the `tz` query parameter, the channel lookup, the merge of a fetched guide into the cache and
  the aliasing of the requested id to the XMLTV channel it most likely names.
- **The iptv-org index** (`iptv_org.dfy`): the rebuild of the three maps, staleness, the two-stage
  id lookup, the guide URL and the gzip magic-byte test (section 2.3.1 of RFC 1952).
- **Calendar arithmetic** (`channel_checker.dfy`): the Gregorian leap rule, days since
  1970-01-01 to year, month and day, and the ISO 8601 timestamp text.
- **Pallets** (`access_control.dfy`, `playlist_registry.dfy`, `token_gate.dfy`): each storage map
  and counter as a class field, each dispatchable call as a method that either fails with its
  error and leaves storage unchanged or performs exactly its change and emits its event.
- Support modules: `wrappers.dfy` (Option, Result), `text.dfy` (Rust's `trim`, `starts_with`,
  `find`, `lines`, lower-casing), `utf8.dfy` (UTF-8 encoding and decoding), `decimal.dfy`
  (decimal printing and `str::parse`), `json.dfy` (JSON values), `models.dfy` (the channel and
  guide records), `frame.dfy` (origins and saturating counters of the pallet framework).

Things the code reaches through libraries are parameters of the model: the `DefaultHasher`
channel id of the M3U parser is a function `idOf` of the stream URL, the calendar parse of an
XMLTV local time is a function `naiveParse`, the XML reader is a list of events, the download
and parse of a guide is a function `fetchGuide`, the JSON parser is a function `parse`, and
every clock reading is an integer number of seconds passed in.

## Model

| member | source | states |
|---|---|---|
| Text.TrimStartSpec | backend/src/services/m3u_parser.rs:22 | `trim_start` drops a blank prefix and stops at the first character that is not white space |
| Text.TrimEndSpec | backend/src/services/m3u_parser.rs:22 | `trim_end` drops a blank suffix and stops at the last character that is not white space |
| Text.Trim | backend/src/services/m3u_parser.rs:22 | `str::trim`: never longer than its input, and a non-empty result neither starts nor ends with white space |
| Text.TrimSpec | backend/src/services/m3u_parser.rs:22-45 | `trim` keeps a middle part, drops only white space, and what it keeps neither starts nor ends with white space |
| Text.TrimNoop | backend/src/services/m3u_parser.rs:45 | a string with no white space at either end is its own trim |
| Text.TrimIdempotent | backend/src/services/m3u_parser.rs:22-45 | trimming twice is trimming once |
| Text.TrimEmptyIff | backend/src/services/m3u_parser.rs:37-46 | the trim is empty exactly for blank strings |
| Text.TrimEndAppend | backend/src/services/m3u_parser.rs:90 | trailing white space comes only from the last part of a concatenation that is not blank |
| Text.OccursShift | backend/src/services/m3u_parser.rs:73 | an occurrence in the tail is an occurrence one position later in the whole |
| Text.OccursConcat | backend/src/services/m3u_parser.rs:73 | adjacent occurrences of two patterns are an occurrence of their concatenation |
| Text.Find | backend/src/services/m3u_parser.rs:73 | `str::find` with a string pattern: any position found leaves room for the pattern |
| Text.FindSpec | backend/src/services/m3u_parser.rs:73 | the position found is an occurrence and no earlier position is one; None means no occurrence at all |
| Text.FindChar | backend/src/services/m3u_parser.rs:76 | `str::find` with a char: the position found holds that char |
| Text.FindCharSpec | backend/src/services/m3u_parser.rs:76 | the char does not occur before the position found, and None means it does not occur |
| Text.RFindChar | backend/src/services/m3u_parser.rs:89 | `str::rfind` with a char: the position found holds that char |
| Text.RFindCharSpec | backend/src/services/m3u_parser.rs:89 | the char does not occur after the position found, and None means it does not occur |
| Text.ToLower | backend/src/services/iptv_org.rs:117-119 | lower-casing keeps the length |
| Text.ToLowerIdempotent | backend/src/services/iptv_org.rs:117-153 | lower-casing twice is lower-casing once, so a lower-cased key finds itself |
| Text.Lines | backend/src/services/m3u_parser.rs:18 | `str::lines` of the empty text is no line |
| Text.LinesNoNewline | backend/src/services/m3u_parser.rs:18 | no line holds a "\n" |
| Text.LinesCons | backend/src/services/m3u_parser.rs:18 | a line without "\n" or "\r" followed by "\n" is the first of the lines |
| Text.AfterLast | backend/src/services/iptv_org.rs:180-182 | `rsplit(c).next()` is no longer than the text |
| Text.AfterLastSpec | backend/src/services/iptv_org.rs:180-182 | the text after the last `c` holds no `c` and ends the string; without a `c` it is the whole string |
| Text.SegmentBeforeLastSpec | backend/src/routes/epg.rs:286 | `rsplit(c).nth(1)` exists exactly when `c` occurs, holds no `c`, and ends the text before the last `c` |
| Utf8.EncodeChar | backend/src/routes/chain.rs:205 | one scalar value takes one to four bytes |
| Utf8.Encode | backend/src/routes/chain.rs:205 | `str::bytes` gives at least one byte per character |
| Utf8.DecodeFirst | backend/src/routes/chain.rs:160 | a well-formed first sequence takes one to four bytes of the input |
| Utf8.Split64 | backend/src/routes/chain.rs:160 | splitting a value into six-bit groups and joining them back agree |
| Utf8.DecodeFirstOfEncodeChar | backend/src/routes/chain.rs:160 | the decoder reads an encoded character back, whatever follows it |
| Utf8.DecodeTwo | backend/src/routes/chain.rs:160 | the same, for two-byte characters |
| Utf8.DecodeThree | backend/src/routes/chain.rs:160 | the same, for three-byte characters |
| Utf8.DecodeFour | backend/src/routes/chain.rs:160 | the same, for four-byte characters |
| Utf8.Decode | backend/src/routes/chain.rs:160 | `String::from_utf8`: the empty input is the empty text, and a decoded text never has more characters than bytes |
| Utf8.DecodeEncode | backend/src/routes/chain.rs:160 | `String::from_utf8` of a string's bytes gives the string back |
| Utf8.EncodeCharOfDecodeFirst | backend/src/routes/chain.rs:160 | a decoded first character encodes back to exactly the bytes it was read from |
| Utf8.EncodeTwo | backend/src/routes/chain.rs:160 | the same, for two-byte sequences |
| Utf8.EncodeThree | backend/src/routes/chain.rs:160 | the same, for three-byte sequences |
| Utf8.EncodeFour | backend/src/routes/chain.rs:160 | the same, for four-byte sequences |
| Utf8.EncodeDecode | backend/src/routes/chain.rs:160 | the decoder accepts only canonical UTF-8: what it returns encodes back to its input |
| Utf8.DecodeAscii | backend/src/routes/chain.rs:160 | bytes below 0x80 decode to the same number of characters with the same codes |
| Decimal.DigitChar | backend/src/services/channel_checker.rs:106 | the character of a digit is a digit and has that value |
| Decimal.NatToString | backend/src/routes/chain.rs:187 | the `Display` text of a number is non-empty, all digits, with no leading zero |
| Decimal.IntToString | backend/src/services/epg_parser.rs:181-185 | a negative number is written with a '-' before the digits of its magnitude |
| Decimal.PadNat | backend/src/services/channel_checker.rs:106 | `{:0w}`: at least `w` characters, all digits, ending with the unpadded digits |
| Decimal.ParseInt | backend/src/services/epg_parser.rs:287-288 | `str::parse::<i32>` succeeds exactly on an optional sign followed by at least one digit |
| Decimal.DigitsValueOfNat | backend/src/routes/chain.rs:187 | the digits of a number read back as that number |
| Decimal.DigitsValueZeros | backend/src/services/channel_checker.rs:106 | leading zeros do not change a value |
| Decimal.ZerosValue | backend/src/services/channel_checker.rs:106 | a string of zeros has value 0 |
| Decimal.PadNatValue | backend/src/services/channel_checker.rs:106 | padded digits still read back as the number |
| Decimal.PadNatInjective | backend/src/services/channel_checker.rs:106 | different numbers are written differently under the same padding |
| Decimal.ParseIntToString | backend/src/services/epg_parser.rs:287-288 | `to_string` then `parse` gives the integer back, negative or not |
| Decimal.PadNatExact | backend/src/services/channel_checker.rs:106 | a number that fits in `w` digits pads to exactly `w` digits that read back as it |
| Decimal.Pow10 | backend/src/services/channel_checker.rs:106 | a power of ten is at least 1 |
| Decimal.NatToStringShort | backend/src/services/channel_checker.rs:106 | a number below 10^w has at most `w` digits |
| Json.Get | backend/src/routes/chain.rs:73-76 | `Value::get` finds a field exactly when the value is an object with that key |
| Json.AsStr | backend/src/routes/chain.rs:177-178 | `as_str` succeeds exactly on a string value and returns it |
| Json.AsArray | backend/src/routes/chain.rs:168 | `as_array` succeeds exactly on an array value and returns its items |
| Json.AsU64 | backend/src/routes/chain.rs:85 | `as_u64` succeeds exactly on a number in the range of `u64` |
| M3uParser.QuotedValue | backend/src/services/m3u_parser.rs:75-82 | a value read after `key="` is never empty |
| M3uParser.QuotedValueSpec | backend/src/services/m3u_parser.rs:75-82 | there is no value iff no '"' follows or one follows at once; a value holds no '"' and is followed by the closing '"' |
| M3uParser.ExtractAttribute | backend/src/services/m3u_parser.rs:71-83 | without `key="` in the line the result is None; with it, the result is the quoted value read right after the first `key="`; a value found is non-empty |
| M3uParser.ExtractAttributeNone | backend/src/services/m3u_parser.rs:76-79 | once `key="` is present, the result is None iff the quote is never closed or the value is empty |
| M3uParser.ExtractAttributeFound | backend/src/services/m3u_parser.rs:72-77 | a value found holds no '"' and sits, closed by '"', right after the first `key="` of the line |
| M3uParser.ExtractAttributeFirst | backend/src/services/m3u_parser.rs:73 | the `key="` read from is the first one in the line |
| M3uParser.ExtractDisplayName | backend/src/services/m3u_parser.rs:88-96 | a display name is found only on a line that has a ',', and it is never empty |
| M3uParser.ExtractDisplayNameSpec | backend/src/services/m3u_parser.rs:88-96 | there is a display name iff the line has a ',' and the text after the last ',' is not blank; it is that text trimmed and holds no ',' |
| M3uParser.Kinds | backend/src/services/m3u_parser.rs:22-37 | one line kind per line |
| M3uParser.MakeChannel | backend/src/services/m3u_parser.rs:26-56 | the channel's stream URL is the URL line, its id is derived from that URL and it starts out not live; a logo or tvg-id is never the empty string, and a line without `group-title` gives the empty group |
| M3uParser.KindOf | backend/src/services/m3u_parser.rs:22-40 | a trimmed line can be a stream URL exactly when it is neither blank nor starts with '#'; an `#EXTINF:` line starts with '#', and every other line is blank or a '#' line |
| M3uParser.KindAt | backend/src/services/m3u_parser.rs:22-37 | the kind at a position is the kind of the line there |
| M3uParser.SkipToUrl | backend/src/services/m3u_parser.rs:35-42 | the stop is at or after the start and within the lines |
| M3uParser.SkipToUrlSpec | backend/src/services/m3u_parser.rs:35-42 | the scan stops at the first URL line and passes over only blank and '#' lines, including `#EXTINF:` lines |
| M3uParser.SkipBlankAndComments | backend/src/services/m3u_parser.rs:34-42 | the inner loop stops where `SkipToUrl` says |
| M3uParser.EntriesUnfold | backend/src/services/m3u_parser.rs:24-61 | an `#EXTINF:` line with a URL after it adds one entry, and the scan resumes after that URL |
| M3uParser.Entries | backend/src/services/m3u_parser.rs:21-62 | the (`#EXTINF:` line, URL line) pairs the scan collects from a given line on; it carries no contract of its own, and what the pairs are is stated by `EntriesSpec` |
| M3uParser.EntriesSpec | backend/src/services/m3u_parser.rs:24-46 | every entry pairs an `#EXTINF:` line with the first URL line after it |
| M3uParser.EntriesValid | backend/src/services/m3u_parser.rs:44-45 | every entry's lines are within the text |
| M3uParser.EntriesOrdered | backend/src/services/m3u_parser.rs:21-62 | entries come in line order and do not overlap |
| M3uParser.CountExtinfMono | backend/src/services/m3u_parser.rs:24 | fewer lines hold no more `#EXTINF:` lines |
| M3uParser.EntriesCount | backend/src/services/m3u_parser.rs:24-58 | there are no more entries than `#EXTINF:` lines |
| M3uParser.ChannelsOf | backend/src/services/m3u_parser.rs:48-56 | one channel per entry |
| M3uParser.ChannelsOfIndex | backend/src/services/m3u_parser.rs:26-56 | channel k is made from the trimmed lines of entry k |
| M3uParser.ScanFound | backend/src/services/m3u_parser.rs:44-61 | in the loop, a found URL adds exactly its entry and the scan goes on after the URL |
| M3uParser.ScanPast | backend/src/services/m3u_parser.rs:24-61 | a line that is not `#EXTINF:`, or one with no URL after it, adds no entry |
| M3uParser.PushChannel | backend/src/services/m3u_parser.rs:48-56 | pushing a channel extends the list by the channel of the new entry |
| M3uParser.ParseM3u | backend/src/services/m3u_parser.rs:16-65 | the loop returns exactly the channels of the entries of the text's lines, in order; empty input gives no channel |
| M3uParser.ParseChannel | backend/src/services/m3u_parser.rs:26-56 | each channel comes from an `#EXTINF:` line and the first URL line after it; its URL is non-empty, trimmed and does not start with '#'; it is not live; its id comes from the URL alone |
| M3uParser.ParseCount | backend/src/services/m3u_parser.rs:21-64 | there are no more channels than `#EXTINF:` lines |
| M3uParser.LostEntry | backend/src/services/m3u_parser.rs:34-46 | an entry with no URL before the next `#EXTINF:` takes that entry's URL, and the second entry is lost |
| M3uParser.NoUrlNoEntry | backend/src/services/m3u_parser.rs:34-46 | an `#EXTINF:` line followed only by blank and '#' lines gives no channel |
| M3uParser.NoUrlSkip | backend/src/services/m3u_parser.rs:35-42 | with no URL line ahead the inner loop runs to the end |
| M3uParser.NameRule | backend/src/services/m3u_parser.rs:26-28 | the name is `tvg-name` when present and non-empty, else the trimmed text after the last ',' when that is not blank, else "" |
| PlaylistRoutes.PlaylistState.constructor | backend/src/models/playlist.rs:1-15 | the server's playlist starts out as the value given |
| PlaylistRoutes.FreshChannels | backend/src/routes/playlist.rs:70-73 | the filter keeps no more channels than were uploaded |
| PlaylistRoutes.FreshChannelsSpec | backend/src/routes/playlist.rs:64-73 | a channel is kept iff it was uploaded and its URL is not among the playlist's URLs |
| PlaylistRoutes.FreshChannelsAppend | backend/src/routes/playlist.rs:70-73 | the filter keeps upload order: it distributes over concatenation |
| PlaylistRoutes.DuplicatesKept | backend/src/routes/playlist.rs:64-73 | deduplication is only against the old playlist: two uploaded channels sharing a new URL are both appended |
| PlaylistRoutes.Merge | backend/src/routes/playlist.rs:63-93 | replace mode gives exactly the uploaded list; append mode keeps the previous playlist as a prefix and adds no more channels than were uploaded |
| PlaylistRoutes.MergeAppend | backend/src/routes/playlist.rs:63-76 | append keeps the old channels as an unchanged prefix, adds only uploaded channels with new URLs, and afterwards every uploaded URL is in the playlist |
| PlaylistRoutes.FreshChannelsNone | backend/src/routes/playlist.rs:70-73 | an upload whose URLs are all known adds nothing |
| PlaylistRoutes.ExtinfLineOf | backend/src/routes/playlist.rs:145-160 | each channel's line opens with `#EXTINF:-1` and ends with ',' followed by the channel's name |
| PlaylistRoutes.WriteM3u | backend/src/routes/playlist.rs:142-161 | the text opens with the `#EXTM3U` header line, and it is that header alone exactly when the playlist is empty |
| PlaylistRoutes.MergeAppendIdempotent | backend/src/routes/playlist.rs:63-76 | appending the same upload a second time changes nothing |
| PlaylistRoutes.UploadPlaylist | backend/src/routes/playlist.rs:36-108 | an invalid body, an unreadable or non-UTF-8 file, or no `file` field is an error with no change; otherwise the channels become the parsed list (replace, the default) or the old list plus the uploaded channels with new URLs (mode exactly "append"), the source becomes "upload", name and last check are kept, `total_channels` is the new length and `channels_loaded` is the number parsed or appended |
| PlaylistRoutes.UpdatePlaylist | backend/src/routes/playlist.rs:114-131 | the posted playlist replaces the whole state and the reply is its channel count |
| PlaylistRoutes.EntriesTextSnoc | backend/src/routes/playlist.rs:144-161 | the text of one more channel is the text so far followed by that channel's two lines |
| PlaylistRoutes.GetPlaylistM3u | backend/src/routes/playlist.rs:137-164 | the loop builds "#EXTM3U\n" followed by each channel's `#EXTINF:` line and URL line, in playlist order |
| PlaylistRoutes.LinesTwo | backend/src/routes/playlist.rs:157-160 | one written entry reads as its two lines |
| PlaylistRoutes.HeaderLines | backend/src/routes/playlist.rs:142 | the header reads as the line "#EXTM3U" |
| PlaylistRoutes.WrittenLines | backend/src/routes/playlist.rs:142-161 | when no field holds a line break, the written text reads as the header and exactly two lines per channel |
| PlaylistRoutes.WritableInit | backend/src/routes/playlist.rs:144 | writability of a list holds for its prefix and its last channel |
| PlaylistRoutes.EntriesTextLines | backend/src/routes/playlist.rs:144-161 | the entries' text followed by anything reads as the entry lines followed by the lines of the rest |
| Models.Urls | backend/src/routes/playlist.rs:64-68 | the stream URLs of a channel list, one per channel, in order |
| M3uRoundTrip.FindAfter | backend/src/services/m3u_parser.rs:73 | a pattern that does not occur in the first part is found in the second part, shifted by the first part's length |
| M3uRoundTrip.FindHit | backend/src/services/m3u_parser.rs:73 | a piece whose only '"' is its last character, ending with a pattern of that shape, is where the search finds it |
| M3uRoundTrip.NoHit | backend/src/services/m3u_parser.rs:73 | such a piece that does not end with the pattern holds no occurrence of it that starts inside the piece |
| M3uRoundTrip.ExtractSkip | backend/src/services/m3u_parser.rs:71-83 | text in front that holds no `key="` is skipped by `extract_attribute` |
| M3uRoundTrip.ExtractAttributeAt | backend/src/services/m3u_parser.rs:72-77 | once `key="` is found at k, the value is read from position k + the pattern length |
| M3uRoundTrip.ExtractHit | backend/src/services/m3u_parser.rs:71-83 | a lead ending in `key="`, then a value, then '"', yields that value |
| M3uRoundTrip.ClosingQuote | backend/src/services/m3u_parser.rs:76-82 | a value free of '"' followed by '"' reads back as itself, and an empty one as None |
| M3uRoundTrip.KeyEnds | backend/src/services/m3u_parser.rs:72 | among the four keys, `k="` ends a text ending in ` k0="` only when k is k0 |
| M3uRoundTrip.ExtractFromAttrs | backend/src/services/m3u_parser.rs:71-83 | over a run of written attributes whose values hold no '"' and do not end in '=', `extract_attribute` returns the first value written under the key |
| M3uRoundTrip.AttrTextAppend | backend/src/routes/playlist.rs:157-160 | the text of two attribute runs is the concatenation of their texts |
| M3uRoundTrip.NameGroupText | backend/src/routes/playlist.rs:158 | the fixed middle of the format string is the `tvg-name` then the `group-title` attribute |
| M3uRoundTrip.ExtinfLayout | backend/src/routes/playlist.rs:145-160 | the written `#EXTINF:` line is "#EXTINF:-1", then the attribute run `tvg-id?`, `tvg-name`, `group-title`, `tvg-logo?`, then "," and the name |
| M3uRoundTrip.AttrsOfValues | backend/src/routes/playlist.rs:145-160 | the first value written under each key is the channel's tvg-id, name (None when empty), group (None when empty) and logo |
| M3uRoundTrip.TrimExtinf | backend/src/routes/playlist.rs:158 | trimming the written line only trims the display name at its end |
| M3uRoundTrip.ReadAttr | backend/src/services/m3u_parser.rs:26-31 | reading any key from the trimmed written line gives the first value written under it |
| M3uRoundTrip.ExtinfShape | backend/src/services/m3u_parser.rs:24 | the written line starts with `#EXTINF:`, and ends with ',' when the name is empty |
| M3uRoundTrip.EmptyNameRead | backend/src/services/m3u_parser.rs:26-28 | a channel with an empty name reads back with an empty name |
| M3uRoundTrip.ReadExtinf | backend/src/services/m3u_parser.rs:24-31 | the reader recovers name, group, logo and tvg-id from the written `#EXTINF:` line |
| M3uRoundTrip.ExtinfOneLine | backend/src/routes/playlist.rs:158 | the written `#EXTINF:` line holds no line break when no field does |
| M3uRoundTrip.WritableAll | backend/src/routes/playlist.rs:157-160 | channels the writer can carry give one-line entries |
| M3uRoundTrip.EntryLinesAt | backend/src/routes/playlist.rs:144-161 | channel j's lines are lines 2j and 2j+1 of the entries |
| M3uRoundTrip.KindsOfWritten | backend/src/services/m3u_parser.rs:22-37 | the reader sees the header as a comment, then an `#EXTINF:` line and a URL line per channel |
| M3uRoundTrip.KindsOfEntry | backend/src/services/m3u_parser.rs:22-37 | the kinds of the two lines of an entry, after the header |
| M3uRoundTrip.EntryLinesKinds | backend/src/services/m3u_parser.rs:22-37 | a writable channel's lines are an `#EXTINF:` line and a URL line |
| M3uRoundTrip.ExtinfKind | backend/src/services/m3u_parser.rs:24 | the written `#EXTINF:` line opens an entry |
| M3uRoundTrip.UrlKind | backend/src/services/m3u_parser.rs:37 | a non-empty trimmed URL not starting with '#' is a URL line |
| M3uRoundTrip.Pairs | backend/src/services/m3u_parser.rs:21-62 | the expected entries number one per channel |
| M3uRoundTrip.PairsAt | backend/src/services/m3u_parser.rs:21-62 | the k-th expected entry is lines 2k+1 and 2k+2 |
| M3uRoundTrip.EntriesOfWritten | backend/src/services/m3u_parser.rs:21-62 | the scan pairs each written `#EXTINF:` line with the URL line right after it |
| M3uRoundTrip.EntriesWritten | backend/src/services/m3u_parser.rs:21-62 | the scan of the whole written text finds exactly one entry per channel |
| M3uRoundTrip.Restamped | backend/src/services/m3u_parser.rs:47-56 | a read-back channel keeps the URL, gets its id from the URL and is not live |
| M3uRoundTrip.MakeChannelRead | backend/src/services/m3u_parser.rs:26-56 | one written entry reads back as its channel, with a fresh id and not live |
| M3uRoundTrip.ParseWrittenAt | backend/src/services/m3u_parser.rs:16-65 | the k-th parsed channel of the written text is channel k, restamped |
| M3uRoundTrip.RoundTrip | backend/src/routes/playlist.rs:137-164 | parsing the text the writer emits gives one channel per written channel, in order, with name, group, logo, stream URL and tvg-id recovered, the id derived from the URL and not live; this holds when no field holds '"', CR or LF, no field ends in '=', every present field is non-empty, and the URL is non-empty, trimmed and does not start with '#' |
| M3uRoundTrip.RoundTripExact | backend/src/routes/playlist.rs:137-164 | a writable list whose ids follow its URLs and with no live flag survives write-then-parse unchanged |
| ChainRoutes.HexValue | backend/src/routes/chain.rs:158 | the value of one hex digit, either case, is below 16 |
| ChainRoutes.PairValue | backend/src/routes/chain.rs:158 | `u8::from_str_radix(pair, 16)` succeeds exactly for two hex digits or a '+' followed by one hex digit |
| ChainRoutes.HexBytes | backend/src/routes/chain.rs:156-159 | the pairs at even offsets that parse, in order; a bad pair and a trailing odd byte are dropped, so there are at most half as many bytes as hex characters |
| ChainRoutes.StripHexPrefix | backend/src/routes/chain.rs:155 | removes one leading "0x" when present and otherwise leaves the text alone |
| ChainRoutes.DecodeHexToString | backend/src/routes/chain.rs:154-161 | the UTF-8 text of the decoded bytes, None when they are not UTF-8; the text is at most half the hex length in bytes |
| ChainRoutes.HexText | backend/src/routes/chain.rs:153-161 | the partner encoder: two lower-case hex digits per byte |
| ChainRoutes.AsciiBytes | backend/src/routes/chain.rs:156 | text below 0x80 is its own byte string, of the same length |
| ChainRoutes.EncodeAsciiText | backend/src/routes/chain.rs:156 | the UTF-8 bytes of text below 0x80 are its characters |
| ChainRoutes.HexTextAsciiRec | backend/src/routes/chain.rs:158 | every character of the encoder's output is an ASCII hex digit |
| ChainRoutes.HexBytesOfHexText | backend/src/routes/chain.rs:156-159 | decoding the encoder's output gives back the bytes |
| ChainRoutes.DecodeHexOfHexText | backend/src/routes/chain.rs:153-161 | base16 text of a string's UTF-8 bytes, with or without "0x", decodes back to the string |
| ChainRoutes.EncodeHello | backend/src/routes/chain.rs:216-225 | the UTF-8 bytes of "Hello" |
| ChainRoutes.HexTextStep | backend/src/routes/chain.rs:153-161 | the encoding of a byte followed by more bytes |
| ChainRoutes.HelloHexText | backend/src/routes/chain.rs:216-225 | "Hello" encodes as "48656c6c6f" |
| ChainRoutes.PrefixedHello | backend/src/routes/chain.rs:217 | the prefixed form of the test string |
| ChainRoutes.DecodeHello | backend/src/routes/chain.rs:215-225 | "0x48656c6c6f" and "48656c6c6f" both decode to "Hello" |
| ChainRoutes.DecodeNotUtf8 | backend/src/routes/chain.rs:227-232 | "0xfffe" decodes to bytes that are not UTF-8, so the result is None |
| ChainRoutes.Djb2 | backend/src/routes/chain.rs:203-209 | djb2 over bytes is always below 2^64 |
| ChainRoutes.WrapStep | backend/src/routes/chain.rs:206 | `wrapping_mul` then `wrapping_add` equals one reduction modulo 2^64 |
| ChainRoutes.HashUrl | backend/src/routes/chain.rs:203-209 | the loop computes djb2 of the URL's UTF-8 bytes with 64-bit wrapping |
| ChainRoutes.ResidueStep | backend/src/routes/chain.rs:206 | reducing before a step or after it gives the same residue |
| ChainRoutes.Djb2IsResidue | backend/src/routes/chain.rs:203-209 | the wrapped hash is the unbounded djb2 polynomial modulo 2^64 |
| ChainRoutes.MultipleBound | backend/src/routes/chain.rs:206 | a non-zero multiple of 2^64 is at least 2^64 away from zero |
| ChainRoutes.SmallMultipleIsZero | backend/src/routes/chain.rs:206 | a multiple of 2^64 strictly between -2^64 and 2^64 is zero |
| ChainRoutes.StepInjective | backend/src/routes/chain.rs:206 | one hash step is injective in the previous hash, since 33 is invertible modulo 2^64 |
| ChainRoutes.Djb2CancelSuffix | backend/src/routes/chain.rs:203-209 | equal hashes after a common suffix mean equal hashes before it |
| ChainRoutes.AddDistinct | backend/src/routes/chain.rs:206 | adding two different bytes to the same value gives different residues |
| ChainRoutes.Djb2LastByte | backend/src/routes/chain.rs:203-209 | the same prefix followed by two different bytes hashes differently |
| ChainRoutes.Djb2OneByteApart | backend/src/routes/chain.rs:301-307 | byte strings that differ in exactly one position hash differently |
| ChainRoutes.EncodeAppend | backend/src/routes/chain.rs:205 | UTF-8 encoding distributes over concatenation |
| ChainRoutes.HashUrlOneCharApart | backend/src/routes/chain.rs:295-307 | URLs that differ in one ASCII character get different hashes, which covers the two test URLs; the hash is a function of the URL, hence deterministic |
| ChainRoutes.KeptIndices | backend/src/routes/chain.rs:173-178 | the increasing list of exactly those array indices whose entry has a string "n" and a string "s" |
| ChainRoutes.ParseChainChannels | backend/src/routes/chain.rs:167-171 | a missing "c", or one that is not an array, gives no channel |
| ChainRoutes.ChainChannelsLength | backend/src/routes/chain.rs:173-199 | one channel per kept entry |
| ChainRoutes.ChainChannelAt | backend/src/routes/chain.rs:173-199 | channel k is built from the k-th kept entry, numbered by its index in the unfiltered array |
| ChainRoutes.ChainChannel | backend/src/routes/chain.rs:177-197 | the channel is live, has no tvg-id and the id "chain-{i}-{hash of its URL}"; its logo is "l" exactly when that is a string, and its group is "On-Chain" when "g" is not a string |
| ChainRoutes.ParseChainChannelsSpec | backend/src/routes/chain.rs:167-199 | exactly the entries with string "n" and "s", in order; each has its name and URL, id "chain-{i}-{hash}" with i the unfiltered index, is live, has no tvg-id, group "g" when it is a string and "On-Chain" otherwise, and logo "l" exactly when it is a string |
| ChainRoutes.RemarkPayload | backend/src/routes/chain.rs:103-127 | a param yields a payload only when its "name" is "remark" and its "value" is a string |
| ChainRoutes.FirstSome | backend/src/routes/chain.rs:84-150 | the first present value from a position on, with every earlier one absent |
| ChainRoutes.Remarks | backend/src/routes/chain.rs:102 | one payload per param |
| ChainRoutes.Payloads | backend/src/routes/chain.rs:84 | one payload per extrinsic |
| ChainRoutes.ScanParams | backend/src/routes/chain.rs:102-128 | the loop over params, skipping each failed step, returns the payload of the first param that yields one |
| ChainRoutes.FetchChainPlaylist | backend/src/routes/chain.rs:73-150 | without an extrinsic array the answer is "not found"; otherwise it is the scan's answer over the extrinsics in the order given |
| ChainRoutes.GetChainPlaylist | backend/src/routes/chain.rs:28-46 | a missing address is a 400; a failed request is "not found"; otherwise the answer is the scan's |
| ChainRoutes.FirstPayloadSpec | backend/src/routes/chain.rs:102-128 | there is no payload iff no param yields one; otherwise it is the payload of the first param that yields one |
| ChainRoutes.ScanResult | backend/src/routes/chain.rs:84-150 | a found answer is built from one of the extrinsics and the playlist payload that extrinsic carries |
| ChainRoutes.ScanResultSpec | backend/src/routes/chain.rs:84-150 | the answer is "not found" iff no extrinsic holds a playlist; otherwise it is built from the first extrinsic that holds one, with the playlist name defaulting to "On-Chain Playlist" |
| EpgParser.ParseTzOffset | backend/src/services/epg_parser.rs:271-290 | blank text is offset zero, and text with fewer than four characters after the optional sign is refused |
| EpgParser.TwoDigits | backend/src/services/epg_parser.rs:287-288 | a number below 100 padded to two digits reads back as itself |
| EpgParser.ParseTzOffsetSigned | backend/src/services/epg_parser.rs:277-289 | a sign followed by two readable pairs of characters is the signed offset in seconds, hours times 3600 plus minutes times 60 |
| EpgParser.ParseTzOffsetOfText | backend/src/services/epg_parser.rs:270-290 | reading back an offset written as "+HHMM" or "-HHMM" gives its signed number of seconds |
| EpgParser.ParseTzOffsetLiteral | backend/src/services/epg_parser.rs:277-289 | a sign and four decimal digits read as the offset their digits spell |
| EpgParser.ParseTzOffsetExamples | backend/src/services/epg_parser.rs:399-404 | "+0000" is 0, "+0100" is 3600, "-0530" is -19800 and "" is 0 seconds |
| EpgParser.ParseXmltvDatetime | backend/src/services/epg_parser.rs:249-268 | a date parses exactly when its fourteen-character local part parses and the offset after it (0 when absent or unreadable) is less than a day; the instant is the local time less the offset |
| EpgParser.SplitExample | backend/src/services/epg_parser.rs:253-260 | "20260211150000 +0100" splits into its local part and an offset of one hour |
| EpgParser.ParseXmltvDatetimeExample | backend/src/services/epg_parser.rs:386-390 | "20260211150000 +0100" is the instant one hour before that local time |
| EpgParser.InsertPermutes | backend/src/services/epg_parser.rs:232 | inserting a programme into a schedule adds exactly that programme |
| EpgParser.InsertSorted | backend/src/services/epg_parser.rs:232 | inserting into a schedule sorted by start keeps it sorted |
| EpgParser.InsertStable | backend/src/services/epg_parser.rs:232 | inserting keeps the input order of programmes with the same start, the new one last |
| EpgParser.SortSorted | backend/src/services/epg_parser.rs:231-233 | a sorted schedule is ordered by start |
| EpgParser.SortPermutes | backend/src/services/epg_parser.rs:231-233 | sorting keeps exactly the programmes it was given |
| EpgParser.SortStable | backend/src/services/epg_parser.rs:231-233 | programmes with equal starts keep their input order (the sort is stable) |
| EpgParser.SortByStart | backend/src/services/epg_parser.rs:231-233 | the sort keeps the number of programmes; `SortByStartSpec` states sortedness, permutation and stability |
| EpgParser.SortByStartSpec | backend/src/services/epg_parser.rs:230-233 | each schedule is sorted by start, a permutation of the programmes read, and stable |
| EpgParser.LastKeyAt | backend/src/services/epg_parser.rs:108-119 | finds the last attribute with a key (the one whose value the loop keeps), or -1 |
| EpgParser.LastUsableAt | backend/src/services/epg_parser.rs:89-95 | finds the last attribute with a key and a valid UTF-8 value (non-empty when asked), or -1 |
| EpgParser.ChannelElemId | backend/src/services/epg_parser.rs:86-96 | the channel id is the value of the last valid `id` attribute, and empty when there is none |
| EpgParser.IconSrc | backend/src/services/epg_parser.rs:129-139 | the icon is the last valid non-empty `src`, and otherwise stays as it was |
| EpgParser.ReadProgrammeHead | backend/src/services/epg_parser.rs:108-119 | channel, start and stop come from the last attribute of each name, an invalid value reading as empty text |
| EpgParser.NonEmpty | backend/src/services/epg_parser.rs:191-202 | an empty description or category is absent, any other is kept as is |
| EpgParser.StopAt | backend/src/services/epg_parser.rs:223-224 | the loop runs up to the first end of input or reader error |
| EpgParser.SortSchedules | backend/src/services/epg_parser.rs:231-233 | sorting keeps the set of channels with a schedule |
| EpgParser.ParseXmltvSpec | backend/src/services/epg_parser.rs:42-239 | the answer is "too large" exactly when the input is over 50 MiB |
| EpgParser.HandleStart | backend/src/services/epg_parser.rs:83-126 | the start-tag arm opens a channel, display name, programme or text element as its name says, and resets a programme's accumulators |
| EpgParser.HandleEmpty | backend/src/services/epg_parser.rs:127-140 | an empty `<icon>` inside a programme sets the icon; every other empty tag changes nothing |
| EpgParser.HandleText | backend/src/services/epg_parser.rs:141-164 | text inside a display name maps its trimmed lower-cased form to the channel id, once; text inside a title, description or category is appended to it |
| EpgParser.HandleEnd | backend/src/services/epg_parser.rs:165-222 | end tags close their element; `</programme>` stores the programme when it has a title, an accepted channel and both times |
| EpgParser.HandleEvent | backend/src/services/epg_parser.rs:81-228 | one turn of the loop is the transition the event calls for |
| EpgParser.ParseXmltv | backend/src/services/epg_parser.rs:42-239 | the parser answers what the specification of the event loop answers for the input, its known channels and its events |
| EpgParser.PushConsistent | backend/src/services/epg_parser.rs:206-213 | storing a kept programme under its own channel keeps every schedule well formed |
| EpgParser.OnStart | backend/src/services/epg_parser.rs:83-126 | a start tag never touches the schedules or the display names, and `<programme>` opens a programme with an empty title and no icon |
| EpgParser.OnEmpty | backend/src/services/epg_parser.rs:127-140 | an empty tag touches neither map, and changes the icon only for an `<icon/>` inside a programme |
| EpgParser.OnText | backend/src/services/epg_parser.rs:141-164 | text never touches the schedules or the icon, and text that does not unescape changes nothing |
| EpgParser.OnEnd | backend/src/services/epg_parser.rs:165-222 | an end tag never touches the display names or the icon, and only `</programme>` can change the schedules |
| EpgParser.Step | backend/src/services/epg_parser.rs:82-226 | a read error or the end of input leaves the state as it is |
| EpgParser.OnStartFrame | backend/src/services/epg_parser.rs:83-126 | a start tag changes neither the schedules nor the display names |
| EpgParser.OnEmptyFrame | backend/src/services/epg_parser.rs:127-140 | an empty tag changes neither map and sets the icon only to a non-empty URL |
| EpgParser.OnTextFrame | backend/src/services/epg_parser.rs:141-164 | text changes no schedule, and adds at most one new non-empty lower-cased display name, never remapping one |
| EpgParser.CloseFrame | backend/src/services/epg_parser.rs:170-216 | closing a programme either leaves the schedules alone or pushes exactly that programme, and only when it is kept |
| EpgParser.OnEndFrame | backend/src/services/epg_parser.rs:165-222 | an end tag changes no display name, and the schedules only by closing a kept programme |
| EpgParser.StepConsistent | backend/src/services/epg_parser.rs:81-228 | each turn of the loop keeps every stored programme titled, accepted, under its own channel with the "{channel}-{start}" id, and every display name a non-empty lower-case key |
| EpgParser.Run | backend/src/services/epg_parser.rs:81-228 | the state after the events in order; it carries no contract of its own, and `RunConsistent` and `RunExtends` state what every reachable state satisfies |
| EpgParser.RunConsistent | backend/src/services/epg_parser.rs:81-228 | every state the loop reaches is well formed in that sense |
| EpgParser.StepExtends | backend/src/services/epg_parser.rs:81-228 | a turn of the loop only appends programmes to schedules, and never remaps a display name |
| EpgParser.RunExtends | backend/src/services/epg_parser.rs:81-228 | reading more events never removes or reorders a stored programme nor remaps a display name (the first display name wins) |
| EpgParser.CloseProgrammeSpec | backend/src/services/epg_parser.rs:170-216 | `</programme>` appends exactly one programme to its own channel's schedule when it is kept, and no other schedule changes |
| EpgParser.StopAtFirst | backend/src/services/epg_parser.rs:223-224 | the loop stops at the first end of input or error, not a later one |
| EpgParser.ParseXmltvError | backend/src/services/epg_parser.rs:224 | a reader error met before the end of input is the answer, whatever came before it |
| EpgParser.ParseXmltvOk | backend/src/services/epg_parser.rs:230-238 | after a successful parse every schedule is non-empty, sorted by start and holds only titled programmes of accepted channels under their own id; every display name is a non-empty lower-case key |
| Epg.FirstStop | backend/src/models/epg.rs:82-94 | the scan stops at the first programme that is on air or still to come, having passed only programmes that are neither |
| Epg.NowNextOf | backend/src/models/epg.rs:77-101 | `now` is a programme of the schedule that is on air; `next` is a programme of the schedule, and when nothing is on air it starts after the clock reading |
| Epg.NowNextSpec | backend/src/models/epg.rs:77-101 | `now` is the first programme on air with nothing earlier on air or still to come, and `next` is the programme right after it whatever its times; with nothing on air, `next` is the first programme still to come; both are None exactly when every programme has ended |
| Epg.EpgCache.constructor | backend/src/models/epg.rs:64-69 | a new cache has no schedules and was never updated |
| Epg.EpgCache.GetSchedule | backend/src/models/epg.rs:72-74 | exactly the map lookup |
| Epg.EpgCache.GetNowNext | backend/src/models/epg.rs:77-101 | None iff the channel has no schedule; otherwise the reply names the channel asked for and holds the pair the scan settles on; the cache is not modified |
| IptvOrg.Elapsed | backend/src/services/iptv_org.rs:105 | the time since the last update is the clock difference, and zero when the clock reads earlier than the stamp |
| IptvOrg.StaleSpec | backend/src/services/iptv_org.rs:103-108 | an index never updated is stale; an updated one is stale exactly when more than six hours have passed |
| IptvOrg.LastWithId | backend/src/services/iptv_org.rs:121 | finds the last channel carrying an id (later inserts overwrite earlier ones), or -1 when none does |
| IptvOrg.LastNamed | backend/src/services/iptv_org.rs:117-120 | finds the last channel whose lower-cased name or alternative name is the key, or -1 when none does |
| IptvOrg.FirstGuide | backend/src/services/iptv_org.rs:126-127 | finds the first guide that names a channel, or -1 when none does |
| IptvOrg.ByIdOf | backend/src/services/iptv_org.rs:116-122 | at most one entry per channel, and the last channel inserted is filed under its id |
| IptvOrg.ByIdOfSpec | backend/src/services/iptv_org.rs:116-122 | the id map holds an id exactly when some channel has it, and maps it to the last such channel |
| IptvOrg.InsertAlts | backend/src/services/iptv_org.rs:118-120 | inserting the alternative names keeps every existing key and adds at most one key per alternative name |
| IptvOrg.InsertAltsSpec | backend/src/services/iptv_org.rs:118-120 | inserting the alternative names adds exactly their lower-cased forms, all mapped to the channel, and keeps every other entry |
| IptvOrg.ByNameOf | backend/src/services/iptv_org.rs:116-122 | the last channel's lower-cased name is always a key: its alternative names never remove it |
| IptvOrg.ByNameOfSpec | backend/src/services/iptv_org.rs:116-122 | the name map holds a key exactly when some channel's lower-cased name or alternative name equals it, and maps it to the last such channel |
| IptvOrg.GuidesOf | backend/src/services/iptv_org.rs:124-129 | at most one entry per guide, and every entry is a guide for the channel it is filed under |
| IptvOrg.GuidesOfSpec | backend/src/services/iptv_org.rs:124-129 | the guide map holds a channel exactly when some guide names it, and keeps the first such guide |
| IptvOrg.FindId | backend/src/services/iptv_org.rs:144-158 | an exact tvg-id match wins; otherwise the case-insensitive name lookup decides, and nothing is found when both miss |
| IptvOrg.FindIdOfIndex | backend/src/services/iptv_org.rs:144-158 | over a built index a found id always belongs to one of the indexed channels, and nothing is found exactly when neither the tvg-id nor the lower-cased name matches any channel |
| IptvOrg.GuideCountry | backend/src/services/iptv_org.rs:180-184 | the country is the lower-cased text after the last dot, the whole lower-cased id when there is no dot, and never contains a dot |
| IptvOrg.LowerEndsWith | backend/src/services/iptv_org.rs:184 | lower-casing keeps a suffix a suffix |
| IptvOrg.InsertAltsSnoc | backend/src/services/iptv_org.rs:118-120 | one more alternative name is one more map insert of its lower-cased form |
| IptvOrg.IndexSnoc | backend/src/services/iptv_org.rs:116-122 | one more channel updates the id map at its id, and the name map at its name then at each alternative name, in that order |
| IptvOrg.GuidesOfSnoc | backend/src/services/iptv_org.rs:124-129 | one more guide is inserted only when it names a channel not yet mapped |
| IptvOrg.IptvOrgIndex.constructor | backend/src/services/iptv_org.rs:93-100 | a new index has empty maps and no update time |
| IptvOrg.IptvOrgIndex.IsStale | backend/src/services/iptv_org.rs:103-108 | stale exactly when never updated or more than six hours old |
| IptvOrg.IptvOrgIndex.Update | backend/src/services/iptv_org.rs:111-137 | after an update the three maps are exactly those built from the new channels and guides (nothing survives from before) and the update time is now |
| IptvOrg.IptvOrgIndex.FindIptvOrgId | backend/src/services/iptv_org.rs:144-158 | the index's lookup is `FindId` over its own two maps: an exact tvg-id match wins, then the lower-cased name |
| IptvOrg.IptvOrgIndex.GetChannelNames | backend/src/services/iptv_org.rs:163-172 | an unknown id has no names; a known one has its primary name followed by its alternative names |
| IptvOrg.IptvOrgIndex.GetGuideUrl | backend/src/services/iptv_org.rs:178-187 | always a URL on the guide host of the form `/epg-<country>.xml`, where the country is the lower-cased id without a dot, or a dot-free lower-cased suffix following the id's last dot |
| IptvOrg.DecompressGzip | backend/src/services/iptv_org.rs:306-318 | data without the two gzip magic bytes is refused; data with them is whatever the inflater yields |
| EpgRoutes.ParseTzParam | backend/src/routes/epg.rs:27-47 | an accepted offset is always less than a day either way |
| EpgRoutes.ParseTzParamAgrees | backend/src/routes/epg.rs:27-47 | the query parameter reads exactly like the guide's offsets, except that an offset of a day or more is refused |
| EpgRoutes.ParseTzParamOfText | backend/src/routes/epg.rs:27-47 | "+HHMM" and "-HHMM" read back as their signed seconds exactly when that is less than a day |
| EpgRoutes.ParseTzParamFullDay | backend/src/routes/epg.rs:46 | "+2400" is refused while "-2359" is 86340 seconds west |
| EpgRoutes.TzOffsetOf | backend/src/routes/epg.rs:102 | no offset when the query has no `tz`; otherwise the parameter's reading |
| EpgRoutes.FirstNamed | backend/src/routes/epg.rs:220-224 | finds the first playlist channel whose tvg-id, id or name is the requested id, or the end of the list |
| EpgRoutes.ChannelKeys | backend/src/routes/epg.rs:218-229 | the keys are either the request itself as both tvg-id and name, or the tvg-id and name of a playlist channel the request names |
| EpgRoutes.ChannelKeysSpec | backend/src/routes/epg.rs:218-229 | the tvg-id and name resolved are those of the first channel the request names, or the requested id as both when none does |
| EpgRoutes.Candidates | backend/src/routes/epg.rs:282-288 | the M3U name first, then the iptv-org names in order, then the requested id, then at most one more candidate |
| EpgRoutes.FirstResolved | backend/src/routes/epg.rs:290-300 | a resolved XMLTV channel is always one that a display name maps to |
| EpgRoutes.FirstResolvedSpec | backend/src/routes/epg.rs:290-300 | nothing resolves exactly when no candidate's lower case is a display name; otherwise the first candidate that is one decides the XMLTV channel |
| EpgRoutes.ResolveCandidates | backend/src/routes/epg.rs:290-300 | the candidate loop answers the first display-name hit, as specified |
| EpgRoutes.AliasTarget | backend/src/routes/epg.rs:276-310 | the iptv-org id wins when the guide has a schedule for it; any other target is one that a display name maps to |
| EpgRoutes.Merged | backend/src/routes/epg.rs:267-321 | every cached and every fetched id is a key afterwards, no other key appears except the requested id, and every fetched schedule replaces the cached one |
| EpgRoutes.MergedSpec | backend/src/routes/epg.rs:267-321 | the merge keeps every fetched schedule and every cached one the guide does not replace, adds only the requested id, only when its target has a schedule, and never overwrites an existing entry by an alias |
| EpgRoutes.InsertAll | backend/src/routes/epg.rs:268-271 | every fetched schedule is written over the cached one and nothing else changes |
| EpgRoutes.MergeFetched | backend/src/routes/epg.rs:267-325 | the cache becomes the merge of the fetched guide with the requested id aliased to the iptv-org id's schedule or the first display-name hit, and is stamped now |
| EpgRoutes.FetchEpgForChannel | backend/src/routes/epg.rs:199-326 | no iptv-org match and a failed guide fetch leave the cache untouched; a fetched guide is merged as specified |
| EpgRoutes.GetSchedule | backend/src/routes/epg.rs:95-139 | found exactly when the channel has a schedule after the optional fetch, with the parsed `tz` offset; a cached channel or disabled EPG leaves the cache untouched; otherwise the cache is untouched when no iptv-org id resolves or the guide fetch fails, and when it succeeds the fetched schedules are merged in (as `fetch_epg_for_channel` does) and the update time is the request's clock; a channel still missing is a 404 naming the channel |
| EpgRoutes.GetNowNext | backend/src/routes/epg.rs:151-192 | found exactly when the channel has a schedule after the optional fetch, and the pair is the now/next of that schedule at the request's clock reading; the cache changes exactly as for the schedule endpoint (untouched when cached, disabled, unresolved or the fetch fails, merged with the fetched guide otherwise); otherwise a 404 naming the channel |
| ChannelChecker.IsLeapYear | backend/src/services/channel_checker.rs:141-143 | a leap year is a multiple of 4; every multiple of 4 that is not a century is one; a century is one exactly when it is a multiple of 400 |
| ChannelChecker.DaysInYear | backend/src/services/channel_checker.rs:114 | a year has 365 or 366 days |
| ChannelChecker.MonthDays | backend/src/services/channel_checker.rs:122-126 | the month table has twelve entries |
| ChannelChecker.LeapsStep | backend/src/services/channel_checker.rs:141-143 | the closed-form leap count grows by one exactly at a leap year |
| ChannelChecker.DaysBeforeNextYear | backend/src/services/channel_checker.rs:113-120 | the closed form advances by the length of each year the loop subtracts |
| ChannelChecker.DaysBeforeNextMonth | backend/src/services/channel_checker.rs:129-135 | the cumulative month table advances by the length of each month the loop subtracts |
| ChannelChecker.DaysBeforeMonthEnd | backend/src/services/channel_checker.rs:122-126 | the twelve months of the table add up to the year's length |
| ChannelChecker.DaysBeforeYearMono | backend/src/services/channel_checker.rs:113-120 | later years start later, by at least the length of the earlier year |
| ChannelChecker.DaysBeforeMonthMono | backend/src/services/channel_checker.rs:129-135 | later months start later, by at least the length of the earlier month |
| ChannelChecker.DayNumberInYear | backend/src/services/channel_checker.rs:109-138 | a valid date's day number lies within its year |
| ChannelChecker.BeforeIffEarlier | backend/src/services/channel_checker.rs:109-138 | calendar order and day-number order agree, both directions |
| ChannelChecker.DayNumberInjective | backend/src/services/channel_checker.rs:109-138 | different valid dates have different day numbers |
| ChannelChecker.DaysToYmd | backend/src/services/channel_checker.rs:110-138 | the two loops return a valid date (year ≥ 1970, month 1-12, day within that month under the Gregorian rule) whose day count since 1970-01-01 is the input |
| ChannelChecker.EpochIsFirstOfJanuary1970 | backend/src/services/channel_checker.rs:109 | day 0 is 1970-01-01 |
| ChannelChecker.DaysToYmdMonotone | backend/src/services/channel_checker.rs:110-138 | a later day gives a strictly later date |
| ChannelChecker.SplitTime | backend/src/services/channel_checker.rs:97-101 | hours < 24, minutes < 60, seconds < 60, and together they make the seconds into the day |
| ChannelChecker.Iso8601 | backend/src/services/channel_checker.rs:87-107 | the text is the zero-padded date and time of the given instant, the date being the one whose day number is secs / 86400 |
| ChannelChecker.FieldAt | backend/src/services/channel_checker.rs:106 | a field at a known offset can be sliced back out |
| ChannelChecker.IsoLayout | backend/src/services/channel_checker.rs:106 | fields of widths 4,2,2,2,2,2 with their separators make a 20-character text with each field at a fixed offset |
| ChannelChecker.IsoTextReadBack | backend/src/services/channel_checker.rs:106 | before year 10000 the text is "YYYY-MM-DDTHH:MM:SSZ" and each field reads back as its number |
| AccessControl.EnsureAdminOrRoot | pallets/access-control/src/lib.rs:138-152 | root passes with no account; a signed caller passes, with its account, exactly when it holds `Admin` on the resource; any other signed caller is `NotAuthorized`; an unsigned origin is `BadOrigin` |
| AccessControl.EnsureAdminRootOrSelf | pallets/access-control/src/lib.rs:156-175 | passes exactly for root, for the target account itself, or for an `Admin` of the resource; unsigned is `BadOrigin`, every other refusal is `NotAuthorized` |
| AccessControl.Grant | pallets/access-control/src/lib.rs:83-102 | succeeds iff the origin check succeeds; on failure the storage is unchanged; on success the pair holds the new role (overwriting any old one), no other entry changes and one `RoleGranted` event is appended |
| AccessControl.Revoke | pallets/access-control/src/lib.rs:114-131 | authority is checked before existence; an authorised revoke of a missing role is `RoleNotFound` with no change; success removes exactly that entry and appends one `RoleRevoked` event |
| AccessControl.Pallet.constructor | pallets/access-control/src/lib.rs:40-42 | genesis: no role stored and no event |
| AccessControl.Pallet.GrantRole | pallets/access-control/src/lib.rs:83-102 | the in-place call returns and leaves exactly what `Grant` prescribes |
| AccessControl.Pallet.RevokeRole | pallets/access-control/src/lib.rs:114-131 | the in-place call returns and leaves exactly what `Revoke` prescribes |
| AccessControl.AdminIsPerResource | pallets/access-control/src/lib.rs:146-150 | holding `Admin` on one resource changes neither origin check on any other resource |
| AccessControl.GrantThenRevoke | pallets/access-control/src/lib.rs:83-131 | a root grant followed by a root revoke succeeds and leaves the roles map as before with that pair removed |
| AccessControl.SelfRevoke | pallets/access-control/src/lib.rs:165-168 | a signed account can revoke its own role exactly when it has one |
| AccessControl.NonAdminCannotGrant | pallets/access-control/src/lib.rs:146-150 | an `Editor` or `Viewer` gets `NotAuthorized` from `grant_role` and the storage is unchanged |
| PlaylistRegistry.Register | pallets/playlist-registry/src/lib.rs:103-136 | only a signed origin gets past `BadOrigin`; an over-long name is `NameTooLong`, and a full list is `TooManyPlaylists`; a signed call with a name within the limit and room in the list succeeds, so each error holds exactly when its condition does; every error leaves storage unchanged; success appends `{name, hash, 0, 0}` to the caller's list only, adds one to the counter with saturation and emits `PlaylistRegistered`; the list bounds are preserved |
| PlaylistRegistry.RemoveAt | pallets/playlist-registry/src/lib.rs:153 | `Vec::remove`: one element shorter, elements before the index unchanged, later ones shifted down by one |
| PlaylistRegistry.Remove | pallets/playlist-registry/src/lib.rs:145-164 | only a signed origin gets past `BadOrigin`; an index at or past the end is `PlaylistNotFound` with no change, and a signed call with an in-range index succeeds; success removes that entry from the caller's list only, subtracts one from the counter with saturation and emits `PlaylistRemoved` |
| PlaylistRegistry.UpdateChannelCount | pallets/playlist-registry/src/lib.rs:172-185 | only a signed origin gets past `BadOrigin`; an out-of-range index is `PlaylistNotFound` with no change, and a signed call with an in-range index succeeds; success changes only `channel_count` of that one entry, touches no other account, and leaves the counter and events alone |
| PlaylistRegistry.Pallet.constructor | pallets/playlist-registry/src/lib.rs:50-67 | genesis: every account reads an empty list, the counter is 0 and the bounds hold |
| PlaylistRegistry.Pallet.RegisterPlaylist | pallets/playlist-registry/src/lib.rs:103-136 | the in-place call keeps the bounds and returns and leaves exactly what `Register` prescribes |
| PlaylistRegistry.Pallet.RemovePlaylist | pallets/playlist-registry/src/lib.rs:145-164 | the in-place call keeps the bounds and returns and leaves exactly what `Remove` prescribes |
| PlaylistRegistry.Pallet.UpdateChannelCountCall | pallets/playlist-registry/src/lib.rs:172-185 | the in-place call keeps the bounds and returns and leaves exactly what `UpdateChannelCount` prescribes |
| PlaylistRegistry.RemovePreservesBounded | pallets/playlist-registry/src/lib.rs:148-155 | removing an entry keeps every list and name within the `BoundedVec` bounds |
| PlaylistRegistry.UpdatePreservesBounded | pallets/playlist-registry/src/lib.rs:179-184 | changing a channel count keeps every list and name within the bounds |
| PlaylistRegistry.RegisterThenRemoveLast | pallets/playlist-registry/src/lib.rs:120-155 | a successful register followed by removing the new last index restores the caller's list |
| PlaylistRegistry.CountMovesByOne | pallets/playlist-registry/src/lib.rs:126-159 | each call moves `PlaylistCount` by at most one in its direction; it never wraps |
| TokenGate.EnsureSignedOrRoot | pallets/token-gate/src/lib.rs:114-120 | every origin passes except an unsigned one, which is `BadOrigin` |
| TokenGate.SetGate | pallets/token-gate/src/lib.rs:74-89 | the outcome is the origin check's; on failure nothing changes; on success the resource holds the new requirement (replacing any earlier one), no other resource changes and one `GateSet` event is appended |
| TokenGate.RemoveGate | pallets/token-gate/src/lib.rs:100-109 | unsigned is `BadOrigin` and an ungated resource is `GateNotFound`, both with no change; success deletes exactly that resource's entry and appends one `GateRemoved` event |
| TokenGate.Pallet.constructor | pallets/token-gate/src/lib.rs:37-40 | genesis: no resource is gated and no event |
| TokenGate.Pallet.SetGateCall | pallets/token-gate/src/lib.rs:74-89 | the in-place call returns and leaves exactly what `SetGate` prescribes |
| TokenGate.Pallet.RemoveGateCall | pallets/token-gate/src/lib.rs:100-109 | the in-place call returns and leaves exactly what `RemoveGate` prescribes |
| TokenGate.SetGateIdempotent | pallets/token-gate/src/lib.rs:81 | setting the same requirement twice leaves the same gates as setting it once |
| TokenGate.SetThenRemove | pallets/token-gate/src/lib.rs:74-109 | a set followed by a remove, by any callers that are not unsigned, succeeds and leaves the resource ungated with the other gates as they were |
| TokenGate.AnySignedAccountMayChangeGates | pallets/token-gate/src/lib.rs:64-101 | there is no ownership check: a signed account may remove a gate that another account set |

## Left out

- HTTP: the axum extractors, status codes and JSON response bodies are modelled only as reply datatypes; the reqwest downloads (the chain RPC call, the iptv-org `channels.json` and `guides.json`, the guide XML) are function parameters or not modelled.
- `iptv_org::refresh_index`, `fetch_channel_epg` and `fetch_and_parse_guide` (backend/src/services/iptv_org.rs:190-303): network fetches with timeouts and the 50 MB guide limit; the model takes the fetched channel and guide lists, or the parsed guide, as inputs.
- Concurrency: the `RwLock`s around the playlist, the cache and the index, the double-checked lazy refresh of the index at backend/src/routes/epg.rs:206-215 (the model takes the index as it is), the liveness `Notify` and the background checker loop and tasks of backend/src/services/channel_checker.rs.
- Library behaviour stands behind parameters: `DefaultHasher` (the `idOf` of an M3U channel), `serde_json` parsing (`parse`), `chrono`'s `%Y%m%d%H%M%S` parse (`naiveParse`), `flate2` inflation (`inflate`) and the `quick_xml` reader (a list of events, with `trim_text` and local names already applied and entities already unescaped; an unescape failure is a text event with no value).
- Clocks: `Instant::now`, `Utc::now` and `SystemTime::now` are integer seconds passed in; sub-second precision is not modelled.
- `to_lowercase` is modelled on ASCII letters only; Unicode case mapping is not modelled.
- Strings are sequences of characters. Rust slices strings by byte offset and panics when an offset falls inside a multi-byte character (`&s[..14]` in the date parser, `rest[..2]` in the offset parsers); the model slices by character, which agrees on ASCII text, and does not model the panic.
- `sort_by_key` is modelled by a stable insertion sort on values; the in-place merge sort of the standard library is not modelled, only its contract (sorted, a permutation, stable).
- `apply_tz_to_schedule`, `apply_tz_to_now_next` and `convert_time_field` (backend/src/routes/epg.rs:53-82): RFC 3339 re-rendering of times is not modelled; a reply carries the parsed offset next to the UTC schedule instead.
- EpgRoutes.GetSchedule: states the schedule and the offset the times are to be shown in, not the re-rendered time strings, because the RFC 3339 formatting is not modelled.
- EpgRoutes.GetNowNext: states the now/next pair and the offset the times are to be shown in, not the re-rendered time strings, for the same reason.
- JSON numbers are integers only; floating point is not modelled.
- M3uRoundTrip.RoundTrip: besides the conditions on quotes, line breaks and empty values, each quoted value must not end in `=`, because the writer does not escape values and a value such as `x tvg-name=` makes the reader's search for `tvg-name="` stop inside the previous attribute.
- backend/src/config.rs, backend/src/main.rs, backend/src/routes/health.rs and the remaining routes and wiring are not part of this model; neither are the pallets' benchmarking, weights, genesis configuration and runtime wiring.
- Logging (`tracing` macros) and pallet events beyond the ones a call emits on success are not modelled.
