/**
 * The backend's records: a channel, a playlist, and the EPG programme, schedule and
 * now/next answer. Times are whole seconds since the Unix epoch, in UTC.
 */
module Models {
  import opened Wrappers

  /** One channel of an M3U playlist (backend/src/models/channel.rs). */
  datatype Channel = Channel(
    id: string,
    name: string,
    group: string,
    logoUrl: Option<string>,
    streamUrl: string,
    isLive: bool,
    tvgId: Option<string>)

  /** A playlist as a value: what `update_playlist` receives and the server keeps. */
  datatype PlaylistValue = PlaylistValue(
    name: string,
    channels: seq<Channel>,
    lastChecked: Option<string>,
    source: string)

  /** One programme of an XMLTV guide. */
  datatype EpgProgram = EpgProgram(
    id: string,
    channelId: string,
    title: string,
    description: Option<string>,
    start: int,
    end: int,
    category: Option<string>,
    iconUrl: Option<string>)

  /** The programmes of one channel, sorted by start time. */
  datatype EpgSchedule = EpgSchedule(channelId: string, programs: seq<EpgProgram>)

  /** The programme on air now and the one after it. */
  datatype EpgNowNext = EpgNowNext(channelId: string, now: Option<EpgProgram>, next: Option<EpgProgram>)

  function Urls(channels: seq<Channel>): (r: seq<string>)
    ensures |r| == |channels|
    ensures forall i :: 0 <= i < |r| ==> r[i] == channels[i].streamUrl
  {
    seq(|channels|, i requires 0 <= i < |channels| => channels[i].streamUrl)
  }
}
