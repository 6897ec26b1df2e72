/**
 * The EPG endpoints: the `tz` query parameter, and the on-demand fetch that finds a
 * channel's iptv-org id, merges the fetched guide into the cache and, when the requested
 * id is still missing, aliases it to the XMLTV channel it most likely names. The HTTP
 * fetch and parse of the guide is a parameter; the lazy refresh of the iptv-org index is
 * not part of this model (the index is taken as it is).
 */
module EpgRoutes {
  import opened Wrappers
  import opened Text
  import opened Decimal
  import opened Models
  import opened Epg
  import opened IptvOrg
  import opened EpgParser

  // ---------------------------------------------------------------- the tz parameter

  /**
   * `parse_tz_param`: the same reading as the guide parser's offsets (blank is 0, then a
   * sign and two two-character fields), kept only when `FixedOffset` accepts it.
   */
  function ParseTzParam(tz: string): (r: Option<int>)
    ensures r.Some? ==> FixedOffsetInRange(r.value)
  {
    var t := Trim(tz);
    if t == [] then Some(0)
    else
      var (sign, rest) := SignAndRest(t);
      if |rest| < 4 then None
      else
        match (ParseInt(rest[..2]), ParseInt(rest[2..4]))
        case (Some(hours), Some(minutes)) =>
          var total := sign * (hours * 3600 + minutes * 60);
          if FixedOffsetInRange(total) then Some(total) else None
        case _ => None
  }

  /** The query parameter agrees with the guide's offset reading, less the out-of-range offsets. */
  lemma ParseTzParamAgrees(tz: string)
    ensures ParseTzParam(tz) ==
      (match ParseTzOffset(tz)
       case Some(secs) => if FixedOffsetInRange(secs) then Some(secs) else None
       case None => None)
  {
  }

  /** "+HHMM" and "-HHMM" read back as their offset exactly when it is less than a day. */
  lemma ParseTzParamOfText(negative: bool, hours: nat, minutes: nat)
    requires hours < 100 && minutes < 100
    ensures var secs := (if negative then -1 else 1) * (hours * 3600 + minutes * 60);
      ParseTzParam(TzOffsetText(negative, hours, minutes)) == if FixedOffsetInRange(secs) then Some(secs) else None
  {
    ParseTzOffsetOfText(negative, hours, minutes);
    ParseTzParamAgrees(TzOffsetText(negative, hours, minutes));
  }

  /** A full day is no offset: "+2400" is refused, so the answer stays in UTC. */
  lemma ParseTzParamFullDay()
    ensures ParseTzParam(TzOffsetText(false, 24, 0)) == None
    ensures ParseTzParam(TzOffsetText(true, 23, 59)) == Some(-86340)
  {
    ParseTzParamOfText(false, 24, 0);
    ParseTzParamOfText(true, 23, 59);
  }

  /** `query.tz.as_deref().and_then(parse_tz_param)`: no offset when the query has none or it does not parse. */
  function TzOffsetOf(tz: Option<string>): (r: Option<int>)
    ensures tz.None? ==> r.None?
    ensures tz.Some? ==> r == ParseTzParam(tz.value)
  {
    match tz
    case None => None
    case Some(t) => ParseTzParam(t)
  }

  // ---------------------------------------------------------------- channel lookup

  /** The playlist channel a request names: by `tvg_id`, by `id` or by name. */
  predicate Names(ch: Channel, channelId: string) {
    ch.tvgId == Some(channelId) || ch.id == channelId || ch.name == channelId
  }

  /** The index of the first channel the request names, or `|channels|`. */
  function FirstNamed(channels: seq<Channel>, channelId: string, from: nat): (k: nat)
    requires from <= |channels|
    ensures from <= k <= |channels|
    ensures k < |channels| ==> Names(channels[k], channelId)
    ensures forall j :: from <= j < k ==> !Names(channels[j], channelId)
    decreases |channels| - from
  {
    if from == |channels| || Names(channels[from], channelId) then from
    else FirstNamed(channels, channelId, from + 1)
  }

  /** The `tvg_id` and name to resolve: the first named channel's, else the request itself as both. */
  function ChannelKeys(channels: seq<Channel>, channelId: string): (r: (Option<string>, string))
    ensures r == (Some(channelId), channelId)
      || exists k :: 0 <= k < |channels| && Names(channels[k], channelId) && r == (channels[k].tvgId, channels[k].name)
  {
    var k := FirstNamed(channels, channelId, 0);
    if k < |channels| then (channels[k].tvgId, channels[k].name) else (Some(channelId), channelId)
  }

  lemma ChannelKeysSpec(channels: seq<Channel>, channelId: string)
    ensures var (tvgId, name) := ChannelKeys(channels, channelId);
      && ((forall j :: 0 <= j < |channels| ==> !Names(channels[j], channelId)) ==>
            tvgId == Some(channelId) && name == channelId)
      && (forall k :: (0 <= k < |channels| && Names(channels[k], channelId)
                       && (forall j :: 0 <= j < k ==> !Names(channels[j], channelId))) ==>
            tvgId == channels[k].tvgId && name == channels[k].name)
  {
    var f := FirstNamed(channels, channelId, 0);
    forall k | 0 <= k < |channels| && Names(channels[k], channelId)
               && (forall j :: 0 <= j < k ==> !Names(channels[j], channelId))
      ensures f == k
    {
    }
  }

  // ---------------------------------------------------------------- alias resolution

  /**
   * The names tried against the guide's display names, in order: the M3U name, the
   * iptv-org names, the requested id, and the requested id's segment before its last '.'.
   */
  function Candidates(name: string, iptvOrgNames: seq<string>, channelId: string): (r: seq<string>)
    ensures |iptvOrgNames| + 2 <= |r| <= |iptvOrgNames| + 3
    ensures r[0] == name && r[1..|iptvOrgNames| + 1] == iptvOrgNames && r[|iptvOrgNames| + 1] == channelId
  {
    [name] + iptvOrgNames + [channelId]
      + (match SegmentBeforeLast(channelId, '.') case Some(prefix) => [prefix] case None => [])
  }

  /** The XMLTV channel of the first candidate whose lower case is a display name. */
  function FirstResolved(candidates: seq<string>, displayNames: map<string, string>): (r: Option<string>)
    ensures r.Some? ==> r.value in displayNames.Values
    decreases |candidates|
  {
    if candidates == [] then None
    else if ToLower(candidates[0]) in displayNames then Some(displayNames[ToLower(candidates[0])])
    else FirstResolved(candidates[1..], displayNames)
  }

  /** Nothing resolves when no candidate is a display name; otherwise the first that is wins. */
  lemma {:induction false} FirstResolvedSpec(candidates: seq<string>, displayNames: map<string, string>)
    ensures FirstResolved(candidates, displayNames).None? <==>
      forall i :: 0 <= i < |candidates| ==> ToLower(candidates[i]) !in displayNames
    ensures FirstResolved(candidates, displayNames).Some? ==>
      exists i :: 0 <= i < |candidates| && ToLower(candidates[i]) in displayNames
        && FirstResolved(candidates, displayNames).value == displayNames[ToLower(candidates[i])]
        && forall j :: 0 <= j < i ==> ToLower(candidates[j]) !in displayNames
    decreases |candidates|
  {
    if candidates != [] && ToLower(candidates[0]) !in displayNames {
      var rest := candidates[1..];
      FirstResolvedSpec(rest, displayNames);
      if FirstResolved(rest, displayNames).Some? {
        var i :| 0 <= i < |rest| && ToLower(rest[i]) in displayNames
          && FirstResolved(rest, displayNames).value == displayNames[ToLower(rest[i])]
          && forall j :: 0 <= j < i ==> ToLower(rest[j]) !in displayNames;
        assert candidates[i + 1] == rest[i];
        forall j | 0 <= j < i + 1
          ensures ToLower(candidates[j]) !in displayNames
        {
          if j > 0 {
            assert candidates[j] == rest[j - 1];
          }
        }
      } else {
        forall i | 0 <= i < |candidates|
          ensures ToLower(candidates[i]) !in displayNames
        {
          if i > 0 {
            assert candidates[i] == rest[i - 1];
          }
        }
      }
    } else if candidates != [] {
      assert ToLower(candidates[0]) in displayNames;
    }
  }

  /** The candidate loop: stops at the first display-name hit. */
  method ResolveCandidates(candidates: seq<string>, displayNames: map<string, string>) returns (resolved: Option<string>)
    ensures resolved == FirstResolved(candidates, displayNames)
  {
    resolved := None;
    var i := 0;
    while i < |candidates|
      invariant i <= |candidates|
      invariant FirstResolved(candidates, displayNames) == FirstResolved(candidates[i..], displayNames)
    {
      var key := ToLower(candidates[i]);
      if key in displayNames {
        resolved := Some(displayNames[key]);
        return;
      }
      assert candidates[i..][1..] == candidates[i + 1..];
      i := i + 1;
    }
  }

  /** The XMLTV channel the requested id is aliased to: the iptv-org id if the guide has it, else a display-name hit. */
  function AliasTarget(iptvOrgId: string, candidates: seq<string>, fetched: ParsedXmltv): (r: Option<string>)
    ensures r.Some? ==> r.value in fetched.schedules || r.value in fetched.displayNames.Values
    ensures iptvOrgId in fetched.schedules ==> r == Some(iptvOrgId)
  {
    if iptvOrgId in fetched.schedules then Some(iptvOrgId) else FirstResolved(candidates, fetched.displayNames)
  }

  /**
   * The cache after a fetch: every fetched schedule is written over the cached one, and the
   * requested id, if it is still missing, gets a copy of the target's schedule.
   */
  function Merged(schedules: map<string, EpgSchedule>, fetched: map<string, EpgSchedule>, channelId: string,
                  target: Option<string>): (r: map<string, EpgSchedule>)
    ensures schedules.Keys + fetched.Keys <= r.Keys <= schedules.Keys + fetched.Keys + {channelId}
    ensures forall k | k in fetched :: r[k] == fetched[k]
  {
    var merged := schedules + fetched;
    if channelId !in merged && target.Some? && target.value in merged then
      merged[channelId := merged[target.value]]
    else merged
  }

  /**
   * The merge keeps every fetched schedule and every cached schedule the guide does not
   * replace; it adds at most the requested id, and only as a copy of the target's
   * schedule, so an entry already there is never overwritten by an alias.
   */
  lemma MergedSpec(schedules: map<string, EpgSchedule>, fetched: map<string, EpgSchedule>, channelId: string,
                   target: Option<string>)
    ensures var r := Merged(schedules, fetched, channelId, target);
      && (forall k | k in fetched :: k in r && r[k] == fetched[k])
      && (forall k | k in schedules && k !in fetched :: k in r && r[k] == schedules[k])
      && (forall k | k in r :: k in schedules || k in fetched || k == channelId)
      && (channelId in r <==> channelId in schedules || channelId in fetched
                              || (target.Some? && (target.value in schedules || target.value in fetched)))
      && (channelId in r && channelId !in schedules && channelId !in fetched ==>
            r[channelId] == (schedules + fetched)[target.value])
  {
  }

  // ---------------------------------------------------------------- the cache writes

  /** The loop that writes every fetched schedule into the cache. */
  method InsertAll(cache: EpgCache, fetched: map<string, EpgSchedule>)
    modifies cache
    ensures cache.schedules == old(cache.schedules) + fetched
    ensures cache.lastUpdated == old(cache.lastUpdated)
  {
    var rest := fetched.Keys;
    while rest != {}
      invariant rest <= fetched.Keys
      invariant cache.schedules == old(cache.schedules) + (map k | k in fetched && k !in rest :: fetched[k])
      invariant cache.lastUpdated == old(cache.lastUpdated)
      decreases rest
    {
      var id :| id in rest;
      cache.schedules := cache.schedules[id := fetched[id]];
      rest := rest - {id};
    }
    assert (map k | k in fetched && k !in rest :: fetched[k]) == fetched;
  }

  /** The write half of `fetch_epg_for_channel`, once the guide is in hand; `now` stands for `Instant::now()`. */
  method MergeFetched(cache: EpgCache, channelId: string, iptvOrgId: string, candidates: seq<string>,
                      fetched: ParsedXmltv, now: int)
    modifies cache
    ensures cache.schedules == Merged(old(cache.schedules), fetched.schedules, channelId,
                                      AliasTarget(iptvOrgId, candidates, fetched))
    ensures cache.lastUpdated == Some(now)
  {
    InsertAll(cache, fetched.schedules);
    if channelId !in cache.schedules {
      var target: Option<string>;
      if iptvOrgId in fetched.schedules {
        target := Some(iptvOrgId);
      } else {
        target := ResolveCandidates(candidates, fetched.displayNames);
      }
      if target.Some? && target.value in cache.schedules {
        cache.schedules := cache.schedules[channelId := cache.schedules[target.value]];
      }
    }
    cache.lastUpdated := Some(now);
  }

  /** How `fetch_epg_for_channel` ends: no iptv-org id, the guide fetch failed, or the cache was written. */
  datatype FetchOutcome = NoMatch | FetchFailed(error: string) | Fetched

  /**
   * `fetch_epg_for_channel`: resolve the request to an iptv-org id, fetch that id's guide
   * (`fetchGuide` stands for the download and parse) and merge it into the cache. The cache
   * is written only when the guide was fetched.
   */
  method FetchEpgForChannel(cache: EpgCache, index: IptvOrgIndex, channels: seq<Channel>, channelId: string,
                            fetchGuide: string -> Result<ParsedXmltv, string>, now: int)
    returns (outcome: FetchOutcome)
    modifies cache
    ensures var (tvgId, name) := ChannelKeys(channels, channelId);
      var id := FindId(index.byId, index.byName, tvgId, name);
      && (outcome == NoMatch <==> id.None?)
      && (outcome.FetchFailed? <==> id.Some? && fetchGuide(id.value).Err?)
      && (outcome.FetchFailed? ==> outcome.error == fetchGuide(id.value).error)
      && (!outcome.Fetched? ==> cache.schedules == old(cache.schedules) && cache.lastUpdated == old(cache.lastUpdated))
      && (outcome.Fetched? ==>
            cache.lastUpdated == Some(now)
            && cache.schedules == Merged(old(cache.schedules), fetchGuide(id.value).value.schedules, channelId,
                 AliasTarget(id.value, Candidates(name, index.GetChannelNames(id.value), channelId),
                             fetchGuide(id.value).value)))
  {
    var (tvgId, name) := ChannelKeys(channels, channelId);
    var id := index.FindIptvOrgId(tvgId, name);
    if id.None? {
      return NoMatch;
    }
    var names := index.GetChannelNames(id.value);
    var fetched := fetchGuide(id.value);
    if fetched.Err? {
      return FetchFailed(fetched.error);
    }
    MergeFetched(cache, channelId, id.value, Candidates(name, names, channelId), fetched.value, now);
    return Fetched;
  }

  // ---------------------------------------------------------------- the two endpoints

  /** An answer of the schedule endpoint: the schedule and the offset its times are shown in, or 404. */
  datatype ScheduleReply = ScheduleFound(schedule: EpgSchedule, offset: Option<int>) | ScheduleNotFound(channelId: string)

  /**
   * `GET /api/epg/:channel_id`: a cached schedule is answered as it is; otherwise, when EPG
   * is enabled, the guide is fetched on demand (a failure is only logged) and the cache is
   * read again; a channel still missing is a 404.
   */
  method GetSchedule(cache: EpgCache, index: IptvOrgIndex, channels: seq<Channel>, channelId: string,
                     tz: Option<string>, epgEnabled: bool, fetchGuide: string -> Result<ParsedXmltv, string>, now: int)
    returns (reply: ScheduleReply)
    modifies cache
    ensures reply.ScheduleFound? <==> channelId in cache.schedules
    ensures reply.ScheduleFound? ==> reply.schedule == cache.schedules[channelId] && reply.offset == TzOffsetOf(tz)
    ensures reply.ScheduleNotFound? ==> reply.channelId == channelId
    ensures channelId in old(cache.schedules) || !epgEnabled ==>
      cache.schedules == old(cache.schedules) && cache.lastUpdated == old(cache.lastUpdated)
    ensures channelId !in old(cache.schedules) && epgEnabled ==>
      var (tvgId, name) := ChannelKeys(channels, channelId);
      var id := FindId(index.byId, index.byName, tvgId, name);
      && (id.None? || fetchGuide(id.value).Err? ==>
            cache.schedules == old(cache.schedules) && cache.lastUpdated == old(cache.lastUpdated))
      && (id.Some? && fetchGuide(id.value).Ok? ==>
            && cache.lastUpdated == Some(now)
            && cache.schedules == Merged(old(cache.schedules), fetchGuide(id.value).value.schedules, channelId,
                 AliasTarget(id.value, Candidates(name, index.GetChannelNames(id.value), channelId), fetchGuide(id.value).value)))
  {
    var offset := TzOffsetOf(tz);
    var cached := cache.GetSchedule(channelId);
    if cached.Some? {
      return ScheduleFound(cached.value, offset);
    }
    if epgEnabled {
      var outcome := FetchEpgForChannel(cache, index, channels, channelId, fetchGuide, now);
      var again := cache.GetSchedule(channelId);
      if again.Some? {
        return ScheduleFound(again.value, offset);
      }
    }
    return ScheduleNotFound(channelId);
  }

  /** An answer of the now/next endpoint, or 404. */
  datatype NowNextReply = NowNextFound(nowNext: EpgNowNext, offset: Option<int>) | NowNextNotFound(channelId: string)

  /** `GET /api/epg/:channel_id/now`: the same flow with the now/next pair; `now` is the request's clock reading. */
  method GetNowNext(cache: EpgCache, index: IptvOrgIndex, channels: seq<Channel>, channelId: string,
                    tz: Option<string>, epgEnabled: bool, fetchGuide: string -> Result<ParsedXmltv, string>, now: int)
    returns (reply: NowNextReply)
    modifies cache
    ensures reply.NowNextFound? <==> channelId in cache.schedules
    ensures reply.NowNextFound? ==>
      && reply.nowNext.channelId == channelId
      && (reply.nowNext.now, reply.nowNext.next) == NowNextOf(cache.schedules[channelId].programs, now)
      && reply.offset == TzOffsetOf(tz)
    ensures reply.NowNextNotFound? ==> reply.channelId == channelId
    ensures channelId in old(cache.schedules) || !epgEnabled ==>
      cache.schedules == old(cache.schedules) && cache.lastUpdated == old(cache.lastUpdated)
    ensures channelId !in old(cache.schedules) && epgEnabled ==>
      var (tvgId, name) := ChannelKeys(channels, channelId);
      var id := FindId(index.byId, index.byName, tvgId, name);
      && (id.None? || fetchGuide(id.value).Err? ==>
            cache.schedules == old(cache.schedules) && cache.lastUpdated == old(cache.lastUpdated))
      && (id.Some? && fetchGuide(id.value).Ok? ==>
            && cache.lastUpdated == Some(now)
            && cache.schedules == Merged(old(cache.schedules), fetchGuide(id.value).value.schedules, channelId,
                 AliasTarget(id.value, Candidates(name, index.GetChannelNames(id.value), channelId), fetchGuide(id.value).value)))
  {
    var offset := TzOffsetOf(tz);
    var cached := cache.GetNowNext(channelId, now);
    if cached.Some? {
      return NowNextFound(cached.value, offset);
    }
    if epgEnabled {
      var outcome := FetchEpgForChannel(cache, index, channels, channelId, fetchGuide, now);
      var again := cache.GetNowNext(channelId, now);
      if again.Some? {
        return NowNextFound(again.value, offset);
      }
    }
    return NowNextNotFound(channelId);
  }
}
