/**
 * The iptv-org index: channels keyed by id and by lower-cased name, the first guide per
 * channel, freshness against a six-hour time-to-live, the lookups the EPG route makes, and
 * the gzip magic-number test (section 2.3.1 of RFC 1952) done before inflating a guide.
 */
module IptvOrg {
  import opened Wrappers
  import opened Text
  import opened Utf8

  /** An entry of `channels.json`. */
  datatype IptvOrgChannel = IptvOrgChannel(id: string, name: string, altNames: seq<string>, country: string, categories: seq<string>)

  /** An entry of `guides.json`; `channel` may be null. */
  datatype IptvOrgGuide = IptvOrgGuide(channel: Option<string>, site: string, lang: string)

  /** `INDEX_TTL`: six hours, in seconds. */
  const IndexTtl: int := 6 * 3600

  const EpgBase: string := "https://iptv-epg.org/files"

  /** `Instant::elapsed`: the time since `since`, never negative. */
  function Elapsed(since: int, now: int): (d: nat)
    ensures now >= since ==> d == now - since
    ensures now < since ==> d == 0
  {
    if now >= since then now - since else 0
  }

  /** `is_stale` with the clock reading passed in. */
  function IsStaleAt(lastUpdated: Option<int>, now: int): bool {
    match lastUpdated
    case None => true
    case Some(ts) => Elapsed(ts, now) > IndexTtl
  }

  /** Never updated is stale; after an update at `t` the index stays fresh until `t` + 6 h. */
  lemma StaleSpec(t: int, now: int)
    ensures IsStaleAt(None, now)
    ensures IsStaleAt(Some(t), now) <==> now > t + IndexTtl
  {
  }

  /** Every name under which `update` files a channel: its own and its alternatives, lower-cased. */
  predicate HasName(ch: IptvOrgChannel, key: string) {
    ToLower(ch.name) == key || exists a :: a in ch.altNames && ToLower(a) == key
  }

  /** The `by_id` map after inserting `cs` in order: a later channel with the same id wins. */
  function ByIdOf(cs: seq<IptvOrgChannel>): (m: map<string, IptvOrgChannel>)
    ensures |m| <= |cs|
    ensures cs != [] ==> cs[|cs| - 1].id in m && m[cs[|cs| - 1].id] == cs[|cs| - 1]
  {
    if cs == [] then map[] else ByIdOf(cs[..|cs| - 1])[cs[|cs| - 1].id := cs[|cs| - 1]]
  }

  /** Inserting `ch` under each lower-cased alternative name, in order. */
  function InsertAlts(m: map<string, IptvOrgChannel>, alts: seq<string>, ch: IptvOrgChannel): (r: map<string, IptvOrgChannel>)
    ensures m.Keys <= r.Keys
    ensures |r| <= |m| + |alts|
  {
    if alts == [] then m else InsertAlts(m, alts[..|alts| - 1], ch)[ToLower(alts[|alts| - 1]) := ch]
  }

  /** The `by_name` map after inserting `cs` in order, primary name first, then alternatives. */
  function ByNameOf(cs: seq<IptvOrgChannel>): (m: map<string, IptvOrgChannel>)
    ensures cs != [] ==> ToLower(cs[|cs| - 1].name) in m
  {
    if cs == [] then map[]
    else
      var ch := cs[|cs| - 1];
      InsertAlts(ByNameOf(cs[..|cs| - 1])[ToLower(ch.name) := ch], ch.altNames, ch)
  }

  /** The `guides_by_channel` map: the first guide of each channel; guides without one are dropped. */
  function GuidesOf(gs: seq<IptvOrgGuide>): (m: map<string, IptvOrgGuide>)
    ensures |m| <= |gs|
    ensures forall k | k in m :: m[k].channel == Some(k)
  {
    if gs == [] then map[]
    else
      var m := GuidesOf(gs[..|gs| - 1]);
      var g := gs[|gs| - 1];
      if g.channel.Some? && g.channel.value !in m then m[g.channel.value := g] else m
  }

  /** The index of the last channel with id `key`, or -1. */
  function LastWithId(cs: seq<IptvOrgChannel>, key: string): (r: int)
    ensures -1 <= r < |cs|
    ensures r >= 0 ==> cs[r].id == key
    ensures forall j :: r < j < |cs| ==> cs[j].id != key
  {
    if cs == [] then -1
    else if cs[|cs| - 1].id == key then |cs| - 1
    else LastWithId(cs[..|cs| - 1], key)
  }

  /** The index of the last channel filed under `key`, or -1. */
  function LastNamed(cs: seq<IptvOrgChannel>, key: string): (r: int)
    ensures -1 <= r < |cs|
    ensures r >= 0 ==> HasName(cs[r], key)
    ensures forall j :: r < j < |cs| ==> !HasName(cs[j], key)
  {
    if cs == [] then -1
    else if HasName(cs[|cs| - 1], key) then |cs| - 1
    else LastNamed(cs[..|cs| - 1], key)
  }

  /** The index of the first guide for channel `key`, or -1. */
  function FirstGuide(gs: seq<IptvOrgGuide>, key: string): (r: int)
    ensures -1 <= r < |gs|
    ensures r >= 0 ==> gs[r].channel == Some(key)
    ensures forall j :: 0 <= j < |gs| && (r < 0 || j < r) ==> gs[j].channel != Some(key)
  {
    if gs == [] then -1
    else
      var f := FirstGuide(gs[..|gs| - 1], key);
      if f >= 0 then f
      else if gs[|gs| - 1].channel == Some(key) then |gs| - 1
      else -1
  }

  /** Every id of `cs` is a key, and it maps to the last channel carrying that id. */
  lemma {:induction false} ByIdOfSpec(cs: seq<IptvOrgChannel>, key: string)
    ensures key in ByIdOf(cs) <==> LastWithId(cs, key) >= 0
    ensures key in ByIdOf(cs) ==> ByIdOf(cs)[key] == cs[LastWithId(cs, key)]
  {
    if cs != [] {
      var init := cs[..|cs| - 1];
      ByIdOfSpec(init, key);
      if cs[|cs| - 1].id != key {
        var r := LastWithId(init, key);
        assert r >= 0 ==> cs[r] == init[r];
      }
    }
  }

  lemma {:induction false} InsertAltsSpec(m: map<string, IptvOrgChannel>, alts: seq<string>, ch: IptvOrgChannel, key: string)
    ensures key in InsertAlts(m, alts, ch) <==> key in m || exists a :: a in alts && ToLower(a) == key
    ensures (exists a :: a in alts && ToLower(a) == key) ==> InsertAlts(m, alts, ch)[key] == ch
    ensures (forall a :: a in alts ==> ToLower(a) != key) && key in m ==> InsertAlts(m, alts, ch)[key] == m[key]
  {
    if alts != [] {
      var init := alts[..|alts| - 1];
      InsertAltsSpec(m, init, ch, key);
      assert forall a :: a in alts <==> a in init || a == alts[|alts| - 1];
    }
  }

  /**
   * Every name of every channel is a key, and nothing else is; a name maps to the last
   * channel filed under it (a later insertion wins).
   */
  lemma {:induction false} ByNameOfSpec(cs: seq<IptvOrgChannel>, key: string)
    ensures key in ByNameOf(cs) <==> LastNamed(cs, key) >= 0
    ensures key in ByNameOf(cs) ==> ByNameOf(cs)[key] == cs[LastNamed(cs, key)]
  {
    if cs != [] {
      var init := cs[..|cs| - 1];
      var ch := cs[|cs| - 1];
      var m := ByNameOf(init)[ToLower(ch.name) := ch];
      ByNameOfSpec(init, key);
      InsertAltsSpec(m, ch.altNames, ch, key);
      assert ByNameOf(cs) == InsertAlts(m, ch.altNames, ch);
      if !HasName(ch, key) {
        var r := LastNamed(init, key);
        assert r >= 0 ==> cs[r] == init[r];
      }
    }
  }

  /** A channel id is a key exactly when some guide names it, and it maps to the first such guide. */
  lemma {:induction false} GuidesOfSpec(gs: seq<IptvOrgGuide>, key: string)
    ensures key in GuidesOf(gs) <==> FirstGuide(gs, key) >= 0
    ensures key in GuidesOf(gs) ==> GuidesOf(gs)[key] == gs[FirstGuide(gs, key)]
  {
    if gs != [] {
      var init := gs[..|gs| - 1];
      GuidesOfSpec(init, key);
      var f := FirstGuide(init, key);
      assert f >= 0 ==> gs[f] == init[f];
    }
  }

  /** The two-stage lookup of `find_iptv_org_id` over the two maps. */
  function FindId(byId: map<string, IptvOrgChannel>, byName: map<string, IptvOrgChannel>, tvgId: Option<string>, name: string): (r: Option<string>)
    ensures tvgId.Some? && tvgId.value in byId ==> r == tvgId
    ensures !(tvgId.Some? && tvgId.value in byId) ==>
      r == (if ToLower(name) in byName then Some(byName[ToLower(name)].id) else None)
  {
    if tvgId.Some? && tvgId.value in byId then tvgId
    else if ToLower(name) in byName then Some(byName[ToLower(name)].id)
    else None
  }

  /**
   * Over an index built from `cs`, a found id is always the id of one of those channels: the
   * given `tvg_id` when some channel has it, otherwise that of the last channel with the name.
   */
  lemma FindIdOfIndex(cs: seq<IptvOrgChannel>, tvgId: Option<string>, name: string)
    ensures var r := FindId(ByIdOf(cs), ByNameOf(cs), tvgId, name);
      r.Some? ==> exists i :: 0 <= i < |cs| && cs[i].id == r.value
    ensures var r := FindId(ByIdOf(cs), ByNameOf(cs), tvgId, name);
      r.None? <==> ((tvgId.None? || forall i :: 0 <= i < |cs| ==> cs[i].id != tvgId.value)
                    && forall i :: 0 <= i < |cs| ==> !HasName(cs[i], ToLower(name)))
  {
    if tvgId.Some? {
      ByIdOfSpec(cs, tvgId.value);
    }
    ByNameOfSpec(cs, ToLower(name));
  }

  /** `get_guide_url`'s country: the lower-cased text after the last '.', or the whole id. */
  function GuideCountry(iptvOrgId: string): (country: string)
    ensures '.' !in country
    ensures '.' !in iptvOrgId ==> country == ToLower(iptvOrgId)
    ensures '.' in iptvOrgId ==> EndsWith(ToLower(iptvOrgId), "." + country)
  {
    AfterLastSpec(iptvOrgId, '.');
    var suffix := AfterLast(iptvOrgId, '.');
    if '.' in iptvOrgId then
      LowerEndsWith(iptvOrgId, ['.'] + suffix);
      assert ToLower(['.'] + suffix) == "." + ToLower(suffix);
      ToLower(suffix)
    else
      ToLower(suffix)
  }

  lemma LowerEndsWith(s: string, t: string)
    requires EndsWith(s, t)
    ensures EndsWith(ToLower(s), ToLower(t))
  {
    assert ToLower(s)[|s| - |t|..] == ToLower(t);
  }

  lemma InsertAltsSnoc(m: map<string, IptvOrgChannel>, alts: seq<string>, j: nat, ch: IptvOrgChannel)
    requires j < |alts|
    ensures InsertAlts(m, alts[..j + 1], ch) == InsertAlts(m, alts[..j], ch)[ToLower(alts[j]) := ch]
  {
    assert alts[..j + 1][..j] == alts[..j];
  }

  lemma IndexSnoc(cs: seq<IptvOrgChannel>, i: nat)
    requires i < |cs|
    ensures ByIdOf(cs[..i + 1]) == ByIdOf(cs[..i])[cs[i].id := cs[i]]
    ensures ByNameOf(cs[..i + 1]) == InsertAlts(ByNameOf(cs[..i])[ToLower(cs[i].name) := cs[i]], cs[i].altNames, cs[i])
  {
    assert cs[..i + 1][..i] == cs[..i];
  }

  lemma GuidesOfSnoc(gs: seq<IptvOrgGuide>, i: nat)
    requires i < |gs|
    ensures var m := GuidesOf(gs[..i]);
      GuidesOf(gs[..i + 1]) == if gs[i].channel.Some? && gs[i].channel.value !in m then m[gs[i].channel.value := gs[i]] else m
  {
    assert gs[..i + 1][..i] == gs[..i];
  }

  /** `IptvOrgIndex`: rebuilt in place by `update`, read by the lookups. */
  class IptvOrgIndex {
    var byName: map<string, IptvOrgChannel>
    var byId: map<string, IptvOrgChannel>
    var guidesByChannel: map<string, IptvOrgGuide>
    var lastUpdated: Option<int>

    /** `IptvOrgIndex::new`: empty and never updated. */
    constructor()
      ensures byName == map[] && byId == map[] && guidesByChannel == map[] && lastUpdated == None
    {
      byName := map[];
      byId := map[];
      guidesByChannel := map[];
      lastUpdated := None;
    }

    function IsStale(now: int): (r: bool)
      reads this
      ensures r <==> lastUpdated.None? || now > lastUpdated.value + IndexTtl
    {
      IsStaleAt(lastUpdated, now)
    }

    /**
     * `update`: clears the three maps, refills them from `channels` and `guides` alone, and
     * records `now` as the time of the update.
     */
    method Update(channels: seq<IptvOrgChannel>, guides: seq<IptvOrgGuide>, now: int)
      modifies this
      ensures byId == ByIdOf(channels) && byName == ByNameOf(channels)
      ensures guidesByChannel == GuidesOf(guides)
      ensures lastUpdated == Some(now)
    {
      byId := map[];
      byName := map[];
      guidesByChannel := map[];
      assert channels[..0] == [] && guides[..0] == [];
      for i := 0 to |channels|
        invariant byId == ByIdOf(channels[..i]) && byName == ByNameOf(channels[..i])
        invariant guidesByChannel == map[]
      {
        var ch := channels[i];
        byName := byName[ToLower(ch.name) := ch];
        ghost var named := byName;
        assert ch.altNames[..0] == [];
        for j := 0 to |ch.altNames|
          invariant byName == InsertAlts(named, ch.altNames[..j], ch)
          invariant byId == ByIdOf(channels[..i]) && guidesByChannel == map[]
        {
          byName := byName[ToLower(ch.altNames[j]) := ch];
          InsertAltsSnoc(named, ch.altNames, j, ch);
        }
        assert ch.altNames[..|ch.altNames|] == ch.altNames;
        byId := byId[ch.id := ch];
        IndexSnoc(channels, i);
      }
      assert channels[..|channels|] == channels;
      for i := 0 to |guides|
        invariant guidesByChannel == GuidesOf(guides[..i])
        invariant byId == ByIdOf(channels) && byName == ByNameOf(channels)
      {
        var guide := guides[i];
        if guide.channel.Some? && guide.channel.value !in guidesByChannel {
          guidesByChannel := guidesByChannel[guide.channel.value := guide];
        }
        GuidesOfSnoc(guides, i);
      }
      assert guides[..|guides|] == guides;
      lastUpdated := Some(now);
    }

    function FindIptvOrgId(tvgId: Option<string>, name: string): (r: Option<string>)
      reads this
      ensures r == FindId(byId, byName, tvgId, name)
    {
      FindId(byId, byName, tvgId, name)
    }

    /** `get_channel_names`: the primary name then the alternatives, or nothing for an unknown id. */
    function GetChannelNames(iptvOrgId: string): (names: seq<string>)
      reads this
      ensures iptvOrgId !in byId ==> names == []
      ensures iptvOrgId in byId ==> |names| == 1 + |byId[iptvOrgId].altNames|
      ensures iptvOrgId in byId ==> names[0] == byId[iptvOrgId].name && names[1..] == byId[iptvOrgId].altNames
    {
      match if iptvOrgId in byId then Some(byId[iptvOrgId]) else None
      case Some(ch) => [ch.name] + ch.altNames
      case None => []
    }

    /** `get_guide_url`: always a URL, whether or not the id is known. */
    function GetGuideUrl(iptvOrgId: string): (r: Option<string>)
      ensures r.Some?
      ensures StartsWith(r.value, EpgBase + "/epg-") && EndsWith(r.value, ".xml")
      ensures '.' !in iptvOrgId ==> r.value == EpgBase + "/epg-" + ToLower(iptvOrgId) + ".xml"
      ensures '.' in iptvOrgId ==>
        (exists c :: r.value == EpgBase + "/epg-" + c + ".xml" && '.' !in c && EndsWith(ToLower(iptvOrgId), "." + c))
    {
      var url := EpgBase + "/epg-" + GuideCountry(iptvOrgId) + ".xml";
      assert url == (EpgBase + "/epg-") + (GuideCountry(iptvOrgId) + ".xml");
      Some(url)
    }
  }

  /** The gzip header test: the two magic bytes ID1 = 0x1f, ID2 = 0x8b. */
  predicate HasGzipMagic(data: seq<byte>) {
    |data| >= 2 && data[0] == 0x1f && data[1] == 0x8b
  }

  /** `decompress_gzip`, with the inflater passed in: nothing is inflated without the magic bytes. */
  function DecompressGzip(data: seq<byte>, inflate: seq<byte> -> Option<seq<byte>>): (r: Option<seq<byte>>)
    ensures !HasGzipMagic(data) ==> r.None?
    ensures HasGzipMagic(data) ==> r == inflate(data)
  {
    if |data| < 2 || data[0] != 0x1f || data[1] != 0x8b then None
    else inflate(data)
  }
}
