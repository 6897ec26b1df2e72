/**
 * The playlist-registry pallet: a bounded list of playlist records per account and a global
 * counter of registrations that saturates instead of wrapping.
 */
module PlaylistRegistry {
  import opened Wrappers
  import opened Frame
  import opened Utf8

  /** A 32-byte digest of the playlist's source URL. */
  type Hash32 = h: seq<byte> | |h| == 32 witness seq(32, _ => 0)

  /** `PlaylistMetadata`: `created_at` is stored as 0 by this revision of the pallet. */
  datatype PlaylistMetadata = PlaylistMetadata(name: seq<byte>, sourceUrlHash: Hash32, channelCount: U32, createdAt: nat)

  /** The runtime's `MaxPlaylistsPerAccount` and `MaxPlaylistNameLength` constants. */
  datatype Config = Config(maxPlaylistsPerAccount: U32, maxPlaylistNameLength: U32)

  datatype Error = TooManyPlaylists | PlaylistNotFound | NameTooLong

  datatype Event =
    | PlaylistRegistered(who: AccountId, name: seq<byte>)
    | PlaylistRemoved(who: AccountId, index: U32)

  type Outcome = Result<(), DispatchError<Error>>

  /** `PlaylistMap` (a missing account reads as the empty list), `PlaylistCount` and the events. */
  datatype Storage = Storage(lists: map<AccountId, seq<PlaylistMetadata>>, count: U32, events: seq<Event>)

  /** The `ValueQuery` read of `PlaylistMap`. */
  function ListOf(s: Storage, who: AccountId): seq<PlaylistMetadata> {
    if who in s.lists then s.lists[who] else []
  }

  /** What the bounded types guarantee: no list is longer than the bound, no name longer than its bound. */
  ghost predicate Bounded(cfg: Config, s: Storage) {
    forall who :: who in s.lists ==>
      && |s.lists[who]| <= cfg.maxPlaylistsPerAccount
      && forall i :: 0 <= i < |s.lists[who]| ==> |s.lists[who][i].name| <= cfg.maxPlaylistNameLength
  }

  /** Every account other than `who` reads the same list in `a` and `b`. */
  ghost predicate OthersUnchanged(a: Storage, b: Storage, who: AccountId) {
    forall other :: other != who ==> ListOf(a, other) == ListOf(b, other)
  }

  /** `register_playlist` as a transition. */
  function Register(cfg: Config, s: Storage, origin: Origin, name: seq<byte>, sourceUrlHash: Hash32): (r: (Outcome, Storage))
    ensures origin.Signed? <==> r.0 != Err(BadOrigin)
    ensures r.0.Err? ==> r.1 == s
    ensures origin.Signed? && |name| > cfg.maxPlaylistNameLength ==> r.0 == Err(Module(NameTooLong))
    ensures origin.Signed? && |name| <= cfg.maxPlaylistNameLength && |ListOf(s, origin.who)| >= cfg.maxPlaylistsPerAccount ==>
      r.0 == Err(Module(TooManyPlaylists))
    ensures origin.Signed? && |name| <= cfg.maxPlaylistNameLength && |ListOf(s, origin.who)| < cfg.maxPlaylistsPerAccount ==>
      r.0.Ok?
    ensures r.0.Ok? ==>
      && ListOf(r.1, origin.who) == ListOf(s, origin.who) + [PlaylistMetadata(name, sourceUrlHash, 0, 0)]
      && OthersUnchanged(s, r.1, origin.who)
      && r.1.count == SaturatingAdd(s.count, 1)
      && r.1.events == s.events + [PlaylistRegistered(origin.who, name)]
    ensures Bounded(cfg, s) ==> Bounded(cfg, r.1)
  {
    match EnsureSigned<Error>(origin)
    case Err(e) => (Err(e), s)
    case Ok(who) =>
      if |name| > cfg.maxPlaylistNameLength then (Err(Module(NameTooLong)), s)
      else
        var list := ListOf(s, who);
        if |list| >= cfg.maxPlaylistsPerAccount then (Err(Module(TooManyPlaylists)), s)
        else
          var metadata := PlaylistMetadata(name, sourceUrlHash, 0, 0);
          (Ok(()), Storage(s.lists[who := list + [metadata]], SaturatingAdd(s.count, 1),
                           s.events + [PlaylistRegistered(who, name)]))
  }

  /** `s` without its `i`-th element; later elements move down by one. */
  function RemoveAt<T>(s: seq<T>, i: nat): (r: seq<T>)
    requires i < |s|
    ensures |r| == |s| - 1
    ensures forall k :: 0 <= k < i ==> r[k] == s[k]
    ensures forall k :: i <= k < |r| ==> r[k] == s[k + 1]
  {
    s[..i] + s[i + 1..]
  }

  /** `remove_playlist` as a transition. */
  function Remove(s: Storage, origin: Origin, index: U32): (r: (Outcome, Storage))
    ensures origin.Signed? <==> r.0 != Err(BadOrigin)
    ensures r.0.Err? ==> r.1 == s
    ensures origin.Signed? && index >= |ListOf(s, origin.who)| ==> r.0 == Err(Module(PlaylistNotFound))
    ensures origin.Signed? && index < |ListOf(s, origin.who)| ==> r.0.Ok?
    ensures r.0.Ok? ==>
      && index < |ListOf(s, origin.who)|
      && ListOf(r.1, origin.who) == RemoveAt(ListOf(s, origin.who), index)
      && OthersUnchanged(s, r.1, origin.who)
      && r.1.count == SaturatingSub(s.count, 1)
      && r.1.events == s.events + [PlaylistRemoved(origin.who, index)]
  {
    match EnsureSigned<Error>(origin)
    case Err(e) => (Err(e), s)
    case Ok(who) =>
      var list := ListOf(s, who);
      if index >= |list| then (Err(Module(PlaylistNotFound)), s)
      else
        (Ok(()), Storage(s.lists[who := RemoveAt(list, index)], SaturatingSub(s.count, 1),
                         s.events + [PlaylistRemoved(who, index)]))
  }

  /** `update_channel_count` as a transition: no event is deposited. */
  function UpdateChannelCount(s: Storage, origin: Origin, index: U32, count: U32): (r: (Outcome, Storage))
    ensures origin.Signed? <==> r.0 != Err(BadOrigin)
    ensures r.0.Err? ==> r.1 == s
    ensures origin.Signed? && index >= |ListOf(s, origin.who)| ==> r.0 == Err(Module(PlaylistNotFound))
    ensures origin.Signed? && index < |ListOf(s, origin.who)| ==> r.0.Ok?
    ensures r.0.Ok? ==>
      var prev := ListOf(s, origin.who);
      var list := ListOf(r.1, origin.who);
      && index < |prev| && |list| == |prev|
      && list[index] == prev[index].(channelCount := count)
      && (forall k :: 0 <= k < |list| && k != index ==> list[k] == prev[k])
      && OthersUnchanged(s, r.1, origin.who)
      && r.1.count == s.count && r.1.events == s.events
  {
    match EnsureSigned<Error>(origin)
    case Err(e) => (Err(e), s)
    case Ok(who) =>
      var list := ListOf(s, who);
      if index >= |list| then (Err(Module(PlaylistNotFound)), s)
      else (Ok(()), s.(lists := s.lists[who := list[index := list[index].(channelCount := count)]]))
  }

  class Pallet {
    const config: Config
    var lists: map<AccountId, seq<PlaylistMetadata>>
    var count: U32
    var events: seq<Event>

    function Snapshot(): Storage
      reads this
    {
      Storage(lists, count, events)
    }

    ghost predicate Valid()
      reads this
    {
      Bounded(config, Snapshot())
    }

    /** Genesis: every account has an empty list and the counter is 0. */
    constructor(config: Config)
      ensures Valid() && this.config == config && lists == map[] && count == 0 && events == []
    {
      this.config := config;
      lists := map[];
      count := 0;
      events := [];
    }

    method RegisterPlaylist(origin: Origin, name: seq<byte>, sourceUrlHash: Hash32) returns (r: Outcome)
      requires Valid()
      modifies this
      ensures Valid()
      ensures (r, Snapshot()) == Register(config, old(Snapshot()), origin, name, sourceUrlHash)
    {
      if !origin.Signed? {
        return Err(BadOrigin);
      }
      var who := origin.who;
      if |name| > config.maxPlaylistNameLength {
        return Err(Module(NameTooLong));
      }
      var list := if who in lists then lists[who] else [];
      if |list| >= config.maxPlaylistsPerAccount {
        return Err(Module(TooManyPlaylists));
      }
      lists := lists[who := list + [PlaylistMetadata(name, sourceUrlHash, 0, 0)]];
      count := SaturatingAdd(count, 1);
      events := events + [PlaylistRegistered(who, name)];
      r := Ok(());
    }

    method RemovePlaylist(origin: Origin, index: U32) returns (r: Outcome)
      requires Valid()
      modifies this
      ensures Valid()
      ensures (r, Snapshot()) == Remove(old(Snapshot()), origin, index)
    {
      if !origin.Signed? {
        return Err(BadOrigin);
      }
      var who := origin.who;
      var list := if who in lists then lists[who] else [];
      if index >= |list| {
        return Err(Module(PlaylistNotFound));
      }
      lists := lists[who := list[..index] + list[index + 1..]];
      count := SaturatingSub(count, 1);
      events := events + [PlaylistRemoved(who, index)];
      r := Ok(());
      RemovePreservesBounded(config, old(Snapshot()), origin, index);
    }

    method UpdateChannelCountCall(origin: Origin, index: U32, newCount: U32) returns (r: Outcome)
      requires Valid()
      modifies this
      ensures Valid()
      ensures (r, Snapshot()) == UpdateChannelCount(old(Snapshot()), origin, index, newCount)
    {
      if !origin.Signed? {
        return Err(BadOrigin);
      }
      var who := origin.who;
      var list := if who in lists then lists[who] else [];
      if index >= |list| {
        return Err(Module(PlaylistNotFound));
      }
      lists := lists[who := list[index := list[index].(channelCount := newCount)]];
      r := Ok(());
      UpdatePreservesBounded(config, old(Snapshot()), origin, index, newCount);
    }
  }

  /** Removing an entry keeps every list within its bounds. */
  lemma RemovePreservesBounded(cfg: Config, s: Storage, origin: Origin, index: U32)
    requires Bounded(cfg, s)
    ensures Bounded(cfg, Remove(s, origin, index).1)
  {
    var r := Remove(s, origin, index);
    if r.0.Ok? {
      var who := origin.who;
      var prev := ListOf(s, who);
      var list := ListOf(r.1, who);
      forall i | 0 <= i < |list|
        ensures |list[i].name| <= cfg.maxPlaylistNameLength
      {
        if i < index {
          assert list[i] == prev[i];
        } else {
          assert list[i] == prev[i + 1];
        }
      }
    }
  }

  /** Changing a channel count keeps every list within its bounds. */
  lemma UpdatePreservesBounded(cfg: Config, s: Storage, origin: Origin, index: U32, count: U32)
    requires Bounded(cfg, s)
    ensures Bounded(cfg, UpdateChannelCount(s, origin, index, count).1)
  {
    var r := UpdateChannelCount(s, origin, index, count);
    if r.0.Ok? {
      var who := origin.who;
      var prev := ListOf(s, who);
      var list := ListOf(r.1, who);
      forall i | 0 <= i < |list|
        ensures |list[i].name| <= cfg.maxPlaylistNameLength
      {
        assert list[i].name == prev[i].name;
      }
    }
  }

  /** Registering then removing the new last entry restores the caller's list. */
  lemma RegisterThenRemoveLast(cfg: Config, s: Storage, who: AccountId, name: seq<byte>, sourceUrlHash: Hash32)
    requires Register(cfg, s, Signed(who), name, sourceUrlHash).0.Ok?
    ensures var registered := Register(cfg, s, Signed(who), name, sourceUrlHash).1;
      var removed := Remove(registered, Signed(who), |ListOf(s, who)|);
      removed.0.Ok? && ListOf(removed.1, who) == ListOf(s, who)
  {
    var prev := ListOf(s, who);
    var registered := Register(cfg, s, Signed(who), name, sourceUrlHash).1;
    var list := ListOf(registered, who);
    assert |prev| < cfg.maxPlaylistsPerAccount <= U32Max;
    assert list[..|prev|] == prev;
  }

  /** The counter only ever moves by one, and never past the ends of `u32`. */
  lemma CountMovesByOne(cfg: Config, s: Storage, origin: Origin, name: seq<byte>, sourceUrlHash: Hash32, index: U32)
    ensures var c := Register(cfg, s, origin, name, sourceUrlHash).1.count;
      c == s.count || c == s.count + 1
    ensures var c := Remove(s, origin, index).1.count;
      c == s.count || c + 1 == s.count
  {
  }
}
