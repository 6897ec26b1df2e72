/**
 * The in-memory EPG cache: a schedule per XMLTV channel id, and the "what is on now and
 * next" search over one schedule. Times are seconds since the epoch, UTC.
 */
module Epg {
  import opened Wrappers
  import opened Models

  /** On air at `now`: started, and not yet ended. */
  predicate OnAir(p: EpgProgram, now: int) {
    p.start <= now && p.end > now
  }

  /** Where the scan of `get_now_next` stops: a programme on air, or one still to come. */
  predicate StopsScan(p: EpgProgram, now: int) {
    OnAir(p, now) || p.start > now
  }

  /** The index of the first programme from `from` on where the scan stops, or `|ps|`. */
  function FirstStop(ps: seq<EpgProgram>, now: int, from: nat): (k: nat)
    requires from <= |ps|
    ensures from <= k <= |ps|
    ensures k < |ps| ==> StopsScan(ps[k], now)
    ensures forall j :: from <= j < k ==> !StopsScan(ps[j], now)
    decreases |ps| - from
  {
    if from == |ps| then from
    else if StopsScan(ps[from], now) then from
    else FirstStop(ps, now, from + 1)
  }

  /** The (now, next) pair the scan settles on for one schedule. */
  function NowNextOf(ps: seq<EpgProgram>, now: int): (r: (Option<EpgProgram>, Option<EpgProgram>))
    ensures r.0.Some? ==> r.0.value in ps && OnAir(r.0.value, now)
    ensures r.1.Some? ==> r.1.value in ps
    ensures r.0.None? && r.1.Some? ==> r.1.value.start > now
  {
    var k := FirstStop(ps, now, 0);
    if k == |ps| then (None, None)
    else if OnAir(ps[k], now) then (Some(ps[k]), if k + 1 < |ps| then Some(ps[k + 1]) else None)
    else (None, Some(ps[k]))
  }

  /**
   * What the pair means: `now` is the first programme on air, with nothing earlier on air or
   * still to come, and `next` the programme right after it, whatever its times; with nothing
   * on air, `next` is the first programme still to come; with neither, both are None.
   */
  lemma NowNextSpec(ps: seq<EpgProgram>, now: int)
    ensures NowNextOf(ps, now).0.Some? ==>
      exists i :: (0 <= i < |ps| && ps[i] == NowNextOf(ps, now).0.value && OnAir(ps[i], now)
        && (forall j :: 0 <= j < i ==> !OnAir(ps[j], now) && ps[j].start <= now)
        && NowNextOf(ps, now).1 == (if i + 1 < |ps| then Some(ps[i + 1]) else None))
    ensures NowNextOf(ps, now).0.None? && NowNextOf(ps, now).1.Some? ==>
      exists i :: (0 <= i < |ps| && ps[i] == NowNextOf(ps, now).1.value && ps[i].start > now
        && (forall j :: 0 <= j < i ==> !OnAir(ps[j], now) && ps[j].start <= now))
    ensures NowNextOf(ps, now) == (None, None) <==>
      forall j :: 0 <= j < |ps| ==> !OnAir(ps[j], now) && ps[j].start <= now
  {
    var k := FirstStop(ps, now, 0);
    var r := NowNextOf(ps, now);
    assert forall j :: 0 <= j < k ==> !OnAir(ps[j], now) && ps[j].start <= now;
    if k < |ps| {
      if OnAir(ps[k], now) {
        assert r.0 == Some(ps[k]) && r.1 == (if k + 1 < |ps| then Some(ps[k + 1]) else None);
        assert 0 <= k < |ps| && ps[k] == r.0.value && OnAir(ps[k], now)
          && (forall j :: 0 <= j < k ==> !OnAir(ps[j], now) && ps[j].start <= now)
          && r.1 == (if k + 1 < |ps| then Some(ps[k + 1]) else None);
      } else {
        assert ps[k].start > now && r == (None, Some(ps[k]));
      }
    }
  }

  /** `EpgCache`: schedules by channel id and the instant they were last written. */
  class EpgCache {
    var schedules: map<string, EpgSchedule>
    var lastUpdated: Option<int>

    /** `EpgCache::new`: no schedules, never updated. */
    constructor()
      ensures schedules == map[] && lastUpdated == None
    {
      schedules := map[];
      lastUpdated := None;
    }

    /** `get_schedule`: the stored schedule of `channelId`, if any. */
    function GetSchedule(channelId: string): (r: Option<EpgSchedule>)
      reads this
      ensures r.Some? <==> channelId in schedules
      ensures r.Some? ==> r.value == schedules[channelId]
    {
      if channelId in schedules then Some(schedules[channelId]) else None
    }

    /** `get_now_next`: None for an unknown channel, otherwise the pair the scan settles on. */
    method GetNowNext(channelId: string, now: int) returns (r: Option<EpgNowNext>)
      ensures r.None? <==> channelId !in schedules
      ensures r.Some? ==> r.value.channelId == channelId
      ensures r.Some? ==> (r.value.now, r.value.next) == NowNextOf(schedules[channelId].programs, now)
    {
      if channelId !in schedules {
        return None;
      }
      var programs := schedules[channelId].programs;
      var current: Option<EpgProgram> := None;
      var next: Option<EpgProgram> := None;
      var i := 0;
      while i < |programs|
        invariant i <= |programs|
        invariant FirstStop(programs, now, 0) == FirstStop(programs, now, i)
        invariant current == None && next == None
      {
        var prog := programs[i];
        if prog.start <= now && prog.end > now {
          current := Some(prog);
          next := if i + 1 < |programs| then Some(programs[i + 1]) else None;
          break;
        }
        if prog.start > now {
          next := Some(prog);
          break;
        }
        i := i + 1;
      }
      r := Some(EpgNowNext(channelId, current, next));
    }
  }
}
