/** The sliding-window spam detector of `on_message`, its periodic sweep `anti_spam_cleaner`
    and the `antispam` command that reconfigures it.

    Time is an integer tick count. The tracker maps guild id to member id to the list of
    timestamps of that member's recent messages. */
module AntiSpam {
  import opened Common

  /** Start-up values of the threshold and of the window (in seconds). */
  const DefaultThreshold: int := 6
  const DefaultWindow: int := 8

  /** The spam mute creates its role with only `send_messages` denied, and denies the same in each channel. */
  const SpamMutePerms: map<Perm, bool> := map[SendMessages := false]

  type Track = map<Id, map<Id, seq<int>>>

  // ---------------------------------------------------------------------------
  // Pruning the timestamp list

  /** The stamps no older than `window` at time `now`, in their original order. */
  function Prune(stamps: seq<int>, now: int, window: int): (kept: seq<int>)
    ensures |kept| <= |stamps|
    ensures forall i :: 0 <= i < |kept| ==> now - kept[i] <= window
  {
    if stamps == [] then []
    else (if now - stamps[0] <= window then [stamps[0]] else []) + Prune(stamps[1..], now, window)
  }

  /** The kept stamps are exactly the recent ones. */
  lemma {:induction false} PruneMembers(stamps: seq<int>, now: int, window: int)
    ensures forall t :: t in Prune(stamps, now, window) <==> t in stamps && now - t <= window
  {
    if stamps != [] {
      PruneMembers(stamps[1..], now, window);
      assert forall t :: t in stamps <==> t == stamps[0] || t in stamps[1..];
    }
  }

  /** Pruning works element by element: it distributes over concatenation. */
  lemma {:induction false} PruneAppend(a: seq<int>, b: seq<int>, now: int, window: int)
    ensures Prune(a + b, now, window) == Prune(a, now, window) + Prune(b, now, window)
  {
    if a == [] {
      assert a + b == b;
    } else {
      assert (a + b)[0] == a[0];
      assert (a + b)[1..] == a[1..] + b;
      PruneAppend(a[1..], b, now, window);
    }
  }

  /** A list whose stamps are all recent is kept whole. */
  lemma {:induction false} PruneAllRecent(stamps: seq<int>, now: int, window: int)
    requires forall i :: 0 <= i < |stamps| ==> now - stamps[i] <= window
    ensures Prune(stamps, now, window) == stamps
  {
    if stamps != [] {
      PruneAllRecent(stamps[1..], now, window);
    }
  }

  /** A list whose stamps are all stale is emptied. */
  lemma {:induction false} PruneAllStale(stamps: seq<int>, now: int, window: int)
    requires forall i :: 0 <= i < |stamps| ==> now - stamps[i] > window
    ensures Prune(stamps, now, window) == []
  {
    if stamps != [] {
      PruneAllStale(stamps[1..], now, window);
    }
  }

  /** Pruning twice at the same time is pruning once. */
  lemma PruneIdempotent(stamps: seq<int>, now: int, window: int)
    ensures Prune(Prune(stamps, now, window), now, window) == Prune(stamps, now, window)
  {
    PruneAllRecent(Prune(stamps, now, window), now, window);
  }

  /** `a` is `b` with some elements deleted. */
  ghost predicate Subsequence(a: seq<int>, b: seq<int>)
    decreases |b|
  {
    if a == [] then true
    else if b == [] then false
    else if a[0] == b[0] then Subsequence(a[1..], b[1..])
    else Subsequence(a, b[1..])
  }

  /** Pruning keeps the surviving stamps in their original order. */
  lemma {:induction false} PruneKeepsOrder(stamps: seq<int>, now: int, window: int)
    ensures Subsequence(Prune(stamps, now, window), stamps)
  {
    if stamps != [] {
      PruneKeepsOrder(stamps[1..], now, window);
      var rest := Prune(stamps[1..], now, window);
      if now - stamps[0] <= window {
        assert Prune(stamps, now, window) == [stamps[0]] + rest;
        assert ([stamps[0]] + rest)[1..] == rest;
      } else {
        assert Prune(stamps, now, window) == rest;
        SubsequenceSkip(rest, stamps);
      }
    }
  }

  /** Dropping the head of the longer list keeps a subsequence of its tail a subsequence of it. */
  lemma {:induction false} SubsequenceSkip(a: seq<int>, b: seq<int>)
    requires b != [] && Subsequence(a, b[1..])
    ensures Subsequence(a, b)
    decreases |a| + |b|
  {
    if a != [] && a[0] == b[0] {
      SubsequenceTail(a, b[1..]);
    }
  }

  /** Removing the head of a subsequence leaves a subsequence. */
  lemma {:induction false} SubsequenceTail(a: seq<int>, b: seq<int>)
    requires a != [] && Subsequence(a, b)
    ensures Subsequence(a[1..], b)
    decreases |a| + |b|
  {
    if a[0] != b[0] {
      SubsequenceTail(a, b[1..]);
    }
    if a[1..] != [] {
      SubsequenceSkip(a[1..], b);
    }
  }

  // ---------------------------------------------------------------------------
  // Recording one message

  /** The member's list after a message, and whether the message crossed the threshold. */
  datatype Verdict = Verdict(stamps: seq<int>, exceeded: bool)

  /** One message at `now`: the recent earlier stamps and `now` itself (which survives the pruning
      unless the window is negative), reset to empty once they reach the threshold. */
  function Record(stamps: seq<int>, now: int, threshold: int, window: int): (v: Verdict)
    // a list that trips is emptied; a list that is kept stays below the threshold
    ensures v.exceeded ==> v.stamps == []
    ensures !v.exceeded ==> |v.stamps| < threshold
    // everything kept is recent
    ensures forall i :: 0 <= i < |v.stamps| ==> now - v.stamps[i] <= window
  {
    var kept := Prune(stamps, now, window) + (if 0 <= window then [now] else []);
    if |kept| >= threshold then Verdict([], true) else Verdict(kept, false)
  }

  /** `on_message` appends `now` and prunes the whole list; the verdict is that of `Record`. */
  lemma RecordAppendsThenPrunes(stamps: seq<int>, now: int, threshold: int, window: int)
    ensures var kept := Prune(stamps + [now], now, window);
      && (Record(stamps, now, threshold, window).exceeded <==> |kept| >= threshold)
      && Record(stamps, now, threshold, window).stamps == if |kept| >= threshold then [] else kept
  {
    PruneAppend(stamps, [now], now, window);
    assert Prune([now], now, window) == if 0 <= window then [now] else [];
  }

  function UsersOf(track: Track, g: Id): map<Id, seq<int>>
  {
    if g in track then track[g] else map[]
  }

  /** The stamps recorded for member `u` of guild `g`, empty when there is no entry. */
  function StampsOf(track: Track, g: Id, u: Id): seq<int>
  {
    if g in track && u in track[g] then track[g][u] else []
  }

  /** The tracker after a message of `u` in `g` at `now`. */
  function Observed(track: Track, g: Id, u: Id, now: int, threshold: int, window: int): (r: Track)
    ensures r.Keys == track.Keys + {g} && u in r[g] && r[g].Keys == UsersOf(track, g).Keys + {u}
    ensures StampsOf(r, g, u) == Record(StampsOf(track, g, u), now, threshold, window).stamps
    ensures forall h: Id, w: Id :: (h, w) != (g, u) ==> StampsOf(r, h, w) == StampsOf(track, h, w)
    ensures forall h :: h in track && h != g ==> r[h] == track[h]
  {
    track[g := UsersOf(track, g)[u := Record(StampsOf(track, g, u), now, threshold, window).stamps]]
  }

  // ---------------------------------------------------------------------------
  // The sweep

  function SweepGuild(users: map<Id, seq<int>>, now: int, window: int): map<Id, seq<int>>
  {
    map u | u in users && Prune(users[u], now, window) != [] :: Prune(users[u], now, window)
  }

  /** The tracker after `anti_spam_cleaner` at `now`. */
  function Swept(track: Track, now: int, window: int): (r: Track)
    // guild-level maps are never removed, even when they become empty
    ensures r.Keys == track.Keys
    ensures forall g :: g in r ==> r[g].Keys <= track[g].Keys
    // no member is left with an empty list
    ensures forall g, u :: g in r && u in r[g] ==> r[g][u] != []
    // no stale stamp is left
    ensures forall g, u :: g in r && u in r[g] ==>
      forall i :: 0 <= i < |r[g][u]| ==> now - r[g][u][i] <= window
    // every list is the pruned old list (entries pruned to nothing are deleted)
    ensures forall g, u :: StampsOf(r, g, u) == Prune(StampsOf(track, g, u), now, window)
  {
    map g | g in track :: SweepGuild(track[g], now, window)
  }

  /** Sweeping twice at the same time leaves the tracker as one sweep does. */
  lemma SweptIdempotent(track: Track, now: int, window: int)
    ensures Swept(Swept(track, now, window), now, window) == Swept(track, now, window)
  {
    var once := Swept(track, now, window);
    var twice := Swept(once, now, window);
    forall g | g in once
      ensures twice[g] == once[g]
    {
      forall u | u in once[g]
        ensures Prune(once[g][u], now, window) == once[g][u]
      {
        PruneIdempotent(track[g][u], now, window);
      }
      assert twice[g].Keys == once[g].Keys;
    }
  }

  /** The sweep keeps each surviving stamp list in its original order. */
  lemma SweptKeepsOrder(track: Track, now: int, window: int, g: Id, u: Id)
    ensures Subsequence(StampsOf(Swept(track, now, window), g, u), StampsOf(track, g, u))
  {
    PruneKeepsOrder(StampsOf(track, g, u), now, window);
  }

  // ---------------------------------------------------------------------------
  // A stream of messages of one member

  datatype Run = Run(stamps: seq<int>, verdicts: seq<bool>)

  /** The member's list and the verdict of each message, for messages at `times`, starting from no entry. */
  function Replay(times: seq<int>, threshold: int, window: int): (r: Run)
    ensures |r.verdicts| == |times|
  {
    if times == [] then Run([], [])
    else
      var prev := Replay(times[..|times| - 1], threshold, window);
      var v := Record(prev.stamps, times[|times| - 1], threshold, window);
      Run(v.stamps, prev.verdicts + [v.exceeded])
  }

  /** Replaying one more message is recording it on the list the earlier ones left. */
  lemma ReplaySnoc(times: seq<int>, t: int, threshold: int, window: int)
    ensures Replay(times + [t], threshold, window)
         == var r := Replay(times, threshold, window);
            var v := Record(r.stamps, t, threshold, window);
            Run(v.stamps, r.verdicts + [v.exceeded])
  {
    assert (times + [t])[..|times|] == times;
  }

  /** Messages in time order, the first and the last no more than `window` apart. */
  ghost predicate InOneWindow(times: seq<int>, window: int)
  {
    forall i, j :: 0 <= i <= j < |times| ==> 0 <= times[j] - times[i] <= window
  }

  /** A message joining a list of recent stamps, still below the threshold, is appended. */
  lemma RecordKeepsRecent(stamps: seq<int>, now: int, threshold: int, window: int)
    requires 0 <= window && |stamps| + 1 < threshold
    requires forall i :: 0 <= i < |stamps| ==> now - stamps[i] <= window
    ensures Record(stamps, now, threshold, window) == Verdict(stamps + [now], false)
  {
    PruneAllRecent(stamps, now, window);
  }

  /** The earlier messages of a run within one window are within one window too, and each of them
      is recent when the last one arrives. */
  lemma InOneWindowFront(times: seq<int>, window: int)
    requires times != [] && InOneWindow(times, window)
    ensures InOneWindow(times[..|times| - 1], window)
    ensures forall i :: 0 <= i < |times| - 1 ==> times[|times| - 1] - times[i] <= window
  {
    assert forall i :: 0 <= i < |times| - 1 ==> times[..|times| - 1][i] == times[i];
  }

  /** Fewer messages than the threshold, all within one window: none trips, all are kept. */
  lemma {:induction false} BurstBelowThreshold(times: seq<int>, threshold: int, window: int)
    requires 0 <= window && InOneWindow(times, window) && |times| < threshold
    ensures Replay(times, threshold, window).stamps == times
    // no message trips
    ensures true !in Replay(times, threshold, window).verdicts
  {
    if times != [] {
      var prev, t := times[..|times| - 1], times[|times| - 1];
      InOneWindowFront(times, window);
      BurstBelowThreshold(prev, threshold, window);
      RecordKeepsRecent(prev, t, threshold, window);
      ReplaySnoc(prev, t, threshold, window);
      FrontLast(times);
    }
  }

  /** Exactly `threshold` messages within one window: the last one trips and the list is emptied. */
  lemma BurstTrips(times: seq<int>, threshold: int, window: int)
    requires 0 <= window && InOneWindow(times, window) && |times| == threshold >= 1
    ensures Replay(times, threshold, window).stamps == []
    // only the last message trips
    ensures Replay(times, threshold, window).verdicts
            == Replay(times[..threshold - 1], threshold, window).verdicts + [true]
    ensures true !in Replay(times[..threshold - 1], threshold, window).verdicts
  {
    var prev, t := times[..threshold - 1], times[threshold - 1];
    InOneWindowFront(times, window);
    BurstBelowThreshold(prev, threshold, window);
    PruneAllRecent(prev, t, window);
    ReplaySnoc(prev, t, threshold, window);
    FrontLast(times);
  }

  /** A message after a gap longer than the window starts the list afresh. */
  lemma RecordAfterGap(stamps: seq<int>, now: int, threshold: int, window: int)
    requires 0 <= window && threshold >= 2
    requires forall i :: 0 <= i < |stamps| ==> now - stamps[i] > window
    ensures Record(stamps, now, threshold, window) == Verdict([now], false)
  {
    PruneAllStale(stamps, now, window);
  }

  /** One message after a gap: it does not trip and it is all that is kept. */
  lemma ReplayAfterGap(prev: seq<int>, t: int, threshold: int, window: int)
    requires 0 <= window && threshold >= 2
    requires forall i :: 0 <= i < |Replay(prev, threshold, window).stamps| ==>
      t - Replay(prev, threshold, window).stamps[i] > window
    ensures Replay(prev + [t], threshold, window).stamps == [t]
    ensures Replay(prev + [t], threshold, window).verdicts == Replay(prev, threshold, window).verdicts + [false]
  {
    RecordAfterGap(Replay(prev, threshold, window).stamps, t, threshold, window);
    ReplaySnoc(prev, t, threshold, window);
  }

  /** Messages spaced further apart than the window never trip a threshold above one. */
  lemma {:induction false} SpacedOutNeverTrips(times: seq<int>, threshold: int, window: int)
    requires 0 <= window && threshold >= 2
    requires forall i :: 0 < i < |times| ==> times[i] - times[i - 1] > window
    ensures true !in Replay(times, threshold, window).verdicts
    ensures times != [] ==> Replay(times, threshold, window).stamps == [times[|times| - 1]]
  {
    if times != [] {
      var n := |times|;
      var prev, t := times[..n - 1], times[n - 1];
      assert forall i :: 0 < i < |prev| ==> prev[i] - prev[i - 1] > window by {
        assert forall i :: 0 <= i < |prev| ==> prev[i] == times[i];
      }
      SpacedOutNeverTrips(prev, threshold, window);
      if prev != [] {
        assert prev[|prev| - 1] == times[n - 2];
      }
      ReplayAfterGap(prev, t, threshold, window);
      FrontLast(times);
    }
  }

  /** Threshold 3, window 5: three messages within five seconds, the third trips. */
  lemma ThreeInFiveScenario(t0: int, t1: int, t2: int)
    requires t0 <= t1 <= t2 <= t0 + 5
    ensures Replay([t0, t1, t2], 3, 5) == Run([], [false, false, true])
  {
    var r0 := Replay([t0], 3, 5);
    ReplaySnoc([], t0, 3, 5);
    assert [] + [t0] == [t0];
    assert r0 == Run([t0], [false]);
    ReplaySnoc([t0], t1, 3, 5);
    assert Prune([t0], t1, 5) == [t0];
    assert [t0] + [t1] == [t0, t1];
    var r1 := Replay([t0, t1], 3, 5);
    assert r1 == Run([t0, t1], [false, false]);
    ReplaySnoc([t0, t1], t2, 3, 5);
    assert Prune([t0, t1], t2, 5) == [t0, t1];
    assert [t0, t1] + [t2] == [t0, t1, t2];
  }

  /** After the trip, the next message starts a fresh list and does not trip. */
  lemma ThreeInFiveRestart(t0: int, t1: int, t2: int, t3: int)
    requires t0 <= t1 <= t2 <= t0 + 5
    ensures Replay([t0, t1, t2, t3], 3, 5) == Run([t3], [false, false, true, false])
  {
    ThreeInFiveScenario(t0, t1, t2);
    ReplaySnoc([t0, t1, t2], t3, 3, 5);
    assert [t0, t1, t2] + [t3] == [t0, t1, t2, t3];
  }

  // ---------------------------------------------------------------------------
  // The mute role of the spam handler

  /** The spam handler gets a role it can assign: `Muted` exists already, or it is created and
      every channel overwrite succeeds. */
  ghost predicate MuteRoleReady(view: GuildView, ok: Actuator)
  {
    || FindRole(view.roles, MutedRole).Some?
    || (ok(CreateRole(MutedRole, SpamMutePerms))
        && forall i :: 0 <= i < |view.channels| ==> ok(SetOverwrite(view.channels[i], |view.roles|, SpamMutePerms)))
  }

  /** The calls made to get the role: none when it exists, else the creation and then the
      overwrites up to and including the first one that fails. */
  ghost function MuteSetup(view: GuildView, ok: Actuator): seq<Effect>
  {
    if FindRole(view.roles, MutedRole).Some? then []
    else if !ok(CreateRole(MutedRole, SpamMutePerms)) then [CreateRole(MutedRole, SpamMutePerms)]
    else [CreateRole(MutedRole, SpamMutePerms)] + UpToFailure(Overwrites(view.channels, |view.roles|, SpamMutePerms), ok)
  }

  /** The effects before and including the first one that fails. */
  ghost function UpToFailure(es: seq<Effect>, ok: Actuator): seq<Effect>
  {
    if es == [] then []
    else if !ok(es[0]) then [es[0]]
    else [es[0]] + UpToFailure(es[1..], ok)
  }

  lemma {:induction false} UpToFailureAfter(es: seq<Effect>, ok: Actuator, i: nat)
    requires i <= |es| && forall j :: 0 <= j < i ==> ok(es[j])
    ensures UpToFailure(es, ok) == es[..i] + UpToFailure(es[i..], ok)
  {
    if i > 0 {
      var rest := es[1..];
      forall j | 0 <= j < i - 1
        ensures ok(rest[j])
      {
        assert rest[j] == es[j + 1];
      }
      UpToFailureAfter(rest, ok, i - 1);
      assert ok(es[0]);
      assert UpToFailure(es, ok) == [es[0]] + UpToFailure(rest, ok);
      assert rest[i - 1..] == es[i..];
      assert es[..i] == [es[0]] + rest[..i - 1];
    }
  }

  /** The overwrite loop of the spam handler: stops at the first overwrite that fails. */
  method OverwriteUntilFailure(channels: seq<Id>, role: nat, ok: Actuator) returns (trace: seq<Effect>, done: bool)
    ensures trace == UpToFailure(Overwrites(channels, role, SpamMutePerms), ok)
    ensures done <==> forall i :: 0 <= i < |channels| ==> ok(SetOverwrite(channels[i], role, SpamMutePerms))
  {
    ghost var os := Overwrites(channels, role, SpamMutePerms);
    trace := [];
    var i := 0;
    while i < |channels|
      invariant 0 <= i <= |channels|
      invariant trace == os[..i]
      invariant forall j :: 0 <= j < i ==> ok(os[j])
    {
      var e := SetOverwrite(channels[i], role, SpamMutePerms);
      trace := trace + [e];
      assert os[..i + 1] == os[..i] + [e];
      if !ok(e) {
        UpToFailureAfter(os, ok, i);
        assert os[i..] == [e] + os[i + 1..];
        return trace, false;
      }
      i := i + 1;
    }
    UpToFailureAfter(os, ok, i);
    assert os[..i] == os && os[i..] == [];
    done := true;
  }

  /** The role look-up of the spam handler (`bot.py` lines 98-105). Unlike `EnsureRole`, one failing
      overwrite ends the set-up and leaves the handler without a role, though the role stays created. */
  method SpamMuteRole(view: GuildView, ok: Actuator) returns (roles: seq<string>, role: Option<nat>, trace: seq<Effect>)
    ensures trace == MuteSetup(view, ok)
    ensures role.Some? <==> MuteRoleReady(view, ok)
    ensures role.Some? ==> FindRole(roles, MutedRole) == role
    ensures roles == if FindRole(view.roles, MutedRole).None? && ok(CreateRole(MutedRole, SpamMutePerms))
                     then view.roles + [MutedRole] else view.roles
  {
    roles := view.roles;
    role := FindRole(view.roles, MutedRole);
    trace := [];
    if role.Some? {
      return;
    }
    var create := CreateRole(MutedRole, SpamMutePerms);
    trace := [create];
    if !ok(create) {
      return;
    }
    var r := |view.roles|;
    roles := view.roles + [MutedRole];
    FindRoleAppended(view.roles, MutedRole);
    var overwrites, done := OverwriteUntilFailure(view.channels, r, ok);
    trace := trace + overwrites;
    // a failure leaves the loop and the handler goes on without a role
    role := if done then Some(r) else None;
  }

  /** The mute of a member who reached the threshold: the role look-up, then the role add and the
      channel notice, each failure swallowed. */
  method MuteSpammer(member: Id, view: GuildView, ok: Actuator) returns (roles: seq<string>, trace: seq<Effect>)
    // a role created before a failing overwrite stays in the guild
    ensures roles == if FindRole(view.roles, MutedRole).None? && ok(CreateRole(MutedRole, SpamMutePerms))
                     then view.roles + [MutedRole] else view.roles
    ensures !MuteRoleReady(view, ok) ==> trace == MuteSetup(view, ok)
    ensures MuteRoleReady(view, ok) ==>
      FindRole(roles, MutedRole).Some?
      && var add := AddRole(member, FindRole(roles, MutedRole).value);
      trace == MuteSetup(view, ok) + [add] + (if ok(add) then [Reply(SpamMuted)] else [])
  {
    var role;
    roles, role, trace := SpamMuteRole(view, ok);
    if role.Some? {
      var add := AddRole(member, role.value);
      trace := trace + [add];
      if ok(add) {
        // a failing channel message is swallowed like a failing role add
        trace := trace + [Reply(SpamMuted)];
      }
    }
  }

  /** A message as the spam handler sees it. */
  datatype Message = Message(guild: Option<Id>, author: Id, fromBot: bool)

  /** The global spam state: `SPAM_TRACK`, `SPAM_THRESHOLD` and `SPAM_WINDOW`. */
  class SpamTracker {
    var track: Track
    var threshold: int
    var window: int

    /** Start-up: an empty tracker, and the threshold and window read from the environment variables
        `SPAM_THRESHOLD` and `SPAM_WINDOW` (`None` when a variable is unset). */
    constructor (envThreshold: Option<int>, envWindow: Option<int>)
      ensures track == map[]
      ensures threshold == if envThreshold.Some? then envThreshold.value else DefaultThreshold
      ensures window == if envWindow.Some? then envWindow.value else DefaultWindow
    {
      track := map[];
      threshold := if envThreshold.Some? then envThreshold.value else DefaultThreshold;
      window := if envWindow.Some? then envWindow.value else DefaultWindow;
    }

    /** `antispam`: both values are taken as given, with no validation; an argument left out (`None`)
        takes the command's default, 6 or 8, so a call without arguments resets both. The stamps
        already recorded stay. */
    method Configure(threshold: Option<int>, window: Option<int>)
      modifies this
      ensures this.threshold == if threshold.Some? then threshold.value else DefaultThreshold
      ensures this.window == if window.Some? then window.value else DefaultWindow
      ensures track == old(track)
    {
      this.threshold := if threshold.Some? then threshold.value else DefaultThreshold;
      this.window := if window.Some? then window.value else DefaultWindow;
    }

    /** `on_message`: records the message and, when the member reaches the threshold, tries to mute
        them and empties their list whatever became of the mute. */
    method OnMessage(msg: Message, now: int, view: GuildView, ok: Actuator) returns (roles: seq<string>, trace: seq<Effect>)
      modifies this
      ensures threshold == old(threshold) && window == old(window)
      // messages of bots and direct messages are ignored
      ensures msg.fromBot || msg.guild.None? ==> track == old(track) && roles == view.roles && trace == []
      ensures !msg.fromBot && msg.guild.Some? ==>
        var v := Record(StampsOf(old(track), msg.guild.value, msg.author), now, threshold, window);
        && track == Observed(old(track), msg.guild.value, msg.author, now, threshold, window)
        && (!v.exceeded ==> trace == [] && roles == view.roles)
        && (v.exceeded ==>
              roles == if FindRole(view.roles, MutedRole).None? && ok(CreateRole(MutedRole, SpamMutePerms))
                       then view.roles + [MutedRole] else view.roles)
        && (v.exceeded && !MuteRoleReady(view, ok) ==> trace == MuteSetup(view, ok))
        && (v.exceeded && MuteRoleReady(view, ok) ==>
              FindRole(roles, MutedRole).Some?
              && var add := AddRole(msg.author, FindRole(roles, MutedRole).value);
              trace == MuteSetup(view, ok) + [add] + (if ok(add) then [Reply(SpamMuted)] else []))
    {
      roles, trace := view.roles, [];
      if msg.fromBot || msg.guild.None? {
        return;
      }
      var gid, uid := msg.guild.value, msg.author;
      // append `now` to the member's list, creating the guild and member entries when missing
      var users := if gid in track then track[gid] else map[];
      var stamps := if uid in users then users[uid] else [];
      track := track[gid := users[uid := stamps + [now]]];
      // keep only the stamps within the window
      var kept := Prune(stamps + [now], now, window);
      UpdateTwice(old(track), gid, users[uid := stamps + [now]], users[uid := kept]);
      track := track[gid := users[uid := kept]];
      RecordAppendsThenPrunes(stamps, now, threshold, window);
      if |kept| >= threshold {
        roles, trace := MuteSpammer(uid, view, ok);
        UpdateTwice(old(track), gid, users[uid := kept], users[uid := []]);
        track := track[gid := users[uid := []]];
      }
    }

    /** `anti_spam_cleaner`: prunes every list at `now` and deletes the entries left empty. */
    method Sweep(now: int)
      modifies this
      ensures threshold == old(threshold) && window == old(window)
      ensures track == Swept(old(track), now, window)
    {
      var guilds := track.Keys;
      while guilds != {}
        invariant track.Keys == old(track).Keys && guilds <= track.Keys
        invariant threshold == old(threshold) && window == old(window)
        invariant forall g :: g in guilds ==> track[g] == old(track)[g]
        invariant forall g :: g in track && g !in guilds ==> track[g] == SweepGuild(old(track)[g], now, window)
        decreases guilds
      {
        var g :| g in guilds;
        SweepMembers(g, now);
        guilds := guilds - {g};
      }
    }

    /** The inner loop of the sweep, over the members of guild `g`: `user_map` is the guild's own
        map, so each rewrite and deletion lands in the tracker. */
    method SweepMembers(g: Id, now: int)
      requires g in track
      modifies this
      ensures threshold == old(threshold) && window == old(window)
      ensures track == old(track)[g := SweepGuild(old(track)[g], now, window)]
    {
      var users := track[g];
      ghost var start := users;
      var pending := users.Keys;
      while pending != {}
        invariant pending <= users.Keys <= start.Keys
        invariant forall u :: u in pending ==> users[u] == start[u]
        invariant forall u :: u in start && u !in pending ==>
          (u in users <==> Prune(start[u], now, window) != [])
          && (u in users ==> users[u] == Prune(start[u], now, window))
        decreases pending
      {
        var u :| u in pending;
        var kept := Prune(users[u], now, window);
        users := users[u := kept];
        if kept == [] {
          users := users - {u};
        }
        pending := pending - {u};
      }
      assert users == SweepGuild(start, now, window);
      track := track[g := users];
    }
  }
}
