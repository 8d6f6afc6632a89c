/** The temporary sanctions `tempban`, `tempmute` and `tempjail`, with the `jail` and `unjail`
    commands `tempjail` is built from.

    Each command applies its sanction, confirms it to the invoker, waits, and then attempts the
    reversal once, ignoring its failure. A failing call before the wait (the sanction itself, or
    the confirmation) leaves the command through its error path, so no reversal is attempted. */
module TempActions {
  import opened Common
  import ModStore

  /** The mute role denies sending and speaking, and so does each channel's overwrite. */
  const MutePerms: map<Perm, bool> := map[SendMessages := false, Speak := false]

  const JailedRole: string := "Jailed"
  /** The jail role is created denying `send_messages` and allowing `view_channel`. */
  const JailRolePerms: map<Perm, bool> := map[SendMessages := false, ViewChannel := true]
  /** Each channel's overwrite for the jail role denies sending and speaking. */
  const JailOverwrite: map<Perm, bool> := map[SendMessages := false, Speak := false]

  /** At most one reversal, made right after the wait, and only once the sanction was attempted. */
  ghost predicate ReversedOnceAfterWait(trace: seq<Effect>, apply: Effect, duration: int, reverse: Effect)
  {
    && CountOf(trace, reverse) <= 1
    && forall i :: 0 <= i < |trace| && trace[i] == reverse ==>
         2 <= i && trace[i - 1] == Sleep(duration) && apply in trace[..i - 1]
  }

  /** A trace that makes the reversal once, straight after the wait, and nowhere else. */
  lemma ReversalAfterWait(prefix: seq<Effect>, duration: int, reverse: Effect, suffix: seq<Effect>, apply: Effect)
    requires reverse !in prefix && reverse !in suffix && apply in prefix && !reverse.Sleep?
    ensures ReversedOnceAfterWait(prefix + [Sleep(duration), reverse] + suffix, apply, duration, reverse)
    ensures reverse in prefix + [Sleep(duration), reverse] + suffix
  {
    var wait := [Sleep(duration), reverse];
    var t := prefix + wait + suffix;
    CountOfAppend(prefix, wait, reverse);
    CountOfAppend(prefix + wait, suffix, reverse);
    assert wait[1..] == [reverse];
    assert CountOf(wait, reverse) == 1;
    assert forall i :: 0 <= i < |t| && t[i] == reverse ==> i == |prefix| + 1;
    assert t[..|prefix|] == prefix;
    assert t[|prefix| + 1] == reverse;
  }

  // ---------------------------------------------------------------------------
  // tempban

  method TempBan(member: Id, duration: int, ok: Actuator) returns (trace: seq<Effect>)
    // a failing ban, or a failing confirmation, ends in the error reply
    ensures !ok(Ban(member)) ==> trace == [Ban(member), Reply(TempBanFailed)]
    ensures ok(Ban(member)) && !ok(Reply(TempBanned)) ==>
      trace == [Ban(member), Reply(TempBanned), Reply(TempBanFailed)]
    // otherwise the wait and the unban; a failing unban is swallowed and reported to nobody
    ensures ok(Ban(member)) && ok(Reply(TempBanned)) ==>
      trace == [Ban(member), Reply(TempBanned), Sleep(duration), Unban(member)]
               + (if ok(Unban(member)) then [Reply(AutoUnbanned)] else [])
    ensures ReversedOnceAfterWait(trace, Ban(member), duration, Unban(member))
    // the unban is attempted exactly when the ban and its confirmation went through
    ensures Unban(member) in trace <==> ok(Ban(member)) && ok(Reply(TempBanned))
  {
    var ban, unban := Ban(member), Unban(member);
    trace := [ban];
    if !ok(ban) {
      trace := trace + [Reply(TempBanFailed)];
      return;
    }
    trace := trace + [Reply(TempBanned)];
    if !ok(Reply(TempBanned)) {
      // the failing confirmation jumps to the command's error reply
      trace := trace + [Reply(TempBanFailed)];
      return;
    }
    var applied := trace;
    trace := trace + [Sleep(duration), unban];
    var after := if ok(unban) then [Reply(AutoUnbanned)] else [];
    trace := trace + after;
    ReversalAfterWait(applied, duration, unban, after, ban);
  }

  // ---------------------------------------------------------------------------
  // tempmute

  /** What `tempmute` does once it holds the mute role `role`. */
  ghost function MuteSteps(member: Id, role: nat, seconds: int, ok: Actuator): seq<Effect>
  {
    var add := AddRole(member, role);
    if !ok(add) then [add, Reply(TempMuteFailed)]
    else if !ok(Reply(TempMuted)) then [add, Reply(TempMuted), Reply(TempMuteFailed)]
    else [add, Reply(TempMuted), Sleep(seconds), RemoveRole(member, role)]
  }

  /** Once it holds a role, `tempmute` removes it once, right after the wait, exactly when adding it
      and confirming went through; the removal is its last call. */
  lemma TempMuteReversedOnce(view: GuildView, member: Id, seconds: int, ok: Actuator)
    requires SetupRole(view, MutedRole, MutePerms, ok).Some?
    ensures var role := SetupRole(view, MutedRole, MutePerms, ok).value;
      var t := RoleSetup(view, MutedRole, MutePerms, MutePerms, ok) + MuteSteps(member, role, seconds, ok);
      && ReversedOnceAfterWait(t, AddRole(member, role), seconds, RemoveRole(member, role))
      && (RemoveRole(member, role) in t <==> ok(AddRole(member, role)) && ok(Reply(TempMuted)))
      && (RemoveRole(member, role) in t ==> t[|t| - 1] == RemoveRole(member, role))
  {
    var role := SetupRole(view, MutedRole, MutePerms, ok).value;
    var setup := RoleSetup(view, MutedRole, MutePerms, MutePerms, ok);
    var add, remove := AddRole(member, role), RemoveRole(member, role);
    var t := setup + MuteSteps(member, role, seconds, ok);
    RoleSetupCalls(view, MutedRole, MutePerms, MutePerms, ok);
    assert remove !in setup;
    if ok(add) && ok(Reply(TempMuted)) {
      assert t == setup + [add, Reply(TempMuted)] + [Sleep(seconds), remove] + [];
      ReversalAfterWait(setup + [add, Reply(TempMuted)], seconds, remove, [], add);
    } else {
      assert remove !in MuteSteps(member, role, seconds, ok);
      assert remove !in t;
    }
  }

  method TempMute(member: Id, seconds: int, view: GuildView, ok: Actuator)
    returns (roles: seq<string>, trace: seq<Effect>)
    // without a role the command fails before touching the member
    ensures SetupRole(view, MutedRole, MutePerms, ok).None? ==>
      roles == view.roles && trace == [CreateRole(MutedRole, MutePerms), Reply(TempMuteFailed)]
    ensures SetupRole(view, MutedRole, MutePerms, ok).Some? ==>
      && FindRole(roles, MutedRole) == SetupRole(view, MutedRole, MutePerms, ok)
      && trace == RoleSetup(view, MutedRole, MutePerms, MutePerms, ok)
                  + MuteSteps(member, SetupRole(view, MutedRole, MutePerms, ok).value, seconds, ok)
    // the role set-up only ever adds the mute role, and only when it creates it
    ensures roles == if MutedRole !in view.roles && SetupRole(view, MutedRole, MutePerms, ok).Some?
                     then view.roles + [MutedRole] else view.roles
  {
    var role, setup;
    roles, role, setup := EnsureRole(view, MutedRole, MutePerms, MutePerms, ok);
    if role.None? {
      trace := setup + [Reply(TempMuteFailed)];
      return;
    }
    var add := AddRole(member, role.value);
    var steps := [add];
    if !ok(add) {
      steps := steps + [Reply(TempMuteFailed)];
    } else {
      steps := steps + [Reply(TempMuted)];
      if !ok(Reply(TempMuted)) {
        steps := steps + [Reply(TempMuteFailed)];
      } else {
        // a failing removal is swallowed
        steps := steps + [Sleep(seconds), RemoveRole(member, role.value)];
      }
    }
    trace := setup + steps;
  }

  // ---------------------------------------------------------------------------
  // jail, unjail, tempjail

  /** The jail role the command ends up with: the existing one, or a newly created one. */
  ghost function JailRole(view: GuildView, ok: Actuator): Option<nat>
  {
    SetupRole(view, JailedRole, JailRolePerms, ok)
  }

  /** What `jail` does once it holds the jail role `role`: store and save the record, then add the
      role and confirm, or report the failure. */
  ghost function JailSteps(member: Id, role: nat, ok: Actuator): seq<Effect>
  {
    var add := AddRole(member, role);
    [Persist, add] +
      if !ok(add) then [Reply(JailFailed)]
      else if !ok(Reply(Jailed)) then [Reply(Jailed), Reply(JailFailed)]
      else [Reply(Jailed)]
  }

  /** `jail` returns normally: it got a role and the last reply it sent went through. */
  ghost predicate JailReturns(view: GuildView, member: Id, ok: Actuator)
  {
    && JailRole(view, ok).Some?
    && var add := AddRole(member, JailRole(view, ok).value);
       (ok(add) && ok(Reply(Jailed))) || ok(Reply(JailFailed))
  }

  /** The record is written to the file before the role is added, whatever the platform does. */
  lemma JailSavesBeforeAdding(view: GuildView, member: Id, ok: Actuator)
    requires JailRole(view, ok).Some?
    ensures var t := RoleSetup(view, JailedRole, JailRolePerms, JailOverwrite, ok)
                     + JailSteps(member, JailRole(view, ok).value, ok);
      forall i :: 0 <= i < |t| && t[i].AddRole? ==> Persist in t[..i]
  {
    var setup := RoleSetup(view, JailedRole, JailRolePerms, JailOverwrite, ok);
    var steps := JailSteps(member, JailRole(view, ok).value, ok);
    var t := setup + steps;
    RoleSetupCalls(view, JailedRole, JailRolePerms, JailOverwrite, ok);
    forall i | 0 <= i < |t| && t[i].AddRole?
      ensures Persist in t[..i]
    {
      if |setup| <= i {
        assert t[i] == steps[i - |setup|];
        assert t[..i][|setup|] == Persist;
      }
    }
  }

  /** `jail`: the record is stored and saved before the role is added, so it stays even when the
      add fails. A failing role creation leaves the command before anything is stored. */
  method Jail(store: ModStore.Store, guild: Id, member: Id, now: int, view: GuildView, ok: Actuator)
    returns (raised: bool, roles: seq<string>, trace: seq<Effect>)
    modifies store
    ensures raised <==> !JailReturns(view, member, ok)
    ensures JailRole(view, ok).None? ==>
      && store.data == old(store.data) && store.saved == old(store.saved)
      && roles == view.roles && trace == [CreateRole(JailedRole, JailRolePerms)]
    ensures JailRole(view, ok).Some? ==>
      && store.data == ModStore.JailPut(old(store.data), member, ModStore.JailRecord(guild, now))
      && store.saved == store.data
      && FindRole(roles, JailedRole) == JailRole(view, ok)
      && trace == RoleSetup(view, JailedRole, JailRolePerms, JailOverwrite, ok)
                  + JailSteps(member, JailRole(view, ok).value, ok)
    ensures roles == if JailedRole !in view.roles && JailRole(view, ok).Some?
                     then view.roles + [JailedRole] else view.roles
  {
    var role;
    roles, role, trace := EnsureRole(view, JailedRole, JailRolePerms, JailOverwrite, ok);
    if role.None? {
      // `create_role` is outside any `try`: its failure leaves the command
      raised := true;
      return;
    }
    store.PutJail(member, ModStore.JailRecord(guild, now));
    var add := AddRole(member, role.value);
    var steps := [Persist, add];
    if ok(add) {
      steps := steps + [Reply(Jailed)];
    }
    if ok(add) && ok(Reply(Jailed)) {
      raised := false;
    } else {
      // the failure reply; when it fails too, the command raises
      steps := steps + [Reply(JailFailed)];
      raised := !ok(Reply(JailFailed));
    }
    trace := trace + steps;
  }

  /** `unjail`: the role is removed when the guild has one (a failure is ignored), then the record is
      removed and saved in every case. */
  method Unjail(store: ModStore.Store, member: Id, view: GuildView, ok: Actuator)
    returns (raised: bool, trace: seq<Effect>)
    modifies store
    ensures store.data == ModStore.JailPopped(old(store.data), member) && store.saved == store.data
    ensures JailedRole in view.roles ==>
      trace == [RemoveRole(member, FindRole(view.roles, JailedRole).value), Persist, Reply(Unjailed)]
    ensures JailedRole !in view.roles ==> trace == [Persist, Reply(Unjailed)]
    ensures raised <==> !ok(Reply(Unjailed))
  {
    trace := [];
    var role := FindRole(view.roles, JailedRole);
    if role.Some? {
      trace := [RemoveRole(member, role.value)];
    }
    store.PopJail(member);
    trace := trace + [Persist, Reply(Unjailed)];
    raised := !ok(Reply(Unjailed));
  }

  /** `tempjail` reaches its reversal when `jail` returns and the confirmation goes through. */
  ghost predicate TempJailReverses(view: GuildView, member: Id, ok: Actuator)
  {
    JailReturns(view, member, ok) && ok(Reply(TempJailed))
  }

  /** The calls of `jail`. */
  ghost function JailTrace(view: GuildView, member: Id, ok: Actuator): seq<Effect>
  {
    RoleSetup(view, JailedRole, JailRolePerms, JailOverwrite, ok)
      + if JailRole(view, ok).Some? then JailSteps(member, JailRole(view, ok).value, ok) else []
  }

  /** The calls of `tempjail`: those of `jail`, then, when `jail` returned, the confirmation and,
      when that went through, the wait and the calls of `unjail` on the guild `jail` left. */
  ghost function TempJailTrace(view: GuildView, member: Id, seconds: int, ok: Actuator): seq<Effect>
  {
    JailTrace(view, member, ok)
      + if !JailReturns(view, member, ok) then []
        else [Reply(TempJailed)]
             + if !ok(Reply(TempJailed)) then []
               else [Sleep(seconds), RemoveRole(member, JailRole(view, ok).value), Persist, Reply(Unjailed)]
  }

  /** `tempjail` removes the jail role once, right after the wait, exactly when `jail` returned and the
      confirmation went through, and it has added the role (or tried to) before. */
  lemma TempJailReversedOnce(view: GuildView, member: Id, seconds: int, ok: Actuator)
    requires JailRole(view, ok).Some?
    ensures var t := TempJailTrace(view, member, seconds, ok);
      var role := JailRole(view, ok).value;
      && ReversedOnceAfterWait(t, AddRole(member, role), seconds, RemoveRole(member, role))
      && (RemoveRole(member, role) in t <==> TempJailReverses(view, member, ok))
  {
    var role := JailRole(view, ok).value;
    var remove := RemoveRole(member, role);
    var jail := JailTrace(view, member, ok);
    var t := TempJailTrace(view, member, seconds, ok);
    RoleSetupCalls(view, JailedRole, JailRolePerms, JailOverwrite, ok);
    var setup := RoleSetup(view, JailedRole, JailRolePerms, JailOverwrite, ok);
    assert remove !in setup;
    assert remove !in JailSteps(member, role, ok);
    assert remove !in jail;
    if TempJailReverses(view, member, ok) {
      var applied := jail + [Reply(TempJailed)];
      assert AddRole(member, role) in JailSteps(member, role, ok);
      assert t == applied + [Sleep(seconds), remove] + [Persist, Reply(Unjailed)];
      ReversalAfterWait(applied, seconds, remove, [Persist, Reply(Unjailed)], AddRole(member, role));
    } else {
      assert t == jail || t == jail + [Reply(TempJailed)];
      assert remove !in t;
    }
  }

  /** `tempjail`: `jail`, a confirmation, the wait, then `unjail` with its failure ignored. The
      reversal does not depend on the role add having worked: `jail` swallows that failure. */
  method TempJail(store: ModStore.Store, guild: Id, member: Id, seconds: int, now: int,
                  view: GuildView, ok: Actuator)
    returns (trace: seq<Effect>)
    modifies store
    ensures trace == TempJailTrace(view, member, seconds, ok)
    // a failing role creation leaves everything as it was
    ensures JailRole(view, ok).None? ==>
      store.data == old(store.data) && store.saved == old(store.saved)
    // otherwise the record made by `jail` stays behind unless the reversal is reached
    ensures JailRole(view, ok).Some? ==>
      && store.saved == store.data
      && var jailed := ModStore.JailPut(old(store.data), member, ModStore.JailRecord(guild, now));
         store.data == if TempJailReverses(view, member, ok) then ModStore.JailPopped(jailed, member) else jailed
  {
    var raised, roles;
    raised, roles, trace := Jail(store, guild, member, now, view, ok);
    if raised {
      return;
    }
    trace := trace + [Reply(TempJailed)];
    if !ok(Reply(TempJailed)) {
      return;
    }
    trace := trace + [Sleep(seconds)];
    // the reversal runs with the guild as `jail` left it; its failure is ignored
    var _, undo := Unjail(store, member, GuildView(roles, view.channels), ok);
    trace := trace + undo;
  }

  // ---------------------------------------------------------------------------
  // tempjail as written

  /** `interaction.response.defer` returns only for an interaction not yet answered, and only when
      the platform call goes through; on an answered interaction it raises. */
  predicate DeferReturns(answered: bool, ok: Actuator)
  {
    !answered && ok(Defer)
  }

  /** `tempjail` as the code is written: it defers the interaction, then calls `jail_cmd`, the
      command object the decorator made of the jail function. Either that object cannot be called
      (`commandCallable` false), or the call runs the jail function, whose first line defers the
      interaction `tempjail` has just answered. Either way the nested call raises before any call of
      `jail`. The result says whether the command raised, and its calls. */
  function TempJailAsWritten(commandCallable: bool, ok: Actuator): (r: (bool, seq<Effect>))
    ensures r.0
    ensures Defer in r.1 && forall e :: e in r.1 ==> e == Defer
  {
    if !DeferReturns(false, ok) then (true, [Defer])
    // calling the command object raises
    else if !commandCallable then (true, [Defer])
    // the defer that opens `jail_cmd`, on an interaction already answered
    else (!DeferReturns(true, ok), [Defer, Defer])
  }

  /** As written, `tempjail` never jails: where the intended command stores and saves the record and
      adds the jail role, the command as written raises having made no call but its defers. */
  lemma TempJailAsWrittenNeverJails(view: GuildView, member: Id, seconds: int, commandCallable: bool, ok: Actuator)
    requires JailRole(view, ok).Some?
    ensures var add := AddRole(member, JailRole(view, ok).value);
      && Persist in TempJailTrace(view, member, seconds, ok) && add in TempJailTrace(view, member, seconds, ok)
      && Persist !in TempJailAsWritten(commandCallable, ok).1
      && add !in TempJailAsWritten(commandCallable, ok).1
  {
    var role := JailRole(view, ok).value;
    var steps := JailSteps(member, role, ok);
    assert steps[0] == Persist && steps[1] == AddRole(member, role);
    var jail := JailTrace(view, member, ok);
    assert jail == RoleSetup(view, JailedRole, JailRolePerms, JailOverwrite, ok) + steps;
    assert Persist in jail && AddRole(member, role) in jail;
    var t := TempJailTrace(view, member, seconds, ok);
    assert t[..|jail|] == jail;
  }
}
