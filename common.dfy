/** Identifiers, platform effects and the role look-up shared by the moderation commands.

    Every call the bot makes to the chat platform is recorded as an `Effect` in a trace.
    The platform is abstract: an `Actuator` says, for each call, whether it succeeds
    (returns normally) or fails (raises). */
module Common {

  /** Guild, member, channel and user ids (Discord snowflakes, never negative). */
  type Id = nat

  datatype Option<T> = None | Some(value: T)

  /** Permission flags the bot passes as keyword arguments when it builds roles and overwrites. */
  datatype Perm = SendMessages | Speak | ViewChannel

  /** The reply the bot sends back (to the invoker, or to the channel for the spam mute). */
  datatype Notice =
    | TempBanned | TempBanFailed | AutoUnbanned
    | TempMuted | TempMuteFailed
    | SpamMuted
    | Jailed | JailFailed | TempJailed | Unjailed
    | Massbanned(count: nat)

  /** One call into the chat platform (or into the process, for `Sleep` and `Persist`).
      Roles are named by their position in the guild's role list. `Defer` is
      `interaction.response.defer`, the first answer to a slash command. */
  datatype Effect =
    | CreateRole(name: string, perms: map<Perm, bool>)
    | SetOverwrite(channel: Id, role: nat, perms: map<Perm, bool>)
    | AddRole(member: Id, role: nat)
    | RemoveRole(member: Id, role: nat)
    | Ban(user: Id)
    | Unban(user: Id)
    | Reply(notice: Notice)
    | Sleep(seconds: int)
    | Persist
    | Defer

  /** The outcome of each platform call: true when it returns, false when it raises. */
  type Actuator = Effect -> bool

  /** The role every mute assigns. */
  const MutedRole: string := "Muted"

  /** The guild as the bot sees it: role names in platform order and the ids of its channels. */
  datatype GuildView = GuildView(roles: seq<string>, channels: seq<Id>)

  /** Number of occurrences of `e` in `trace`. */
  function CountOf(trace: seq<Effect>, e: Effect): (n: nat)
    ensures n <= |trace|
    ensures n == 0 <==> e !in trace
  {
    if trace == [] then 0
    else (if trace[0] == e then 1 else 0) + CountOf(trace[1..], e)
  }

  lemma {:induction false} CountOfAppend(a: seq<Effect>, b: seq<Effect>, e: Effect)
    ensures CountOf(a + b, e) == CountOf(a, e) + CountOf(b, e)
  {
    if a == [] {
      assert a + b == b;
    } else {
      assert (a + b)[1..] == a[1..] + b;
      CountOfAppend(a[1..], b, e);
    }
  }

  /** A non-empty sequence is its front followed by its last element. */
  lemma FrontLast<T>(s: seq<T>)
    requires s != []
    ensures s[..|s| - 1] + [s[|s| - 1]] == s
  {
  }

  /** Taking one more element of a sequence appends that element. */
  lemma TakeSnoc<T>(s: seq<T>, i: nat)
    requires i < |s|
    ensures s[..i + 1] == s[..i] + [s[i]]
  {
  }

  /** A second update of the same key overrides the first. */
  lemma UpdateTwice<K, V>(m: map<K, V>, k: K, a: V, b: V)
    ensures m[k := a][k := b] == m[k := b]
  {
  }

  /** The position of the first role called `name`, as `discord.utils.get(guild.roles, name=...)` finds it. */
  function FindRole(roles: seq<string>, name: string): (r: Option<nat>)
    ensures r.None? <==> name !in roles
    ensures r.Some? ==> r.value < |roles| && roles[r.value] == name
    ensures r.Some? ==> forall j :: 0 <= j < r.value ==> roles[j] != name
  {
    if roles == [] then None
    else if roles[0] == name then Some(0)
    else match FindRole(roles[1..], name)
      case None => None
      case Some(i) => Some(i + 1)
  }

  /** A role created after the guild's existing roles is found at the end, when no role had its name. */
  lemma FindRoleAppended(roles: seq<string>, name: string)
    requires name !in roles
    ensures FindRole(roles + [name], name) == Some(|roles|)
  {
    assert (roles + [name])[|roles|] == name;
  }

  /** The channel overwrites the bot applies to a freshly created role, channel by channel. */
  function Overwrites(channels: seq<Id>, role: nat, perms: map<Perm, bool>): (es: seq<Effect>)
    ensures |es| == |channels|
    ensures forall i :: 0 <= i < |channels| ==> es[i] == SetOverwrite(channels[i], role, perms)
  {
    seq(|channels|, i requires 0 <= i < |channels| => SetOverwrite(channels[i], role, perms))
  }

  /** The calls the find-or-create of a role makes: none when a role called `name` exists;
      otherwise the creation, followed (when it succeeds) by one overwrite per channel, each
      attempted whatever the outcome of the others. */
  function RoleSetup(view: GuildView, name: string, rolePerms: map<Perm, bool>,
                     overwrite: map<Perm, bool>, ok: Actuator): seq<Effect>
  {
    if name in view.roles then []
    else if !ok(CreateRole(name, rolePerms)) then [CreateRole(name, rolePerms)]
    else [CreateRole(name, rolePerms)] + Overwrites(view.channels, |view.roles|, overwrite)
  }

  /** The role the find-or-create ends with: the first existing one, the one it appended, or none
      when the creation failed. */
  function SetupRole(view: GuildView, name: string, rolePerms: map<Perm, bool>, ok: Actuator): Option<nat>
  {
    if name in view.roles then FindRole(view.roles, name)
    else if ok(CreateRole(name, rolePerms)) then Some(|view.roles|)
    else None
  }

  /** The find-or-create calls nothing but role set-up, and creates the role at most once: only
      when the guild has no role of that name. */
  lemma RoleSetupCalls(view: GuildView, name: string, rolePerms: map<Perm, bool>,
                       overwrite: map<Perm, bool>, ok: Actuator)
    ensures forall e :: e in RoleSetup(view, name, rolePerms, overwrite, ok) ==> e.CreateRole? || e.SetOverwrite?
    ensures CountOf(RoleSetup(view, name, rolePerms, overwrite, ok), CreateRole(name, rolePerms))
              == if name in view.roles then 0 else 1
  {
    var create := CreateRole(name, rolePerms);
    if name !in view.roles && ok(create) {
      var os := Overwrites(view.channels, |view.roles|, overwrite);
      CountOfAppend([create], os, create);
      assert create !in os;
      assert CountOf([create], create) == 1;
    }
  }

  /** Finds the role called `name` or creates it, then tries to apply `overwrite` to every channel,
      ignoring each overwrite that fails. Creating the role is not guarded: when it fails the
      caller sees the failure (`role == None`). This is `_ensure_muted_role` and the role set-up of
      the jail command. */
  method EnsureRole(view: GuildView, name: string, rolePerms: map<Perm, bool>,
                    overwrite: map<Perm, bool>, ok: Actuator)
    returns (roles: seq<string>, role: Option<nat>, trace: seq<Effect>)
    ensures trace == RoleSetup(view, name, rolePerms, overwrite, ok)
    ensures role == SetupRole(view, name, rolePerms, ok)
    // a created role is appended to the guild's roles; nothing else changes them
    ensures roles == if name !in view.roles && role.Some? then view.roles + [name] else view.roles
    // the role comes back from a second call without any call to the platform
    ensures role.Some? ==> FindRole(roles, name) == role
  {
    roles := view.roles;
    role := FindRole(view.roles, name);
    trace := [];
    if role.Some? {
      return;
    }
    var create := CreateRole(name, rolePerms);
    trace := [create];
    if !ok(create) {
      return;
    }
    var r := |view.roles|;
    roles := view.roles + [name];
    FindRoleAppended(view.roles, name);
    role := Some(r);
    var i := 0;
    while i < |view.channels|
      invariant 0 <= i <= |view.channels|
      invariant trace == [create] + Overwrites(view.channels[..i], r, overwrite)
    {
      // a failing overwrite is ignored: the loop goes on with the next channel
      trace := trace + [SetOverwrite(view.channels[i], r, overwrite)];
      i := i + 1;
    }
    assert view.channels[..i] == view.channels;
  }
}
