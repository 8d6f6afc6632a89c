# Moderation core of a Discord security bot, in Dafny

This project models the moderation engine of `bot.py`, a Discord bot. It covers four parts:

- the sliding-window spam detector (`on_message`, `anti_spam_cleaner`, `antispam`);
- the edits of the moderation store `DATA` (`warn`, `warnings`, `clearwarns`, `tag`, `gettag`,
  `jail`, `unjail`, `setmodrole`, `setwelcome`, `backup`, and `save_data`);
- the temporary sanctions `tempban`, `tempmute` and `tempjail`, as sequences of platform calls;
- the small parsers: the id list of `massban` and the on/off toggle of `inviteblock`, `antiraid`
  and `safemode`.

Time is counted in integer ticks. Every call into Discord is an `Effect` that the model appends to a
trace. Whether a call returns or raises is decided by an `Actuator`, a function from effects to
booleans that stays abstract, so every proof holds for every outcome of each distinct call.
`Persist` and `Defer` are the exceptions: the model never asks the `Actuator` about `Persist`, and
asks about `Defer` only in `TempActions.TempJailAsWritten`.
`save_data` is the `Persist` effect and the `Store.saved` field: after each edit the file holds the
whole document.

Files, one module each:

- `common.dfy`: ids, effects and the role find-or-create (`_ensure_muted_role`, and the role set-up
  inside `jail`).
- `antispam.dfy`: pruning, the per-message verdict, the sweep, runs of messages, and the
  `SpamTracker` class that holds `SPAM_TRACK`, `SPAM_THRESHOLD` and `SPAM_WINDOW`.
- `store.dfy`: the `DATA` document, one function per edit, and the `Store` class that applies the
  edit in place and saves.
- `tempactions.dfy`: `tempban`, `tempmute`, `jail`, `unjail` and `tempjail`.
- `parsing.dfy`: the `massban` tokens, ids and ban loop, and the toggle parse.

Several behaviours of the code are easy to miss when reading it quickly, and a maintainer might not
intend them. The model follows the code:

- The threshold and window set by `antispam` are not validated: zero and negative values are
  accepted. There is one global pair, not one per guild.
- A message that trips the detector leaves the member's entry in the tracker as an empty list. The
  entry is deleted only by the next sweep.
- The sweep deletes members whose lists become empty. It never deletes a guild's map, even when the
  map becomes empty.
- `save_data` overwrites the file in place: there is no temporary file and no atomic rename. A data
  file that does not parse is not handled.
- There is no `tempactions` collection. Pending reversals live only in the running command and are
  lost on restart; there is no reconciliation at start-up.
- Jail records are keyed by member id alone, not by guild and member.
- A failing confirmation message after a ban or a mute leaves the command through its error path.
  The sanction then stays and is never reversed.

## Model

| member | source | states |
|---|---|---|
| Common.FindRole | bot.py:631 | the role found by name is the first role with that name; none is found exactly when no role has the name |
| Common.RoleSetupCalls | bot.py:232-243 | the find-or-create makes only role-creation and overwrite calls, and creates the role once when no role has the name, never otherwise |
| Common.EnsureRole | bot.py:232-243 | returns an existing role untouched, or creates one, appends it to the guild's roles and attempts one overwrite per channel whatever each overwrite's outcome; a failed creation yields no role and no overwrite; a second look-up finds the same role |
| AntiSpam.Prune | bot.py:96 | the pruned list is no longer than the list it came from, and every stamp in it is within the window of `now` |
| AntiSpam.PruneMembers | bot.py:96 | a stamp is kept exactly when it was in the list and lies within the window |
| AntiSpam.PruneAppend | bot.py:94-96 | pruning after appending `now` is pruning the earlier stamps and then appending `now` when `now` itself is in the window |
| AntiSpam.PruneKeepsOrder | bot.py:96 | the kept stamps are a subsequence of the list, in their original order |
| AntiSpam.PruneIdempotent | bot.py:72 | pruning a pruned list at the same time changes nothing |
| AntiSpam.Record | bot.py:94-113 | a message that trips leaves the member an empty list; one that does not leaves fewer stamps than the threshold, all within the window |
| AntiSpam.RecordAppendsThenPrunes | bot.py:94-97 | the verdict is true exactly when the list with `now` appended and then pruned reaches the threshold; the list kept is that pruned list, or empty after a trip |
| AntiSpam.Observed | bot.py:94-113 | a message changes only the sender's list in its guild, creating the guild and member entries when absent; every other member's list and every other guild is unchanged |
| AntiSpam.Swept | bot.py:67-74 | the sweep keeps every guild map, deletes no member that keeps a stamp, leaves no empty list and no stale stamp, and every list is the old list pruned |
| AntiSpam.SweptIdempotent | bot.py:67-74 | a second sweep at the same time changes nothing |
| AntiSpam.SweptKeepsOrder | bot.py:72 | each list after the sweep is a subsequence of the old one, in order |
| AntiSpam.BurstBelowThreshold | bot.py:94-97 | fewer messages than the threshold within one window never trip, and all their stamps are kept |
| AntiSpam.BurstTrips | bot.py:94-113 | exactly `threshold` messages within one window trip on the last message only, and the list is then empty |
| AntiSpam.SpacedOutNeverTrips | bot.py:94-97 | with a threshold of at least 2, messages spaced further apart than the window never trip, and only the last stamp is kept |
| AntiSpam.ThreeInFiveScenario | bot.py:94-113 | with threshold 3 and window 5, three messages within five ticks give the verdicts false, false, true and an empty list |
| AntiSpam.ThreeInFiveRestart | bot.py:94-113 | after that trip, the next message starts a fresh list of one stamp and does not trip |
| AntiSpam.OverwriteUntilFailure | bot.py:102-103 | the overwrite loop stops at the first failing overwrite; it completes exactly when every channel's overwrite succeeds |
| AntiSpam.SpamMuteRole | bot.py:98-105 | the spam handler gets a role exactly when `Muted` exists, or when it was created and every overwrite succeeded; a role created before a failing overwrite stays in the guild while the handler goes on without one |
| AntiSpam.MuteSpammer | bot.py:98-112 | with a role, the member gets it and the channel is told when the add succeeds; without a role, only the set-up calls are made; the guild gains the `Muted` role exactly when it had none and the creation succeeded, even when an overwrite then fails |
| AntiSpam.SpamTracker.constructor | bot.py:63-65 | the tracker starts empty; the threshold and window are the values of `SPAM_THRESHOLD` and `SPAM_WINDOW` when set, and 6 and 8 otherwise |
| AntiSpam.SpamTracker.Configure | bot.py:452-455 | threshold and window take the given values unchecked, or the defaults 6 and 8 for an argument left out, and the recorded stamps stay |
| AntiSpam.SpamTracker.OnMessage | bot.py:86-113 | messages of bots and direct messages change nothing; any other message updates the tracker as `Observed` does, and a trip attempts the mute and empties the list whatever became of the mute; on a trip the guild gains the `Muted` role exactly when it had none and the creation succeeded |
| AntiSpam.SpamTracker.Sweep | bot.py:67-74 | the tracker after the sweep is `Swept` of the tracker before; threshold and window are unchanged |
| AntiSpam.SpamTracker.SweepMembers | bot.py:71-74 | the members of one guild are pruned and the emptied ones deleted; the other guilds are unchanged |
| ModStore.WarningsShown | bot.py:311-313 | `warnings` shows nothing on a fresh document, exactly the warnings given, in order, after a run of `warn`, and nothing after `clearwarns` |
| ModStore.NoteOf | bot.py:620-623 | `gettag` never answers with empty text. A non-empty stored note is the answer. Any other answer is "No note.", as it is when no note is stored or the note is empty |
| ModStore.GetTagOfTagged | bot.py:609-623 | after one `tag`, `gettag` answers that note, or "No note." when the note is empty; on a fresh document it answers "No note." |
| ModStore.Warned | bot.py:294-301 | `warn` appends one warning at the end of that member's list, creating the list when absent, and changes no other list and no other collection |
| ModStore.WarnsCleared | bot.py:323-325 | `clearwarns` leaves that member no warnings and every other list as it was; it changes nothing when the guild or the member has no entry |
| ModStore.Tagged | bot.py:609-613 | `tag` sets that member's note and changes no other note |
| ModStore.JailPut | bot.py:640-641 | `jail` sets the member's record, whatever guild an earlier one came from, and changes no other record |
| ModStore.JailPopped | bot.py:660 | `unjail` removes the member's record only, and changes nothing when there is none |
| ModStore.Configured | bot.py:683-685 | one config key of one guild is written, and no other key of any guild changes |
| ModStore.BackedUp | bot.py:497-502 | the guild's snapshot is replaced and no other guild's snapshot changes |
| ModStore.WarnedInOrder | bot.py:294-301 | warning a member several times lists the warnings in the order given, after the earlier ones, and leaves every other list unchanged |
| ModStore.ClearWarnsIdempotent | bot.py:323-325 | clearing twice is clearing once |
| ModStore.GetTagAfterTag | bot.py:609-623 | after two tags, `gettag` answers the latest note, and the first tag leaves no trace |
| ModStore.UnjailIgnoresGuild | bot.py:641-660 | jailing a member in one guild and unjailing them leaves the jail records as unjailing alone does, whatever guild the record named |
| ModStore.Store.Fresh | bot.py:31-40 | without a data file the store starts with the empty document, written to the file |
| ModStore.Store.Load | bot.py:41-43 | with a data file the store starts with its document |
| ModStore.Store.Save | bot.py:45-47 | the file then holds the whole document in memory |
| ModStore.Store.Warn | bot.py:294-302 | the document is `Warned` of the old one, and the file is written |
| ModStore.Store.ClearWarns | bot.py:323-326 | the document is `WarnsCleared` of the old one; the file is written even when nothing was removed |
| ModStore.Store.Tag | bot.py:609-614 | the document is `Tagged` of the old one, and the file is written |
| ModStore.Store.PutJail | bot.py:640-642 | the document is `JailPut` of the old one, and the file is written |
| ModStore.Store.PopJail | bot.py:660-661 | the document is `JailPopped` of the old one, and the file is written |
| ModStore.Store.SetModRole | bot.py:681-686 | the guild's `modrole` is the role, and the file is written |
| ModStore.Store.SetWelcome | bot.py:752-757 | the guild's `welcome_channel` is the channel, or null when none is given, and the file is written |
| ModStore.Store.TakeBackup | bot.py:496-503 | the document is `BackedUp` of the old one, and the file is written |
| TempActions.TempBan | bot.py:173-190 | a failed ban, or a failed confirmation, ends in the error reply with no unban; otherwise there is one wait and one unban, whose failure is swallowed; the unban is attempted exactly when the ban and its confirmation went through, once, right after the wait, after the ban |
| TempActions.TempMuteReversedOnce | bot.py:275-288 | once `tempmute` holds a role, it removes it exactly when the add and the confirmation went through; the removal happens once, right after the wait, after the add, as the last call |
| TempActions.TempMute | bot.py:275-288 | a failed role creation ends in the error reply; otherwise the calls are the role set-up followed by the add, the confirmation, the wait and the removal, cut short by the error reply at the first failure; the guild gains the `Muted` role exactly when it had none and the creation succeeded, and its roles are otherwise unchanged |
| TempActions.JailSavesBeforeAdding | bot.py:640-644 | in every run of `jail` that reaches the role add, the record is saved before the add |
| TempActions.Jail | bot.py:629-647 | a failed role creation raises with nothing stored; otherwise the record is stored and saved before the add, and it stays whatever the add does; the command raises exactly when its last reply fails; the guild gains the `Jailed` role exactly when it had none and the creation succeeded |
| TempActions.Unjail | bot.py:652-662 | the role is removed when the guild has one, with any failure ignored; the record is removed and the file saved in every case; the command raises exactly when its reply fails |
| TempActions.TempJailReversedOnce | bot.py:667-675 | as intended (see Findings), `tempjail` removes the jail role exactly when `jail` returned and the confirmation went through; the removal happens once, right after the wait, after the add was attempted |
| TempActions.TempJail | bot.py:667-675 | as intended (see Findings), the calls are those of `jail`, the confirmation, the wait and those of `unjail`, each step reached only when the one before it returned; the record stays behind unless the reversal is reached, and then it is removed |
| TempActions.TempJailAsWritten | bot.py:667-669 | as written, `tempjail` always raises, and it makes no call but `defer`: there are two readings of the nested call, and under both it raises before `jail` does anything. Either calling the command object fails, or the `defer` that opens `jail_cmd` fails on the interaction already answered |
| TempActions.TempJailAsWrittenNeverJails | bot.py:629-675 | where the intended `tempjail` saves a jail record and adds the jail role, the command as written does neither |
| Parsing.Tokens | bot.py:404 | every token is non-empty and holds neither whitespace nor a comma |
| Parsing.SplitWord | bot.py:404 | a text with no separator splits into itself |
| Parsing.SplitAt | bot.py:404 | a whitespace character cuts the text in two, and the tokens are those of the left part followed by those of the right part, so runs of separators give no empty token and drop no word |
| Parsing.TokensAt | bot.py:404 | a comma, or a whitespace character, cuts an id list in two in the same way |
| Parsing.TokensOfWord | bot.py:404 | a word with no comma in it is exactly one token |
| Parsing.TokensCommaSpace | bot.py:401-404 | a list written `a, b`, with a comma and a space, reads as the two items |
| Parsing.SplitJoin | bot.py:404 | splitting words joined by a whitespace character gives the words back |
| Parsing.TokensOfCommaList | bot.py:404 | a comma-separated list like `123,456,789` reads back as exactly its items |
| Parsing.ParseDecimal | bot.py:407-409 | the decimal text of any id is all digits and parses back to that id |
| Parsing.DigitIdsComplete | bot.py:406-409 | the value of every all-digit token is among the ids tried; there are as many ids as tokens exactly when every token is digits |
| Parsing.DigitIdsSound | bot.py:406-409 | every id tried is the value of an all-digit token: the other tokens are skipped |
| Parsing.BannedExtremes | bot.py:410-414 | the count equals the number of ids exactly when every ban succeeds, and is zero exactly when none does |
| Parsing.BanEach | bot.py:406-414 | one ban per all-digit token, in order, each failure ignored; the count is the number of bans that went through |
| Parsing.Massban | bot.py:402-415 | the ban calls then the report of the count; the count is at most the number of all-digit tokens, which is at most the number of tokens |
| Parsing.ParseToggle | bot.py:424 | a toggle is on exactly when its text is one of `on`, `1`, `true`, `yes` in any mix of cases |
| Parsing.ToggleUpper | bot.py:445 | writing a toggle in capitals does not change its value |
| Parsing.ToggleExamples | bot.py:730 | `ON`, `Yes`, `1` and `TRUE` are on; `off`, ` on` (not stripped), `y` and the empty text are off |

## Left out

- Every Discord call is a trace effect. Its outcome is one `Actuator` per command, so two identical
  calls in one command fail or succeed alike; for example, a repeated id in a `massban` list gets the
  same ban outcome twice.
- `time.time()` is a float; the model uses integer ticks.
- `asyncio.sleep` and the `tasks.loop` period are a `Sleep` effect or left out. Handlers that run
  concurrently are not interleaved: each handler and each sweep runs to its end.
- `log` and the log channel are left out: they are output only, and their failures are swallowed.
- The JSON encoding of the data file, and the string keys it uses for ids, are left out: the saved
  file is the document itself.
- A data file that lacks one of the five top-level keys is left out. Only `backup` would then raise,
  for its direct `DATA["backups"]` access. The other store commands use `setdefault` or `.get`, and
  they behave as the model does with an empty collection.
- `save_data` always succeeds in the model: `Persist` does not consult the `Actuator`. A failing
  write would leave `warn`'s edit in memory only, and would make `jail` raise before the role add.
- `AntiSpam.SpamTracker.constructor`: an environment value that is not an integer makes `int` raise
  at start-up; the model takes the values as integers.
- Reply texts are left out. Replies are kept only as notices whose failure decides the control flow.
- The replies of the store commands are left out. They come after the save and change nothing.
- The `interaction.response.defer` that opens `tempban`, `tempmute`, `warn`, `massban`, `jail`,
  `unjail` and `tempjail` is not in their traces, except in `TempActions.TempJailAsWritten`. It is
  outside every `try`. When it fails, the command ends before any other call, and `warn`, `jail` and
  `unjail` then leave the store and the file unchanged. `ModStore.Store.Warn`, `TempActions.Jail`
  and `TempActions.Unjail` always make their edit and save.
- `TempActions.TempJail` and `TempActions.TempJailReversedOnce` model the intended `tempjail`: the
  bodies of `jail` and `unjail` run in turn. As written, the command raises before `jail` does
  anything, so no role is added, no record is stored, and there is no wait and no unjail (see
  Findings).
- `Parsing.IsDigits`: `str.isdigit` also accepts non-ASCII digits such as superscripts (and `int`
  then raises on some of them). The model accepts `0`-`9` only.
- `Parsing.Lower`: `str.lower` is modelled on ASCII letters only. No other character lowers to a
  letter of `on`, `true` or `yes`, so the toggle verdict is unaffected.
- `Parsing.ParseToggle`'s result is written to `INVITE_BLOCK`, `ANTI_RAID` or `SAFE_MODE`. Those maps
  are left out: nothing in the code reads them.
- The plain `ban`, `unban`, `kick`, `softban`, `mute` and `unmute` commands are left out, and so are
  `raidmode`, `purge`, `lock`, `slowmode`, `nuke`, role and channel management, audit and invite
  queries, and the placeholder commands.
- The `is_mod` permission check is left out.
- `WHITELIST` and `BLACKLIST` are left out.
- The slash-command sync at start-up is left out.
- `AntiSpam.SpamTracker.OnMessage` does not model the final `bot.process_commands` call, which
  hands the message to the text-command framework.

## Findings

| source | as written | input that shows it | evidently intended | confidence | as-written member | corrected member |
|---|---|---|---|---|---|---|
| bot.py:667-669 | `tempjail` defers the interaction and then calls `jail_cmd`, whose first line defers the same interaction again; the nested call raises before `jail` does anything under either reading of it: either the `app_commands.Command` object is not callable (a `TypeError`), or the call runs `jail_cmd`, whose `defer` on an interaction already answered raises `InteractionResponded` | any `tempjail` invocation, for instance on a member of a guild that already has a `Jailed` role | jail the member, confirm, wait, then unjail: the bodies of `jail` and `unjail` without a second `defer` | medium, not executed: both readings rest on the platform library's behaviour; `TempActions.TempJailAsWritten` takes the reading as a parameter | TempActions.TempJailAsWritten | TempActions.TempJail |
