/** The moderation store `DATA`: warnings, jail records, backups, tags and per-guild config, kept in
    memory and written whole to the data file by `save_data` after every edit.

    Each edit is a function from document to document whose contract says what it changes and
    that it changes nothing else; the `Store` class applies it in place and then saves. The
    file's JSON encoding is not modelled: the saved file is the document itself. */
module ModStore {
  import opened Common

  datatype Warning = Warning(issuer: Id, reason: string, time: int)

  /** A jail record is keyed by member id alone and remembers the guild it was made in. */
  datatype JailRecord = JailRecord(guild: Id, time: int)

  /** The two config keys the commands write: `modrole` and `welcome_channel`. */
  datatype ConfigKey = ModRole | WelcomeChannel

  datatype RoleSnapshot = RoleSnapshot(name: string, perms: nat)
  datatype ChannelSnapshot = ChannelSnapshot(name: string, kind: string)
  datatype Backup = Backup(name: string, roles: seq<RoleSnapshot>, channels: seq<ChannelSnapshot>)

  /** The five top-level collections of the data file. */
  datatype Document = Document(
    warnings: map<Id, map<Id, seq<Warning>>>,
    jails: map<Id, JailRecord>,
    backups: map<Id, Backup>,
    tags: map<Id, map<Id, string>>,
    config: map<Id, map<ConfigKey, Option<Id>>>)

  /** The document written when no data file exists yet. */
  const Empty: Document := Document(map[], map[], map[], map[], map[])

  /** What `gettag` answers when there is no note. */
  const NoNote: string := "No note."

  // ---------------------------------------------------------------------------
  // Reading

  /** `warnings`: the member's warnings in the order they were given, none when absent. */
  function WarningsOf(d: Document, g: Id, m: Id): seq<Warning>
  {
    if g in d.warnings && m in d.warnings[g] then d.warnings[g][m] else []
  }

  function TagOf(d: Document, g: Id, m: Id): Option<string>
  {
    if g in d.tags && m in d.tags[g] then Some(d.tags[g][m]) else None
  }

  /** `gettag`: the stored note, or "No note." when there is none or it is empty (`note or "No note."`). */
  function NoteOf(d: Document, g: Id, m: Id): (s: string)
    // the answer is never empty; a non-empty stored note is the answer, and any other answer is "No note."
    ensures s != ""
    ensures s != NoNote ==> TagOf(d, g, m) == Some(s)
    ensures TagOf(d, g, m).Some? && TagOf(d, g, m).value != "" ==> s == TagOf(d, g, m).value
    ensures TagOf(d, g, m).None? ==> s == NoNote
  {
    match TagOf(d, g, m)
    case Some(note) => if note != "" then note else NoNote
    case None => NoNote
  }

  function ConfigOf(d: Document, g: Id, k: ConfigKey): Option<Option<Id>>
  {
    if g in d.config && k in d.config[g] then Some(d.config[g][k]) else None
  }

  // ---------------------------------------------------------------------------
  // Editing

  /** `warn`: one warning appended at the end of the member's list, created when missing. */
  function Warned(d: Document, g: Id, m: Id, w: Warning): (r: Document)
    ensures WarningsOf(r, g, m) == WarningsOf(d, g, m) + [w]
    ensures forall h: Id, n: Id :: (h, n) != (g, m) ==> WarningsOf(r, h, n) == WarningsOf(d, h, n)
    ensures r.warnings.Keys == d.warnings.Keys + {g} && m in r.warnings[g]
    ensures r == d.(warnings := r.warnings)
  {
    var members: map<Id, seq<Warning>> := if g in d.warnings then d.warnings[g] else map[];
    d.(warnings := d.warnings[g := members[m := WarningsOf(d, g, m) + [w]]])
  }

  /** `clearwarns`: the member's list removed from their guild's map; nothing happens when the guild has none. */
  function WarnsCleared(d: Document, g: Id, m: Id): (r: Document)
    ensures WarningsOf(r, g, m) == []
    ensures forall h: Id, n: Id :: (h, n) != (g, m) ==> WarningsOf(r, h, n) == WarningsOf(d, h, n)
    ensures r.warnings.Keys == d.warnings.Keys
    ensures g in d.warnings ==> r.warnings[g].Keys == d.warnings[g].Keys - {m}
    ensures g !in d.warnings || m !in d.warnings[g] ==> r == d
    ensures r == d.(warnings := r.warnings)
  {
    assert g in d.warnings && m !in d.warnings[g] ==> d.warnings[g] - {m} == d.warnings[g];
    if g in d.warnings then d.(warnings := d.warnings[g := d.warnings[g] - {m}]) else d
  }

  /** `tag`: the note for the member overwritten. */
  function Tagged(d: Document, g: Id, m: Id, note: string): (r: Document)
    ensures TagOf(r, g, m) == Some(note)
    ensures forall h: Id, n: Id :: (h, n) != (g, m) ==> TagOf(r, h, n) == TagOf(d, h, n)
    ensures r.tags.Keys == d.tags.Keys + {g}
    ensures r == d.(tags := r.tags)
  {
    var members: map<Id, string> := if g in d.tags then d.tags[g] else map[];
    d.(tags := d.tags[g := members[m := note]])
  }

  /** `jail`: the member's record set, whatever guild an earlier record came from. */
  function JailPut(d: Document, m: Id, rec: JailRecord): (r: Document)
    ensures m in r.jails && r.jails[m] == rec
    ensures r.jails.Keys == d.jails.Keys + {m}
    ensures forall n :: n in d.jails && n != m ==> r.jails[n] == d.jails[n]
    ensures r == d.(jails := r.jails)
  {
    d.(jails := d.jails[m := rec])
  }

  /** `unjail`: the member's record removed, whatever guild it came from; nothing happens when there is none. */
  function JailPopped(d: Document, m: Id): (r: Document)
    ensures r.jails.Keys == d.jails.Keys - {m}
    ensures forall n :: n in r.jails ==> r.jails[n] == d.jails[n]
    ensures m !in d.jails ==> r == d
    ensures r == d.(jails := r.jails)
  {
    d.(jails := d.jails - {m})
  }

  /** `setmodrole` and `setwelcome`: one key of the guild's config written. */
  function Configured(d: Document, g: Id, k: ConfigKey, v: Option<Id>): (r: Document)
    ensures ConfigOf(r, g, k) == Some(v)
    ensures forall h: Id, j :: (h, j) != (g, k) ==> ConfigOf(r, h, j) == ConfigOf(d, h, j)
    ensures r.config.Keys == d.config.Keys + {g}
    ensures r == d.(config := r.config)
  {
    var keys: map<ConfigKey, Option<Id>> := if g in d.config then d.config[g] else map[];
    d.(config := d.config[g := keys[k := v]])
  }

  /** `backup`: the guild's snapshot replaced. */
  function BackedUp(d: Document, g: Id, b: Backup): (r: Document)
    ensures g in r.backups && r.backups[g] == b
    ensures r.backups.Keys == d.backups.Keys + {g}
    ensures forall h :: h in d.backups && h != g ==> r.backups[h] == d.backups[h]
    ensures r == d.(backups := r.backups)
  {
    d.(backups := d.backups[g := b])
  }

  // ---------------------------------------------------------------------------
  // Properties across edits

  /** Warnings accumulate: each `warn` adds exactly one record at the end, in order. */
  lemma {:induction false} WarnedInOrder(d: Document, g: Id, m: Id, ws: seq<Warning>)
    ensures WarningsOf(WarnAll(d, g, m, ws), g, m) == WarningsOf(d, g, m) + ws
    ensures forall h: Id, n: Id :: (h, n) != (g, m) ==> WarningsOf(WarnAll(d, g, m, ws), h, n) == WarningsOf(d, h, n)
  {
    if ws != [] {
      var init := ws[..|ws| - 1];
      WarnedInOrder(d, g, m, init);
      assert init + [ws[|ws| - 1]] == ws;
    }
  }

  /** The document after warning the member with each of `ws` in turn. */
  function WarnAll(d: Document, g: Id, m: Id, ws: seq<Warning>): Document
  {
    if ws == [] then d else Warned(WarnAll(d, g, m, ws[..|ws| - 1]), g, m, ws[|ws| - 1])
  }

  /** What `warnings` shows: nothing on a fresh document, the warnings given in order after a run of
      `warn` on a fresh document, and nothing again after `clearwarns`. */
  lemma WarningsShown(d: Document, g: Id, m: Id, ws: seq<Warning>)
    ensures WarningsOf(Empty, g, m) == []
    ensures WarningsOf(WarnAll(Empty, g, m, ws), g, m) == ws
    ensures WarningsOf(WarnsCleared(WarnAll(d, g, m, ws), g, m), g, m) == []
  {
    WarnedInOrder(Empty, g, m, ws);
  }

  /** `gettag` after one `tag` answers that note, or "No note." when it is empty; with no tag it
      answers "No note.". */
  lemma GetTagOfTagged(d: Document, g: Id, m: Id, note: string)
    ensures NoteOf(Tagged(d, g, m, note), g, m) == if note == "" then NoNote else note
    ensures NoteOf(Empty, g, m) == NoNote
  {
  }

  /** After `clearwarns`, `warnings` shows none, and a second `clearwarns` changes nothing. */
  lemma ClearWarnsIdempotent(d: Document, g: Id, m: Id)
    ensures WarnsCleared(WarnsCleared(d, g, m), g, m) == WarnsCleared(d, g, m)
  {
  }

  /** `gettag` answers the most recent `tag` (or "No note." when the note is empty). */
  lemma GetTagAfterTag(d: Document, g: Id, m: Id, first: string, latest: string)
    ensures NoteOf(Tagged(Tagged(d, g, m, first), g, m, latest), g, m) == if latest == "" then NoNote else latest
    ensures Tagged(Tagged(d, g, m, first), g, m, latest) == Tagged(d, g, m, latest)
  {
    var once, twice := Tagged(d, g, m, latest), Tagged(Tagged(d, g, m, first), g, m, latest);
    assert twice.tags[g] == once.tags[g];
    assert twice.tags == once.tags;
  }

  /** Jail records are keyed by member alone: unjailing in any guild removes a record made in another. */
  lemma UnjailIgnoresGuild(d: Document, m: Id, jailedIn: Id, time: int)
    ensures m !in JailPopped(JailPut(d, m, JailRecord(jailedIn, time)), m).jails
    ensures JailPopped(JailPut(d, m, JailRecord(jailedIn, time)), m) == JailPopped(d, m)
  {
  }

  // ---------------------------------------------------------------------------
  // The store

  /** `DATA` in memory and the data file on disk. */
  class Store {
    var data: Document
    /** The document as `save_data` last wrote it. */
    var saved: Document

    /** Start-up without a data file: the empty document, written at once. */
    constructor Fresh()
      ensures data == Empty && saved == Empty
    {
      data := Empty;
      saved := Empty;
    }

    /** Start-up with a data file: its document is taken as it is. */
    constructor Load(file: Document)
      ensures data == file && saved == file
    {
      data := file;
      saved := file;
    }

    /** `save_data`: the whole document written to the file. */
    method Save()
      modifies this
      ensures data == old(data) && saved == data
    {
      saved := data;
    }

    method Warn(g: Id, m: Id, issuer: Id, reason: string, now: int)
      modifies this
      ensures data == Warned(old(data), g, m, Warning(issuer, reason, now)) && saved == data
    {
      // setdefault on the guild map and on the member's list, then append
      var members: map<Id, seq<Warning>> := if g in data.warnings then data.warnings[g] else map[];
      var list: seq<Warning> := if m in members then members[m] else [];
      data := data.(warnings := data.warnings[g := members[m := list + [Warning(issuer, reason, now)]]]);
      Save();
    }

    method ClearWarns(g: Id, m: Id)
      modifies this
      ensures data == WarnsCleared(old(data), g, m) && saved == data
    {
      if g in data.warnings {
        data := data.(warnings := data.warnings[g := data.warnings[g] - {m}]);
      }
      // the file is written even when nothing was removed
      Save();
    }

    method Tag(g: Id, m: Id, note: string)
      modifies this
      ensures data == Tagged(old(data), g, m, note) && saved == data
    {
      var members: map<Id, string> := if g in data.tags then data.tags[g] else map[];
      data := data.(tags := data.tags[g := members[m := note]]);
      Save();
    }

    method PutJail(m: Id, rec: JailRecord)
      modifies this
      ensures data == JailPut(old(data), m, rec) && saved == data
    {
      data := data.(jails := data.jails[m := rec]);
      Save();
    }

    method PopJail(m: Id)
      modifies this
      ensures data == JailPopped(old(data), m) && saved == data
    {
      data := data.(jails := data.jails - {m});
      Save();
    }

    /** `setmodrole`. */
    method SetModRole(g: Id, role: Id)
      modifies this
      ensures data == Configured(old(data), g, ModRole, Some(role)) && saved == data
    {
      var keys: map<ConfigKey, Option<Id>> := if g in data.config then data.config[g] else map[];
      data := data.(config := data.config[g := keys[ModRole := Some(role)]]);
      Save();
    }

    /** `setwelcome`: the channel, or null when none is given. */
    method SetWelcome(g: Id, channel: Option<Id>)
      modifies this
      ensures data == Configured(old(data), g, WelcomeChannel, channel) && saved == data
    {
      var keys: map<ConfigKey, Option<Id>> := if g in data.config then data.config[g] else map[];
      data := data.(config := data.config[g := keys[WelcomeChannel := channel]]);
      Save();
    }

    /** `backup`: the guild's name, roles and channels as read from the platform. */
    method TakeBackup(g: Id, b: Backup)
      modifies this
      ensures data == BackedUp(old(data), g, b) && saved == data
    {
      data := data.(backups := data.backups[g := b]);
      Save();
    }
  }
}
