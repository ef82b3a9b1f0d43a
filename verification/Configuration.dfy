/** Declarative configuration: the diff against what is installed, and applying it as one
    transaction. */
module Configuration {
  import opened Wrappers
  import opened Ordering
  import Paths

  datatype EntryConfig = EntryConfig(id: Id, plugin: Id, config: Id, enabled: bool, preference: map<Id, Id>)

  datatype Config = Config(plugins: seq<EntryConfig>, preferences: map<Id, Id>)

  /** `stable_hash`, as a free constructor. */
  datatype Fingerprint = Fingerprint(plugin: Id, config: Id)

  /** An installed entry, named by the manifest of the class behind it. */
  datatype Installed = Installed(manifest: Id, config: Id, revision: nat)
  {
    function Print(): Fingerprint { Fingerprint(manifest, config) }
  }

  type Entries = map<Id, Installed>

  function Wanted(plugins: seq<EntryConfig>): (r: map<Id, EntryConfig>)
    ensures forall id :: id in r ==> r[id] in plugins && r[id].enabled && r[id].id == id
    ensures forall e :: e in plugins && e.enabled ==> e.id in r
  {
    if plugins == [] then map[]
    else
      var last := |plugins| - 1;
      assert plugins == plugins[..last] + [plugins[last]];
      var r := Wanted(plugins[..last]);
      if plugins[last].enabled then r[plugins[last].id := plugins[last]] else r
  }

  /** Of several enabled entries of one id the last counts. */
  lemma {:induction false} WantedIsLast(plugins: seq<EntryConfig>, i: nat)
    requires i < |plugins| && plugins[i].enabled
    requires forall j :: i < j < |plugins| && plugins[j].enabled ==> plugins[j].id != plugins[i].id
    ensures plugins[i].id in Wanted(plugins) && Wanted(plugins)[plugins[i].id] == plugins[i]
    decreases |plugins|
  {
    var last := |plugins| - 1;
    WantedUnfolds(plugins);
    hide Wanted;
    if i < last {
      var front := plugins[..last];
      assert forall j :: 0 <= j < last ==> front[j] == plugins[j];
      WantedIsLast(front, i);
    }
  }

  lemma WantedUnfolds(plugins: seq<EntryConfig>)
    requires plugins != []
    ensures var (last, front) := (plugins[|plugins| - 1], Wanted(plugins[..|plugins| - 1]));
      Wanted(plugins) == if last.enabled then front[last.id := last] else front
  {
  }

  // ---- The diff

  datatype Action = Add | Remove | Unchanged | Replace

  datatype Change = Change(action: Action, id: Id)

  /** For an id that is wanted or installed. */
  function ActionFor(wanted: map<Id, EntryConfig>, installed: Entries, id: Id): Action {
    if id !in installed then Add
    else if id !in wanted then Remove
    else if wanted[id].plugin != installed[id].manifest then Replace
    else if Fingerprint(wanted[id].plugin, wanted[id].config) != installed[id].Print() then Replace
    else Unchanged
  }

  function Ids(wanted: map<Id, EntryConfig>, installed: Entries): (ids: seq<Id>)
    ensures Distinct(ids)
    ensures forall i :: 0 <= i < |ids| ==> ids[i] in wanted || ids[i] in installed
    ensures forall id :: id in wanted || id in installed ==> id in ids
    ensures forall i, j :: 0 <= i < j < |ids| ==> Before(ids[i], ids[j])
  {
    var ids := Sorted(wanted.Keys + installed.Keys);
    assert forall i :: 0 <= i < |ids| ==> ids[i] in ids;
    ids
  }

  /** One change for every id wanted or installed, in id order. */
  ghost predicate IsDiff(wanted: map<Id, EntryConfig>, installed: Entries, changes: seq<Change>) {
    var ids := Ids(wanted, installed);
    |changes| == |ids| && forall i :: 0 <= i < |ids| ==> changes[i] == Change(ActionFor(wanted, installed, ids[i]), ids[i])
  }

  method DiffDesiredState(desired: Config, installed: Entries) returns (changes: seq<Change>)
    ensures IsDiff(Wanted(desired.plugins), installed, changes)
    ensures forall k :: 0 <= k < |changes| ==> SaysWhy(Wanted(desired.plugins), installed, changes[k])
    ensures forall id :: id in Wanted(desired.plugins) || id in installed ==> exists k :: 0 <= k < |changes| && changes[k].id == id
    ensures forall j, k :: 0 <= j < k < |changes| ==> Before(changes[j].id, changes[k].id)
  {
    var wanted := Wanted(desired.plugins);
    changes := [];
    var ids := Ids(wanted, installed);
    hide Ids, Before, SaysWhy;
    for i := 0 to |ids|
      invariant |changes| == i
      invariant forall k :: 0 <= k < i ==> changes[k] == Change(ActionFor(wanted, installed, ids[k]), ids[k])
    {
      var id := ids[i];
      if id in wanted && id !in installed {
        changes := changes + [Change(Add, id)];
        continue;
      }
      if id !in wanted && id in installed {
        changes := changes + [Change(Remove, id)];
        continue;
      }
      assert id in wanted && id in installed;
      if wanted[id].plugin != installed[id].manifest {
        changes := changes + [Change(Replace, id)];
        continue;
      }
      if Fingerprint(wanted[id].plugin, wanted[id].config) != installed[id].Print() {
        changes := changes + [Change(Replace, id)];
        continue;
      }
      changes := changes + [Change(Unchanged, id)];
    }
    ChangesSayWhy(wanted, installed, changes);
  }

  /** What each change says, by the fields: an entry is left alone exactly when what is installed
      has the wanted name and the wanted configuration. */
  ghost predicate SaysWhy(wanted: map<Id, EntryConfig>, installed: Entries, c: Change) {
    && (c.action == Add <==> c.id in wanted && c.id !in installed)
    && (c.action == Remove <==> c.id !in wanted && c.id in installed)
    && (c.action == Unchanged <==>
          && c.id in wanted && c.id in installed
          && installed[c.id].manifest == wanted[c.id].plugin && installed[c.id].config == wanted[c.id].config)
    && (c.action == Replace <==>
          && c.id in wanted && c.id in installed
          && (installed[c.id].manifest != wanted[c.id].plugin || installed[c.id].config != wanted[c.id].config))
  }

  lemma ChangesSayWhy(wanted: map<Id, EntryConfig>, installed: Entries, changes: seq<Change>)
    requires IsDiff(wanted, installed, changes)
    ensures forall k :: 0 <= k < |changes| ==> SaysWhy(wanted, installed, changes[k])
    ensures forall id :: id in wanted || id in installed ==> exists k :: 0 <= k < |changes| && changes[k].id == id
    ensures forall j, k :: 0 <= j < k < |changes| ==> Before(changes[j].id, changes[k].id)
  {
    hide ActionFor, SaysWhy;
    forall k | 0 <= k < |changes| ensures SaysWhy(wanted, installed, changes[k]) {
      DiffAt(wanted, installed, changes, k);
      ActionSaysWhy(wanted, installed, changes[k]);
    }
    forall id | id in wanted || id in installed ensures exists k :: 0 <= k < |changes| && changes[k].id == id {
      var k := DiffCovers(wanted, installed, changes, id);
    }
  }

  lemma ActionSaysWhy(wanted: map<Id, EntryConfig>, installed: Entries, c: Change)
    requires (c.id in wanted || c.id in installed) && c.action == ActionFor(wanted, installed, c.id)
    ensures SaysWhy(wanted, installed, c)
  {
  }

  // ---- What applying the changes makes of the entries

  /** The catalog maps an implementation name to the manifest name of its class. */
  type Catalog = map<Id, Id>

  datatype Tables = Tables(entries: Entries, revisions: map<Id, nat>)
  {
    function Capture(id: Id): Captured {
      Captured(if id in entries then Some(entries[id]) else None, if id in revisions then Some(revisions[id]) else None)
    }

    function Restore(id: Id, c: Captured): Tables {
      Tables(if c.entry.None? then entries - {id} else entries[id := c.entry.value],
             if c.revision.None? then revisions - {id} else revisions[id := c.revision.value])
    }

    function NextRevision(id: Id): nat {
      (if id in revisions then revisions[id] else 0) + 1
    }

    function Install(id: Id, manifest: Id, config: Id): Tables {
      Tables(entries[id := Installed(manifest, config, NextRevision(id))], revisions[id := NextRevision(id)])
    }
  }

  /** Installing files the entry under the next revision, and remembers that as the last one given
      out; no other entry and no other revision moves. */
  lemma InstallMeans(t: Tables, id: Id, manifest: Id, config: Id, other: Id)
    ensures var u := t.Install(id, manifest, config);
      && id in u.entries && id in u.revisions && u.entries[id] == Installed(manifest, config, u.revisions[id])
      && u.revisions[id] == (if id in t.revisions then t.revisions[id] else 0) + 1
      && (other != id ==> u.Capture(other) == t.Capture(other))
  {
  }

  datatype Captured = Captured(entry: Option<Installed>, revision: Option<nat>)

  function ApplyOne(t: Tables, wanted: map<Id, EntryConfig>, catalog: Catalog, c: Change): Tables {
    match c.action
    case Unchanged => t
    case Remove => t.(entries := t.entries - {c.id})
    case _ =>
      if c.id in wanted && wanted[c.id].plugin in catalog
      then t.Install(c.id, catalog[wanted[c.id].plugin], wanted[c.id].config)
      else t
  }

  function ApplyAll(t: Tables, wanted: map<Id, EntryConfig>, catalog: Catalog, changes: seq<Change>): Tables {
    if changes == [] then t
    else
      var last := |changes| - 1;
      ApplyOne(ApplyAll(t, wanted, catalog, changes[..last]), wanted, catalog, changes[last])
  }

  ghost predicate DistinctChanges(changes: seq<Change>) {
    forall i, j :: 0 <= i < j < |changes| ==> changes[i].id != changes[j].id
  }

  lemma {:induction false} UntouchedEntry(t: Tables, wanted: map<Id, EntryConfig>, catalog: Catalog, changes: seq<Change>, id: Id)
    requires forall c :: c in changes ==> c.id != id
    ensures ApplyAll(t, wanted, catalog, changes).Capture(id) == t.Capture(id)
    decreases |changes|
  {
    if changes != [] {
      UntouchedEntry(t, wanted, catalog, changes[..|changes| - 1], id);
      assert changes[|changes| - 1] in changes;
    }
  }

  /** What the last change does to an id depends on that id's own entry alone. */
  lemma LastApplied(t: Tables, wanted: map<Id, EntryConfig>, catalog: Catalog, changes: seq<Change>, id: Id)
    requires changes != []
    ensures var last := |changes| - 1;
      var before := ApplyAll(t, wanted, catalog, changes[..last]);
      && (changes[last].id != id ==> ApplyAll(t, wanted, catalog, changes).Capture(id) == before.Capture(id))
      && (before.Capture(id) == t.Capture(id) && changes[last].id == id ==>
            ApplyAll(t, wanted, catalog, changes).Capture(id) == ApplyOne(t, wanted, catalog, changes[last]).Capture(id))
  {
    var last := |changes| - 1;
    var before := ApplyAll(t, wanted, catalog, changes[..last]);
    assert ApplyAll(t, wanted, catalog, changes) == ApplyOne(before, wanted, catalog, changes[last]);
    hide ApplyAll;
    OneLeavesOthers(before, wanted, catalog, changes[last], id);
    if before.Capture(id) == t.Capture(id) && changes[last].id == id {
      OneSeesItsOwn(before, t, wanted, catalog, changes[last]);
    }
  }

  lemma OneLeavesOthers(t: Tables, wanted: map<Id, EntryConfig>, catalog: Catalog, c: Change, id: Id)
    ensures c.id != id ==> ApplyOne(t, wanted, catalog, c).Capture(id) == t.Capture(id)
  {
  }

  lemma OneSeesItsOwn(t: Tables, u: Tables, wanted: map<Id, EntryConfig>, catalog: Catalog, c: Change)
    requires t.Capture(c.id) == u.Capture(c.id)
    ensures ApplyOne(t, wanted, catalog, c).Capture(c.id) == ApplyOne(u, wanted, catalog, c).Capture(c.id)
  {
  }

  /** An id is left as its one change leaves it. */
  lemma {:induction false} TouchedEntry(t: Tables, wanted: map<Id, EntryConfig>, catalog: Catalog, changes: seq<Change>, k: nat)
    requires DistinctChanges(changes) && k < |changes|
    ensures ApplyAll(t, wanted, catalog, changes).Capture(changes[k].id) == ApplyOne(t, wanted, catalog, changes[k]).Capture(changes[k].id)
    decreases |changes|
  {
    hide ApplyAll, ApplyOne, Tables.Capture;
    var last := |changes| - 1;
    var front := changes[..last];
    LastApplied(t, wanted, catalog, changes, changes[k].id);
    if k == last {
      UntouchedEntry(t, wanted, catalog, front, changes[k].id);
    } else {
      TouchedEntry(t, wanted, catalog, front, k);
    }
  }

  lemma DiffIsDistinct(wanted: map<Id, EntryConfig>, installed: Entries, changes: seq<Change>)
    requires IsDiff(wanted, installed, changes)
    ensures DistinctChanges(changes)
  {
    hide Ids, ActionFor;
  }

  lemma DiffAt(wanted: map<Id, EntryConfig>, installed: Entries, changes: seq<Change>, k: nat)
    requires IsDiff(wanted, installed, changes) && k < |changes|
    ensures changes[k].id in wanted || changes[k].id in installed
    ensures changes[k].action == ActionFor(wanted, installed, changes[k].id)
  {
    hide Ids, ActionFor;
  }

  lemma DiffCovers(wanted: map<Id, EntryConfig>, installed: Entries, changes: seq<Change>, id: Id) returns (k: nat)
    requires IsDiff(wanted, installed, changes) && (id in wanted || id in installed)
    ensures k < |changes| && changes[k].id == id
  {
    hide ActionFor;
    var ids := Ids(wanted, installed);
    k :| 0 <= k < |ids| && ids[k] == id;
  }

  // ---- Convergence

  /** The class a change would install is known to the catalog by its manifest's own name. */
  predicate NamedAsListed(wanted: map<Id, EntryConfig>, catalog: Catalog, changes: seq<Change>) {
    forall c :: c in changes && (c.action == Add || c.action == Replace) ==>
      c.id in wanted && wanted[c.id].plugin in catalog && catalog[wanted[c.id].plugin] == wanted[c.id].plugin
  }

  /** Where every change leaves its entry. */
  lemma AppliedEntries(t: Tables, wanted: map<Id, EntryConfig>, catalog: Catalog, changes: seq<Change>, id: Id)
    requires IsDiff(wanted, t.entries, changes)
    requires forall id :: id in wanted ==> wanted[id].plugin in catalog
    ensures var u := ApplyAll(t, wanted, catalog, changes);
      && (id in u.entries <==> id in wanted)
      && (id in wanted ==>
            if ActionFor(wanted, t.entries, id) == Unchanged then u.entries[id] == t.entries[id]
            else u.entries[id] == Installed(catalog[wanted[id].plugin], wanted[id].config, t.NextRevision(id)))
  {
    hide IsDiff, ApplyAll;
    var u := ApplyAll(t, wanted, catalog, changes);
    DiffIsDistinct(wanted, t.entries, changes);
    if id in wanted || id in t.entries {
      var k := DiffCovers(wanted, t.entries, changes, id);
      DiffAt(wanted, t.entries, changes, k);
      TouchedEntry(t, wanted, catalog, changes, k);
      assert u.Capture(id) == ApplyOne(t, wanted, catalog, changes[k]).Capture(id);
    } else {
      forall c | c in changes ensures c.id != id {
        var k :| 0 <= k < |changes| && changes[k] == c;
        DiffAt(wanted, t.entries, changes, k);
      }
      UntouchedEntry(t, wanted, catalog, changes, id);
      assert u.Capture(id) == t.Capture(id);
    }
  }

  /** After a successful apply the installed ids are the enabled ones, and a fresh diff finds
      everything unchanged exactly when each class it installed is listed under its own name. */
  lemma Converges(t: Tables, wanted: map<Id, EntryConfig>, catalog: Catalog, changes: seq<Change>, next: seq<Change>)
    requires IsDiff(wanted, t.entries, changes)
    requires forall id :: id in wanted ==> wanted[id].plugin in catalog
    requires IsDiff(wanted, ApplyAll(t, wanted, catalog, changes).entries, next)
    ensures ApplyAll(t, wanted, catalog, changes).entries.Keys == wanted.Keys
    ensures (forall c :: c in next ==> c.action == Unchanged) <==> NamedAsListed(wanted, catalog, changes)
  {
    hide IsDiff, ApplyAll, ActionFor, NamedAsListed;
    var u := ApplyAll(t, wanted, catalog, changes);
    forall id ensures id in u.entries <==> id in wanted {
      AppliedEntries(t, wanted, catalog, changes, id);
    }
    if NamedAsListed(wanted, catalog, changes) {
      forall c | c in next ensures c.action == Unchanged {
        var k :| 0 <= k < |next| && next[k] == c;
        DiffAt(wanted, u.entries, next, k);
        SettledWhenListed(t, wanted, catalog, changes, c.id);
      }
    }
    if forall c :: c in next ==> c.action == Unchanged {
      ListedWhenSettled(t, wanted, catalog, changes, next);
    }
  }

  lemma ListedWhenSettled(t: Tables, wanted: map<Id, EntryConfig>, catalog: Catalog, changes: seq<Change>, next: seq<Change>)
    requires IsDiff(wanted, t.entries, changes)
    requires forall id :: id in wanted ==> wanted[id].plugin in catalog
    requires IsDiff(wanted, ApplyAll(t, wanted, catalog, changes).entries, next)
    requires forall c :: c in next ==> c.action == Unchanged
    ensures NamedAsListed(wanted, catalog, changes)
  {
    hide IsDiff, ApplyAll;
    var u := ApplyAll(t, wanted, catalog, changes);
    forall c | c in changes && (c.action == Add || c.action == Replace)
      ensures c.id in wanted && wanted[c.id].plugin in catalog && catalog[wanted[c.id].plugin] == wanted[c.id].plugin
    {
      var i :| 0 <= i < |changes| && changes[i] == c;
      DiffAt(wanted, t.entries, changes, i);
      AppliedEntries(t, wanted, catalog, changes, c.id);
      var k := DiffCovers(wanted, u.entries, next, c.id);
      DiffAt(wanted, u.entries, next, k);
      assert next[k] in next;
    }
  }

  lemma SettledWhenListed(t: Tables, wanted: map<Id, EntryConfig>, catalog: Catalog, changes: seq<Change>, id: Id)
    requires IsDiff(wanted, t.entries, changes) && NamedAsListed(wanted, catalog, changes)
    requires forall id :: id in wanted ==> wanted[id].plugin in catalog
    requires id in wanted || id in ApplyAll(t, wanted, catalog, changes).entries
    ensures ActionFor(wanted, ApplyAll(t, wanted, catalog, changes).entries, id) == Unchanged
  {
    hide IsDiff, ApplyAll;
    AppliedEntries(t, wanted, catalog, changes, id);
    var k := DiffCovers(wanted, t.entries, changes, id);
    DiffAt(wanted, t.entries, changes, k);
    assert changes[k] in changes;
  }

  /** How an applied configuration leaves an enabled entry: as it was, if that was already what is
      wanted, else installed anew under the next revision. In both cases with the wanted settings. */
  ghost predicate InstalledAs(t: Tables, e: EntryConfig, catalog: Catalog, now: Installed) {
    && now.config == e.config
    && if e.id in t.entries && t.entries[e.id].manifest == e.plugin && t.entries[e.id].config == e.config
       then now == t.entries[e.id]
       else e.plugin in catalog && now.manifest == catalog[e.plugin]
            && now.revision == (if e.id in t.revisions then t.revisions[e.id] else 0) + 1
  }

  lemma AppliedIsWanted(t: Tables, wanted: map<Id, EntryConfig>, catalog: Catalog, changes: seq<Change>, id: Id)
    requires IsDiff(wanted, t.entries, changes) && id in wanted && wanted[id].id == id
    requires forall id :: id in wanted ==> wanted[id].plugin in catalog
    ensures id in ApplyAll(t, wanted, catalog, changes).entries
    ensures InstalledAs(t, wanted[id], catalog, ApplyAll(t, wanted, catalog, changes).entries[id])
  {
    hide IsDiff, ApplyAll;
    AppliedEntries(t, wanted, catalog, changes, id);
    ActionSaysWhy(wanted, t.entries, Change(ActionFor(wanted, t.entries, id), id));
  }

  /** The entry is enabled and none after it with the same id is. */
  ghost predicate LastOfItsId(plugins: seq<EntryConfig>, i: nat)
    requires i < |plugins|
  {
    plugins[i].enabled && forall j :: i < j < |plugins| && plugins[j].enabled ==> plugins[j].id != plugins[i].id
  }

  predicate IsEnabled(plugins: seq<EntryConfig>, id: Id) {
    exists e :: e in plugins && e.enabled && e.id == id
  }

  /** The entries after an applied configuration: one for each enabled id, as wanted. */
  ghost predicate InstallsWanted(t: Tables, desired: Config, catalog: Catalog, now: Entries) {
    && (forall id :: id in now <==> IsEnabled(desired.plugins, id))
    && forall i: nat :: i < |desired.plugins| && LastOfItsId(desired.plugins, i) ==>
         desired.plugins[i].id in now && InstalledAs(t, desired.plugins[i], catalog, now[desired.plugins[i].id])
  }

  lemma AppliedInstallsWanted(t: Tables, desired: Config, catalog: Catalog, changes: seq<Change>)
    requires IsDiff(Wanted(desired.plugins), t.entries, changes) && AllListed(Wanted(desired.plugins), catalog)
    ensures InstallsWanted(t, desired, catalog, ApplyAll(t, Wanted(desired.plugins), catalog, changes).entries)
  {
    hide *;
    var now := ApplyAll(t, Wanted(desired.plugins), catalog, changes).entries;
    forall id ensures id in now <==> IsEnabled(desired.plugins, id) {
      AppliedIsEnabled(t, desired.plugins, catalog, changes, id);
    }
    forall i: nat | i < |desired.plugins| && LastOfItsId(desired.plugins, i)
      ensures desired.plugins[i].id in now && InstalledAs(t, desired.plugins[i], catalog, now[desired.plugins[i].id])
    {
      LastIsInstalled(t, desired.plugins, catalog, changes, i);
    }
    InstallsByEntry(t, desired, catalog, now);
  }

  lemma InstallsByEntry(t: Tables, desired: Config, catalog: Catalog, now: Entries)
    requires forall id :: id in now <==> IsEnabled(desired.plugins, id)
    requires forall i: nat :: i < |desired.plugins| && LastOfItsId(desired.plugins, i) ==>
               desired.plugins[i].id in now && InstalledAs(t, desired.plugins[i], catalog, now[desired.plugins[i].id])
    ensures InstallsWanted(t, desired, catalog, now)
  {
    hide IsEnabled, LastOfItsId, InstalledAs;
  }

  lemma AppliedIsEnabled(t: Tables, plugins: seq<EntryConfig>, catalog: Catalog, changes: seq<Change>, id: Id)
    requires IsDiff(Wanted(plugins), t.entries, changes) && AllListed(Wanted(plugins), catalog)
    ensures id in ApplyAll(t, Wanted(plugins), catalog, changes).entries <==> IsEnabled(plugins, id)
  {
    hide IsDiff, ApplyAll, ActionFor;
    AppliedEntries(t, Wanted(plugins), catalog, changes, id);
    if id in Wanted(plugins) {
      assert Wanted(plugins)[id] in plugins;
    }
  }

  lemma LastIsInstalled(t: Tables, plugins: seq<EntryConfig>, catalog: Catalog, changes: seq<Change>, i: nat)
    requires IsDiff(Wanted(plugins), t.entries, changes) && AllListed(Wanted(plugins), catalog)
    requires i < |plugins| && LastOfItsId(plugins, i)
    ensures var now := ApplyAll(t, Wanted(plugins), catalog, changes).entries;
      plugins[i].id in now && InstalledAs(t, plugins[i], catalog, now[plugins[i].id])
  {
    hide IsDiff, ApplyAll, InstalledAs, ActionFor;
    WantedIsLast(plugins, i);
    AppliedIsWanted(t, Wanted(plugins), catalog, changes, plugins[i].id);
  }

  // ---- Preferences

  function Prefixed(id: Id, preference: map<Id, Id>): (r: map<Id, Id>)
    ensures forall c :: c in preference ==> id + ":" + c in r && r[id + ":" + c] == preference[c]
  {
    PrefixIsInjective(id);
    map c | c in preference :: id + ":" + c := preference[c]
  }

  lemma PrefixIsInjective(id: Id)
    ensures forall c, d: Id :: id + ":" + c == id + ":" + d ==> c == d
  {
    forall c, d: Id | id + ":" + c == id + ":" + d ensures c == d {
      assert (id + ":" + c)[|id| + 1..] == c && (id + ":" + d)[|id| + 1..] == d;
    }
  }

  /** The configuration's own preferences, then each enabled entry's under its id. */
  function OwnedPreferences(preferences: map<Id, Id>, plugins: seq<EntryConfig>): map<Id, Id> {
    if plugins == [] then preferences
    else
      var last := |plugins| - 1;
      var r := OwnedPreferences(preferences, plugins[..last]);
      if plugins[last].enabled then r + Prefixed(plugins[last].id, plugins[last].preference) else r
  }

  /** What staging looks at: the same without the prefixes, so later entries hide earlier ones. */
  function StagedPreferences(preferences: map<Id, Id>, plugins: seq<EntryConfig>): map<Id, Id> {
    if plugins == [] then preferences
    else
      var last := |plugins| - 1;
      var r := StagedPreferences(preferences, plugins[..last]);
      if plugins[last].enabled then r + plugins[last].preference else r
  }

  lemma OwnedUnfolds(preferences: map<Id, Id>, plugins: seq<EntryConfig>)
    requires plugins != []
    ensures var (last, front) := (plugins[|plugins| - 1], OwnedPreferences(preferences, plugins[..|plugins| - 1]));
      OwnedPreferences(preferences, plugins) == if last.enabled then front + Prefixed(last.id, last.preference) else front
  {
  }

  /** The entry states a preference under this key. */
  ghost predicate States(e: EntryConfig, key: Id, c: Id) {
    e.enabled && c in e.preference && key == e.id + ":" + c
  }

  lemma PrefixedMeans(e: EntryConfig, key: Id)
    requires e.enabled
    ensures key in Prefixed(e.id, e.preference) <==> exists c :: States(e, key, c)
    ensures forall c :: States(e, key, c) ==> Prefixed(e.id, e.preference)[key] == e.preference[c]
  {
    if key in Prefixed(e.id, e.preference) {
      var c :| c in e.preference && e.id + ":" + c == key;
      assert States(e, key, c);
    }
  }

  /** Every preference of an enabled entry is owned under the entry's id, a later one of the same
      key in front of an earlier. */
  lemma {:induction false} OwnedFromEntry(preferences: map<Id, Id>, plugins: seq<EntryConfig>, i: nat, key: Id, c: Id)
    requires i < |plugins| && States(plugins[i], key, c)
    requires forall j, d :: i < j < |plugins| ==> !States(plugins[j], key, d)
    ensures key in OwnedPreferences(preferences, plugins) && OwnedPreferences(preferences, plugins)[key] == plugins[i].preference[c]
    decreases |plugins|
  {
    hide States, Prefixed, OwnedPreferences;
    var last, front := |plugins| - 1, plugins[..|plugins| - 1];
    OwnedUnfolds(preferences, plugins);
    if plugins[last].enabled {
      PrefixedMeans(plugins[last], key);
    }
    if i < last {
      assert front[i] == plugins[i] && forall j :: i < j < last ==> front[j] == plugins[j];
      OwnedFromEntry(preferences, front, i, key, c);
      assert forall d :: !States(plugins[last], key, d);
    } else {
      StatingIsEnabled(plugins[i], key, c);
    }
  }

  lemma StatingIsEnabled(e: EntryConfig, key: Id, c: Id)
    requires States(e, key, c)
    ensures e.enabled && c in e.preference
  {
  }

  /** All others are the configuration's own. */
  lemma {:induction false} OwnedFromConfig(preferences: map<Id, Id>, plugins: seq<EntryConfig>, key: Id)
    requires forall j, c :: 0 <= j < |plugins| ==> !States(plugins[j], key, c)
    ensures key in OwnedPreferences(preferences, plugins) <==> key in preferences
    ensures key in preferences ==> OwnedPreferences(preferences, plugins)[key] == preferences[key]
    decreases |plugins|
  {
    hide States, Prefixed;
    if plugins != [] {
      var last, front := |plugins| - 1, plugins[..|plugins| - 1];
      OwnedUnfolds(preferences, plugins);
      assert forall j :: 0 <= j < last ==> front[j] == plugins[j];
      OwnedFromConfig(preferences, front, key);
      if plugins[last].enabled {
        PrefixedMeans(plugins[last], key);
      }
    }
  }

  ghost predicate LastToSay(plugins: seq<EntryConfig>, i: nat, c: Id)
    requires i < |plugins|
  {
    && plugins[i].enabled && c in plugins[i].preference
    && forall j :: i < j < |plugins| && plugins[j].enabled ==> c !in plugins[j].preference
  }

  /** What staging sees under a name: the last enabled entry's word on it, or the configuration's. */
  lemma {:induction false} StagedMeans(preferences: map<Id, Id>, plugins: seq<EntryConfig>, c: Id)
    ensures c in StagedPreferences(preferences, plugins) <==>
      c in preferences || exists i :: 0 <= i < |plugins| && plugins[i].enabled && c in plugins[i].preference
    ensures forall i :: 0 <= i < |plugins| && LastToSay(plugins, i, c) ==> StagedPreferences(preferences, plugins)[c] == plugins[i].preference[c]
    ensures c in preferences && (forall i :: 0 <= i < |plugins| && plugins[i].enabled ==> c !in plugins[i].preference) ==>
      StagedPreferences(preferences, plugins)[c] == preferences[c]
    decreases |plugins|
  {
    if plugins != [] {
      var last, front := |plugins| - 1, plugins[..|plugins| - 1];
      assert forall j :: 0 <= j < last ==> front[j] == plugins[j];
      StagedMeans(preferences, front, c);
      assert forall i :: 0 <= i < last && LastToSay(plugins, i, c) ==> LastToSay(front, i, c);
    }
  }

  predicate Blank(s: Id) {
    forall c :: c in s ==> Paths.IsSpace(c)
  }

  lemma {:induction false} BlankMeans(s: Id)
    ensures Blank(s) <==> Paths.Strip(s) == ""
    decreases |s|
  {
    if s != "" {
      if Paths.IsSpace(s[0]) {
        BlankMeans(s[1..]);
        assert forall c :: c in s <==> c == s[0] || c in s[1..];
      } else if Paths.IsSpace(s[|s| - 1]) {
        BlankMeans(s[..|s| - 1]);
        assert s == s[..|s| - 1] + [s[|s| - 1]];
      } else {
        assert s[0] in s;
      }
    }
  }

  /** Every implementation is known - a disabled entry's too - and no preference is blank. */
  predicate Staged(config: Config, catalog: Catalog) {
    && (forall e :: e in config.plugins ==> e.plugin in catalog)
    && var staged := StagedPreferences(config.preferences, config.plugins);
       forall c :: c in staged ==> !Blank(c) && !Blank(staged[c])
  }

  predicate Says(e: EntryConfig, c: Id) {
    e.enabled && c in e.preference
  }

  predicate HasText(s: Id) {
    Paths.Strip(s) != ""
  }

  lemma {:induction false} SomeoneHasTheLastSay(plugins: seq<EntryConfig>, i: nat, c: Id) returns (last: nat)
    requires i < |plugins| && Says(plugins[i], c)
    ensures last < |plugins| && LastToSay(plugins, last, c)
    decreases |plugins| - i
  {
    if j :| i < j < |plugins| && Says(plugins[j], c) {
      last := SomeoneHasTheLastSay(plugins, j, c);
    } else {
      last := i;
      assert forall j :: i < j < |plugins| && plugins[j].enabled ==> !Says(plugins[j], c);
    }
  }

  /** What is said last about a name - by an enabled entry, or else by the configuration - has text
      on both sides. */
  ghost predicate SaidWithText(config: Config, c: Id) {
    && (forall i :: 0 <= i < |config.plugins| && LastToSay(config.plugins, i, c) ==> HasText(c) && HasText(config.plugins[i].preference[c]))
    && (c in config.preferences && (forall e :: e in config.plugins ==> !Says(e, c)) ==> HasText(c) && HasText(config.preferences[c]))
  }

  /** Staging accepts exactly the configurations whose every entry, enabled or not, names a listed
      implementation, and whose preferences all have text. */
  lemma StagedIff(config: Config, catalog: Catalog)
    ensures Staged(config, catalog) <==>
      && (forall i :: 0 <= i < |config.plugins| ==> config.plugins[i].plugin in catalog)
      && (forall c :: SaidWithText(config, c))
  {
    hide StagedPreferences, Blank, HasText, SaidWithText;
    var staged := StagedPreferences(config.preferences, config.plugins);
    forall c ensures (c in staged ==> !Blank(c) && !Blank(staged[c])) <==> SaidWithText(config, c) {
      StagedSays(config, c);
    }
  }

  lemma BlankIsNoText(s: Id)
    ensures Blank(s) <==> !HasText(s)
  {
    BlankMeans(s);
  }

  lemma StagedSays(config: Config, c: Id)
    ensures var staged := StagedPreferences(config.preferences, config.plugins);
      (c in staged ==> !Blank(c) && !Blank(staged[c])) <==> SaidWithText(config, c)
  {
    hide StagedPreferences, HasText, Blank;
    var staged := StagedPreferences(config.preferences, config.plugins);
    BlankIsNoText(c);
    if c in staged {
      BlankIsNoText(staged[c]);
    }
    StagedMeans(config.preferences, config.plugins, c);
    if e :| e in config.plugins && Says(e, c) {
      var i: nat :| i < |config.plugins| && config.plugins[i] == e;
      var last := SomeoneHasTheLastSay(config.plugins, i, c);
    } else {
      assert forall i :: 0 <= i < |config.plugins| ==> !Says(config.plugins[i], c);
    }
  }

  // ---- The transaction

  /** Where an installation breaks off: its class raises, or something does once the revision,
      or the entry as well, has been written. */
  datatype Break = BeforeRevision | AfterRevision | AfterEntry

  datatype Result = Refused | Failed | Applied(changes: seq<Change>)

  function RestoreAll(t: Tables, undo: seq<(Id, Captured)>): Tables
    decreases |undo|
  {
    if undo == [] then t
    else
      var last := |undo| - 1;
      RestoreAll(t.Restore(undo[last].0, undo[last].1), undo[..last])
  }

  /** Restoring one captured entry undoes whatever happened to that entry alone. */
  lemma RestoreUndoes(t: Tables, u: Tables, id: Id)
    requires u.entries - {id} == t.entries - {id} && u.revisions - {id} == t.revisions - {id}
    ensures u.Restore(id, t.Capture(id)) == t
  {
    assert forall x :: x in u.entries && x != id <==> x in u.entries - {id};
    assert forall x :: x in t.entries && x != id <==> x in t.entries - {id};
    assert forall x :: x in u.revisions && x != id <==> x in u.revisions - {id};
    assert forall x :: x in t.revisions && x != id <==> x in t.revisions - {id};
    var r := u.Restore(id, t.Capture(id));
    assert forall x :: x in t.entries && x != id ==> t.entries[x] == (t.entries - {id})[x] == u.entries[x];
    assert forall x :: x in t.revisions && x != id ==> t.revisions[x] == (t.revisions - {id})[x] == u.revisions[x];
    assert r.entries == t.entries;
    assert r.revisions == t.revisions;
  }

  predicate Breaks(c: Change, failing: map<Id, Break>) {
    (c.action == Add || c.action == Replace) && c.id in failing
  }

  predicate AllListed(wanted: map<Id, EntryConfig>, catalog: Catalog) {
    forall id :: id in wanted ==> wanted[id].plugin in catalog
  }

  predicate AnyBreaks(changes: seq<Change>, failing: map<Id, Break>) {
    exists c :: c in changes && Breaks(c, failing)
  }

  predicate Mutates(changes: seq<Change>) {
    exists c :: c in changes && c.action != Unchanged
  }

  /** A batch touches something exactly when it leaves other entries behind. */
  lemma MutatesMeans(t: Tables, wanted: map<Id, EntryConfig>, catalog: Catalog, changes: seq<Change>)
    requires IsDiff(wanted, t.entries, changes) && AllListed(wanted, catalog)
    requires forall id :: id in t.entries ==> id in t.revisions && t.entries[id].revision <= t.revisions[id]
    ensures Mutates(changes) <==> ApplyAll(t, wanted, catalog, changes).entries != t.entries
  {
    hide IsDiff, ApplyAll;
    var u := ApplyAll(t, wanted, catalog, changes);
    if Mutates(changes) {
      var c :| c in changes && c.action != Unchanged;
      var k :| 0 <= k < |changes| && changes[k] == c;
      DiffAt(wanted, t.entries, changes, k);
      AppliedEntries(t, wanted, catalog, changes, c.id);
    } else {
      forall id ensures id in u.entries <==> id in t.entries
        ensures id in t.entries && id in u.entries ==> u.entries[id] == t.entries[id]
      {
        AppliedEntries(t, wanted, catalog, changes, id);
        if id in wanted || id in t.entries {
          var k := DiffCovers(wanted, t.entries, changes, id);
          DiffAt(wanted, t.entries, changes, k);
          assert changes[k] in changes;
        }
      }
    }
  }

  class Harness {
    var entries: Entries
    var revisions: map<Id, nat>
    var configPreferences: map<Id, Id>
    var config: Option<Config>
    var dirty: bool

    constructor ()
      ensures View() == Tables(map[], map[]) && configPreferences == map[] && config == None && !dirty
    {
      entries, revisions, configPreferences, config, dirty := map[], map[], map[], None, false;
    }

    function View(): Tables
      reads this
    {
      Tables(entries, revisions)
    }

    /** `raises` says where, if anywhere, the installation breaks off. */
    method Install(id: Id, manifest: Id, settings: Id, replace: bool, raises: Option<Break>) returns (ok: bool)
      modifies `entries, `revisions, `dirty
      ensures ok <==> raises.None? && (id in old(entries) ==> replace)
      ensures ok ==> View() == old(View()).Install(id, manifest, settings) && dirty
      ensures ok ==> id in entries && id in revisions && entries[id] == Installed(manifest, settings, revisions[id])
      ensures ok ==> revisions[id] == (if id in old(revisions) then old(revisions)[id] else 0) + 1
      ensures entries - {id} == old(entries) - {id} && revisions - {id} == old(revisions) - {id}
    {
      if raises.Some? && raises.value.BeforeRevision? { return false; }
      if id in entries && !replace { return false; }
      var revision := (if id in revisions then revisions[id] else 0) + 1;
      revisions := revisions[id := revision];
      if raises.Some? && raises.value.AfterRevision? { return false; }
      entries := entries[id := Installed(manifest, settings, revision)];
      if raises.Some? && raises.value.AfterEntry? { return false; }
      dirty := true;
      ok := true;
    }

    method Uninstall(id: Id) returns (removed: bool)
      modifies `entries, `dirty
      ensures removed == (id in old(entries)) && dirty == (old(dirty) || removed)
      ensures entries == old(entries) - {id}
    {
      removed := id in entries;
      entries := entries - {id};
      dirty := dirty || removed;
    }

    method RestoreEntry(id: Id, c: Captured)
      modifies `entries, `revisions
      ensures View() == old(View()).Restore(id, c)
    {
      entries := if c.entry.None? then entries - {id} else entries[id := c.entry.value];
      revisions := if c.revision.None? then revisions - {id} else revisions[id := c.revision.value];
    }

    method RunUndo(undo: seq<(Id, Captured)>)
      modifies `entries, `revisions
      ensures View() == RestoreAll(old(View()), undo)
    {
      var n := |undo|;
      assert undo[..n] == undo;
      while n > 0
        invariant 0 <= n <= |undo|
        invariant RestoreAll(View(), undo[..n]) == RestoreAll(old(View()), undo)
      {
        n := n - 1;
        assert undo[..n + 1][..n] == undo[..n];
        RestoreEntry(undo[n].0, undo[n].1);
      }
    }

    /** One change of the batch; the undo list already covers it when it fails. */
    method ApplyChange(c: Change, wanted: map<Id, EntryConfig>, catalog: Catalog, failing: map<Id, Break>, undo: seq<(Id, Captured)>)
      returns (ok: bool, more: seq<(Id, Captured)>)
      requires c.action == Add || c.action == Replace ==> c.id in wanted && wanted[c.id].plugin in catalog
      requires c.action == Add ==> c.id !in entries
      requires c.action == Remove ==> c.id in entries
      modifies `entries, `revisions, `dirty
      ensures RestoreAll(View(), more) == RestoreAll(old(View()), undo)
      ensures ok <==> !Breaks(c, failing)
      ensures ok ==> View() == ApplyOne(old(View()), wanted, catalog, c) && dirty == (old(dirty) || c.action != Unchanged)
    {
      ok, more := true, undo;
      if c.action == Unchanged { return; }
      ghost var before := View();
      var captured := View().Capture(c.id);
      more := undo + [(c.id, captured)];
      assert more[..|undo|] == undo;
      if c.action == Remove {
        var removed := Uninstall(c.id);
      } else {
        ok := Install(c.id, catalog[wanted[c.id].plugin], wanted[c.id].config, c.action == Replace,
                      if c.id in failing then Some(failing[c.id]) else None);
      }
      assert entries - {c.id} == before.entries - {c.id};
      RestoreUndoes(before, View(), c.id);
    }

    /** The batch, up to the first change that fails. */
    method ApplyChanges(changes: seq<Change>, wanted: map<Id, EntryConfig>, catalog: Catalog, failing: map<Id, Break>)
      returns (ok: bool, undo: seq<(Id, Captured)>)
      requires IsDiff(wanted, entries, changes) && AllListed(wanted, catalog)
      modifies `entries, `revisions, `dirty
      ensures RestoreAll(View(), undo) == old(View())
      ensures ok <==> !AnyBreaks(changes, failing)
      ensures ok ==> Batch(old(View()), old(dirty), View(), dirty, undo, wanted, catalog, failing, changes)
    {
      hide IsDiff, ApplyAll, ApplyOne, RestoreAll, Breaks, AnyBreaks, Mutates, ActionFor, Ids, Batch, AllListed;
      ghost var t := View();
      ok, undo := true, [];
      assert changes[..0] == [] && changes[..|changes|] == changes;
      NothingApplied(t, dirty, wanted, catalog, failing);
      for k := 0 to |changes|
        invariant ok && Batch(t, old(dirty), View(), dirty, undo, wanted, catalog, failing, changes[..k])
      {
        ok, undo := ApplyNext(t, old(dirty), undo, wanted, catalog, failing, changes, k);
        if !ok { return; }
      }
      BatchFacts(t, old(dirty), View(), dirty, undo, wanted, catalog, failing, changes);
    }

    /** The body of the batch's loop. */
    method ApplyNext(ghost t: Tables, ghost wasDirty: bool, undo: seq<(Id, Captured)>,
                     wanted: map<Id, EntryConfig>, catalog: Catalog, failing: map<Id, Break>, changes: seq<Change>, k: nat)
      returns (ok: bool, more: seq<(Id, Captured)>)
      requires k < |changes| && IsDiff(wanted, t.entries, changes) && AllListed(wanted, catalog)
      requires Batch(t, wasDirty, View(), dirty, undo, wanted, catalog, failing, changes[..k])
      modifies `entries, `revisions, `dirty
      ensures ok ==> Batch(t, wasDirty, View(), dirty, more, wanted, catalog, failing, changes[..k + 1])
      ensures !ok ==> RestoreAll(View(), more) == t && AnyBreaks(changes, failing)
    {
      hide IsDiff, ApplyAll, ApplyOne, RestoreAll, Breaks, AnyBreaks, Mutates, ActionFor, Ids, Batch, AllListed;
      BatchFacts(t, wasDirty, View(), dirty, undo, wanted, catalog, failing, changes[..k]);
      ReadyForChange(t, wanted, catalog, changes, k);
      ListedFor(wanted, catalog, changes[k].id);
      ghost var before, dirtyBefore := View(), dirty;
      ok, more := ApplyChange(changes[k], wanted, catalog, failing, undo);
      if ok {
        BatchNext(t, wasDirty, before, dirtyBefore, undo, View(), dirty, more, wanted, catalog, failing, changes, k);
      } else {
        OneBreaks(changes, failing, k);
      }
    }

    /** What holds between two changes of a batch that has not failed. */
    static predicate Batch(t: Tables, wasDirty: bool, u: Tables, isDirty: bool, undo: seq<(Id, Captured)>,
                           wanted: map<Id, EntryConfig>, catalog: Catalog, failing: map<Id, Break>, done: seq<Change>)
    {
      && RestoreAll(u, undo) == t && u == ApplyAll(t, wanted, catalog, done)
      && !AnyBreaks(done, failing) && isDirty == (wasDirty || Mutates(done))
    }

    static lemma BatchFacts(t: Tables, wasDirty: bool, u: Tables, isDirty: bool, undo: seq<(Id, Captured)>,
                            wanted: map<Id, EntryConfig>, catalog: Catalog, failing: map<Id, Break>, done: seq<Change>)
      requires Batch(t, wasDirty, u, isDirty, undo, wanted, catalog, failing, done)
      ensures RestoreAll(u, undo) == t && u == ApplyAll(t, wanted, catalog, done)
      ensures !AnyBreaks(done, failing) && isDirty == (wasDirty || Mutates(done))
    {
    }

    static lemma BatchNext(t: Tables, wasDirty: bool, before: Tables, dirtyBefore: bool, undone: seq<(Id, Captured)>,
                           u: Tables, isDirty: bool, undo: seq<(Id, Captured)>,
                           wanted: map<Id, EntryConfig>, catalog: Catalog, failing: map<Id, Break>, changes: seq<Change>, k: nat)
      requires k < |changes| && Batch(t, wasDirty, before, dirtyBefore, undone, wanted, catalog, failing, changes[..k])
      requires RestoreAll(u, undo) == RestoreAll(before, undone) && u == ApplyOne(before, wanted, catalog, changes[k])
      requires !Breaks(changes[k], failing) && isDirty == (dirtyBefore || changes[k].action != Unchanged)
      ensures Batch(t, wasDirty, u, isDirty, undo, wanted, catalog, failing, changes[..k + 1])
    {
      hide RestoreAll, ApplyOne, Breaks;
      assert changes[..k + 1] == changes[..k] + [changes[k]] && changes[..k + 1][..k] == changes[..k];
    }

    static lemma ListedFor(wanted: map<Id, EntryConfig>, catalog: Catalog, id: Id)
      requires AllListed(wanted, catalog)
      ensures id in wanted ==> wanted[id].plugin in catalog
    {
    }

    static lemma OneBreaks(changes: seq<Change>, failing: map<Id, Break>, k: nat)
      requires k < |changes| && Breaks(changes[k], failing)
      ensures AnyBreaks(changes, failing)
    {
    }

    static lemma NothingApplied(t: Tables, isDirty: bool, wanted: map<Id, EntryConfig>, catalog: Catalog, failing: map<Id, Break>)
      ensures Batch(t, isDirty, t, isDirty, [], wanted, catalog, failing, [])
    {
    }

    lemma ReadyForChange(t: Tables, wanted: map<Id, EntryConfig>, catalog: Catalog, changes: seq<Change>, k: nat)
      requires IsDiff(wanted, t.entries, changes) && k < |changes|
      ensures changes[k].action == Add || changes[k].action == Replace ==> changes[k].id in wanted
      ensures changes[k].action == Add ==> changes[k].id !in ApplyAll(t, wanted, catalog, changes[..k]).entries
      ensures changes[k].action == Remove ==> changes[k].id in ApplyAll(t, wanted, catalog, changes[..k]).entries
    {
      hide IsDiff, ApplyAll;
      DiffIsDistinct(wanted, t.entries, changes);
      DiffAt(wanted, t.entries, changes, k);
      var u, id := ApplyAll(t, wanted, catalog, changes[..k]), changes[k].id;
      UntouchedEntry(t, wanted, catalog, changes[..k], id);
      assert u.Capture(id).entry.Some? <==> id in u.entries;
    }

    lemma FailingIsWanted(wanted: map<Id, EntryConfig>, installed: Entries, changes: seq<Change>, failing: map<Id, Break>)
      requires IsDiff(wanted, installed, changes)
      ensures AnyBreaks(changes, failing) ==> failing.Keys * wanted.Keys != {}
    {
      hide IsDiff;
      if AnyBreaks(changes, failing) {
        var c :| c in changes && Breaks(c, failing);
        var k :| 0 <= k < |changes| && changes[k] == c;
        DiffAt(wanted, installed, changes, k);
        assert c.id in failing.Keys * wanted.Keys;
      }
    }

    /** All of a configuration, or none of it. */
    method ApplyConfig(desired: Config, catalog: Catalog, failing: map<Id, Break>) returns (r: Result)
      modifies this
      ensures r == Refused <==> !Staged(desired, catalog)
      ensures !r.Applied? ==>
        && entries == old(entries) && revisions == old(revisions)
        && configPreferences == old(configPreferences) && config == old(config) && dirty == old(dirty)
      ensures r.Applied? ==>
        var wanted := Wanted(desired.plugins);
        && IsDiff(wanted, old(entries), r.changes)
        && !AnyBreaks(r.changes, failing)
        && Tables(entries, revisions) == ApplyAll(Tables(old(entries), old(revisions)), wanted, catalog, r.changes)
        && configPreferences == OwnedPreferences(desired.preferences, desired.plugins)
        && config == Some(desired)
        && InstallsWanted(old(View()), desired, catalog, entries)
        && dirty == (old(dirty) || Mutates(r.changes) || configPreferences != old(configPreferences))
      ensures r == Failed ==> failing.Keys * Wanted(desired.plugins).Keys != {}
    {
      hide *;
      if !Staged(desired, catalog) { return Refused; }
      var changes := DiffDesiredState(desired, entries);
      var wanted := Wanted(desired.plugins);
      StagedIsListed(desired, catalog);
      FailingIsWanted(wanted, entries, changes, failing);
      ViewMeans();
      AppliedInstallsWanted(View(), desired, catalog, changes);
      var ok := Transact(changes, wanted, catalog, failing);
      if ok {
        Commit(desired);
      }
      r := if ok then Applied(changes) else Failed;
    }

    lemma ViewMeans()
      ensures View() == Tables(entries, revisions)
    {
    }

    static lemma StagedIsListed(desired: Config, catalog: Catalog)
      requires Staged(desired, catalog)
      ensures AllListed(Wanted(desired.plugins), catalog)
    {
    }

    /** Run the batch; when it fails, undo it and put the dirty flag back. */
    method Transact(changes: seq<Change>, wanted: map<Id, EntryConfig>, catalog: Catalog, failing: map<Id, Break>) returns (ok: bool)
      requires IsDiff(wanted, entries, changes) && AllListed(wanted, catalog)
      modifies `entries, `revisions, `dirty
      ensures ok <==> !AnyBreaks(changes, failing)
      ensures !ok ==> entries == old(entries) && revisions == old(revisions) && dirty == old(dirty)
      ensures ok ==> Tables(entries, revisions) == ApplyAll(Tables(old(entries), old(revisions)), wanted, catalog, changes)
      ensures ok ==> dirty == (old(dirty) || Mutates(changes))
    {
      hide IsDiff, ApplyAll, RestoreAll, AnyBreaks, Mutates, Batch, AllListed;
      ghost var t := View();
      var wasDirty := dirty;
      var undo;
      ok, undo := ApplyChanges(changes, wanted, catalog, failing);
      if ok {
        BatchFacts(t, wasDirty, View(), dirty, undo, wanted, catalog, failing, changes);
      } else {
        RunUndo(undo);
        dirty := wasDirty;
      }
    }

    method Commit(desired: Config)
      modifies `configPreferences, `config, `dirty
      ensures configPreferences == OwnedPreferences(desired.preferences, desired.plugins) && config == Some(desired)
      ensures dirty == (old(dirty) || configPreferences != old(configPreferences))
    {
      var previous := configPreferences;
      configPreferences := OwnedPreferences(desired.preferences, desired.plugins);
      config := Some(desired);
      if configPreferences != previous { dirty := true; }
    }
  }
}
