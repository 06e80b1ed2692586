/** The configuration store: its transactions, and the environment that containers get from a revision. */
module ConfigStore {
  import opened Choice
  import opened Strings
  import opened Tables
  import opened ConfigHistory

  /** The order of sort.Strings and of ORDER BY on text. */
  predicate Less(a: string, b: string) {
    b != "" && (a == "" || a[0] < b[0] || (a[0] == b[0] && Less(a[1..], b[1..])))
  }

  /** The smaller one is a beginning of the other, or has the smaller character where they first differ. */
  lemma {:induction false} LessIff(a: string, b: string)
    ensures Less(a, b) <==>
      exists n :: 0 <= n <= |a| && n < |b| && a[..n] == b[..n] && (n == |a| || a[n] < b[n])
    decreases |a|
  {
    if a != "" && b != "" && a[0] == b[0] {
      LessIff(a[1..], b[1..]);
      if n :| 0 <= n <= |a| && n < |b| && a[..n] == b[..n] && (n == |a| || a[n] < b[n]) {
        assert a[..n][1..] == a[1..][..n - 1] && b[..n][1..] == b[1..][..n - 1];
      }
      var c, d := a[1..], b[1..];
      if n :| 0 <= n <= |c| && n < |d| && c[..n] == d[..n] && (n == |c| || c[n] < d[n]) {
        assert a[..n + 1] == [a[0]] + a[1..][..n] && b[..n + 1] == [b[0]] + b[1..][..n];
      }
    } else if b != "" && a != "" {
      assert a[..0] == b[..0];
    } else if b != "" {
      assert a[..0] == b[..0];
    }
  }

  lemma {:induction false} LessIsTotal(a: string, b: string)
    requires a != b
    ensures Less(a, b) || Less(b, a)
  {
    if a != "" && b != "" && a[0] == b[0] {
      assert a == [a[0]] + a[1..] && b == [b[0]] + b[1..];
      LessIsTotal(a[1..], b[1..]);
    }
  }

  lemma {:induction false} LessIsTransitive(a: string, b: string, c: string)
    requires Less(a, b) && Less(b, c)
    ensures Less(a, c)
  {
    if a != "" && a[0] == b[0] == c[0] {
      LessIsTransitive(a[1..], b[1..], c[1..]);
    }
  }

  lemma {:induction false} LessIsIrreflexive(a: string)
    ensures !Less(a, a)
  {
    if a != "" {
      LessIsIrreflexive(a[1..]);
    }
  }

  ghost predicate IsSorted(names: seq<string>) {
    forall i, j :: 0 <= i < j < |names| ==> Less(names[i], names[j])
  }

  ghost predicate Lists(names: seq<string>, all: set<string>) {
    IsSorted(names) && forall name :: name in names <==> name in all
  }

  lemma InsertKeepsSorted(names: seq<string>, k: nat, name: string)
    requires IsSorted(names) && k <= |names|
    requires k > 0 ==> Less(names[k - 1], name)
    requires k < |names| ==> Less(name, names[k])
    ensures IsSorted(names[..k] + [name] + names[k..])
  {
    var more := names[..k] + [name] + names[k..];
    forall i | 0 <= i < k ensures Less(names[i], name) {
      if i < k - 1 {
        LessIsTransitive(names[i], names[k - 1], name);
      }
    }
    forall j | k <= j < |names| ensures Less(name, names[j]) {
      if k < j {
        LessIsTransitive(name, names[k], names[j]);
      }
    }
    assert forall i :: 0 <= i < |more| ==> more[i] == if i < k then names[i] else if i == k then name else names[i - 1];
  }

  lemma InsertAdds(names: seq<string>, k: nat, name: string)
    requires k <= |names|
    ensures forall n :: n in names[..k] + [name] + names[k..] <==> n in names || n == name
  {
    assert names == names[..k] + names[k..];
  }

  method Sorted(all: set<string>) returns (names: seq<string>)
    ensures Lists(names, all)
  {
    names := [];
    var rest := all;
    while rest != {}
      invariant rest <= all && Lists(names, all - rest)
      decreases rest
    {
      var name := Pick(rest);
      var k := 0;
      while k < |names| && Less(names[k], name)
        invariant 0 <= k <= |names|
        invariant k > 0 ==> Less(names[k - 1], name)
      {
        k := k + 1;
      }
      if k < |names| {
        assert names[k] in names;
        LessIsTotal(name, names[k]);
      }
      InsertKeepsSorted(names, k, name);
      InsertAdds(names, k, name);
      names := names[..k] + [name] + names[k..];
      rest := rest - {name};
    }
  }

  lemma FirstIsListed(names: seq<string>, all: set<string>)
    requires Lists(names, all) && names != []
    ensures names[0] in all
  {
    assert names[0] in names;
  }

  lemma SameFirst(first: seq<string>, second: seq<string>, all: set<string>)
    requires Lists(first, all) && Lists(second, all) && first != [] && second != []
    ensures first[0] == second[0]
  {
    var a, b := first[0], second[0];
    assert a in first && b in second;
    var i :| 0 <= i < |first| && first[i] == b;
    var j :| 0 <= j < |second| && second[j] == a;
    if i > 0 && j > 0 {
      LessIsTransitive(a, b, a);
      LessIsIrreflexive(a);
    }
  }

  lemma RestLists(names: seq<string>, all: set<string>)
    requires Lists(names, all) && names != []
    ensures Lists(names[1..], all - {names[0]})
  {
    var rest := names[1..];
    LessIsIrreflexive(names[0]);
    forall name | name in rest ensures name in all && name != names[0] {
      var i :| 0 <= i < |rest| && rest[i] == name;
      assert names[i + 1] == name && name in names;
    }
    forall name | name in all && name != names[0] ensures name in rest {
      var i :| 0 <= i < |names| && names[i] == name;
      assert rest[i - 1] == name;
    }
  }

  /** A set of names is listed in one way only. */
  lemma {:induction false} ListIsUnique(first: seq<string>, second: seq<string>, all: set<string>)
    requires Lists(first, all) && Lists(second, all)
    ensures first == second
    decreases |first|
  {
    if first != [] { FirstIsListed(first, all); }
    if second != [] { FirstIsListed(second, all); }
    if first != [] && second != [] {
      SameFirst(first, second, all);
      RestLists(first, all);
      RestLists(second, all);
      ListIsUnique(first[1..], second[1..], all - {first[0]});
      assert first == [first[0]] + first[1..] && second == [second[0]] + second[1..];
    }
  }

  /** The environment lines of a revision, by name. */
  function EnvOf(names: seq<string>, settings: map<string, Setting>): seq<string>
    requires forall i :: 0 <= i < |names| ==> names[i] in settings
  {
    if names == [] then []
    else
      var n := |names| - 1;
      EnvOf(names[..n], settings) + [names[n] + ("=" + settings[names[n]].value)]
  }

  function SecretsOf(names: seq<string>, settings: map<string, Setting>): seq<string>
    requires forall i :: 0 <= i < |names| ==> names[i] in settings
  {
    if names == [] then []
    else
      var n := |names| - 1;
      SecretsOf(names[..n], settings) + if settings[names[n]].secret then [settings[names[n]].value] else []
  }

  predicate IsSecretValue(settings: map<string, Setting>, value: string) {
    exists name :: name in settings && settings[name] == Setting(value, true)
  }

  lemma {:induction false} SecretsAre(names: seq<string>, settings: map<string, Setting>, value: string)
    requires forall i :: 0 <= i < |names| ==> names[i] in settings
    ensures value in SecretsOf(names, settings) <==>
      exists name :: name in names && settings[name] == Setting(value, true)
    decreases |names|
  {
    if names != [] {
      var n := |names| - 1;
      SecretsAre(names[..n], settings, value);
      assert forall name :: name in names <==> name in names[..n] || name == names[n];
    }
  }

  /** The values of the secrets are listed for the scrubber, and nothing else is. */
  lemma SecretsAreListed(names: seq<string>, settings: map<string, Setting>)
    requires Lists(names, settings.Keys)
    ensures forall value :: value in SecretsOf(names, settings) <==> IsSecretValue(settings, value)
  {
    forall value ensures value in SecretsOf(names, settings) <==> IsSecretValue(settings, value) {
      SecretsAre(names, settings, value);
    }
  }

  lemma OneMoreLine(names: seq<string>, i: nat, settings: map<string, Setting>)
    requires i < |names| && forall j :: 0 <= j < |names| ==> names[j] in settings
    ensures EnvOf(names[..i + 1], settings) ==
      EnvOf(names[..i], settings) + [names[i] + ("=" + settings[names[i]].value)]
    ensures SecretsOf(names[..i + 1], settings) ==
      SecretsOf(names[..i], settings) + if settings[names[i]].secret then [settings[names[i]].value] else []
  {
    assert names[..i + 1][..i] == names[..i];
  }

  /** The entries table after the first `i` of the names. */
  ghost function Inserted(entries: map<(Id, string), Entry>, project: string, id: Id, view: map<string, Entry>,
          names: seq<string>, i: nat): map<(Id, string), Entry>
    requires i <= |names| && forall j :: 0 <= j < |names| ==> names[j] in view
  {
    if i == 0 then entries
    else
      Inserted(entries, project, id, view, names, i - 1)[(id, names[i - 1]) := view[names[i - 1]].(project := project)]
  }

  lemma {:induction false} InsertedAt(entries: map<(Id, string), Entry>, project: string, id: Id,
          view: map<string, Entry>, names: seq<string>, i: nat, key: (Id, string))
    requires i <= |names| && forall j :: 0 <= j < |names| ==> names[j] in view
    ensures var result := Inserted(entries, project, id, view, names, i);
      var mine := key.0 == id && key.1 in names[..i];
      && (key in result <==> mine || key in entries)
      && (key in result ==> result[key] == if mine then view[key.1].(project := project) else entries[key])
  {
    if i > 0 {
      InsertedAt(entries, project, id, view, names, i - 1, key);
      assert names[..i] == names[..i - 1] + [names[i - 1]];
    }
  }

  lemma AllInsertedAt(entries: map<(Id, string), Entry>, project: string, id: Id, view: map<string, Entry>,
          names: seq<string>, key: (Id, string))
    requires Lists(names, view.Keys) && forall j :: 0 <= j < |names| ==> names[j] in view
    ensures var result, expected :=
        Inserted(entries, project, id, view, names, |names|), entries + Rows(project, id, view);
      (key in result <==> key in expected) && (key in result ==> result[key] == expected[key])
  {
    assert names[..|names|] == names;
    InsertedAt(entries, project, id, view, names, |names|, key);
    RowsAre(project, id, view, key);
  }

  lemma AllInserted(entries: map<(Id, string), Entry>, project: string, id: Id, view: map<string, Entry>,
          names: seq<string>)
    requires Lists(names, view.Keys) && forall j :: 0 <= j < |names| ==> names[j] in view
    ensures Inserted(entries, project, id, view, names, |names|) == entries + Rows(project, id, view)
  {
    forall key { AllInsertedAt(entries, project, id, view, names, key); }
  }

  datatype Resolved = NoRows | CannotDecrypt(name: string) | Config(env: seq<string>, secrets: seq<string>)
  datatype MutationResult = Created | InvalidName | InvalidValue | NoSuchProject | NotFound

  /** The tables project_config_revisions and project_config_entries. */
  class ProjectConfigStore {
    var projects: set<string>
    var revisions: map<Id, Revision>
    var entries: map<(Id, string), Entry>

    ghost function Db(): ConfigDb
      reads this
    {
      ConfigDb(projects, revisions, entries)
    }

    constructor ()
      ensures Db() == EMPTY
    {
      projects, revisions, entries := {}, map[], map[];
    }

    method LatestProjectConfigRevisionID(project: string) returns (latest: Option<Id>)
      ensures latest.None? <==> !HasRevision(Db(), project)
      ensures latest.Some? ==> IsLatest(Db(), project, latest.value)
    {
      latest := None;
      var rest := revisions.Keys;
      while rest != {}
        invariant rest <= revisions.Keys
        invariant latest.None? ==> forall id :: id in revisions && id !in rest ==> revisions[id].project != project
        invariant latest.Some? ==> latest.value in revisions && revisions[latest.value].project == project
        invariant forall id :: latest.Some? && id in revisions && id !in rest && revisions[id].project == project ==>
          revisions[id].createdAt <= revisions[latest.value].createdAt
        decreases rest
      {
        var id := Pick(rest);
        if revisions[id].project == project &&
           (latest.None? || revisions[latest.value].createdAt < revisions[id].createdAt) {
          latest := Some(id);
        }
        rest := rest - {id};
      }
      ghost var db := Db();
      if latest.None? {
        forall id | id in db.revisions ensures db.revisions[id].project != project {
          assert id in revisions && id !in rest;
        }
      } else {
        ghost var found: Id := latest.value;
        assert found in db.revisions && db.revisions[found].project == project;
      }
    }

    method ListProjectConfigEntryRecords(project: string, id: Id) returns (names: seq<string>)
      ensures Lists(names, View(Db(), project, id).Keys)
    {
      var found: set<string> := {};
      var rest := entries.Keys;
      while rest != {}
        invariant rest <= entries.Keys
        invariant forall name :: name in found <==>
          (id, name) in entries && (id, name) !in rest && entries[(id, name)].project == project
        decreases rest
      {
        var key := Pick(rest);
        if key.0 == id && entries[key].project == project {
          found := found + {key.1};
        }
        rest := rest - {key};
      }
      forall name ensures name in View(Db(), project, id) <==> name in found {
        ViewHas(Db(), project, id, name);
      }
      assert found == View(Db(), project, id).Keys;
      names := Sorted(found);
    }

    method LatestProjectConfigEntryMap(project: string) returns (view: map<string, Entry>)
      ensures IsLatestView(Db(), project, view)
    {
      var latest := LatestProjectConfigRevisionID(project);
      if latest.None? {
        return map[];
      }
      var names := ListProjectConfigEntryRecords(project, latest.value);
      ghost var all := View(Db(), project, latest.value);
      view := map[];
      for i := 0 to |names|
        invariant forall name :: name in view <==> name in names[..i]
        invariant forall name :: name in view ==> name in all && view[name] == all[name]
      {
        ViewHas(Db(), project, latest.value, names[i]);
        assert names[i] in names;
        view := view[names[i] := entries[(latest.value, names[i])]];
      }
      assert names[..|names|] == names;
      assert view == all;
    }

    /** One INSERT for the revision and one for each of its entries, in the order of their names. */
    method InsertProjectConfigRevision(project: string, now: int, id: Id, view: map<string, Entry>)
      requires id !in revisions
      modifies this`revisions, this`entries
      ensures Db() == WithRevision(old(Db()), project, now, id, view)
    {
      revisions := revisions[id := Revision(project, now)];
      var names := Sorted(view.Keys);
      for i := 0 to |names|
        invariant projects == old(projects) && revisions == old(revisions)[id := Revision(project, now)]
        invariant forall j :: 0 <= j < |names| ==> names[j] in view
        invariant entries == Inserted(old(entries), project, id, view, names, i)
      {
        entries := entries[(id, names[i]) := view[names[i]].(project := project)];
      }
      AllInserted(old(entries), project, id, view, names);
    }

    method SetEnvironmentEntry(project: string, rawName: string, value: string, secret: bool, now: int, id: Id)
      returns (result: MutationResult)
      requires id !in revisions
      modifies this
      ensures Step(old(Db()), Set(project, rawName, value, secret, now, id), Db())
      ensures result ==
        if !IsValidName(TrimSpace(rawName)) then InvalidName
        else if ByteLength(value) > MAX_VALUE_LENGTH then InvalidValue
        else Created
      ensures result.Created? <==> IsValidName(TrimSpace(rawName)) && ByteLength(value) <= 8192
    {
      ghost var m := Set(project, rawName, value, secret, now, id);
      var name := TrimSpace(rawName);
      ghost var some := SomeLatestView(Db(), project);
      if !IsValidName(name) {
        assert Outcome(Db(), m, some, Db());
        return InvalidName;
      }
      if ByteLength(value) > MAX_VALUE_LENGTH {
        assert Outcome(Db(), m, some, Db());
        return InvalidValue;
      }
      var view := LatestProjectConfigEntryMap(project);
      projects := projects + {project};
      InsertProjectConfigRevision(project, now, id, view[name := Entry(project, Store(value, secret), secret, now)]);
      assert Outcome(old(Db()), m, view, Db());
      return Created;
    }

    method DeleteEnvironmentEntry(project: string, rawName: string, now: int, id: Id) returns (result: MutationResult)
      requires id !in revisions
      modifies this
      ensures Step(old(Db()), Unset(project, rawName, now, id), Db())
      ensures result.InvalidName? <==> !IsValidName(TrimSpace(rawName))
      ensures result.NoSuchProject? <==> IsValidName(TrimSpace(rawName)) && project !in old(projects)
      ensures result.Created? <==> id in revisions
      ensures result.NotFound? ==> exists view :: IsLatestView(old(Db()), project, view) && TrimSpace(rawName) !in view
    {
      ghost var m := Unset(project, rawName, now, id);
      var name := TrimSpace(rawName);
      ghost var some := SomeLatestView(Db(), project);
      if !IsValidName(name) {
        assert Outcome(Db(), m, some, Db());
        return InvalidName;
      }
      if project !in projects {
        assert Outcome(Db(), m, some, Db());
        return NoSuchProject;
      }
      var view := LatestProjectConfigEntryMap(project);
      if name !in view {
        assert Outcome(Db(), m, view, Db());
        return NotFound;
      }
      InsertProjectConfigRevision(project, now, id, view - {name});
      assert Outcome(old(Db()), m, view, Db());
      return Created;
    }

    /** The environment and the secrets of a pinned revision; a job without one gets nothing. */
    method ResolveRuntimeConfig(project: string, revision: Option<Id>)
      returns (config: Resolved, ghost names: seq<string>)
      ensures revision.None? ==> config == Config([], [])
      ensures revision.Some? ==>
        (config.NoRows? <==> !(revision.value in revisions && revisions[revision.value].project == project))
      ensures Valid(Db()) ==> !config.CannotDecrypt?
      ensures revision.Some? && config.Config? ==>
        var settings := Settings(View(Db(), project, revision.value));
        && Lists(names, settings.Keys)
        && config == Config(EnvOf(names, settings), SecretsOf(names, settings))
        && forall value :: value in config.secrets <==> IsSecretValue(settings, value)
    {
      names := [];
      if revision.None? {
        return Config([], []), names;
      }
      var id := revision.value;
      if id !in revisions || revisions[id].project != project {
        return NoRows, names;
      }
      var rows := ListProjectConfigEntryRecords(project, id);
      names := rows;
      ghost var view := View(Db(), project, id);
      ghost var settings := Settings(view);
      assert settings.Keys == view.Keys;
      var env: seq<string>, secrets: seq<string> := [], [];
      for i := 0 to |rows|
        invariant forall j :: 0 <= j < |rows| ==> rows[j] in settings
        invariant env == EnvOf(rows[..i], settings) && secrets == SecretsOf(rows[..i], settings)
      {
        ViewHas(Db(), project, id, rows[i]);
        var record := entries[(id, rows[i])];
        if record.secret {
          if record.value.Plain? {
            assert Valid(Db()) ==> ValidRow(Db(), (id, rows[i]));
            return CannotDecrypt(rows[i]), names;
          }
          secrets := secrets + [record.value.text];
        }
        OneMoreLine(rows, i, settings);
        env := env + [rows[i] + ("=" + record.value.text)];
      }
      assert rows[..|rows|] == rows;
      SecretsAreListed(rows, settings);
      return Config(env, secrets), names;
    }
  }
}
