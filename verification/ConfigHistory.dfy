/**
 * Project configuration: every change copies the latest revision into a new one, and jobs pin the revision they start
 * with.
 */
module ConfigHistory {
  import opened Choice
  import opened Strings
  import opened Tables

  const MAX_NAME_LENGTH := 255
  const MAX_VALUE_LENGTH := 8192

  /** Encryption is modelled by what it promises: only what was sealed can be opened, and it opens to the same text. */
  datatype Value = Plain(text: string) | Sealed(text: string)

  datatype Entry = Entry(project: string, value: Value, secret: bool, createdAt: int)
  datatype Revision = Revision(project: string, createdAt: int)
  datatype ConfigDb = ConfigDb(projects: set<string>, revisions: map<Id, Revision>, entries: map<(Id, string), Entry>)

  const EMPTY := ConfigDb({}, map[], map[])

  /** The length in UTF-8. */
  function ByteLength(s: string): nat {
    if s == "" then 0
    else
      var c := s[|s| - 1] as int;
      ByteLength(s[..|s| - 1]) + if c < 0x80 then 1 else if c < 0x800 then 2 else if c < 0x1_0000 then 3 else 4
  }

  predicate IsNameStart(c: char) {
    'A' <= c <= 'Z' || c == '_'
  }

  predicate IsReserved(name: string) {
    name == "PORT" || name == "POCKETBASE_URL" || "OVEK_" <= name
  }

  predicate IsValidName(name: string) {
    && TrimSpace(name) == name && name != ""
    && ByteLength(name) <= MAX_NAME_LENGTH
    && IsNameStart(name[0]) && (forall k :: 0 <= k < |name| ==> IsNameStart(name[k]) || '0' <= name[k] <= '9')
    && !IsReserved(name)
  }

  lemma {:induction false} AsciiLength(s: string)
    requires forall k :: 0 <= k < |s| ==> s[k] < '\U{80}'
    ensures ByteLength(s) == |s|
  {
    if s != "" { AsciiLength(s[..|s| - 1]); }
  }

  /**
   * Exactly the names of up to 255 capital letters, digits and underscores are accepted that do not begin with a digit,
   * are not the name of a built-in variable and do not begin like one.
   */
  lemma ValidNameIff(name: string)
    ensures IsValidName(name) <==>
      && 1 <= |name| <= 255 && !('0' <= name[0] <= '9')
      && (forall k :: 0 <= k < |name| ==> 'A' <= name[k] <= 'Z' || '0' <= name[k] <= '9' || name[k] == '_')
      && name != "PORT" && name != "POCKETBASE_URL" && !("OVEK_" <= name)
  {
    if forall k :: 0 <= k < |name| ==> 'A' <= name[k] <= 'Z' || '0' <= name[k] <= '9' || name[k] == '_' {
      AsciiLength(name);
      assert Trimmed(name);
    }
  }

  datatype Mutation =
    | Set(project: string, name: string, value: string, secret: bool, now: int, id: Id)
    | Unset(project: string, name: string, now: int, id: Id)

  /** No other revision of the project is later; ties are broken by the database. */
  predicate IsLatest(db: ConfigDb, project: string, id: Id) {
    && id in db.revisions && db.revisions[id].project == project
    && forall other :: other in db.revisions && db.revisions[other].project == project ==>
      db.revisions[other].createdAt <= db.revisions[id].createdAt
  }

  predicate HasRevision(db: ConfigDb, project: string) {
    exists id :: id in db.revisions && db.revisions[id].project == project
  }

  function NamesIn(db: ConfigDb, project: string, id: Id): set<string> {
    set key | key in db.entries && key.0 == id && db.entries[key].project == project :: key.1
  }

  /** The rows of a revision, by name. */
  function View(db: ConfigDb, project: string, id: Id): map<string, Entry> {
    map name | name in NamesIn(db, project, id) :: db.entries[(id, name)]
  }

  ghost predicate IsLatestView(db: ConfigDb, project: string, view: map<string, Entry>) {
    if HasRevision(db, project) then exists id :: IsLatest(db, project, id) && view == View(db, project, id)
    else view == map[]
  }

  function Rows(project: string, id: Id, view: map<string, Entry>): map<(Id, string), Entry> {
    map key | key in (set name | name in view :: (id, name)) :: view[key.1].(project := project)
  }

  function WithRevision(db: ConfigDb, project: string, now: int, id: Id, view: map<string, Entry>): ConfigDb {
    ConfigDb(db.projects, db.revisions[id := Revision(project, now)], db.entries + Rows(project, id, view))
  }

  function Store(value: string, secret: bool): Value {
    if secret then Sealed(value) else Plain(value)
  }

  /** Whether a request gets as far as a new revision; `view` is what it starts from. */
  predicate Accepted(db: ConfigDb, m: Mutation, view: map<string, Entry>) {
    && IsValidName(TrimSpace(m.name))
    && match m
       case Set(_, _, value, _, _, _) => ByteLength(value) <= MAX_VALUE_LENGTH
       case Unset(project, name, _, _) => project in db.projects && TrimSpace(name) in view
  }

  function Changed(m: Mutation, view: map<string, Entry>): map<string, Entry> {
    match m
    case Set(project, name, value, secret, now, _) =>
      view[TrimSpace(name) := Entry(project, Store(value, secret), secret, now)]
    case Unset(_, name, _, _) => view - {TrimSpace(name)}
  }

  function WithProject(db: ConfigDb, m: Mutation): ConfigDb {
    if m.Set? then db.(projects := db.projects + {m.project}) else db
  }

  ghost predicate Outcome(db: ConfigDb, m: Mutation, view: map<string, Entry>, next: ConfigDb) {
    && IsLatestView(db, m.project, view)
    && next ==
       if Accepted(db, m, view)
       then WithRevision(WithProject(db, m), m.project, m.now, m.id, Changed(m, view))
       else db
  }

  /** One request, from any latest revision and with a fresh ID; a refused one changes nothing. */
  ghost predicate Step(db: ConfigDb, m: Mutation, next: ConfigDb) {
    m.id !in db.revisions && exists view :: Outcome(db, m, view, next)
  }

  /** Foreign keys, valid names, and exactly the secrets sealed. */
  ghost predicate Valid(db: ConfigDb) {
    && (forall id :: id in db.revisions ==> db.revisions[id].project in db.projects)
    && (forall key :: key in db.entries ==> ValidRow(db, key))
  }

  ghost predicate ValidRow(db: ConfigDb, key: (Id, string))
    requires key in db.entries
  {
    var entry := db.entries[key];
    && key.0 in db.revisions && db.revisions[key.0].project == entry.project
    && IsValidName(key.1) && (entry.secret <==> entry.value.Sealed?)
  }

  lemma ViewHas(db: ConfigDb, project: string, id: Id, name: string)
    ensures name in View(db, project, id) <==> (id, name) in db.entries && db.entries[(id, name)].project == project
    ensures name in View(db, project, id) ==> View(db, project, id)[name] == db.entries[(id, name)]
  {
    assert (id, name) in db.entries ==> (id, name).1 == name;
  }

  lemma RowsAre(project: string, id: Id, view: map<string, Entry>, key: (Id, string))
    ensures key in Rows(project, id, view) <==> key.0 == id && key.1 in view
    ensures key in Rows(project, id, view) ==> Rows(project, id, view)[key] == view[key.1].(project := project)
  {
  }

  lemma SameViews(db: ConfigDb, next: ConfigDb, project: string, id: Id)
    requires forall name: string :: (id, name) in db.entries <==> (id, name) in next.entries
    requires forall name: string :: (id, name) in db.entries ==> db.entries[(id, name)] == next.entries[(id, name)]
    ensures View(next, project, id) == View(db, project, id)
  {
    forall name ensures name in View(next, project, id) <==> name in View(db, project, id)
      ensures name in View(db, project, id) ==> View(next, project, id)[name] == View(db, project, id)[name]
    {
      ViewHas(next, project, id, name);
      ViewHas(db, project, id, name);
    }
  }

  lemma ViewOfNew(db: ConfigDb, project: string, now: int, id: Id, view: map<string, Entry>)
    requires id !in db.revisions && forall key :: key in db.entries ==> key.0 in db.revisions
    requires forall name :: name in view ==> view[name].project == project
    ensures View(WithRevision(db, project, now, id, view), project, id) == view
  {
    var next := WithRevision(db, project, now, id, view);
    forall name ensures name in View(next, project, id) <==> name in view
      ensures name in view ==> View(next, project, id)[name] == view[name]
    {
      ViewHas(next, project, id, name);
      RowsAre(project, id, view, (id, name));
      assert (id, name) in db.entries ==> (id, name).0 in db.revisions;
    }
  }

  /** Rows of older revisions stay as they are. */
  lemma ViewOfOther(db: ConfigDb, project: string, now: int, id: Id, view: map<string, Entry>, p: string, other: Id)
    requires other != id
    ensures View(WithRevision(db, project, now, id, view), p, other) == View(db, p, other)
  {
    var next := WithRevision(db, project, now, id, view);
    forall name: string ensures (other, name) !in Rows(project, id, view) {
      RowsAre(project, id, view, (other, name));
    }
    SameViews(db, next, p, other);
  }

  ghost predicate ValidView(project: string, view: map<string, Entry>) {
    forall name :: name in view ==>
      view[name].project == project && IsValidName(name) && (view[name].secret <==> view[name].value.Sealed?)
  }

  lemma ViewIsValid(db: ConfigDb, project: string, id: Id)
    requires Valid(db)
    ensures ValidView(project, View(db, project, id))
  {
    forall name | name in View(db, project, id) ensures ValidRow(db, (id, name)) {
      ViewHas(db, project, id, name);
    }
  }

  lemma LatestIsValid(db: ConfigDb, project: string, view: map<string, Entry>)
    requires Valid(db) && IsLatestView(db, project, view)
    ensures ValidView(project, view)
  {
    if HasRevision(db, project) {
      var id :| IsLatest(db, project, id) && view == View(db, project, id);
      ViewIsValid(db, project, id);
    }
  }

  lemma NewRevisionIsValid(db: ConfigDb, project: string, now: int, id: Id, view: map<string, Entry>)
    requires Valid(db) && project in db.projects && id !in db.revisions && ValidView(project, view)
    ensures Valid(WithRevision(db, project, now, id, view))
  {
    var next := WithRevision(db, project, now, id, view);
    forall key | key in next.entries ensures ValidRow(next, key) {
      RowsAre(project, id, view, key);
      if key !in Rows(project, id, view) {
        assert ValidRow(db, key);
      }
    }
  }

  lemma ChangedIsValid(db: ConfigDb, m: Mutation, view: map<string, Entry>)
    requires ValidView(m.project, view) && Accepted(db, m, view)
    ensures ValidView(m.project, Changed(m, view))
  {
  }

  lemma StartedIsValid(db: ConfigDb, m: Mutation)
    requires Valid(db)
    ensures Valid(WithProject(db, m))
  {
    var started := WithProject(db, m);
    forall key | key in started.entries ensures ValidRow(started, key) {
      assert ValidRow(db, key);
    }
  }

  lemma StepKeepsValid(db: ConfigDb, m: Mutation, next: ConfigDb)
    requires Valid(db) && Step(db, m, next)
    ensures Valid(next)
  {
    var view :| Outcome(db, m, view, next);
    if Accepted(db, m, view) {
      LatestIsValid(db, m.project, view);
      StartedIsValid(db, m);
      ChangedIsValid(db, m, view);
      NewRevisionIsValid(WithProject(db, m), m.project, m.now, m.id, Changed(m, view));
    }
  }

  /** Some revision of a project that has one is the latest. */
  lemma {:induction false} LatestExists(db: ConfigDb, project: string, ids: set<Id>) returns (latest: Id)
    requires ids != {} && forall id :: id in ids ==> id in db.revisions && db.revisions[id].project == project
    ensures latest in ids && forall id :: id in ids ==> db.revisions[id].createdAt <= db.revisions[latest].createdAt
    decreases ids
  {
    latest := AnyOf(ids);
    if ids != {latest} {
      var other := LatestExists(db, project, ids - {latest});
      if db.revisions[other].createdAt > db.revisions[latest].createdAt {
        latest := other;
      }
    }
  }

  lemma SomeLatestView(db: ConfigDb, project: string) returns (view: map<string, Entry>)
    ensures IsLatestView(db, project, view)
  {
    view := map[];
    if HasRevision(db, project) {
      var ids := set k | k in db.revisions && db.revisions[k].project == project;
      var some :| some in db.revisions && db.revisions[some].project == project;
      assert some in ids;
      var id := LatestExists(db, project, ids);
      assert IsLatest(db, project, id);
      view := View(db, project, id);
    }
  }

  /**
   * A new revision is the one to be found next, whatever the database picks, exactly if it is later than all others of
   * the project.
   */
  lemma NewRevisionIsLatestIff(db: ConfigDb, project: string, now: int, id: Id, view: map<string, Entry>)
    requires id !in db.revisions
    ensures (forall found :: IsLatest(WithRevision(db, project, now, id, view), project, found) ==> found == id) <==>
      forall other :: other in db.revisions && db.revisions[other].project == project ==>
        db.revisions[other].createdAt < now
  {
    var next := WithRevision(db, project, now, id, view);
    if other :|
      other in db.revisions && db.revisions[other].project == project && db.revisions[other].createdAt >= now
    {
      var ids := set k | k in db.revisions && db.revisions[k].project == project;
      assert other in ids;
      var found := LatestExists(db, project, ids);
      assert IsLatest(next, project, found) && found != id;
    } else {
      assert next.revisions[id].createdAt == now;
    }
  }

  datatype Setting = Setting(value: string, secret: bool)

  /** What the stored rows say once secrets are opened. */
  function Settings(view: map<string, Entry>): map<string, Setting> {
    map name | name in view :: Setting(view[name].value.text, view[name].secret)
  }

  /** What a change request means for the settings of a project. */
  function Applied(m: Mutation, project: string, settings: map<string, Setting>): map<string, Setting> {
    if m.project != project || !IsValidName(TrimSpace(m.name)) then settings
    else
      match m
      case Set(_, name, value, secret, _, _) =>
        if ByteLength(value) <= MAX_VALUE_LENGTH then settings[TrimSpace(name) := Setting(value, secret)] else settings
      case Unset(_, name, _, _) => settings - {TrimSpace(name)}
  }

  /** What the first `n` requests add up to for a project. */
  function Folded(ops: seq<Mutation>, n: nat, project: string): map<string, Setting>
    requires n <= |ops|
  {
    if n == 0 then map[] else Applied(ops[n - 1], project, Folded(ops, n - 1, project))
  }

  /** A whole history, from an empty database on. */
  ghost predicate IsHistory(dbs: seq<ConfigDb>, ops: seq<Mutation>) {
    && |dbs| == |ops| + 1 && dbs[0] == EMPTY
    && forall i :: 0 <= i < |ops| ==> Step(dbs[i], ops[i], dbs[i + 1])
  }

  /** Request `i` was not refused: it made a revision of the project. */
  ghost predicate Made(dbs: seq<ConfigDb>, ops: seq<Mutation>, project: string, i: nat)
    requires |dbs| == |ops| + 1 && i < |ops|
  {
    ops[i].project == project && ops[i].id in dbs[i + 1].revisions
  }

  /** The revisions of one project were made at different times, in the order of the requests. */
  ghost predicate ClockAdvances(dbs: seq<ConfigDb>, ops: seq<Mutation>, project: string)
    requires |dbs| == |ops| + 1
  {
    forall i, j :: 0 <= i < j < |ops| && Made(dbs, ops, project, i) && Made(dbs, ops, project, j) ==>
      ops[i].now < ops[j].now
  }

  ghost predicate MadeBefore(db: ConfigDb, project: string, now: int) {
    forall id :: id in db.revisions && db.revisions[id].project == project ==> db.revisions[id].createdAt < now
  }

  /** Whichever revision the database picks as the latest has these settings. */
  ghost predicate Represents(db: ConfigDb, project: string, settings: map<string, Setting>) {
    forall view :: IsLatestView(db, project, view) ==> Settings(view) == settings
  }

  lemma SettingsOfUpdate(view: map<string, Entry>, name: string, entry: Entry)
    ensures Settings(view[name := entry]) == Settings(view)[name := Setting(entry.value.text, entry.secret)]
    ensures Settings(view - {name}) == Settings(view) - {name}
  {
  }

  lemma SettingsOfSet(db: ConfigDb, m: Mutation, view: map<string, Entry>)
    requires m.Set?
    ensures Settings(if Accepted(db, m, view) then Changed(m, view) else view) == Applied(m, m.project, Settings(view))
  {
    SettingsOfUpdate(view, TrimSpace(m.name), Entry(m.project, Store(m.value, m.secret), m.secret, m.now));
  }

  lemma SettingsOfUnset(db: ConfigDb, m: Mutation, view: map<string, Entry>)
    requires m.Unset? && (view != map[] ==> m.project in db.projects)
    ensures Settings(if Accepted(db, m, view) then Changed(m, view) else view) == Applied(m, m.project, Settings(view))
  {
    var name := TrimSpace(m.name);
    SettingsOfUpdate(view, name, Entry(m.project, Plain(""), false, m.now));
    if name !in view {
      assert Settings(view) - {name} == Settings(view);
    }
  }

  lemma ProjectOfLatest(db: ConfigDb, project: string, view: map<string, Entry>)
    requires Valid(db) && IsLatestView(db, project, view) && view != map[]
    ensures project in db.projects
  {
    var id :| IsLatest(db, project, id) && view == View(db, project, id);
  }

  lemma SettingsOfChanged(db: ConfigDb, m: Mutation, view: map<string, Entry>)
    requires Valid(db) && IsLatestView(db, m.project, view)
    ensures Settings(if Accepted(db, m, view) then Changed(m, view) else view) == Applied(m, m.project, Settings(view))
  {
    if m.Set? {
      SettingsOfSet(db, m, view);
    } else {
      if view != map[] {
        ProjectOfLatest(db, m.project, view);
      }
      SettingsOfUnset(db, m, view);
    }
  }

  lemma LatestOfOther(db: ConfigDb, project: string, now: int, id: Id, view: map<string, Entry>, other: string,
          latest: Id)
    requires id !in db.revisions && other != project
    ensures IsLatest(WithRevision(db, project, now, id, view), other, latest) <==> IsLatest(db, other, latest)
    ensures HasRevision(WithRevision(db, project, now, id, view), other) <==> HasRevision(db, other)
  {
    var next := WithRevision(db, project, now, id, view);
    assert forall k :: k != id ==> (k in next.revisions <==> k in db.revisions);
  }

  lemma OthersStay(db: ConfigDb, m: Mutation, changed: map<string, Entry>, project: string, view: map<string, Entry>)
    requires project != m.project && m.id !in db.revisions
    requires IsLatestView(WithRevision(WithProject(db, m), m.project, m.now, m.id, changed), project, view)
    ensures IsLatestView(db, project, view)
  {
    var started := WithProject(db, m);
    var next := WithRevision(started, m.project, m.now, m.id, changed);
    LatestOfOther(started, m.project, m.now, m.id, changed, project, m.id);
    if HasRevision(next, project) {
      var id :| IsLatest(next, project, id) && view == View(next, project, id);
      LatestOfOther(started, m.project, m.now, m.id, changed, project, id);
      ViewOfOther(started, m.project, m.now, m.id, changed, project, id);
      assert IsLatest(db, project, id);
    }
  }

  lemma OtherProjectsStay(db: ConfigDb, m: Mutation, next: ConfigDb, project: string, view: map<string, Entry>)
    requires Step(db, m, next) && project != m.project && IsLatestView(next, project, view)
    ensures IsLatestView(db, project, view)
  {
    var base :| Outcome(db, m, base, next);
    if Accepted(db, m, base) {
      OthersStay(db, m, Changed(m, base), project, view);
    }
  }

  lemma NewRevisionIsFound(db: ConfigDb, m: Mutation, base: map<string, Entry>, next: ConfigDb,
          view: map<string, Entry>)
    requires Valid(db) && MadeBefore(db, m.project, m.now) && m.id !in db.revisions
    requires Outcome(db, m, base, next) && Accepted(db, m, base) && IsLatestView(next, m.project, view)
    ensures view == Changed(m, base)
  {
    LatestIsValid(db, m.project, base);
    ChangedIsValid(db, m, base);
    StartedIsValid(db, m);
    var started := WithProject(db, m);
    assert forall key :: key in started.entries ==> ValidRow(started, key);
    ViewOfNew(started, m.project, m.now, m.id, Changed(m, base));
    NewRevisionIsLatestIff(started, m.project, m.now, m.id, Changed(m, base));
    assert next.revisions[m.id].project == m.project;
    var id :| IsLatest(next, m.project, id) && view == View(next, m.project, id);
    assert id == m.id;
  }

  lemma OwnStepRepresents(db: ConfigDb, m: Mutation, next: ConfigDb, settings: map<string, Setting>,
          view: map<string, Entry>)
    requires Valid(db) && Step(db, m, next) && Represents(db, m.project, settings)
    requires m.id in next.revisions ==> MadeBefore(db, m.project, m.now)
    requires IsLatestView(next, m.project, view)
    ensures Settings(view) == Applied(m, m.project, settings)
  {
    var base :| Outcome(db, m, base, next);
    SettingsOfChanged(db, m, base);
    if Accepted(db, m, base) {
      NewRevisionIsFound(db, m, base, next, view);
    }
  }

  lemma StepRepresents(db: ConfigDb, m: Mutation, next: ConfigDb, project: string, settings: map<string, Setting>)
    requires Valid(db) && Step(db, m, next) && Represents(db, project, settings)
    requires m.project == project && m.id in next.revisions ==> MadeBefore(db, project, m.now)
    ensures Represents(next, project, Applied(m, project, settings))
  {
    forall view | IsLatestView(next, project, view) ensures Settings(view) == Applied(m, project, settings) {
      if project != m.project {
        OtherProjectsStay(db, m, next, project, view);
      } else {
        OwnStepRepresents(db, m, next, settings, view);
      }
    }
  }

  /** Later revisions of the project will be later in time, too. */
  ghost predicate TimesAhead(dbs: seq<ConfigDb>, ops: seq<Mutation>, project: string, n: nat)
    requires |dbs| == |ops| + 1 && n <= |ops|
  {
    forall j :: n <= j < |ops| && Made(dbs, ops, project, j) ==> MadeBefore(dbs[n], project, ops[j].now)
  }

  lemma HistoryStepAt(dbs: seq<ConfigDb>, ops: seq<Mutation>, n: nat)
    requires IsHistory(dbs, ops) && n < |ops|
    ensures Step(dbs[n], ops[n], dbs[n + 1])
  {
  }

  lemma {:induction false} HistoryKeepsValid(dbs: seq<ConfigDb>, ops: seq<Mutation>, n: nat)
    requires IsHistory(dbs, ops) && n <= |ops|
    ensures Valid(dbs[n])
  {
    if n > 0 {
      HistoryKeepsValid(dbs, ops, n - 1);
      HistoryStepAt(dbs, ops, n - 1);
      StepKeepsValid(dbs[n - 1], ops[n - 1], dbs[n]);
    }
  }

  lemma StepKeepsMadeBefore(db: ConfigDb, m: Mutation, next: ConfigDb, project: string, now: int)
    requires Step(db, m, next) && MadeBefore(db, project, now)
    requires m.project == project && m.id in next.revisions ==> m.now < now
    ensures MadeBefore(next, project, now)
  {
    var view :| Outcome(db, m, view, next);
  }

  lemma StepKeepsTimes(dbs: seq<ConfigDb>, ops: seq<Mutation>, project: string, n: nat)
    requires IsHistory(dbs, ops) && ClockAdvances(dbs, ops, project) && n < |ops| && TimesAhead(dbs, ops, project, n)
    ensures TimesAhead(dbs, ops, project, n + 1)
  {
    HistoryStepAt(dbs, ops, n);
    var k := n + 1;
    forall j | k <= j < |ops| && Made(dbs, ops, project, j) ensures MadeBefore(dbs[k], project, ops[j].now) {
      assert Made(dbs, ops, project, n) ==> ops[n].now < ops[j].now;
      StepKeepsMadeBefore(dbs[n], ops[n], dbs[k], project, ops[j].now);
    }
  }

  lemma HistoryStepRepresents(dbs: seq<ConfigDb>, ops: seq<Mutation>, k: nat, project: string)
    requires |dbs| == |ops| + 1 && k < |ops| && Step(dbs[k], ops[k], dbs[k + 1]) && Valid(dbs[k])
    requires TimesAhead(dbs, ops, project, k) && Represents(dbs[k], project, Folded(ops, k, project))
    ensures Represents(dbs[k + 1], project, Folded(ops, k + 1, project))
  {
    assert Made(dbs, ops, project, k) ==> MadeBefore(dbs[k], project, ops[k].now);
    StepRepresents(dbs[k], ops[k], dbs[k + 1], project, Folded(ops, k, project));
  }

  lemma {:induction false} HistoryRepresents(dbs: seq<ConfigDb>, ops: seq<Mutation>, n: nat, project: string)
    requires IsHistory(dbs, ops) && ClockAdvances(dbs, ops, project) && n <= |ops|
    ensures TimesAhead(dbs, ops, project, n) && Represents(dbs[n], project, Folded(ops, n, project))
  {
    if n == 0 {
      assert !HasRevision(EMPTY, project);
    } else {
      var k := n - 1;
      HistoryRepresents(dbs, ops, k, project);
      HistoryKeepsValid(dbs, ops, k);
      HistoryStepAt(dbs, ops, k);
      StepKeepsTimes(dbs, ops, project, k);
      HistoryStepRepresents(dbs, ops, k, project);
    }
  }

  /** At every point of a history, the latest revision of a project holds what all requests up to there add up to. */
  lemma LatestIsFold(dbs: seq<ConfigDb>, ops: seq<Mutation>, n: nat, project: string, id: Id)
    requires IsHistory(dbs, ops) && ClockAdvances(dbs, ops, project) && n <= |ops| && IsLatest(dbs[n], project, id)
    ensures Settings(View(dbs[n], project, id)) == Folded(ops, n, project)
  {
    HistoryRepresents(dbs, ops, n, project);
    assert IsLatestView(dbs[n], project, View(dbs[n], project, id));
  }

  /** A project without revisions has no settings, and none that were set and taken back either. */
  lemma NoRevisionNoSettings(dbs: seq<ConfigDb>, ops: seq<Mutation>, n: nat, project: string)
    requires IsHistory(dbs, ops) && ClockAdvances(dbs, ops, project) && n <= |ops| && !HasRevision(dbs[n], project)
    ensures Folded(ops, n, project) == map[]
  {
    HistoryRepresents(dbs, ops, n, project);
    assert IsLatestView(dbs[n], project, map[]);
  }

  lemma OutcomeKeepsRevision(db: ConfigDb, m: Mutation, changed: map<string, Entry>, project: string, id: Id)
    requires id in db.revisions && m.id !in db.revisions
    ensures var next := WithRevision(WithProject(db, m), m.project, m.now, m.id, changed);
      id in next.revisions && next.revisions[id] == db.revisions[id] && View(next, project, id) == View(db, project, id)
  {
    ViewOfOther(WithProject(db, m), m.project, m.now, m.id, changed, project, id);
    assert View(WithProject(db, m), project, id) == View(db, project, id);
  }

  lemma StepKeepsRevision(db: ConfigDb, m: Mutation, next: ConfigDb, project: string, id: Id)
    requires Step(db, m, next) && id in db.revisions
    ensures id in next.revisions && next.revisions[id] == db.revisions[id]
    ensures View(next, project, id) == View(db, project, id)
  {
    var base :| Outcome(db, m, base, next);
    if Accepted(db, m, base) {
      OutcomeKeepsRevision(db, m, Changed(m, base), project, id);
    }
  }

  /** Revisions are never changed or lost, whatever the clock does. */
  lemma {:induction false} RevisionsPersist(dbs: seq<ConfigDb>, ops: seq<Mutation>, k: nat, n: nat, project: string,
          id: Id)
    requires IsHistory(dbs, ops) && k <= n <= |ops| && id in dbs[k].revisions
    ensures id in dbs[n].revisions && dbs[n].revisions[id] == dbs[k].revisions[id]
    ensures View(dbs[n], project, id) == View(dbs[k], project, id)
    decreases n - k
  {
    if k < n {
      RevisionsPersist(dbs, ops, k, n - 1, project, id);
      HistoryStepAt(dbs, ops, n - 1);
      StepKeepsRevision(dbs[n - 1], ops[n - 1], dbs[n], project, id);
    }
  }

  /** A job or run that pinned the latest revision at some point sees the settings of that point ever after. */
  lemma PinnedRevisionKeepsItsSettings(dbs: seq<ConfigDb>, ops: seq<Mutation>, k: nat, n: nat, project: string, id: Id)
    requires IsHistory(dbs, ops) && ClockAdvances(dbs, ops, project) && k <= n <= |ops| && IsLatest(dbs[k], project, id)
    ensures Settings(View(dbs[n], project, id)) == Folded(ops, k, project)
  {
    LatestIsFold(dbs, ops, k, project, id);
    RevisionsPersist(dbs, ops, k, n, project, id);
  }
}
