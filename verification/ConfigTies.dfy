/** Two configuration changes of the same time: a later change may start from either, and the other is lost. */
module ConfigTies {
  import opened Strings
  import opened Tables
  import opened ConfigHistory

  /** The outcome of an accepted request that starts from `view`. */
  function After(db: ConfigDb, m: Mutation, view: map<string, Entry>): ConfigDb {
    WithRevision(WithProject(db, m), m.project, m.now, m.id, Changed(m, view))
  }

  /** Such a request is accepted: it sets a variable whose name is one letter. */
  ghost predicate SetsLetter(m: Mutation) {
    m.Set? && |m.name| == 1 && 'A' <= m.name[0] <= 'Z' && |m.value| == 1 && m.value[0] < 128 as char
  }

  lemma OneByte(s: string)
    requires |s| == 1 && s[0] < 128 as char
    ensures ByteLength(s) == 1
  {
    assert s[..0] == "" && ByteLength("") == 0;
  }

  lemma LetterIsAccepted(db: ConfigDb, m: Mutation, view: map<string, Entry>)
    requires SetsLetter(m)
    ensures TrimSpace(m.name) == m.name && Accepted(db, m, view)
  {
    OneByte(m.name);
    OneByte(m.value);
  }

  lemma RevisionsAfter(db: ConfigDb, m: Mutation, view: map<string, Entry>)
    ensures After(db, m, view).revisions == db.revisions[m.id := Revision(m.project, m.now)]
  {
  }

  lemma KeysAfter(m: Mutation, view: map<string, Entry>)
    requires SetsLetter(m)
    ensures Changed(m, view).Keys == view.Keys + {m.name}
  {
    LetterIsAccepted(EMPTY, m, view);
  }

  lemma NewIsLatest(db: ConfigDb, m: Mutation, base: Id, next: ConfigDb)
    requires IsLatest(db, m.project, base) && db.revisions[base].createdAt <= m.now
    requires next.revisions == db.revisions[m.id := Revision(m.project, m.now)]
    ensures IsLatest(next, m.project, m.id)
  {
  }

  lemma LetterStep(db: ConfigDb, m: Mutation, view: map<string, Entry>)
    requires Valid(db) && SetsLetter(m) && m.id !in db.revisions && IsLatestView(db, m.project, view)
    ensures var next := After(db, m, view);
      Step(db, m, next) && Valid(next) && View(next, m.project, m.id) == Changed(m, view)
  {
    var next := After(db, m, view);
    LetterIsAccepted(db, m, view);
    assert Outcome(db, m, view, next);
    StepKeepsValid(db, m, next);
    LatestIsValid(db, m.project, view);
    ChangedIsValid(db, m, view);
    assert forall key :: key in db.entries ==> ValidRow(db, key);
    ViewOfNew(WithProject(db, m), m.project, m.now, m.id, Changed(m, view));
  }

  lemma LetterApplied(m: Mutation, settings: map<string, Setting>)
    requires SetsLetter(m)
    ensures Applied(m, m.project, settings) == settings[m.name := Setting(m.value, m.secret)]
  {
    LetterIsAccepted(EMPTY, m, map[]);
  }

  /** Three changes of one project, the first two of the same time. */
  ghost predicate Tie(a: Mutation, b: Mutation, c: Mutation) {
    && SetsLetter(a) && SetsLetter(b) && SetsLetter(c) && a.project == b.project == c.project
    && a.name != b.name && b.name != c.name && a.id != b.id && b.id != c.id && a.id != c.id
    && a.now == b.now <= c.now
  }

  lemma FirstKeys(a: Mutation)
    requires SetsLetter(a)
    ensures Changed(a, map[]).Keys == {a.name}
  {
    var none: map<string, Entry> := map[];
    KeysAfter(a, none);
    assert none.Keys + {a.name} == {a.name};
  }

  lemma FirstRevision(a: Mutation)
    ensures var next := After(EMPTY, a, map[]);
      next.revisions == map[a.id := Revision(a.project, a.now)] && IsLatest(next, a.project, a.id)
  {
    RevisionsAfter(EMPTY, a, map[]);
  }

  lemma FirstChange(a: Mutation) returns (next: ConfigDb)
    requires SetsLetter(a)
    ensures Step(EMPTY, a, next) && Valid(next) && IsLatest(next, a.project, a.id)
    ensures next.revisions == map[a.id := Revision(a.project, a.now)] && View(next, a.project, a.id).Keys == {a.name}
  {
    next := After(EMPTY, a, map[]);
    assert Valid(EMPTY) && !HasRevision(EMPTY, a.project);
    LetterStep(EMPTY, a, map[]);
    FirstRevision(a);
    FirstKeys(a);
  }

  /** The next change starts from revision `base`, which is a latest one, and makes a revision that is not older. */
  lemma ChangeFrom(db: ConfigDb, m: Mutation, base: Id) returns (next: ConfigDb)
    requires Valid(db) && SetsLetter(m) && m.id !in db.revisions && IsLatest(db, m.project, base)
    requires db.revisions[base].createdAt <= m.now
    ensures Step(db, m, next) && Valid(next) && IsLatest(next, m.project, m.id)
    ensures next.revisions == db.revisions[m.id := Revision(m.project, m.now)]
    ensures View(next, m.project, m.id).Keys == View(db, m.project, base).Keys + {m.name}
    ensures View(next, m.project, base) == View(db, m.project, base)
  {
    var view := View(db, m.project, base);
    assert IsLatestView(db, m.project, view);
    next := After(db, m, view);
    LetterStep(db, m, view);
    RevisionsAfter(db, m, view);
    KeysAfter(m, view);
    NewIsLatest(db, m, base, next);
    OutcomeKeepsRevision(db, m, Changed(m, view), m.project, base);
  }

  lemma FirstIsStillLatest(a: Mutation, b: Mutation, db: ConfigDb)
    requires a.project == b.project && a.id != b.id && a.now == b.now
    requires db.revisions == map[a.id := Revision(a.project, a.now)][b.id := Revision(b.project, b.now)]
    ensures IsLatest(db, a.project, a.id)
  {
  }

  lemma FoldHasSecond(a: Mutation, b: Mutation, c: Mutation)
    requires Tie(a, b, c)
    ensures b.name in Folded([a, b, c], 3, a.project)
  {
    var ops := [a, b, c];
    LetterApplied(b, Folded(ops, 1, a.project));
    LetterApplied(c, Folded(ops, 2, a.project));
  }

  lemma {:induction false} HistoryExtends(dbs: seq<ConfigDb>, ops: seq<Mutation>, m: Mutation, next: ConfigDb)
    requires IsHistory(dbs, ops) && Step(dbs[|ops|], m, next)
    ensures IsHistory(dbs + [next], ops + [m])
  {
    var longer, more := dbs + [next], ops + [m];
    forall i | 0 <= i < |more| ensures Step(longer[i], more[i], longer[i + 1]) {
      if i < |ops| { HistoryStepAt(dbs, ops, i); }
    }
  }

  lemma OneChange(a: Mutation) returns (dbs: seq<ConfigDb>, db: ConfigDb)
    requires SetsLetter(a)
    ensures IsHistory(dbs, [a]) && db == dbs[1] && Valid(db) && IsLatest(db, a.project, a.id)
    ensures db.revisions == map[a.id := Revision(a.project, a.now)] && View(db, a.project, a.id).Keys == {a.name}
  {
    db := FirstChange(a);
    HistoryExtends([EMPTY], [], a, db);
    assert [] + [a] == [a];
    dbs := [EMPTY] + [db];
  }

  /** After the first two changes, the revision of the first one is still a latest one. */
  lemma TwoChanges(a: Mutation, b: Mutation) returns (dbs: seq<ConfigDb>, db: ConfigDb)
    requires SetsLetter(a) && SetsLetter(b) && a.project == b.project && a.id != b.id && a.now == b.now
    ensures IsHistory(dbs, [a] + [b]) && db == dbs[2] && Valid(db) && IsLatest(db, a.project, a.id)
    ensures db.revisions.Keys == {a.id, b.id} && db.revisions[a.id].createdAt == a.now
    ensures View(db, a.project, a.id).Keys == {a.name}
  {
    var before, first := OneChange(a);
    db := ChangeFrom(first, b, a.id);
    FirstIsStillLatest(a, b, db);
    HistoryExtends(before, [a], b, db);
    dbs := before + [db];
  }

  lemma NotInView(db: ConfigDb, project: string, id: Id, a: string, b: string, c: string)
    requires View(db, project, id).Keys == {a} + {c} && a != b && b != c
    ensures b !in Settings(View(db, project, id))
  {
  }

  lemma ThirdChange(db: ConfigDb, c: Mutation, first: Id, name: string) returns (next: ConfigDb)
    requires Valid(db) && SetsLetter(c) && c.id !in db.revisions && IsLatest(db, c.project, first)
    requires db.revisions[first].createdAt <= c.now && View(db, c.project, first).Keys == {name}
    ensures Step(db, c, next) && IsLatest(next, c.project, c.id)
    ensures View(next, c.project, c.id).Keys == {name} + {c.name}
  {
    next := ChangeFrom(db, c, first);
  }

  lemma OpsInOrder(a: Mutation, b: Mutation, c: Mutation)
    ensures [a] + [b] + [c] == [a, b, c]
  {
  }

  /** In some history of these requests the second setting is lost: the third change starts from the first one. */
  lemma SettingIsLost(a: Mutation, b: Mutation, c: Mutation) returns (dbs: seq<ConfigDb>)
    requires Tie(a, b, c)
    ensures IsHistory(dbs, [a, b, c]) && IsLatest(dbs[3], a.project, c.id)
    ensures b.name in Folded([a, b, c], 3, a.project) && b.name !in Settings(View(dbs[3], a.project, c.id))
  {
    var before, db := TwoChanges(a, b);
    var last := ThirdChange(db, c, a.id, a.name);
    HistoryExtends(before, [a] + [b], c, last);
    OpsInOrder(a, b, c);
    NotInView(last, a.project, c.id, a.name, b.name, c.name);
    FoldHasSecond(a, b, c);
    dbs := before + [last];
  }

  /** For instance: A=1 and B=2 are set at time 7, and C=3 at time 8. */
  lemma LostForInstance() returns (dbs: seq<ConfigDb>)
    ensures
      var ops := [Set("p", "A", "1", false, 7, 1), Set("p", "B", "2", false, 7, 2), Set("p", "C", "3", false, 8, 3)];
      && IsHistory(dbs, ops) && IsLatest(dbs[3], "p", 3)
      && "B" in Folded(ops, 3, "p") && "B" !in Settings(View(dbs[3], "p", 3))
  {
    var a, b, c := Set("p", "A", "1", false, 7, 1), Set("p", "B", "2", false, 7, 2), Set("p", "C", "3", false, 8, 3);
    assert a.name[0] == 'A' && b.name[0] == 'B' && c.name[0] == 'C';
    dbs := SettingIsLost(a, b, c);
  }
}
