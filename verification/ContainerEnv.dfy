/** The full environment of app and workflow containers: the built-in variables and the project's own. */
module ContainerEnv {
  import opened Strings
  import opened ConfigHistory
  import opened ConfigStore

  /** The variable that a line of an environment defines. */
  function Variable(line: string): string {
    if Index(line, '=') < 0 then line else line[..Index(line, '=')]
  }

  function Line(name: string, value: string): string {
    name + ("=" + value)
  }

  const DEFAULT_BRAIN_URL := "http://brain:8081"
  const PAYLOAD_FILE := "/var/run/ovek/workflow-payload.json"

  /** The configured address of Brain, or the default one. */
  function BrainURL(configured: string): string {
    if TrimSpace(configured) == "" then DEFAULT_BRAIN_URL else TrimSpace(configured)
  }

  /** appEnvironment(appRuntimeEnv(env)) */
  function AppEnvironment(configured: string, env: seq<string>): seq<string> {
    AppLines(BrainURL(configured)) + env
  }

  function AppLines(brainURL: string): seq<string> {
    [Line("PORT", "8080"), Line("POCKETBASE_URL", "http://db:8090"), Line("OVEK_BRAIN_URL", brainURL)]
  }

  function WorkflowEnvironment(project: string, workflow: string, run: string, env: seq<string>): seq<string> {
    WorkflowLines(project, workflow, run, PAYLOAD_FILE) + env
  }

  function WorkflowLines(project: string, workflow: string, run: string, payload: string): seq<string> {
    [Line("PORT", "8080"), Line("POCKETBASE_URL", "http://db:8090"), Line("OVEK_PROJECT", project),
     Line("OVEK_WORKFLOW", workflow),
     Line("OVEK_WORKFLOW_RUN_ID", run), Line("OVEK_WORKFLOW_PAYLOAD_FILE", payload)]
  }

  ghost predicate DefinesOnce(env: seq<string>) {
    forall i, j :: 0 <= i < j < |env| ==> Variable(env[i]) != Variable(env[j])
  }

  /** Valid names contain no equals sign, so a line defines the variable it was made for, whatever the value. */
  lemma VariableOfLine(name: string, value: string)
    requires forall k :: 0 <= k < |name| ==> name[k] != '='
    ensures Variable(Line(name, value)) == name
  {
    var line := Line(name, value);
    assert forall k :: 0 <= k < |name| ==> line[k] == name[k];
    assert line[|name|] == '=';
    assert Index(line, '=') == |name|;
  }

  lemma {:induction false} EnvAt(names: seq<string>, settings: map<string, Setting>, i: nat)
    requires (forall j :: 0 <= j < |names| ==> names[j] in settings) && i < |names|
    ensures |EnvOf(names, settings)| == |names| && EnvOf(names, settings)[i] == Line(names[i], settings[names[i]].value)
  {
    var n := |names| - 1;
    if i < n {
      EnvAt(names[..n], settings, i);
    } else if n > 0 {
      EnvAt(names[..n], settings, 0);
    }
  }

  /** Line `i` of a project's environment defines its name `i`, which no built-in line may define. */
  lemma EnvDefines(names: seq<string>, settings: map<string, Setting>, i: nat)
    requires (forall j :: 0 <= j < |names| ==> names[j] in settings && IsValidName(names[j])) && i < |names|
    ensures |EnvOf(names, settings)| == |names| && Variable(EnvOf(names, settings)[i]) == names[i]
    ensures !IsReserved(names[i])
  {
    EnvAt(names, settings, i);
    assert forall k :: 0 <= k < |names[i]| ==> names[i][k] != '=';
    VariableOfLine(names[i], settings[names[i]].value);
  }

  lemma NamesStayApart(builtins: seq<string>, env: seq<string>, names: seq<string>)
    requires |env| == |names| && IsSorted(names)
    requires forall j :: 0 <= j < |names| ==> Variable(env[j]) == names[j] && !IsReserved(names[j])
    requires DefinesOnce(builtins) && forall i :: 0 <= i < |builtins| ==> IsReserved(Variable(builtins[i]))
    ensures DefinesOnce(builtins + env)
  {
    var all, b := builtins + env, |builtins|;
    forall i, j | 0 <= i < j < |all| ensures Variable(all[i]) != Variable(all[j]) {
      if i >= b {
        assert all[i] == env[i - b] && all[j] == env[j - b];
        LessIsIrreflexive(names[i - b]);
      }
    }
  }

  lemma EnvLength(names: seq<string>, settings: map<string, Setting>)
    requires forall j :: 0 <= j < |names| ==> names[j] in settings
    ensures |EnvOf(names, settings)| == |names|
  {
    if names != [] { EnvAt(names, settings, 0); }
  }

  lemma BuiltinsStayApart(builtins: seq<string>, names: seq<string>, settings: map<string, Setting>)
    requires Lists(names, settings.Keys)
    requires forall j :: 0 <= j < |names| ==> names[j] in settings && IsValidName(names[j])
    requires DefinesOnce(builtins) && forall i :: 0 <= i < |builtins| ==> IsReserved(Variable(builtins[i]))
    ensures DefinesOnce(builtins + EnvOf(names, settings))
  {
    var env := EnvOf(names, settings);
    EnvLength(names, settings);
    forall j | 0 <= j < |names| ensures Variable(env[j]) == names[j] && !IsReserved(names[j]) {
      EnvDefines(names, settings, j);
    }
    NamesStayApart(builtins, env, names);
  }

  ghost predicate ValidNames(settings: map<string, Setting>) {
    forall name :: name in settings ==> IsValidName(name)
  }

  predicate NoEquals(name: string) {
    forall k :: 0 <= k < |name| ==> name[k] != '='
  }

  /** Names that may stand before the equals sign of built-in lines. */
  ghost predicate BuiltinNames(names: seq<string>) {
    && (forall i :: 0 <= i < |names| ==> IsReserved(names[i]))
    && (forall i :: 0 <= i < |names| ==> NoEquals(names[i]))
    && (forall i, j :: 0 <= i < j < |names| ==> names[i] != names[j])
  }

  lemma LinesDefineNames(lines: seq<string>, names: seq<string>, values: seq<string>)
    requires |lines| == |names| == |values| && BuiltinNames(names)
    requires forall i :: 0 <= i < |lines| ==> lines[i] == Line(names[i], values[i])
    ensures DefinesOnce(lines) && forall i :: 0 <= i < |lines| ==> IsReserved(Variable(lines[i]))
  {
    forall i | 0 <= i < |lines| ensures Variable(lines[i]) == names[i] {
      VariableOfLine(names[i], values[i]);
    }
  }

  const APP_NAMES := ["PORT", "POCKETBASE_URL", "OVEK_BRAIN_URL"]
  const WORKFLOW_NAMES :=
    ["PORT", "POCKETBASE_URL", "OVEK_PROJECT", "OVEK_WORKFLOW", "OVEK_WORKFLOW_RUN_ID", "OVEK_WORKFLOW_PAYLOAD_FILE"]

  lemma AppNamesAreNames()
    ensures NoEquals("PORT") && NoEquals("POCKETBASE_URL") && NoEquals("OVEK_BRAIN_URL")
  {
  }

  lemma WorkflowNamesAreNames()
    ensures NoEquals("OVEK_PROJECT") && NoEquals("OVEK_WORKFLOW")
    ensures NoEquals("OVEK_WORKFLOW_RUN_ID") && NoEquals("OVEK_WORKFLOW_PAYLOAD_FILE")
  {
  }

  lemma FirstLettersDiffer()
    ensures "POCKETBASE_URL" != "OVEK_BRAIN_URL"
  {
    var p, o := "POCKETBASE_URL", "OVEK_BRAIN_URL";
    assert p[0] == 'P';
    assert o[0] == 'O';
  }

  lemma AppNamesAreBuiltin()
    ensures BuiltinNames(APP_NAMES)
  {
    AppNamesAreNames();
    FirstLettersDiffer();
    assert |"PORT"| == 4 && |"POCKETBASE_URL"| == 14 && |"OVEK_BRAIN_URL"| == 14;
  }

  lemma WorkflowNamesAreBuiltin()
    ensures BuiltinNames(WORKFLOW_NAMES)
  {
    AppNamesAreNames();
    WorkflowNamesAreNames();
    assert |"PORT"| == 4 && |"POCKETBASE_URL"| == 14 && |"OVEK_PROJECT"| == 12 && |"OVEK_WORKFLOW"| == 13;
    assert |"OVEK_WORKFLOW_RUN_ID"| == 20 && |"OVEK_WORKFLOW_PAYLOAD_FILE"| == 26;
  }

  lemma AppLinesDefine(brainURL: string)
    ensures var lines := AppLines(brainURL);
      DefinesOnce(lines) && forall i :: 0 <= i < |lines| ==> IsReserved(Variable(lines[i]))
  {
    AppNamesAreBuiltin();
    LinesDefineNames(AppLines(brainURL), APP_NAMES, ["8080", "http://db:8090", brainURL]);
  }

  /** No app container's environment defines a variable twice, whatever the values and the Brain URL are. */
  lemma AppDefinesOnce(configured: string, names: seq<string>, settings: map<string, Setting>)
    requires Lists(names, settings.Keys) && ValidNames(settings)
    ensures DefinesOnce(AppEnvironment(configured, EnvOf(names, settings)))
  {
    AppLinesDefine(BrainURL(configured));
    BuiltinsStayApart(AppLines(BrainURL(configured)), names, settings);
  }

  lemma WorkflowLinesDefine(project: string, workflow: string, run: string, payload: string)
    ensures var lines := WorkflowLines(project, workflow, run, payload);
      DefinesOnce(lines) && forall i :: 0 <= i < |lines| ==> IsReserved(Variable(lines[i]))
  {
    WorkflowNamesAreBuiltin();
    LinesDefineNames(
      WorkflowLines(project, workflow, run, payload), WORKFLOW_NAMES,
      ["8080", "http://db:8090", project, workflow, run, payload]);
  }

  /** The same holds for workflow containers. */
  lemma WorkflowDefinesOnce(project: string, workflow: string, run: string, names: seq<string>,
          settings: map<string, Setting>)
    requires Lists(names, settings.Keys) && ValidNames(settings)
    ensures DefinesOnce(WorkflowEnvironment(project, workflow, run, EnvOf(names, settings)))
  {
    WorkflowLinesDefine(project, workflow, run, PAYLOAD_FILE);
    BuiltinsStayApart(WorkflowLines(project, workflow, run, PAYLOAD_FILE), names, settings);
  }

  lemma SettingIsListed(names: seq<string>, settings: map<string, Setting>, name: string)
    requires Lists(names, settings.Keys) && name in settings
    ensures Line(name, settings[name].value) in EnvOf(names, settings)
  {
    var i :| 0 <= i < |names| && names[i] == name;
    EnvAt(names, settings, i);
    assert EnvOf(names, settings)[i] == Line(name, settings[name].value);
  }

  /** One line for each built-in variable and for each setting, with its value, and nothing else. */
  ghost predicate Holds(env: seq<string>, builtins: seq<(string, string)>, settings: map<string, Setting>) {
    && |env| == |builtins| + |settings|
    && (forall i :: 0 <= i < |builtins| ==> builtins[i].0 + ("=" + builtins[i].1) in env)
    && (forall name :: name in settings ==> name + ("=" + settings[name].value) in env)
  }

  lemma {:induction false} SortedIsAsLong(names: seq<string>, all: set<string>)
    requires Lists(names, all)
    ensures |names| == |all|
  {
    if names == [] {
      assert all == {};
    } else {
      var n := |names| - 1;
      var rest := all - {names[n]};
      forall name ensures name in names[..n] <==> name in rest {
        assert name in names <==> name in names[..n] || name == names[n];
        if name in names[..n] { LessIsIrreflexive(name); }
      }
      SortedIsAsLong(names[..n], rest);
    }
  }

  lemma SettingsFollow(lines: seq<string>, builtins: seq<(string, string)>, names: seq<string>,
          settings: map<string, Setting>)
    requires Lists(names, settings.Keys)
    requires |lines| == |builtins|
    requires forall i :: 0 <= i < |lines| ==> lines[i] == Line(builtins[i].0, builtins[i].1)
    ensures Holds(lines + EnvOf(names, settings), builtins, settings)
  {
    EnvLength(names, settings);
    SortedIsAsLong(names, settings.Keys);
    assert |settings.Keys| == |settings|;
    forall i | 0 <= i < |builtins| ensures builtins[i].0 + ("=" + builtins[i].1) in lines {
      assert lines[i] in lines;
    }
    forall name | name in settings ensures name + ("=" + settings[name].value) in EnvOf(names, settings) {
      SettingIsListed(names, settings, name);
    }
  }

  lemma AppLinesHold(brain: string, names: seq<string>, settings: map<string, Setting>)
    requires Lists(names, settings.Keys)
    ensures Holds(
      AppLines(brain) + EnvOf(names, settings),
      [("PORT", "8080"), ("POCKETBASE_URL", "http://db:8090"), ("OVEK_BRAIN_URL", brain)],
      settings)
  {
    var builtins := [("PORT", "8080"), ("POCKETBASE_URL", "http://db:8090"), ("OVEK_BRAIN_URL", brain)];
    SettingsFollow(AppLines(brain), builtins, names, settings);
  }

  /** The environment of an app: the port, the addresses of its database and of Brain, and every setting. */
  lemma AppHolds(configured: string, names: seq<string>, settings: map<string, Setting>)
    requires Lists(names, settings.Keys)
    ensures var brain := if TrimSpace(configured) == "" then "http://brain:8081" else TrimSpace(configured);
      Holds(
        AppEnvironment(configured, EnvOf(names, settings)),
        [("PORT", "8080"), ("POCKETBASE_URL", "http://db:8090"), ("OVEK_BRAIN_URL", brain)],
        settings)
  {
    AppLinesHold(BrainURL(configured), names, settings);
  }

  lemma WorkflowLinesHold(project: string, workflow: string, run: string, payload: string, names: seq<string>,
          settings: map<string, Setting>)
    requires Lists(names, settings.Keys)
    ensures Holds(
      WorkflowLines(project, workflow, run, payload) + EnvOf(names, settings),
      [("PORT", "8080"), ("POCKETBASE_URL", "http://db:8090"), ("OVEK_PROJECT", project), ("OVEK_WORKFLOW", workflow),
       ("OVEK_WORKFLOW_RUN_ID", run), ("OVEK_WORKFLOW_PAYLOAD_FILE", payload)],
      settings)
  {
    var builtins := [
      ("PORT", "8080"), ("POCKETBASE_URL", "http://db:8090"), ("OVEK_PROJECT", project), ("OVEK_WORKFLOW", workflow),
      ("OVEK_WORKFLOW_RUN_ID", run), ("OVEK_WORKFLOW_PAYLOAD_FILE", payload)];
    SettingsFollow(WorkflowLines(project, workflow, run, payload), builtins, names, settings);
  }

  /** The environment of a workflow: the port, the database, what is run and where its payload is, and every setting. */
  lemma WorkflowHolds(project: string, workflow: string, run: string, names: seq<string>,
          settings: map<string, Setting>)
    requires Lists(names, settings.Keys)
    ensures Holds(
      WorkflowEnvironment(project, workflow, run, EnvOf(names, settings)),
      [("PORT", "8080"), ("POCKETBASE_URL", "http://db:8090"), ("OVEK_PROJECT", project), ("OVEK_WORKFLOW", workflow),
       ("OVEK_WORKFLOW_RUN_ID", run), ("OVEK_WORKFLOW_PAYLOAD_FILE", "/var/run/ovek/workflow-payload.json")],
      settings)
  {
    WorkflowLinesHold(project, workflow, run, PAYLOAD_FILE, names, settings);
  }

  /** In a reachable database, the names of a project's settings are valid ones. */
  lemma SettingsHaveValidNames(dbs: seq<ConfigDb>, ops: seq<Mutation>, n: nat, project: string, id: int)
    requires IsHistory(dbs, ops) && n <= |ops|
    ensures ValidNames(Settings(View(dbs[n], project, id)))
  {
    HistoryKeepsValid(dbs, ops, n);
    ViewIsValid(dbs[n], project, id);
  }
}
