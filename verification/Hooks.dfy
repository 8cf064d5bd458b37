/** Keeping one webhook per GitLab project and one system hook, against a model of the server. */
module Hooks {
  import opened Base

  /** Where hooks live on the server. */
  datatype Scope = System | Project(id: int)

  /** A hook; events are the names of the event switches that are on. */
  datatype Hook = Hook(id: nat, name: string, url: string, token: string, events: set<string>, verifySsl: bool)

  datatype Config = Config(name: string, url: string, token: string, verifySsl: bool)

  /** The switches a request sets for a scope, and the ones it leaves on. */
  function Managed(scope: Scope): set<string> {
    match scope
    case System => {"push", "tag_push", "merge_requests", "repository_update"}
    case Project(_) =>
      {"push", "tag_push", "merge_requests", "issues", "note", "pipeline", "confidential_issues", "confidential_note"}
  }

  function Wanted(scope: Scope): set<string> {
    match scope
    case System => {"merge_requests"}
    case Project(_) => {"issues", "note", "pipeline"}
  }

  /** The comparison: everything managed but the token, which the server does not give back. */
  predicate Matches(scope: Scope, config: Config, hook: Hook) {
    hook.url == config.url && hook.events * Managed(scope) == Wanted(scope) && hook.verifySsl == config.verifySsl
  }

  /** A hook after the server has applied a request to it. */
  function Requested(scope: Scope, config: Config, hook: Hook): Hook {
    Hook(hook.id, config.name, config.url, config.token, hook.events - Managed(scope) + Wanted(scope), config.verifySsl)
  }

  datatype Action = Create | WouldCreate | Update | WouldUpdate | Unchanged

  /** How a request ends: answered, lost on the way there, or applied with the answer lost. */
  datatype Fault = Answered | Lost | Unheard

  datatype Request = ListHooks(scope: Scope) | Write(scope: Scope) | ListProjects

  type Faults = Request -> Fault

  type Table = map<Scope, seq<Hook>>

  datatype Report = Report(system: Option<Action>, scanned: nat, created: nat, updated: nat, same: nat, failed: nat)

  function FirstNamed(hooks: seq<Hook>, name: string): (i: nat)
    ensures i <= |hooks|
    ensures i < |hooks| ==> hooks[i].name == name
    ensures forall j | 0 <= j < i :: hooks[j].name != name
  {
    if hooks == [] || hooks[0].name == name then 0 else 1 + FirstNamed(hooks[1..], name)
  }

  /** The scope is as the configuration wants it. */
  predicate Settled(scope: Scope, config: Config, hooks: seq<Hook>) {
    var i := FirstNamed(hooks, config.name);
    i < |hooks| && Matches(scope, config, hooks[i])
  }

  /** The hooks of a scope once a write has been applied. */
  function Written(scope: Scope, config: Config, hooks: seq<Hook>, newId: nat): seq<Hook> {
    var i := FirstNamed(hooks, config.name);
    if i < |hooks| then hooks[i := Requested(scope, config, hooks[i])]
    else hooks + [Requested(scope, config, Hook(newId, config.name, "", "", {}, false))]
  }

  /** Ids are unique within a scope, and new ones are new. */
  ghost predicate ValidTable(table: Table, projects: seq<int>, nextId: nat) {
    && System in table && (forall p | p in projects :: Project(p) in table)
    && (forall s, i | s in table && 0 <= i < |table[s]| :: table[s][i].id < nextId)
    && (forall s, i, j | s in table && 0 <= i < j < |table[s]| :: table[s][i].id != table[s][j].id)
  }

  // What the switches are

  /** The switches of a hook as the configuration wants them: a system hook hears of merge requests, a project
      hook of issues, notes and pipelines, and of nothing else that is managed. */
  predicate Switched(scope: Scope, events: set<string>) {
    match scope
    case System => "merge_requests" in events && "push" !in events && "tag_push" !in events && "repository_update" !in events
    case Project(_) =>
      && "issues" in events && "note" in events && "pipeline" in events
      && "push" !in events && "tag_push" !in events && "merge_requests" !in events
      && "confidential_issues" !in events && "confidential_note" !in events
  }

  lemma MatchesExactly(scope: Scope, config: Config, hook: Hook)
    ensures Matches(scope, config, hook) <==>
              hook.url == config.url && hook.verifySsl == config.verifySsl && Switched(scope, hook.events)
  {
    var shared := hook.events * Managed(scope);
    forall event ensures event in shared <==> event in hook.events && event in Managed(scope) {
    }
    if Switched(scope, hook.events) {
      assert shared == Wanted(scope);
    }
    if shared == Wanted(scope) {
      assert forall event | event in Managed(scope) :: event in hook.events <==> event in Wanted(scope);
    }
  }

  /** A switch that no request sets. */
  predicate Unmanaged(scope: Scope, event: string) {
    && event !in {"push", "tag_push", "merge_requests"}
    && match scope
       case System => event != "repository_update"
       case Project(_) => event !in {"issues", "note", "pipeline", "confidential_issues", "confidential_note"}
  }

  /** A request sets what it names and leaves every other switch as it is. */
  lemma RequestedExactly(scope: Scope, config: Config, hook: Hook, event: string)
    ensures var after := Requested(scope, config, hook);
            && after.id == hook.id && after.name == config.name && after.url == config.url && after.token == config.token
            && after.verifySsl == config.verifySsl && Switched(scope, after.events)
            && (Unmanaged(scope, event) ==> (event in after.events <==> event in hook.events))
  {}

  // Main facts about one scope

  /** One applied write settles the scope; the hooks of other names stay where and as they are. */
  lemma WriteSettles(scope: Scope, config: Config, hooks: seq<Hook>, newId: nat)
    ensures var after := Written(scope, config, hooks, newId);
            && Settled(scope, config, after)
            && |hooks| <= |after| <= |hooks| + 1
            && (forall i | 0 <= i < |hooks| && hooks[i].name != config.name :: after[i] == hooks[i])
            && (forall i | 0 <= i < |after| && after[i].name != config.name :: i < |hooks|)
            && after[FirstNamed(after, config.name)].token == config.token
  {
    var after := Written(scope, config, hooks, newId);
    var i := FirstNamed(hooks, config.name);
    assert after[i].name == config.name;
    assert forall j | 0 <= j < i :: after[j].name != config.name;
    assert FirstNamed(after, config.name) == i;
    assert Wanted(scope) <= Managed(scope);
  }

  /** The token is not compared: after an applied write-or-leave the hook carries the configured token
      exactly when it did before or something else had to be written. */
  lemma TokenRotationExactly(scope: Scope, config: Config, hooks: seq<Hook>, newId: nat)
    requires FirstNamed(hooks, config.name) < |hooks|
    ensures var i := FirstNamed(hooks, config.name);
            var after := if Settled(scope, config, hooks) then hooks else Written(scope, config, hooks, newId);
            && FirstNamed(after, config.name) == i
            && (after[i].token == config.token <==> hooks[i].token == config.token || !Matches(scope, config, hooks[i]))
  {
    var i := FirstNamed(hooks, config.name);
    var after := Written(scope, config, hooks, newId);
    assert after[i].name == config.name && forall j | 0 <= j < i :: after[j].name != config.name;
  }

  // One scope in one run

  /** The action reported for a scope, None for an error. */
  function Outcome(scope: Scope, config: Config, hooks: seq<Hook>, dryRun: bool, faults: Faults): Option<Action> {
    var named := FirstNamed(hooks, config.name) < |hooks|;
    if faults(ListHooks(scope)) != Answered then None
    else if Settled(scope, config, hooks) then Some(Unchanged)
    else if dryRun then Some(if named then WouldUpdate else WouldCreate)
    else if faults(Write(scope)) != Answered then None
    else Some(if named then Update else Create)
  }

  predicate Sends(scope: Scope, config: Config, hooks: seq<Hook>, dryRun: bool, faults: Faults) {
    faults(ListHooks(scope)) == Answered && !Settled(scope, config, hooks) && !dryRun
  }

  ghost predicate Becomes(scope: Scope, config: Config, hooks: seq<Hook>, dryRun: bool, faults: Faults, hooks': seq<Hook>) {
    if Sends(scope, config, hooks, dryRun, faults) && faults(Write(scope)) != Lost
    then exists newId :: hooks' == Written(scope, config, hooks, newId)
    else hooks' == hooks
  }

  /** An applied scope without an error is settled, and a settled one is never written again. */
  lemma AppliedIsSettled(scope: Scope, config: Config, hooks: seq<Hook>, faults: Faults, hooks': seq<Hook>)
    requires Outcome(scope, config, hooks, false, faults).Some? && Becomes(scope, config, hooks, false, faults, hooks')
    ensures Settled(scope, config, hooks')
  {
    if newId :| hooks' == Written(scope, config, hooks, newId) {
      WriteSettles(scope, config, hooks, newId);
    }
  }

  lemma SettledStays(scope: Scope, config: Config, hooks: seq<Hook>, dryRun: bool, faults: Faults, hooks': seq<Hook>)
    requires Settled(scope, config, hooks) && Becomes(scope, config, hooks, dryRun, faults, hooks')
    ensures hooks' == hooks && !Sends(scope, config, hooks, dryRun, faults)
    ensures Outcome(scope, config, hooks, dryRun, faults) == if faults(ListHooks(scope)) == Answered then Some(Unchanged) else None
  {}

  /** The action reported says what was found: no hook of the name, one that does not match, or one that does. */
  lemma OutcomeExactly(scope: Scope, config: Config, hooks: seq<Hook>, dryRun: bool, faults: Faults)
    requires faults(ListHooks(scope)) == Answered && faults(Write(scope)) == Answered
    ensures Outcome(scope, config, hooks, dryRun, faults) == Some(if dryRun then WouldCreate else Create) <==>
              forall i | 0 <= i < |hooks| :: hooks[i].name != config.name
    ensures Outcome(scope, config, hooks, dryRun, faults) == Some(Unchanged) <==>
              exists i | 0 <= i < |hooks| :: hooks[i].name == config.name && Matches(scope, config, hooks[i])
                                             && forall j | 0 <= j < i :: hooks[j].name != config.name
    ensures Outcome(scope, config, hooks, dryRun, faults) in
              {Some(if dryRun then WouldCreate else Create), Some(Unchanged), Some(if dryRun then WouldUpdate else Update)}
  {
    var i := FirstNamed(hooks, config.name);
    if i < |hooks| {
      assert hooks[i].name == config.name;
    }
  }

  // Whole runs

  function Results(config: Config, table: Table, projects: seq<int>, dryRun: bool, faults: Faults): seq<Option<Action>>
    requires forall p | p in projects :: Project(p) in table
  {
    seq(|projects|, i requires 0 <= i < |projects| => Outcome(Project(projects[i]), config, table[Project(projects[i])], dryRun, faults))
  }

  datatype Kind = Creates | Updates | Leaves | Fails

  function KindOf(action: Option<Action>): Kind {
    match action
    case None => Fails
    case Some(a) => if a == Unchanged then Leaves else if a == Create || a == WouldCreate then Creates else Updates
  }

  function Count(results: seq<Option<Action>>, kind: Kind): nat {
    if results == [] then 0
    else Count(results[..|results| - 1], kind) + if KindOf(results[|results| - 1]) == kind then 1 else 0
  }

  /** The counters over the project results. */
  function Counted(system: Option<Action>, results: seq<Option<Action>>): Report {
    Report(system, |results|, Count(results, Creates), Count(results, Updates), Count(results, Leaves), Count(results, Fails))
  }

  /** Every scanned project is counted once. */
  lemma {:induction false} CountsAddUp(system: Option<Action>, results: seq<Option<Action>>)
    ensures var r := Counted(system, results); r.scanned == r.created + r.updated + r.same + r.failed
    ensures var r := Counted(system, results); r.same == r.scanned <==> forall i | 0 <= i < |results| :: results[i] == Some(Unchanged)
    ensures var r := Counted(system, results); r.failed == 0 <==> None !in results
  {
    if results != [] {
      var front, last := results[..|results| - 1], results[|results| - 1];
      assert results == front + [last];
      assert forall a :: a in results <==> a in front || a == last;
      CountsAddUp(system, front);
      var r, f := Counted(system, results), Counted(system, front);
      assert f.same <= f.scanned && r.scanned == f.scanned + 1 && r.same == f.same + if KindOf(last) == Leaves then 1 else 0;
      assert KindOf(last) == Creates || KindOf(last) == Updates || KindOf(last) == Leaves || KindOf(last) == Fails;
      assert KindOf(last) == Leaves <==> last == Some(Unchanged);
    }
  }

  /** The places of a run where one of these results stands. */
  function Places(results: seq<Option<Action>>, kinds: set<Option<Action>>): set<int> {
    set i | 0 <= i < |results| && results[i] in kinds
  }

  lemma PlacesNext(results: seq<Option<Action>>, kinds: set<Option<Action>>)
    requires results != []
    ensures var n := |results| - 1;
            |Places(results, kinds)| == |Places(results[..n], kinds)| + if results[n] in kinds then 1 else 0
  {
    var n := |results| - 1;
    assert n !in Places(results[..n], kinds);
    assert Places(results, kinds) == Places(results[..n], kinds) + if results[n] in kinds then {n} else {};
  }

  /** The counters count what their names say. */
  lemma {:induction false} CountsExactly(results: seq<Option<Action>>)
    ensures Count(results, Creates) == |Places(results, {Some(Create), Some(WouldCreate)})|
    ensures Count(results, Updates) == |Places(results, {Some(Update), Some(WouldUpdate)})|
    ensures Count(results, Leaves) == |Places(results, {Some(Unchanged)})|
    ensures Count(results, Fails) == |Places(results, {None})|
  {
    if results == [] {
      assert forall kinds :: Places(results, kinds) == {};
    } else {
      CountsExactly(results[..|results| - 1]);
      PlacesNext(results, {Some(Create), Some(WouldCreate)});
      PlacesNext(results, {Some(Update), Some(WouldUpdate)});
      PlacesNext(results, {Some(Unchanged)});
      PlacesNext(results, {None});
      var last := results[|results| - 1];
      assert last == None || last == Some(last.value);
    }
  }

  lemma CountNext(results: seq<Option<Action>>, action: Option<Action>, kind: Kind)
    ensures Count(results + [action], kind) == Count(results, kind) + if KindOf(action) == kind then 1 else 0
  {
    assert (results + [action])[..|results|] == results;
  }

  /** Where the loop over the projects stands. */
  ghost predicate Visited(config: Config, table: Table, table': Table, done: seq<int>, dryRun: bool, faults: Faults) {
    && System in table && table'.Keys == table.Keys
    && Becomes(System, config, table[System], dryRun, faults, table'[System])
    && forall s | s in table && s != System ::
         if s.id in done then Becomes(s, config, table[s], dryRun, faults, table'[s]) else table'[s] == table[s]
  }

  lemma ResultsNext(config: Config, table: Table, done: seq<int>, p: int, dryRun: bool, faults: Faults)
    requires Project(p) in table && forall q | q in done :: Project(q) in table
    ensures forall q | q in done + [p] :: Project(q) in table
    ensures Results(config, table, done + [p], dryRun, faults)
            == Results(config, table, done, dryRun, faults) + [Outcome(Project(p), config, table[Project(p)], dryRun, faults)]
  {}

  lemma PrefixNext(projects: seq<int>, n: nat)
    requires NoDuplicates(projects) && n < |projects|
    ensures projects[..n + 1] == projects[..n] + [projects[n]] && projects[n] !in projects[..n]
  {}

  lemma VisitedNext(config: Config, table: Table, table': Table, table'': Table, done: seq<int>, p: int, dryRun: bool, faults: Faults)
    requires Visited(config, table, table', done, dryRun, faults) && p !in done && Project(p) in table
    requires table''.Keys == table.Keys && forall s | s in table && s != Project(p) :: table''[s] == table'[s]
    requires Becomes(Project(p), config, table[Project(p)], dryRun, faults, table''[Project(p)])
    ensures Visited(config, table, table'', done + [p], dryRun, faults)
  {
    assert forall q :: q in done + [p] <==> q in done || q == p;
  }

  /** A whole run: the system hook first; when that fails, or the projects cannot be listed, no project
      is touched. */
  ghost predicate Reconciled(config: Config, projects: seq<int>, table: Table, table': Table, dryRun: bool, faults: Faults,
                             report: Report, ok: bool)
    requires System in table && forall p | p in projects :: Project(p) in table
  {
    var system := Outcome(System, config, table[System], dryRun, faults);
    var listed := system.Some? && faults(ListProjects) == Answered;
    && table'.Keys == table.Keys
    && Becomes(System, config, table[System], dryRun, faults, table'[System])
    && (forall s | s in table && s != System ::
          if listed && s.id in projects then Becomes(s, config, table[s], dryRun, faults, table'[s]) else table'[s] == table[s])
    && report == Counted(system, if listed then Results(config, table, projects, dryRun, faults) else [])
    && (ok <==> listed && report.failed == 0)
  }

  /** Convergence: after one applied run without an error, any later run over the same projects whose
      reads are answered reports only "unchanged", ends without an error and changes no hook. */
  lemma Converges(config: Config, projects: seq<int>, table: Table, table': Table, table'': Table,
                  faults: Faults, faults': Faults, dryRun: bool, report: Report, report': Report, ok': bool)
    requires System in table && forall p | p in projects :: Project(p) in table
    requires Reconciled(config, projects, table, table', false, faults, report, true)
    requires Reconciled(config, projects, table', table'', dryRun, faults', report', ok')
    requires forall q: Request :: !q.Write? ==> faults'(q) == Answered
    ensures table'' == table' && ok'
    ensures report' == Report(Some(Unchanged), |projects|, 0, 0, |projects|, 0)
    ensures NothingToWrite(config, projects, table', dryRun, faults')
  {
    AllSettled(config, projects, table, table', faults, report);
    forall s | s in table' ensures table''[s] == table'[s] {
      if s == System || s.id in projects {
        SettledStays(s, config, table'[s], dryRun, faults', table''[s]);
      }
    }
    var results := Results(config, table', projects, dryRun, faults');
    CountsAddUp(Some(Unchanged), results);
  }

  lemma AllSettled(config: Config, projects: seq<int>, table: Table, table': Table, faults: Faults, report: Report)
    requires System in table && forall p | p in projects :: Project(p) in table
    requires Reconciled(config, projects, table, table', false, faults, report, true)
    ensures Settled(System, config, table'[System])
    ensures forall p | p in projects :: Project(p) in table' && Settled(Project(p), config, table'[Project(p)])
  {
    AppliedIsSettled(System, config, table[System], faults, table'[System]);
    var results := Results(config, table, projects, false, faults);
    CountsAddUp(report.system, results);
    forall p | p in projects ensures Settled(Project(p), config, table'[Project(p)]) {
      var i :| 0 <= i < |projects| && projects[i] == p;
      assert results[i] != None;
      AppliedIsSettled(Project(p), config, table[Project(p)], faults, table'[Project(p)]);
    }
  }

  /** Whatever fails, hooks with other names stay where and as they are, on every scope; a dry run
      changes no hook at all. */
  lemma OthersUntouched(config: Config, projects: seq<int>, table: Table, table': Table, dryRun: bool, faults: Faults,
                        report: Report, ok: bool, s: Scope, i: nat)
    requires System in table && forall p | p in projects :: Project(p) in table
    requires Reconciled(config, projects, table, table', dryRun, faults, report, ok)
    requires s in table && i < |table[s]|
    ensures |table[s]| <= |table'[s]|
    ensures dryRun || table[s][i].name != config.name ==> table'[s][i] == table[s][i]
    ensures dryRun ==> table'[s] == table[s]
  {
    if newId :| table'[s] == Written(s, config, table[s], newId) {
      WriteSettles(s, config, table[s], newId);
    }
  }

  lemma PutWrites(scope: Scope, config: Config, hooks: seq<Hook>, k: nat, after: seq<Hook>)
    requires k < |hooks| == |after| && FirstNamed(hooks, config.name) == k
    requires forall i, j | 0 <= i < j < |hooks| :: hooks[i].id != hooks[j].id
    requires forall i | 0 <= i < |hooks| :: after[i] == if hooks[i].id == hooks[k].id then Requested(scope, config, hooks[i]) else hooks[i]
    ensures after == Written(scope, config, hooks, 0)
  {}

  /** No request of a run would be a write. */
  ghost predicate NothingToWrite(config: Config, projects: seq<int>, table: Table, dryRun: bool, faults: Faults)
    requires System in table && forall p | p in projects :: Project(p) in table
  {
    && !Sends(System, config, table[System], dryRun, faults)
    && forall p | p in projects :: !Sends(Project(p), config, table[Project(p)], dryRun, faults)
  }

  /** The server, as far as hooks go. */
  class Server {
    var hooks: Table
    var projects: seq<int>
    var nextId: nat
    var writes: nat

    ghost predicate Valid()
      reads this
    {
      NoDuplicates(projects) && ValidTable(hooks, projects, nextId)
    }

    constructor (hooks: Table, projects: seq<int>, nextId: nat)
      requires NoDuplicates(projects) && ValidTable(hooks, projects, nextId)
      ensures Valid() && this.hooks == hooks && this.projects == projects && this.nextId == nextId && writes == 0
    {
      this.hooks, this.projects, this.nextId, writes := hooks, projects, nextId, 0;
    }

    /** PUT of the managed fields to the hook with an id. */
    method Put(scope: Scope, id: nat, config: Config, fault: Fault) returns (answered: bool)
      requires Valid() && scope in hooks && exists i :: 0 <= i < |hooks[scope]| && hooks[scope][i].id == id
      modifies this`hooks, this`writes
      ensures Valid() && writes == old(writes) + 1 && answered == fault.Answered?
      ensures fault.Lost? ==> hooks == old(hooks)
      ensures !fault.Lost? ==>
                hooks.Keys == old(hooks).Keys && (forall s | s in hooks && s != scope :: hooks[s] == old(hooks)[s])
                && |hooks[scope]| == |old(hooks)[scope]|
                && forall i | 0 <= i < |hooks[scope]| ::
                     hooks[scope][i] == if old(hooks)[scope][i].id == id then Requested(scope, config, old(hooks)[scope][i]) else old(hooks)[scope][i]
    {
      writes := writes + 1;
      if !fault.Lost? {
        var list := hooks[scope];
        var changed := seq(|list|, i requires 0 <= i < |list| => if list[i].id == id then Requested(scope, config, list[i]) else list[i]);
        hooks := hooks[scope := changed];
      }
      return fault.Answered?;
    }

    /** POST of a new hook. */
    method Post(scope: Scope, config: Config, fault: Fault) returns (answered: bool)
      requires Valid() && scope in hooks
      modifies this`hooks, this`writes, this`nextId
      ensures Valid() && writes == old(writes) + 1 && answered == fault.Answered?
      ensures fault.Lost? ==> hooks == old(hooks)
      ensures !fault.Lost? ==>
                hooks == old(hooks)[scope := old(hooks)[scope] + [Requested(scope, config, Hook(old(nextId), config.name, "", "", {}, false))]]
    {
      writes := writes + 1;
      if !fault.Lost? {
        hooks := hooks[scope := hooks[scope] + [Requested(scope, config, Hook(nextId, config.name, "", "", {}, false))]];
        nextId := nextId + 1;
      }
      return fault.Answered?;
    }
  }

  class HookController {
    const config: Config
    const server: Server

    constructor (config: Config, server: Server)
      ensures this.config == config && this.server == server
    {
      this.config, this.server := config, server;
    }

    /** Makes sure of one hook; the system hook and project hooks differ only in their switches. */
    method Ensure(scope: Scope, dryRun: bool, faults: Faults) returns (action: Option<Action>)
      requires server.Valid() && scope in server.hooks
      modifies server`hooks, server`writes, server`nextId
      ensures server.Valid()
      ensures action == Outcome(scope, config, old(server.hooks)[scope], dryRun, faults)
      ensures server.hooks.Keys == old(server.hooks).Keys
      ensures Becomes(scope, config, old(server.hooks)[scope], dryRun, faults, server.hooks[scope])
      ensures forall s | s in server.hooks && s != scope :: server.hooks[s] == old(server.hooks)[s]
      ensures server.writes == old(server.writes) + if Sends(scope, config, old(server.hooks)[scope], dryRun, faults) then 1 else 0
    {
      if faults(ListHooks(scope)) != Answered {
        return None;
      }
      var hooks := server.hooks[scope];
      for i := 0 to |hooks|
        invariant forall j | 0 <= j < i :: hooks[j].name != config.name
      {
        var hook := hooks[i];
        if hook.name != config.name {
          continue;
        }
        assert FirstNamed(hooks, config.name) == i;
        if Matches(scope, config, hook) {
          return Some(Unchanged);
        }
        if dryRun {
          return Some(WouldUpdate);
        }
        var answered := server.Put(scope, hook.id, config, faults(Write(scope)));
        if faults(Write(scope)) != Lost {
          PutWrites(scope, config, hooks, i, server.hooks[scope]);
        }
        return if answered then Some(Update) else None;
      }
      assert FirstNamed(hooks, config.name) == |hooks|;
      if dryRun {
        return Some(WouldCreate);
      }
      ghost var newId := server.nextId;
      var answered := server.Post(scope, config, faults(Write(scope)));
      assert faults(Write(scope)) != Lost ==> server.hooks[scope] == Written(scope, config, hooks, newId);
      return if answered then Some(Create) else None;
    }

    /** Counts one scanned project. */
    method Tally(report: Report, action: Option<Action>, ghost system: Option<Action>, ghost results: seq<Option<Action>>)
      returns (report': Report)
      requires report == Counted(system, results)
      ensures report' == Counted(system, results + [action])
    {
      forall kind: Kind ensures Count(results + [action], kind) == Count(results, kind) + if KindOf(action) == kind then 1 else 0 {
        CountNext(results, action, kind);
      }
      report' := report.(scanned := report.scanned + 1);
      match action {
        case None => report' := report'.(failed := report'.failed + 1);
        case Some(a) =>
          match a {
            case Create => report' := report'.(created := report'.created + 1);
            case WouldCreate => report' := report'.(created := report'.created + 1);
            case Update => report' := report'.(updated := report'.updated + 1);
            case WouldUpdate => report' := report'.(updated := report'.updated + 1);
            case Unchanged => report' := report'.(same := report'.same + 1);
          }
      }
    }

    /** One run over the system hook and every project. */
    method Reconcile(dryRun: bool, faults: Faults) returns (report: Report, ok: bool)
      requires server.Valid()
      modifies server`hooks, server`writes, server`nextId
      ensures server.Valid()
      ensures Reconciled(config, server.projects, old(server.hooks), server.hooks, dryRun, faults, report, ok)
      ensures NothingToWrite(config, server.projects, old(server.hooks), dryRun, faults) ==> server.writes == old(server.writes)
    {
      report := Report(None, 0, 0, 0, 0, 0);
      ghost var table := server.hooks;
      var system := Ensure(System, dryRun, faults);
      if system.None? {
        return report, false;
      }
      report := report.(system := system);
      if faults(ListProjects) != Answered {
        return report, false;
      }
      report := VisitAll(system, dryRun, faults, table);
      return report, report.failed == 0;
    }

    /** The loop over the projects. */
    method VisitAll(system: Option<Action>, dryRun: bool, faults: Faults, ghost table: Table) returns (report: Report)
      requires server.Valid() && Visited(config, table, server.hooks, [], dryRun, faults)
      modifies server`hooks, server`writes, server`nextId
      ensures server.Valid()
      ensures Visited(config, table, server.hooks, server.projects, dryRun, faults)
      ensures report == Counted(system, Results(config, table, server.projects, dryRun, faults))
      ensures NothingToWrite(config, server.projects, table, dryRun, faults) ==> server.writes == old(server.writes)
    {
      report := Report(system, 0, 0, 0, 0, 0);
      var projects := server.projects;
      for n := 0 to |projects|
        invariant server.Valid()
        invariant Visited(config, table, server.hooks, projects[..n], dryRun, faults)
        invariant report == Counted(system, Results(config, table, projects[..n], dryRun, faults))
        invariant NothingToWrite(config, projects, table, dryRun, faults) ==> server.writes == old(server.writes)
      {
        var p := projects[n];
        PrefixNext(projects, n);
        ResultsNext(config, table, projects[..n], p, dryRun, faults);
        ghost var before := server.hooks;
        var action := Ensure(Project(p), dryRun, faults);
        VisitedNext(config, table, before, server.hooks, projects[..n], p, dryRun, faults);
        report := Tally(report, action, system, Results(config, table, projects[..n], dryRun, faults));
      }
      assert projects[..|projects|] == projects;
    }
  }
}
