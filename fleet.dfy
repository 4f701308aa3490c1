/** The unit-state safety logic of fleet.go: a mock of the `fleetAPI` client, the
    roster search `isServiceActive`, and the stop/start requests for the database unit. */
module Fleet {
  import opened Effects

  /** One entry of the roster returned by `UnitStates()`. */
  datatype UnitState = UnitState(name: string, systemdActiveState: string, systemdLoadState: string)

  /** The dependent service that must be inactive before the database is stopped. */
  const DeployerServiceName := "deployer.service"
  /** The database unit. */
  const NeoServiceName := "neo4j-red@1.service"
  const InactiveTarget := "inactive"
  const LaunchedTarget := "launched"
  const ActiveState := "active"

  /** A recordable stand-in for the `fleetAPI` interface: the roster it reports, whether the
      roster query fails, and the answer it gives to each target-state request. */
  class FleetClient {
    const log: EventLog
    const roster: seq<UnitState>
    const unitStatesError: Option<Error>
    /** The requests (unit name, target state) that the scheduler rejects, with their errors. */
    const setTargetErrors: map<(string, string), Error>

    constructor (log: EventLog, roster: seq<UnitState>, unitStatesError: Option<Error>,
                 setTargetErrors: map<(string, string), Error>)
      requires FromCollaborator(unitStatesError)
      requires forall r :: r in setTargetErrors ==> setTargetErrors[r].Error?
      ensures this.log == log && this.roster == roster
      ensures this.unitStatesError == unitStatesError && this.setTargetErrors == setTargetErrors
      ensures Valid()
    {
      this.log := log;
      this.roster := roster;
      this.unitStatesError := unitStatesError;
      this.setTargetErrors := setTargetErrors;
    }

    /** Every error this client answers with is the scheduler's own. */
    predicate Valid()
    {
      FromCollaborator(unitStatesError) &&
      forall r :: r in setTargetErrors ==> setTargetErrors[r].Error?
    }

    /** The answer the scheduler gives to `SetUnitTargetState(name, target)`. */
    function SetTargetAnswer(name: string, target: string): Option<Error>
    {
      if (name, target) in setTargetErrors then Some(setTargetErrors[(name, target)]) else None
    }

    /** `UnitStates()`: the whole roster, or the connectivity error. */
    method UnitStates() returns (units: seq<UnitState>, err: Option<Error>)
      modifies log
      ensures log.events == old(log.events) + [UnitStatesCalled]
      ensures err == unitStatesError
      ensures units == if err.None? then roster else []
    {
      log.Record(UnitStatesCalled);
      err := unitStatesError;
      units := if err.None? then roster else [];
    }

    /** `SetUnitTargetState(name, target)`: a request that is only acknowledged. */
    method SetUnitTargetState(name: string, target: string) returns (err: Option<Error>)
      modifies log
      ensures log.events == old(log.events) + [SetUnitTargetStateCalled(name, target)]
      ensures err == SetTargetAnswer(name, target)
    {
      log.Record(SetUnitTargetStateCalled(name, target));
      err := SetTargetAnswer(name, target);
    }
  }

  // ---------------------------------------------------------------------------
  // Specification of the roster search

  /** Index of the first entry at or after `from` whose name is `name`. */
  function FirstMatch(units: seq<UnitState>, name: string, from: nat): Option<nat>
    decreases |units| - from
  {
    if from >= |units| then None
    else if units[from].name == name then Some(from)
    else FirstMatch(units, name, from + 1)
  }

  /** Reference definition: `i` is the position of the first entry named `name`. */
  ghost predicate IsFirstIndex(units: seq<UnitState>, name: string, i: int)
  {
    0 <= i < |units| && units[i].name == name &&
    forall j :: 0 <= j < i ==> units[j].name != name
  }

  /** Reference definition: the first entry named `name` exists and is active. */
  ghost predicate ActiveByFirstMatch(units: seq<UnitState>, name: string)
  {
    exists i :: IsFirstIndex(units, name, i) && units[i].systemdActiveState == ActiveState
  }

  /** The answer the roster search gives on a successfully fetched roster. */
  function IsActiveIn(units: seq<UnitState>, name: string): bool
  {
    match FirstMatch(units, name, 0)
    case Some(i) => i < |units| && units[i].systemdActiveState == ActiveState
    case None => false
  }

  /** The pair `isServiceActive` returns for a roster query that gave `queryError`. */
  function Activity(roster: seq<UnitState>, queryError: Option<Error>, name: string): (bool, Option<Error>)
  {
    if queryError.Some? then (false, queryError) else (IsActiveIn(roster, name), None)
  }

  lemma {:induction false} FirstMatchFrom(units: seq<UnitState>, name: string, from: nat, i: int)
    requires from <= |units|
    requires forall j :: 0 <= j < from ==> units[j].name != name
    ensures FirstMatch(units, name, from) == Some(i) <==> IsFirstIndex(units, name, i)
    ensures FirstMatch(units, name, from).None? <==> forall j :: 0 <= j < |units| ==> units[j].name != name
    decreases |units| - from
  {
    if from < |units| && units[from].name != name {
      FirstMatchFrom(units, name, from + 1, i);
    }
  }

  /** The search answers with the first matching index, and with None exactly
      when no entry carries the name. */
  lemma FirstMatchIsFirstIndex(units: seq<UnitState>, name: string, i: int)
    ensures FirstMatch(units, name, 0) == Some(i) <==> IsFirstIndex(units, name, i)
    ensures FirstMatch(units, name, 0).None? <==> forall j :: 0 <= j < |units| ==> units[j].name != name
  {
    FirstMatchFrom(units, name, 0, i);
  }

  /** `isServiceActive` on a fetched roster is true iff the FIRST entry with that name is active. */
  lemma IsActiveInIffFirstActive(units: seq<UnitState>, name: string)
    ensures IsActiveIn(units, name) <==> ActiveByFirstMatch(units, name)
  {
    match FirstMatch(units, name, 0)
    case Some(k) =>
      FirstMatchIsFirstIndex(units, name, k);
      if ActiveByFirstMatch(units, name) {
        var i :| IsFirstIndex(units, name, i) && units[i].systemdActiveState == ActiveState;
        FirstMatchIsFirstIndex(units, name, i);
      }
    case None =>
      FirstMatchIsFirstIndex(units, name, 0);
  }

  /** A name missing from the roster counts as inactive, and is not an error. */
  lemma MissingUnitIsInactive(units: seq<UnitState>, name: string)
    requires forall j :: 0 <= j < |units| ==> units[j].name != name
    ensures Activity(units, None, name) == (false, None)
  {
    FirstMatchIsFirstIndex(units, name, 0);
  }

  /** Once an entry matches, whatever follows it in the roster (a later duplicate
      included) does not change the answer. */
  lemma LaterEntriesIgnored(prefix: seq<UnitState>, rest: seq<UnitState>, name: string, i: int)
    requires 0 <= i < |prefix| && prefix[i].name == name
    ensures IsActiveIn(prefix + rest, name) == IsActiveIn(prefix, name)
  {
    var all := prefix + rest;
    FirstMatchIsFirstIndex(prefix, name, 0);
    var m := FirstMatch(prefix, name, 0);
    assert m.Some?;
    var k := m.value;
    FirstMatchIsFirstIndex(prefix, name, k);
    assert forall j :: 0 <= j < |prefix| ==> all[j] == prefix[j];
    assert IsFirstIndex(all, name, k);
    FirstMatchIsFirstIndex(all, name, k);
  }

  /** A failing roster query gives `(false, err)` with that same error. */
  lemma QueryErrorPassedThrough(roster: seq<UnitState>, e: Error, name: string)
    ensures Activity(roster, Some(e), name) == (false, Some(e))
  {
  }

  // ---------------------------------------------------------------------------
  // Operations of fleet.go

  /** `isServiceActive`: one roster query, then a linear search in which the first
      entry with the name decides. */
  method IsServiceActive(client: FleetClient, serviceName: string) returns (isActive: bool, err: Option<Error>)
    modifies client.log
    ensures client.log.events == old(client.log.events) + [UnitStatesCalled]
    ensures (isActive, err) == Activity(client.roster, client.unitStatesError, serviceName)
  {
    var unitStates;
    unitStates, err := client.UnitStates();
    isActive := false;
    var found := false;
    if err.Some? {
      return;
    }
    var index := 0;
    while index < |unitStates|
      invariant 0 <= index <= |unitStates| && !found && !isActive
      invariant FirstMatch(unitStates, serviceName, index) == FirstMatch(unitStates, serviceName, 0)
      decreases |unitStates| - index
    {
      var each := unitStates[index];
      if each.name == serviceName {
        found := true;
        if each.systemdActiveState == ActiveState {
          isActive := true;
        }
        break;
      }
      index := index + 1;
    }
    // a unit that is not found is taken to be inactive (only a warning is logged)
  }

  /** The effect of `shutDownNeo` given the roster query's answer and the answer of
      the stop request. */
  function ShutDown(roster: seq<UnitState>, queryError: Option<Error>, stopResult: Option<Error>): Effect
  {
    var (isDeployerActive, err) := Activity(roster, queryError, DeployerServiceName);
    if isDeployerActive || err.Some? then
      Effect([UnitStatesCalled], if err.Some? then err else Some(DeployerCheckFailed))
    else
      Effect([UnitStatesCalled, SetUnitTargetStateCalled(NeoServiceName, InactiveTarget)], stopResult)
  }

  /** `shutDownNeo`: stop the database only when the deployer is shown inactive. */
  method ShutDownNeo(client: FleetClient) returns (err: Option<Error>)
    modifies client.log
    ensures var e := ShutDown(client.roster, client.unitStatesError,
                              client.SetTargetAnswer(NeoServiceName, InactiveTarget));
            client.log.events == old(client.log.events) + e.events && err == e.err
  {
    var isDeployerActive;
    isDeployerActive, err := IsServiceActive(client, DeployerServiceName);
    if isDeployerActive || err.Some? {
      if err.Some? {
        return err;
      } else {
        return Some(DeployerCheckFailed);
      }
    }
    err := SetTargetState(client, NeoServiceName, InactiveTarget);
  }

  /** `setTargetState`: forwards name and target and returns the client's answer unchanged. */
  method SetTargetState(client: FleetClient, serviceName: string, targetState: string) returns (err: Option<Error>)
    modifies client.log
    ensures client.log.events == old(client.log.events) + [SetUnitTargetStateCalled(serviceName, targetState)]
    ensures err == client.SetTargetAnswer(serviceName, targetState)
  {
    err := client.SetUnitTargetState(serviceName, targetState);
  }

  /** The effect of `startNeo`: one launch request, and never an error. */
  function StartNeoEffect(): Effect
  {
    Effect([SetUnitTargetStateCalled(NeoServiceName, LaunchedTarget)], None)
  }

  /** `startNeo`: requests the launch and discards the request's error. */
  method StartNeo(client: FleetClient) returns (err: Option<Error>)
    modifies client.log
    ensures client.log.events == old(client.log.events) + StartNeoEffect().events
    ensures err == StartNeoEffect().err
  {
    var _ := SetTargetState(client, NeoServiceName, LaunchedTarget);
    return None;
  }

  // ---------------------------------------------------------------------------
  // The dependent-service safety invariant

  /** The roster lets the stop go ahead: it has no entry named `deployer.service`, or the
      first such entry's state is not exactly "active". */
  ghost predicate DeployerShownInactive(roster: seq<UnitState>)
  {
    forall i :: IsFirstIndex(roster, DeployerServiceName, i) ==> roster[i].systemdActiveState != ActiveState
  }

  /** `shutDownNeo` fails closed: the stop request is issued exactly when the roster
      query succeeded and shows the deployer inactive; otherwise no request at all is
      made and a non-nil error (the query's own, else the fresh one) is returned. */
  lemma ShutDownFailsClosed(roster: seq<UnitState>, queryError: Option<Error>, stopResult: Option<Error>)
    ensures var e := ShutDown(roster, queryError, stopResult);
            && (SetUnitTargetStateCalled(NeoServiceName, InactiveTarget) in e.events
                <==> queryError.None? && DeployerShownInactive(roster))
            && (queryError.Some? ==> e == Effect([UnitStatesCalled], queryError))
            && (queryError.None? && !DeployerShownInactive(roster) ==>
                  e == Effect([UnitStatesCalled], Some(DeployerCheckFailed)))
            && (queryError.None? && DeployerShownInactive(roster) ==>
                  e == Effect([UnitStatesCalled, SetUnitTargetStateCalled(NeoServiceName, InactiveTarget)], stopResult))
  {
    IsActiveInIffFirstActive(roster, DeployerServiceName);
  }

  /** The fresh error of `shutDownNeo` is returned exactly when the roster query succeeded
      and the deployer is not shown inactive; a collaborator's error never takes its place. */
  lemma FreshErrorIffDeployerActive(roster: seq<UnitState>, queryError: Option<Error>, stopResult: Option<Error>)
    requires FromCollaborator(queryError) && FromCollaborator(stopResult)
    ensures (ShutDown(roster, queryError, stopResult).err == Some(DeployerCheckFailed)) <==>
            (queryError.None? && !DeployerShownInactive(roster))
  {
    ShutDownFailsClosed(roster, queryError, stopResult);
  }

  /** Whatever the fleet answers, `shutDownNeo` never requests any state other
      than "inactive", and never for any unit other than the database. */
  lemma ShutDownOnlyStopsNeo(roster: seq<UnitState>, queryError: Option<Error>, stopResult: Option<Error>, name: string, target: string)
    requires SetUnitTargetStateCalled(name, target) in ShutDown(roster, queryError, stopResult).events
    ensures name == NeoServiceName && target == InactiveTarget
  {
  }
}
