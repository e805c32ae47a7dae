/** Versioned artifacts and the steps between their versions (`MigrationRegistry`). */
module Migrations {

  type Payload = map<string, Value>

  /** JSON values as far as the migrations look at them; a digest stands for the object it was taken of. */
  datatype Value =
    | Null | Flag(flag: bool) | Number(number: int) | Text(text: string)
    | List(items: seq<Value>) | Object(fields: map<string, Value>) | Sha256(of: map<string, Value>)

  datatype Option<T> = None | Some(value: T)

  datatype Error =
    | PolicyInvalid | StepInvalid | StepDuplicate
    | ArtifactUnknown | VersionUnsupported | PathMissing | OutputInvalid | RollbackUnavailable

  datatype Result<T> = Ok(value: T) | Err(error: Error)

  /** An upgrade that returns something other than an object gives None. */
  datatype Step = Step(artifact: string, fromVersion: int, toVersion: int,
                       upgrade: Payload -> Option<Payload>, downgrade: Option<Payload -> Payload>)

  datatype Policy = Policy(artifact: string, current: int, minimum: int)

  // ----- Running steps forwards and backwards -----

  ghost function Upgraded(steps: seq<Step>, payload: Payload): Option<Payload> {
    if steps == [] then Some(payload)
    else
      var last := |steps| - 1;
      var before := Upgraded(steps[..last], payload);
      if before.None? then None else steps[last].upgrade(before.value)
  }

  ghost function Downgraded(steps: seq<Step>, payload: Payload): Option<Payload> {
    if steps == [] then Some(payload)
    else
      var last := |steps| - 1;
      if steps[last].downgrade.None? then None
      else Downgraded(steps[..last], steps[last].downgrade.value(payload))
  }

  /** The step can be run on `payload`, and its downgrade leads back to it. */
  ghost predicate Undone(step: Step, payload: Payload) {
    && step.upgrade(payload).Some? && step.downgrade.Some?
    && step.downgrade.value(step.upgrade(payload).value) == payload
  }

  /** Every step is undone at the payload that reaches it. */
  ghost predicate AllUndone(steps: seq<Step>, payload: Payload) {
    steps == [] ||
      var last := |steps| - 1;
      && AllUndone(steps[..last], payload)
      && Upgraded(steps[..last], payload).Some?
      && Undone(steps[last], Upgraded(steps[..last], payload).value)
  }

  /** Rolling back a migration of any length gives back the payload it started from. */
  lemma {:induction false} RollbackUndoes(steps: seq<Step>, payload: Payload)
    requires AllUndone(steps, payload)
    ensures Upgraded(steps, payload).Some?
    ensures Downgraded(steps, Upgraded(steps, payload).value) == Some(payload)
  {
    if steps != [] {
      RollbackUndoes(steps[..|steps| - 1], payload);
    }
  }

  /** Stopping at a version in between and migrating on from there is migrating in one go. */
  lemma {:induction false} UpgradedInTwo(earlier: seq<Step>, later: seq<Step>, payload: Payload)
    ensures Upgraded(earlier + later, payload) ==
      if Upgraded(earlier, payload).None? then None else Upgraded(later, Upgraded(earlier, payload).value)
  {
    if later == [] {
      assert earlier + later == earlier;
    } else {
      var last := |later| - 1;
      UpgradedInTwo(earlier, later[..last], payload);
      assert (earlier + later)[..|earlier| + last] == earlier + later[..last];
    }
  }

  /** Likewise a rollback can stop at a version in between, and fails exactly if one of its parts does. */
  lemma {:induction false} DowngradedInTwo(earlier: seq<Step>, later: seq<Step>, payload: Payload)
    ensures Downgraded(earlier + later, payload) ==
      if Downgraded(later, payload).None? then None else Downgraded(earlier, Downgraded(later, payload).value)
  {
    if later == [] {
      assert earlier + later == earlier;
    } else {
      var last := |later| - 1;
      assert (earlier + later)[..|earlier| + last] == earlier + later[..last];
      if later[last].downgrade.Some? {
        DowngradedInTwo(earlier, later[..last], later[last].downgrade.value(payload));
      }
    }
  }

  // ----- Chains of steps -----

  /** One step for each version from `start` on, up to `target`. */
  ghost predicate Chain(steps: seq<Step>, artifact: string, start: int, target: int) {
    && |steps| == target - start
    && forall i :: 0 <= i < |steps| ==>
      steps[i].artifact == artifact && steps[i].fromVersion == start + i && steps[i].toVersion == start + i + 1
  }

  class MigrationRegistry {
    var steps: map<(string, int), Step>
    var policies: map<string, Policy>

    ghost predicate Valid()
      reads this
    {
      && (forall key :: key in steps ==>
        steps[key].artifact == key.0 && steps[key].fromVersion == key.1 && steps[key].toVersion == key.1 + 1)
      && forall artifact :: artifact in policies ==> 0 <= policies[artifact].minimum <= policies[artifact].current
    }

    constructor ()
      ensures Valid() && steps == map[] && policies == map[]
    {
      steps, policies := map[], map[];
    }

    method DefinePolicy(policy: Policy) returns (result: Result<()>)
      requires Valid()
      modifies this`policies
      ensures Valid()
      ensures result == if 0 <= policy.minimum <= policy.current then Ok(()) else Err(PolicyInvalid)
      ensures policies == if result.Ok? then old(policies)[policy.artifact := policy] else old(policies)
    {
      if policy.current < policy.minimum || policy.minimum < 0 {
        return Err(PolicyInvalid);
      }
      policies := policies[policy.artifact := policy];
      return Ok(());
    }

    method Register(step: Step) returns (result: Result<()>)
      requires Valid()
      modifies this`steps
      ensures Valid()
      ensures result ==
        if step.toVersion != step.fromVersion + 1 then Err(StepInvalid)
        else if (step.artifact, step.fromVersion) in old(steps) then Err(StepDuplicate)
        else Ok(())
      ensures steps == if result.Ok? then old(steps)[(step.artifact, step.fromVersion) := step] else old(steps)
    {
      if step.toVersion != step.fromVersion + 1 {
        return Err(StepInvalid);
      }
      var key := (step.artifact, step.fromVersion);
      if key in steps {
        return Err(StepDuplicate);
      }
      steps := steps[key := step];
      return Ok(());
    }

    ghost function Target(artifact: string, to: Option<int>): int
      requires artifact in policies
      reads this
    {
      if to.Some? then to.value else policies[artifact].current
    }

    ghost predicate Supported(artifact: string, start: int, to: Option<int>)
      requires artifact in policies
      reads this
    {
      policies[artifact].minimum <= start <= Target(artifact, to) <= policies[artifact].current
    }

    ghost predicate HasSteps(artifact: string, start: int, end: int)
      reads this
    {
      forall version :: start <= version < end ==> (artifact, version) in steps
    }

    /** The artifact is known, the versions are supported, and no step between them is missing. */
    ghost predicate HasPath(artifact: string, start: int, to: Option<int>)
      reads this
    {
      artifact in policies && Supported(artifact, start, to) && HasSteps(artifact, start, Target(artifact, to))
    }

    /** The registered steps from one version to another: the only path there is. */
    ghost function Path(artifact: string, start: int, end: int): seq<Step>
      requires start <= end && HasSteps(artifact, start, end)
      reads this
      decreases end - start
    {
      if start == end then [] else Path(artifact, start, end - 1) + [steps[(artifact, end - 1)]]
    }

    lemma {:induction false} PathIsChain(artifact: string, start: int, end: int)
      requires Valid() && start <= end && HasSteps(artifact, start, end)
      ensures Chain(Path(artifact, start, end), artifact, start, end)
      decreases end - start
    {
      if start < end {
        PathIsChain(artifact, start, end - 1);
        assert (artifact, end - 1) in steps;
      }
    }

    /** `plan` gives the path of registered steps, or says which of the three conditions fails. */
    method Plan(artifact: string, start: int, to: Option<int>) returns (result: Result<seq<Step>>)
      requires Valid()
      ensures result.Err? && result.error == ArtifactUnknown <==> artifact !in policies
      ensures result.Err? && result.error == VersionUnsupported <==>
        artifact in policies && !Supported(artifact, start, to)
      ensures result.Err? && result.error == PathMissing <==>
        artifact in policies && Supported(artifact, start, to) && !HasSteps(artifact, start, Target(artifact, to))
      ensures result.Ok? <==> HasPath(artifact, start, to)
      ensures result.Ok? ==>
        && result.value == Path(artifact, start, Target(artifact, to))
        && Chain(result.value, artifact, start, Target(artifact, to))
    {
      if artifact !in policies {
        return Err(ArtifactUnknown);
      }
      var target := if to.Some? then to.value else policies[artifact].current;
      if start < policies[artifact].minimum || target > policies[artifact].current || target < start {
        return Err(VersionUnsupported);
      }
      var planned: seq<Step> := [];
      var version := start;
      while version < target
        invariant start <= version <= target && HasSteps(artifact, start, version)
        invariant planned == Path(artifact, start, version)
      {
        var key := (artifact, version);
        if key !in steps {
          return Err(PathMissing);
        }
        var step := steps[key];
        planned := planned + [step];
        version := step.toVersion;
      }
      PathIsChain(artifact, start, target);
      return Ok(planned);
    }

    /**
     * `migrate`: the registered path run on the payload.  An output that is not an object is reported exactly
     * if that path gives one; the other errors are those of the plan.
     */
    method Migrate(artifact: string, payload: Payload, start: int, to: Option<int>)
      returns (result: Result<(Payload, seq<Step>)>)
      requires Valid()
      ensures HasPath(artifact, start, to) ==>
        var path := Path(artifact, start, Target(artifact, to));
        var upgraded := Upgraded(path, payload);
        if upgraded.None? then result.Err? && result.error == OutputInvalid
        else result.Ok? && result.value == (upgraded.value, path)
      ensures result.Err? && result.error == ArtifactUnknown <==> artifact !in policies
      ensures result.Err? && result.error == VersionUnsupported <==>
        artifact in policies && !Supported(artifact, start, to)
      ensures result.Err? && result.error == PathMissing <==>
        artifact in policies && Supported(artifact, start, to) && !HasSteps(artifact, start, Target(artifact, to))
    {
      var plan := Plan(artifact, start, to);
      if plan.Err? {
        return Err(plan.error);
      }
      var planned := plan.value;
      var current := payload;
      for i := 0 to |planned|
        invariant Upgraded(planned[..i], payload) == Some(current)
      {
        assert planned[..i + 1][..i] == planned[..i];
        var upgraded := planned[i].upgrade(current);
        if upgraded.None? {
          UpgradeStaysInvalid(planned, i + 1, payload);
          return Err(OutputInvalid);
        }
        current := upgraded.value;
      }
      assert planned[..|planned|] == planned;
      return Ok((current, planned));
    }

    /** `rollback`: the steps' downgrades in reverse order. */
    method Rollback(payload: Payload, planned: seq<Step>) returns (result: Result<Payload>)
      ensures result == match Downgraded(planned, payload)
        case None => Err(RollbackUnavailable)
        case Some(current) => Ok(current)
    {
      var current := payload;
      assert planned[..|planned|] == planned;
      for i := |planned| downto 0
        invariant Downgraded(planned, payload) == Downgraded(planned[..i], current)
      {
        assert planned[..i + 1][..i] == planned[..i];
        if planned[i].downgrade.None? {
          return Err(RollbackUnavailable);
        }
        current := planned[i].downgrade.value(current);
      }
      return Ok(current);
    }
  }

  lemma {:induction false} UpgradeStaysInvalid(steps: seq<Step>, i: nat, payload: Payload)
    requires i <= |steps| && Upgraded(steps[..i], payload).None?
    ensures Upgraded(steps, payload) == None
  {
    assert steps == steps[..i] + steps[i..];
    UpgradedInTwo(steps[..i], steps[i..], payload);
  }
}
