/** `authorize_actor` of src/agent_author.rs: an actor may edit itself or anything below it in the supervision chain. */
module Authority {

  datatype Option<+T> = None | Some(value: T)

  /** The parts of an agent spec the walk reads. */
  datatype Spec = Spec(host: string, supervisor: Option<string>)

  /** `by_identity`: specs by bus id. */
  type Specs = map<string, Spec>

  /** A supervisor named without a host is looked up on the agent's own host. */
  function Qualify(specs: Specs, spec: Spec, supervisor: string): string {
    if supervisor in specs then supervisor
    else if spec.host + "." + supervisor in specs then spec.host + "." + supervisor
    else supervisor
  }

  /** The next agent up the chain. */
  function Next(specs: Specs, current: string): Option<string> {
    if current in specs && specs[current].supervisor.Some?
    then Some(Qualify(specs, specs[current], specs[current].supervisor.value))
    else None
  }

  /** What the next agent is: the one named, if it is declared; the one of that name on the same host, if only that is; else the bare name. */
  lemma NextMeans(specs: Specs, current: string, next: string)
    requires current in specs && specs[current].supervisor.Some?
    ensures var named, local := specs[current].supervisor.value, specs[current].host + "." + specs[current].supervisor.value;
      Next(specs, current) == Some(next) <==>
        || (next == named && (named in specs || local !in specs))
        || (next == local && local in specs && named !in specs)
  {
  }

  /** `actor` is the supervisor of `current`, as written or as resolved. */
  predicate Supervises(specs: Specs, actor: string, current: string) {
    current in specs && specs[current].supervisor.Some?
    && (specs[current].supervisor.value == actor || Qualify(specs, specs[current], specs[current].supervisor.value) == actor)
  }

  /** An agent is supervised by what its declaration names and by what that name resolves to, and by nobody else. */
  lemma SupervisesMeans(specs: Specs, actor: string, current: string)
    ensures Supervises(specs, actor, current) <==>
      current in specs && specs[current].supervisor.Some? && (actor == specs[current].supervisor.value || Next(specs, current) == Some(actor))
  {
  }

  /** The agent `k` steps up from `target`, if the chain is that long; a cyclic chain never ends. */
  function Chain(specs: Specs, target: string, k: nat): Option<string> {
    if k == 0 then Some(target)
    else
      var below := Chain(specs, target, k - 1);
      if below.None? then None else Next(specs, below.value)
  }

  /** The actor supervises some agent of the chain, however far up. */
  ghost predicate AboveInChain(specs: Specs, target: string, actor: string) {
    exists k: nat :: Chain(specs, target, k).Some? && Supervises(specs, actor, Chain(specs, target, k).value)
  }

  /** A set of agents that holds the target and the next of each of its members holds the whole chain. */
  lemma {:induction false} ChainStaysInside(specs: Specs, target: string, inside: set<string>, k: nat)
    requires target in inside && forall x :: x in inside && Next(specs, x).Some? ==> Next(specs, x).value in inside
    ensures Chain(specs, target, k).Some? ==> Chain(specs, target, k).value in inside
  {
    if k > 0 {
      ChainStaysInside(specs, target, inside, k - 1);
    }
  }

  lemma NotAboveWhenClosed(specs: Specs, target: string, actor: string, inside: set<string>)
    requires target in inside && forall x :: x in inside && Next(specs, x).Some? ==> Next(specs, x).value in inside
    requires forall x :: x in inside ==> !Supervises(specs, actor, x)
    ensures !AboveInChain(specs, target, actor)
  {
    forall k: nat ensures !(Chain(specs, target, k).Some? && Supervises(specs, actor, Chain(specs, target, k).value)) {
      ChainStaysInside(specs, target, inside, k);
    }
  }

  /**
   * Accepts exactly when there is no actor, the actor is the target, or the actor supervises some
   * agent of the chain; the walk ends on every catalog, also one whose supervision is cyclic.
   */
  method AuthorizeActor(specs: Specs, target: string, actor: Option<string>) returns (ok: bool)
    ensures ok <==> actor.None? || actor.value == target || AboveInChain(specs, target, actor.value)
  {
    hide Qualify;
    if actor.None? || actor.value == target {
      return true;
    }
    var current := target;
    var visited: set<string> := {};
    ghost var steps := 0;
    while current !in visited
      invariant Chain(specs, target, steps) == Some(current)
      invariant visited <= specs.Keys && target in visited + {current}
      invariant forall x :: x in visited && Next(specs, x).Some? ==> Next(specs, x).value in visited + {current}
      invariant forall x :: x in visited ==> !Supervises(specs, actor.value, x)
      decreases specs.Keys - visited
    {
      if current !in specs || specs[current].supervisor.None? {
        NotAboveWhenClosed(specs, target, actor.value, visited + {current});
        return false;
      }
      var supervisor := specs[current].supervisor.value;
      if supervisor == actor.value {
        assert Supervises(specs, actor.value, current);
        return true;
      }
      var qualified := Qualify(specs, specs[current], supervisor);
      if qualified == actor.value {
        assert Supervises(specs, actor.value, current);
        return true;
      }
      visited := visited + {current};
      current := qualified;
      steps := steps + 1;
    }
    assert visited + {current} == visited;
    NotAboveWhenClosed(specs, target, actor.value, visited);
    return false;
  }
}
