/**
 * `signal_private` of scripts/script_process.py against an adversarial process table. Every
 * system call is one step; between any two of them processes may exit, be replaced under the
 * same PID, or change what /proc shows of them. A PID is held by one process until it exits,
 * and a pidfd names the process that held the PID when it was opened.
 */
module Signal {
  import opened Paths

  datatype Option<+T> = None | Some(value: T)

  /** What /proc/<pid> shows of a process; paths are component lists from the root. */
  datatype Info = Info(uid: int, startTicks: int, parent: int, group: int, env: map<string, string>, argv: seq<string>, cwd: Path)

  datatype Selector = Selector(endpoint: Option<string>, root: Option<Path>, environment: map<string, string>,
                               startTicks: Option<int>, contains: Option<string>, parent: Option<int>, group: Option<int>)

  // ----- the checks, one per read -----

  predicate Given<T(==)>(wanted: Option<T>, actual: T) {
    wanted.None? || wanted.value == actual
  }

  predicate StatMatches(sel: Selector, i: Info) {
    Given(sel.startTicks, i.startTicks) && Given(sel.parent, i.parent) && Given(sel.group, i.group)
  }

  function Get(env: map<string, string>, key: string): Option<string> {
    if key in env then Some(env[key]) else None
  }

  predicate EnvironMatches(sel: Selector, i: Info) {
    var preferred, legacy := Get(i.env, "FRACTAL_ENDPOINT"), Get(i.env, "ST3_ENDPOINT");
    && (sel.endpoint.Some? ==>
          (preferred.Some? && legacy.Some? ==> preferred == legacy)
          && (if preferred.Some? then preferred else legacy) == sel.endpoint)
    && (forall k :: k in sel.environment ==> Get(i.env, k) == Some(sel.environment[k]))
  }

  predicate Within(hay: string, needle: string) {
    exists k :: 0 <= k <= |hay| && needle <= hay[k..]
  }

  function Spaced(argv: seq<string>): string {
    if argv == [] then "" else if |argv| == 1 then argv[0] else argv[0] + " " + Spaced(argv[1..])
  }

  predicate CmdlineMatches(sel: Selector, i: Info) {
    sel.contains.Some? ==> Within(Spaced(i.argv), sel.contains.value)
  }

  /** The working directory lies in the root, or an argument read before names something in its `bin`. */
  predicate RootMatches(sel: Selector, cwd: Path, argv: seq<string>) {
    sel.root.Some? ==>
      || sel.root.value <= cwd
      || exists a :: 0 <= a < |argv| && "/" + Join(sel.root.value + ["bin"]) + "/" <= argv[a]
  }

  datatype Stage = Owner | Stat | Environ | Cmdline | Cwd

  const STAGES: seq<Stage> := [Owner, Stat, Environ, Cmdline, Cwd]

  predicate Passes(sel: Selector, uid: int, stage: Stage, i: Info, argv: seq<string>) {
    match stage
    case Owner => i.uid == uid
    case Stat => StatMatches(sel, i)
    case Environ => EnvironMatches(sel, i)
    case Cmdline => CmdlineMatches(sel, i)
    case Cwd => RootMatches(sel, i.cwd, argv)
  }

  /** The guards before any system call: a parent selector above 1, and some private identity. */
  predicate ValidSelector(sel: Selector) {
    && (sel.parent.Some? ==> sel.parent.value > 1)
    && ((sel.endpoint.Some? && sel.endpoint.value != "") || sel.root.Some? || sel.environment != map[] || sel.parent.Some?)
  }

  // ----- steps -----

  /** One call: `read` counts the checks passed, `argv` is what the command line read returned. */
  datatype Caller = Start | Checking(fd: nat, read: nat, argv: seq<string>) | Done(sent: bool) | Invalid

  /** One read of /proc: which process answered, and with what. */
  datatype Read = Read(process: nat, stage: Stage, info: Info, argv: seq<string>)

  datatype State = State(holder: map<int, nat>, info: map<nat, Info>, born: nat,
                         caller: Caller, seen: seq<Read>, delivered: set<nat>)

  datatype Action =
    | Spawn(at: int, shown: Info)
    | Exit(at: int)
    | Change(process: nat, shown: Info)
    | Open
    | Check
    | Send

  /** What stays fixed during the call. */
  datatype Job = Job(pid: int, sel: Selector, uid: int, ancestors: set<int>)

  predicate Enabled(s: State, a: Action) {
    match a
    case Spawn(at, _) => at !in s.holder
    case Exit(at) => at in s.holder
    case Change(p, _) => p in s.info
    case Open => s.caller.Start?
    case Check => s.caller.Checking? && s.caller.read < |STAGES|
    case Send => s.caller.Checking? && s.caller.read >= |STAGES|
  }

  predicate Running(s: State, p: nat) {
    exists at :: at in s.holder && s.holder[at] == p
  }

  function Apply(job: Job, s: State, a: Action): State
    requires Enabled(s, a)
  {
    match a
    case Spawn(at, shown) => s.(holder := s.holder[at := s.born], info := s.info[s.born := shown], born := s.born + 1)
    case Exit(at) => s.(holder := s.holder - {at})
    case Change(p, shown) => s.(info := s.info[p := shown])
    case Open =>
      if !ValidSelector(job.sel) then s.(caller := Invalid)
      else if job.pid <= 1 || job.pid in job.ancestors || job.pid !in s.holder then s.(caller := Done(false))
      else s.(caller := Checking(s.holder[job.pid], 0, []))
    case Check =>
      // The read goes by PID, so it sees whoever holds it now.
      if job.pid !in s.holder || s.holder[job.pid] !in s.info then s.(caller := Done(false))
      else
        var stage, shown := STAGES[s.caller.read], s.info[s.holder[job.pid]];
        if !Passes(job.sel, job.uid, stage, shown, s.caller.argv) then s.(caller := Done(false))
        else
          s.(caller := Checking(s.caller.fd, s.caller.read + 1, if stage == Cmdline then shown.argv else s.caller.argv),
             seen := s.seen + [Read(s.holder[job.pid], stage, shown, s.caller.argv)])
    case Send =>
      // The signal goes by descriptor, so it reaches that process or nobody.
      if Running(s, s.caller.fd) then s.(caller := Done(true), delivered := s.delivered + {s.caller.fd})
      else s.(caller := Done(false))
  }

  /** Every PID is held by one process, and every process holds one PID. */
  ghost predicate TableFits(s: State) {
    && (forall at :: at in s.holder ==> s.holder[at] < s.born && s.holder[at] in s.info)
    && (forall at, at' :: at in s.holder && at' in s.holder && s.holder[at] == s.holder[at'] ==> at == at')
    && (forall p :: p in s.info ==> p < s.born)
  }

  ghost predicate Initial(s: State) {
    s.caller.Start? && s.seen == [] && s.delivered == {} && TableFits(s)
  }

  ghost predicate IsRun(job: Job, run: seq<State>, acts: seq<Action>) {
    && |run| == |acts| + 1 && Initial(run[0])
    && forall i :: 0 <= i < |acts| ==> Enabled(run[i], acts[i]) && run[i + 1] == Apply(job, run[i], acts[i])
  }

  // ----- what holds throughout -----

  /** The process is the one at the PID still; otherwise it is gone for good. */
  ghost predicate Live(job: Job, s: State, p: nat) {
    job.pid in s.holder && s.holder[job.pid] == p
  }

  ghost predicate Gone(s: State, p: nat) {
    forall at :: at in s.holder ==> s.holder[at] != p
  }

  ghost predicate ReadsPassed(job: Job, seen: seq<Read>) {
    forall i :: 0 <= i < |seen| ==>
      i < |STAGES| && seen[i].stage == STAGES[i] && Passes(job.sel, job.uid, seen[i].stage, seen[i].info, seen[i].argv)
      && (i == 4 ==> seen[i].argv == seen[3].info.argv)
  }

  ghost predicate ReadsAreOf(seen: seq<Read>, p: nat) {
    forall i :: 0 <= i < |seen| ==> seen[i].process == p
  }

  /** The call's own facts: while the opened process lives, every read so far was of it. */
  ghost predicate CallFits(job: Job, s: State) {
    match s.caller
    case Start => s.seen == [] && s.delivered == {}
    case Checking(fd, read, argv) =>
      && fd < s.born && |s.seen| == read <= |STAGES| && s.delivered == {} && (read == 4 ==> argv == s.seen[3].info.argv)
      && ((Live(job, s, fd) && ReadsAreOf(s.seen, fd)) || Gone(s, fd))
    case Done(sent) =>
      if sent then |s.seen| == |STAGES| && |s.delivered| == 1 && forall p :: p in s.delivered ==> ReadsAreOf(s.seen, p)
      else s.delivered == {}
    case Invalid => s.delivered == {}
  }

  ghost predicate Inv(job: Job, s: State) {
    TableFits(s) && ReadsPassed(job, s.seen) && CallFits(job, s)
  }

  lemma SpawnKeeps(job: Job, s: State, at: int, shown: Info)
    requires Inv(job, s) && at !in s.holder
    ensures Inv(job, Apply(job, s, Spawn(at, shown)))
  {
    hide ReadsPassed, ReadsAreOf;
    var t := Apply(job, s, Spawn(at, shown));
    assert TableFits(t);
    forall p: nat | p < s.born ensures (Live(job, s, p) ==> Live(job, t, p)) && (Gone(s, p) ==> Gone(t, p)) {
    }
  }

  lemma ExitKeeps(job: Job, s: State, at: int)
    requires Inv(job, s) && at in s.holder
    ensures Inv(job, Apply(job, s, Exit(at)))
  {
    hide ReadsPassed, ReadsAreOf;
    var t := Apply(job, s, Exit(at));
    assert TableFits(t);
    forall p: nat | Live(job, s, p) ensures Live(job, t, p) || Gone(t, p) {
    }
    assert forall p :: Gone(s, p) ==> Gone(t, p);
  }

  lemma ChangeKeeps(job: Job, s: State, p: nat, shown: Info)
    requires Inv(job, s) && p in s.info
    ensures Inv(job, Apply(job, s, Change(p, shown)))
  {
    hide ReadsPassed, ReadsAreOf;
    var t := Apply(job, s, Change(p, shown));
    assert TableFits(t);
    assert t.holder == s.holder;
  }

  lemma OpenKeeps(job: Job, s: State)
    requires Inv(job, s) && Enabled(s, Open)
    ensures Inv(job, Apply(job, s, Open))
  {
    hide Passes, ValidSelector;
  }

  lemma CheckKeeps(job: Job, s: State)
    requires Inv(job, s) && Enabled(s, Check)
    ensures Inv(job, Apply(job, s, Check))
  {
    hide Passes;
  }

  lemma SendKeeps(job: Job, s: State)
    requires Inv(job, s) && Enabled(s, Send)
    ensures Inv(job, Apply(job, s, Send))
  {
    hide Passes;
  }

  lemma {:induction false} RunKeepsInv(job: Job, run: seq<State>, acts: seq<Action>, i: nat)
    requires IsRun(job, run, acts) && i < |run|
    ensures Inv(job, run[i])
  {
    if i > 0 {
      RunKeepsInv(job, run, acts, i - 1);
      hide Apply, Inv, Enabled;
      var s, a := run[i - 1], acts[i - 1];
      assert Enabled(s, a) && run[i - 1 + 1] == Apply(job, s, a);
      match a
      case Open => OpenKeeps(job, s);
      case Check => CheckKeeps(job, s);
      case Send => SendKeeps(job, s);
      case Spawn(at, shown) => SpawnKeeps(job, s, at, shown);
      case Exit(at) => ExitKeeps(job, s, at);
      case Change(p, shown) => ChangeKeeps(job, s, p, shown);
    }
  }

  /** Whoever receives the signal is one process, and it itself answered and passed all five reads. */
  lemma ReceiverPassedEveryCheck(job: Job, run: seq<State>, acts: seq<Action>, i: nat, p: nat)
    requires IsRun(job, run, acts) && i < |run| && p in run[i].delivered
    ensures run[i].delivered == {p} && run[i].caller == Done(true) && |run[i].seen| == |STAGES|
    ensures forall k :: 0 <= k < |STAGES| ==>
      run[i].seen[k].process == p && run[i].seen[k].stage == STAGES[k]
      && Passes(job.sel, job.uid, STAGES[k], run[i].seen[k].info, run[i].seen[k].argv)
  {
    hide Passes;
    RunKeepsInv(job, run, acts, i);
    assert ReadsAreOf(run[i].seen, p);
    assert run[i].delivered - {p} == {} by { assert |run[i].delivered - {p}| == 0; }
  }

  /**
   * What that means for whoever receives the signal, read by read: the caller's own user, the
   * selected start time, parent and group, the selected environment and endpoint, the selected words
   * in the command line, and a working directory or an argument under the selected root.
   */
  lemma ReceiverIsSelected(job: Job, run: seq<State>, acts: seq<Action>, i: nat, p: nat)
    requires IsRun(job, run, acts) && i < |run| && p in run[i].delivered
    ensures var seen, sel := run[i].seen, job.sel;
      && |seen| == 5 && (forall k :: 0 <= k < 5 ==> seen[k].process == p)
      && seen[0].info.uid == job.uid && seen[4].argv == seen[3].info.argv
      && (sel.startTicks.Some? ==> seen[1].info.startTicks == sel.startTicks.value)
      && (sel.parent.Some? ==> seen[1].info.parent == sel.parent.value)
      && (sel.group.Some? ==> seen[1].info.group == sel.group.value)
      && (forall k :: k in sel.environment ==> k in seen[2].info.env && seen[2].info.env[k] == sel.environment[k])
      && (sel.endpoint.Some? ==>
            && (exists k :: (k == "FRACTAL_ENDPOINT" || k == "ST3_ENDPOINT") && k in seen[2].info.env)
            && forall k :: (k == "FRACTAL_ENDPOINT" || k == "ST3_ENDPOINT") && k in seen[2].info.env ==> seen[2].info.env[k] == sel.endpoint.value)
      && (sel.contains.Some? ==> Within(Spaced(seen[3].info.argv), sel.contains.value))
      && (sel.root.Some? ==>
            sel.root.value <= seen[4].info.cwd
            || exists a :: 0 <= a < |seen[4].argv| && "/" + Join(sel.root.value + ["bin"]) + "/" <= seen[4].argv[a])
  {
    ReceiverPassedEveryCheck(job, run, acts, i, p);
    var seen := run[i].seen;
    assert seen[4].argv == seen[3].info.argv by {
      RunKeepsInv(job, run, acts, i);
      assert ReadsPassed(job, seen) && seen[4].stage == STAGES[4];
    }
    assert forall k :: 0 <= k < |STAGES| ==> Passes(job.sel, job.uid, STAGES[k], seen[k].info, seen[k].argv);
    assert STAGES[0] == Owner && STAGES[1] == Stat && STAGES[2] == Environ && STAGES[3] == Cmdline && STAGES[4] == Cwd;
    hide IsRun;
    EnvironMeans(job.sel, seen[2].info);
  }

  ghost predicate HasEndpoint(sel: Selector, i: Info) {
    sel.endpoint.Some? ==>
      && (exists k :: (k == "FRACTAL_ENDPOINT" || k == "ST3_ENDPOINT") && k in i.env)
      && forall k :: (k == "FRACTAL_ENDPOINT" || k == "ST3_ENDPOINT") && k in i.env ==> i.env[k] == sel.endpoint.value
  }

  lemma EnvironMeans(sel: Selector, i: Info)
    ensures EnvironMatches(sel, i) <==> (forall k :: k in sel.environment ==> k in i.env && i.env[k] == sel.environment[k]) && HasEndpoint(sel, i)
  {
    assert "FRACTAL_ENDPOINT" in i.env || "FRACTAL_ENDPOINT" !in i.env;
    assert "ST3_ENDPOINT" in i.env || "ST3_ENDPOINT" !in i.env;
    forall k | k in sel.environment ensures Get(i.env, k) == Some(sel.environment[k]) <==> k in i.env && i.env[k] == sel.environment[k] {
    }
  }

  // ----- an undisturbed call -----

  /** The remaining checks, with nothing in between, then the signal. */
  function CheckOn(job: Job, s: State): State
    decreases if s.caller.Checking? then |STAGES| - s.caller.read else -1
  {
    if !s.caller.Checking? then s
    else if s.caller.read >= |STAGES| then Apply(job, s, Send)
    else CheckOn(job, Apply(job, s, Check))
  }

  function Undisturbed(job: Job, s: State): State
    requires s.caller.Start?
  {
    CheckOn(job, Apply(job, s, Open))
  }

  /** What the selector asks of a process. */
  ghost predicate Selected(sel: Selector, uid: int, i: Info) {
    && i.uid == uid
    && (sel.startTicks.Some? ==> i.startTicks == sel.startTicks.value)
    && (sel.parent.Some? ==> i.parent == sel.parent.value)
    && (sel.group.Some? ==> i.group == sel.group.value)
    && (forall k :: k in sel.environment ==> k in i.env && i.env[k] == sel.environment[k])
    && (sel.endpoint.Some? ==>
          && (exists k :: (k == "FRACTAL_ENDPOINT" || k == "ST3_ENDPOINT") && k in i.env)
          && forall k :: (k == "FRACTAL_ENDPOINT" || k == "ST3_ENDPOINT") && k in i.env ==> i.env[k] == sel.endpoint.value)
    && (sel.contains.Some? ==> Within(Spaced(i.argv), sel.contains.value))
    && (sel.root.Some? ==>
          sel.root.value <= i.cwd || exists a :: 0 <= a < |i.argv| && "/" + Join(sel.root.value + ["bin"]) + "/" <= i.argv[a])
  }

  ghost predicate PassesFrom(job: Job, i: Info, k: nat) {
    forall j :: k <= j < |STAGES| ==> Passes(job.sel, job.uid, STAGES[j], i, if j == 4 then i.argv else [])
  }

  lemma SelectedMeansPasses(job: Job, i: Info)
    ensures PassesFrom(job, i, 0) <==> Selected(job.sel, job.uid, i)
  {
    assert STAGES[0] == Owner && STAGES[1] == Stat && STAGES[2] == Environ && STAGES[3] == Cmdline && STAGES[4] == Cwd;
    EnvironMeans(job.sel, i);
    hide EnvironMatches, CmdlineMatches, RootMatches;
    assert PassesFrom(job, i, 0) <==>
      && Passes(job.sel, job.uid, Owner, i, []) && Passes(job.sel, job.uid, Stat, i, []) && Passes(job.sel, job.uid, Environ, i, [])
      && Passes(job.sel, job.uid, Cmdline, i, []) && Passes(job.sel, job.uid, Cwd, i, i.argv);
  }

  lemma {:induction false} CheckOnMeans(job: Job, s: State, p: nat, k: nat)
    requires k <= |STAGES| && s.caller.Checking? && s.caller.fd == p && s.caller.read == k
    requires job.pid in s.holder && s.holder[job.pid] == p && p in s.info && s.delivered == {}
    requires s.caller.argv == if k >= 4 then s.info[p].argv else []
    ensures CheckOn(job, s).delivered == if PassesFrom(job, s.info[p], k) then {p} else {}
    decreases |STAGES| - k
  {
    hide Passes;
    if k == |STAGES| {
      assert Running(s, p);
    } else {
      var i := s.info[p];
      assert STAGES[k] == Cmdline <==> k == 3;
      assert PassesFrom(job, i, k) <==> Passes(job.sel, job.uid, STAGES[k], i, s.caller.argv) && PassesFrom(job, i, k + 1);
      if Passes(job.sel, job.uid, STAGES[k], i, s.caller.argv) {
        CheckOnMeans(job, Apply(job, s, Check), p, k + 1);
      }
    }
  }

  /**
   * A call that nothing disturbs signals the process that holds the PID if and only if the selector
   * is usable, the PID is above 1 and no ancestor's, and the process is the selected one; else nobody.
   */
  lemma UndisturbedExactlyIf(job: Job, s: State)
    requires Initial(s)
    ensures var sel := job.sel;
      var wanted :=
        && (sel.parent.Some? ==> sel.parent.value > 1)
        && ((sel.endpoint.Some? && sel.endpoint.value != "") || sel.root.Some? || sel.environment != map[] || sel.parent.Some?)
        && job.pid > 1 && job.pid !in job.ancestors && job.pid in s.holder && s.holder[job.pid] in s.info
        && Selected(sel, job.uid, s.info[s.holder[job.pid]]);
      Undisturbed(job, s).delivered == if wanted then {s.holder[job.pid]} else {}
  {
    hide Selected, CheckOn;
    if ValidSelector(job.sel) && job.pid > 1 && job.pid !in job.ancestors && job.pid in s.holder {
      var p := s.holder[job.pid];
      SelectedMeansPasses(job, s.info[p]);
      CheckOnMeans(job, Apply(job, s, Open), p, 0);
    } else {
      CheckOnStays(job, Apply(job, s, Open));
    }
  }

  lemma CheckOnStays(job: Job, s: State)
    requires !s.caller.Checking?
    ensures CheckOn(job, s) == s
  {
  }

  lemma {:induction false} SignalFollowsTheDescriptor(job: Job, run: seq<State>, acts: seq<Action>, j: nat, i: nat)
    requires IsRun(job, run, acts) && j < i < |run| && acts[j] == Open
    ensures forall p :: p in run[i].delivered ==> Live(job, run[j], p)
    ensures run[i].caller.Checking? ==> Live(job, run[j], run[i].caller.fd)
    ensures !run[i].caller.Start?
  {
    hide Passes, ValidSelector;
    assert Enabled(run[i - 1], acts[i - 1]) && run[i - 1 + 1] == Apply(job, run[i - 1], acts[i - 1]);
    if i == j + 1 {
      RunKeepsInv(job, run, acts, j);
    } else {
      SignalFollowsTheDescriptor(job, run, acts, j, i - 1);
    }
  }

  /** A process that took the PID over after the descriptor was opened never receives the signal. */
  lemma ReplacementIsNeverSignalled(job: Job, run: seq<State>, acts: seq<Action>, j: nat, i: nat, p: nat)
    requires IsRun(job, run, acts) && j < i < |run| && acts[j] == Open && p >= run[j].born
    ensures p !in run[i].delivered
  {
    hide IsRun;
    RunKeepsInv(job, run, acts, j);
    SignalFollowsTheDescriptor(job, run, acts, j, i);
  }
}
