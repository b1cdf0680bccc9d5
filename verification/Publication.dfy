/**
 * `publish` of src/agent_publish.rs: replace or create one declaration of a catalog under its
 * exclusive lock, against an expectation about the incumbent. Digests, marker parsing and
 * catalog validation are functions the environment supplies; nothing is assumed of them. A call
 * may fail or die anywhere; the generation and its intent file are those of
 * crates/fractal-drivers/src/catalog_lock.rs.
 */
module Publication {

  datatype Option<+T> = None | Some(value: T)

  type Bytes = string
  type Sha = string
  type Target = (string, string)

  /** What lies at agents/<host>/<identity>: the declaration, if any, and other files. */
  datatype Folder = Folder(spec: Option<Bytes>, payload: map<string, Bytes>)
  type Folders = map<Target, Folder>

  datatype Kind = Spec | Bundle
  datatype Candidate = Candidate(target: Target, kind: Kind, bytes: Bytes, payload: map<string, Bytes>)

  datatype Expectation = Absent | Sha256(sha: Sha)

  /** One request; `staged` is the captured source, or `None` when it cannot be captured or parsed. */
  datatype Request = Request(staged: Option<Candidate>, expectation: Expectation, inputSha: Sha, managedBy: Option<string>)

  datatype Receipt = Receipt(target: Target, inputSha: Sha, before: Option<Sha>, after: Sha, managedBy: Option<string>)

  datatype Env = Env(sha: Bytes -> Sha, digest: Candidate -> Sha, markers: Bytes -> seq<string>, padded: string -> bool,
                     overlayOk: (Folders, Candidate) -> bool, liveOk: Folders -> bool)

  /** `Refused` leaves before the write, for whatever reason, and `Broken` after it. */
  datatype Outcome = Published(receipt: Receipt) | Unchanged(receipt: Receipt) | Refused | Broken(target: Target)

  predicate ValidSha(s: Sha) {
    |s| == 64 && forall i :: 0 <= i < |s| ==> '0' <= s[i] <= '9' || 'a' <= s[i] <= 'f'
  }

  function Incumbent(folders: Folders, target: Target): Option<Bytes> {
    if target in folders then folders[target].spec else None
  }

  function ShaOf(env: Env, bytes: Option<Bytes>): Option<Sha> {
    if bytes.None? then None else Some(env.sha(bytes.value))
  }

  /** `authorize_asserted_marker`: may bytes with these markers be rewritten under this assertion? */
  predicate MarkerAllows(markers: seq<string>, asserted: Option<string>) {
    match asserted
    case None => "nix" !in markers
    case Some(marker) => markers == [marker]
  }

  predicate ExpectationHolds(env: Env, c: Candidate, expectation: Expectation, incumbent: Option<Bytes>) {
    match expectation
    case Absent => incumbent.None? || incumbent.value == c.bytes
    case Sha256(sha) => ValidSha(sha) && ShaOf(env, incumbent) == Some(sha)
  }

  /** A bundle is created once, into a directory that is not there yet or already holds it. */
  predicate BundleAllows(folders: Folders, c: Candidate, expectation: Expectation) {
    expectation.Absent? && (c.target in folders ==> folders[c.target].spec.Some?)
  }

  predicate Projects(payload: map<string, Bytes>, folder: Folder) {
    forall name :: name in payload ==> name in folder.payload && folder.payload[name] == payload[name]
  }

  function CandidateSha(env: Env, c: Candidate): Sha {
    if c.kind.Spec? then env.sha(c.bytes) else env.digest(c)
  }

  /** What is checked before the lock is taken. */
  predicate Locks(env: Env, r: Request) {
    ValidSha(r.inputSha) && (r.managedBy.Some? ==> r.managedBy.value != "" && !env.padded(r.managedBy.value))
  }

  /** Everything that is checked before the catalog changes. */
  predicate Admitted(env: Env, folders: Folders, r: Request) {
    && Locks(env, r) && r.staged.Some?
    && var c := r.staged.value;
       var incumbent := Incumbent(folders, c.target);
       && CandidateSha(env, c) == r.inputSha
       && (incumbent.Some? && incumbent.value != c.bytes ==> MarkerAllows(env.markers(incumbent.value), r.managedBy))
       && ExpectationHolds(env, c, r.expectation, incumbent)
       && (c.kind.Bundle? ==> BundleAllows(folders, c, r.expectation))
       && env.overlayOk(folders, c)
       && (c.kind.Bundle? && incumbent == Some(c.bytes) ==> c.target in folders && Projects(c.payload, folders[c.target]))
  }

  function Written(folders: Folders, c: Candidate): Folders {
    folders[c.target := Folder(Some(c.bytes),
                               if c.kind.Bundle? then c.payload
                               else if c.target in folders then folders[c.target].payload else map[])]
  }

  /** The receipt a successful call must give. */
  function ReceiptFor(env: Env, folders: Folders, r: Request): Receipt
    requires r.staged.Some?
  {
    var c := r.staged.value;
    var incumbent := Incumbent(folders, c.target);
    Receipt(c.target, CandidateSha(env, c), ShaOf(env, incumbent), env.sha(c.bytes),
            if incumbent.Some? && incumbent.value != c.bytes then r.managedBy else None)
  }

  // ----- the store -----

  /** The live catalog with its generation; `intent` is the file that says a commit is under way. */
  datatype Store = Store(folders: Folders, generation: nat, intent: bool)

  /** The files at a target; a directory that is not there holds none. */
  function Files(folders: Folders, target: Target): Folder {
    if target in folders then folders[target] else Folder(None, map[])
  }

  function Pending(s: Store): nat {
    if s.intent then 1 else 0
  }

  function Wrote(outcome: Outcome): nat {
    if outcome.Published? || outcome.Broken? then 1 else 0
  }

  /** At most so many changes does one call make: two to recover, five to publish. */
  const CHANGES: nat := 7

  // ----- one call -----

  /** How many changes are left for the call once an intent that was there has been settled. */
  function Left(s: Store, luck: nat): nat {
    if !s.intent then luck else if luck < 2 then 0 else luck - 2
  }

  /** How many changes come before the write: the intent, and a directory that is not there yet. */
  function Lead(folders: Folders, c: Candidate): nat {
    if c.kind.Spec? && c.target !in folders then 2 else 1
  }

  /** The call gets past all checks and has something to write. */
  predicate Commits(env: Env, s: Store, r: Request) {
    Admitted(env, s.folders, r) && !Same(s.folders, r.staged.value)
  }

  /** The files after a commit that fails after `left` changes. */
  function FoldersAfter(folders: Folders, c: Candidate, left: nat): Folders {
    if left > Lead(folders, c) then Written(folders, c)
    else if left == 2 then folders[c.target := Folder(None, map[])]
    else folders
  }

  /** A commit that fails after `left` changes leaves its intent. */
  predicate CommitLeavesIntent(env: Env, folders: Folders, c: Candidate, left: nat) {
    left >= 1 && (left < Lead(folders, c) + 3 || !env.liveOk(Written(folders, c)))
  }

  /** A commit counts without a write: it stops between its intent and its write, or between the counter and the intent. */
  predicate CommitOvercounts(env: Env, folders: Folders, c: Candidate, left: nat) {
    var n := Lead(folders, c);
    1 <= left <= n || (left == n + 2 && env.liveOk(Written(folders, c)))
  }

  /** Exactly the calls that make the generation run ahead of the writes. */
  predicate Overcounts(env: Env, s: Store, r: Request, luck: nat) {
    && Locks(env, r)
    && ((s.intent && luck == 1) || (Commits(env, s, r) && CommitOvercounts(env, s.folders, r.staged.value, Left(s, luck))))
  }

  predicate LeavesIntent(env: Env, s: Store, r: Request, luck: nat) {
    if !Locks(env, r) then s.intent
    else (s.intent && luck < 2) || (Commits(env, s, r) && CommitLeavesIntent(env, s.folders, r.staged.value, Left(s, luck)))
  }

  /** What one call does; `luck` is how many of its changes come off before it fails. Store and outcome are determined. */
  ghost predicate Publishes(env: Env, s: Store, r: Request, luck: nat, t: Store, outcome: Outcome) {
    && t.generation + Pending(t) == s.generation + Pending(s) + Wrote(outcome) + (if Overcounts(env, s, r, luck) then 1 else 0)
    && t.folders == (if Commits(env, s, r) then FoldersAfter(s.folders, r.staged.value, Left(s, luck)) else s.folders)
    && (t.intent <==> LeavesIntent(env, s, r, luck))
    && Result(env, s, r, Left(s, luck), outcome)
  }

  ghost predicate Result(env: Env, s: Store, r: Request, left: nat, outcome: Outcome) {
    match outcome
    case Refused =>
      && (Commits(env, s, r) ==> left <= Lead(s.folders, r.staged.value))
      && (Admitted(env, s.folders, r) && Same(s.folders, r.staged.value) ==> left == 0 || !env.liveOk(s.folders))
    case Unchanged(receipt) =>
      && Admitted(env, s.folders, r) && Same(s.folders, r.staged.value) && env.liveOk(s.folders)
      && left > 0 && receipt == ReceiptFor(env, s.folders, r)
    case Published(receipt) =>
      && Commits(env, s, r) && left > Lead(s.folders, r.staged.value) + 3 && env.liveOk(Written(s.folders, r.staged.value))
      && receipt == ReceiptFor(env, s.folders, r)
    case Broken(target) =>
      && Commits(env, s, r) && target == r.staged.value.target && left > Lead(s.folders, r.staged.value)
      && (left <= Lead(s.folders, r.staged.value) + 3 || !env.liveOk(Written(s.folders, r.staged.value)))
  }

  predicate Same(folders: Folders, c: Candidate) {
    Incumbent(folders, c.target) == Some(c.bytes)
  }

  /** Catalog, request and place of the fault leave one result. */
  lemma CallIsDetermined(env: Env, s: Store, r: Request, luck: nat, t: Store, outcome: Outcome, t': Store, outcome': Outcome)
    requires Publishes(env, s, r, luck, t, outcome) && Publishes(env, s, r, luck, t', outcome')
    ensures t' == t && outcome' == outcome
  {
    hide Admitted, Same, FoldersAfter, Written, ReceiptFor, Lead, CommitOvercounts, CommitLeavesIntent;
    assert outcome == outcome';
  }

  // ----- single changes -----

  predicate Advanced(a: Store, b: Store) {
    a.intent && b == a.(generation := a.generation + 1)
  }

  /** A commit begins, files change under the intent, or the generation advances under it. */
  predicate PlainChange(a: Store, b: Store) {
    || (!a.intent && b == a.(intent := true))
    || (a.intent && b == a.(folders := b.folders))
    || Advanced(a, b)
  }

  /** One change of the store; the intent goes only after the generation has advanced. */
  predicate Change(h: seq<Store>, k: nat)
    requires k + 1 < |h|
  {
    PlainChange(h[k], h[k + 1]) || (k > 0 && Advanced(h[k - 1], h[k]) && h[k + 1] == h[k].(intent := false))
  }

  /** Moments of the store, one change apart. */
  ghost predicate IsHistory(h: seq<Store>) {
    h != [] && forall k: nat :: k + 1 < |h| ==> Change(h, k)
  }

  ghost predicate FromTo(h: seq<Store>, s: Store, t: Store) {
    IsHistory(h) && h[0] == s && h[|h| - 1] == t
  }

  lemma OneMore(h: seq<Store>, s: Store, a: Store, b: Store)
    requires FromTo(h, s, a) && PlainChange(a, b)
    ensures FromTo(h + [b], s, b)
  {
    forall k: nat | k + 1 < |h + [b]| ensures Change(h + [b], k) {
      assert k + 1 < |h| ==> Change(h, k);
    }
  }

  lemma Cleared(h: seq<Store>, s: Store, a: Store)
    requires FromTo(h, s, a) && a.intent
    ensures var b := a.(generation := a.generation + 1);
      FromTo(h + [b, b.(intent := false)], s, b.(intent := false))
  {
    var b := a.(generation := a.generation + 1);
    var h' := h + [b, b.(intent := false)];
    forall k: nat | k + 1 < |h'| ensures Change(h', k) {
      assert k + 1 < |h| ==> Change(h, k);
    }
  }

  /** The store as the program changes it. */
  class Catalog {
    var folders: Folders
    var generation: nat
    var intent: bool

    ghost function Now(): Store
      reads this
    {
      Store(folders, generation, intent)
    }

    constructor (folders: Folders)
      ensures Now() == Store(folders, 0, false)
    {
      this.folders, this.generation, this.intent := folders, 0, false;
    }

    /** `advance_generation`, then the removal of the intent file: how a commit ends and how the next lock recovers it. */
    method Settle(luck: nat, ghost s: Store, ghost h: seq<Store>) returns (left: nat, done: bool, ghost h': seq<Store>)
      requires intent && FromTo(h, s, Now())
      modifies this
      ensures FromTo(h', s, Now()) && folders == old(folders)
      ensures done <==> luck > 2
      ensures done ==> left == luck - 2
      ensures intent == (luck < 2) && generation == old(generation) + if luck > 0 then 1 else 0
    {
      hide FromTo;
      h', left, done := h, luck, false;
      if left == 0 {
        return;
      }
      OneMore(h, s, Now(), Now().(generation := generation + 1));
      Cleared(h, s, Now());
      left, generation := left - 1, generation + 1;
      h' := h + [Now()];
      if left == 0 {
        return;
      }
      ghost var advanced := Now();
      left, intent := left - 1, false;
      h' := h + [advanced, Now()];
      done := left > 0;
    }

    /** `begin_generation_commit`, the write and the commit, once everything is admitted. */
    method Commit(env: Env, c: Candidate, receipt: Receipt, luck: nat, ghost s: Store, ghost h: seq<Store>)
      returns (outcome: Outcome, ghost h': seq<Store>)
      requires !intent && FromTo(h, s, Now())
      modifies this
      ensures FromTo(h', s, Now())
      ensures folders == FoldersAfter(old(folders), c, luck) && (intent <==> CommitLeavesIntent(env, old(folders), c, luck))
      ensures generation + Pending(Now()) ==
              old(generation) + Wrote(outcome) + if CommitOvercounts(env, old(folders), c, luck) then 1 else 0
      ensures outcome ==
              if luck <= Lead(old(folders), c) then Refused
              else if luck > Lead(old(folders), c) + 3 && env.liveOk(Written(old(folders), c)) then Published(receipt)
              else Broken(c.target)
    {
      hide FromTo;
      var left := luck;
      h', outcome := h, Refused;
      if left == 0 {
        return;
      }
      ghost var was := Now();
      left, intent := left - 1, true;
      OneMore(h', s, was, Now());
      h' := h' + [Now()];
      if c.kind.Spec? && c.target !in folders {
        if left == 0 {
          return;
        }
        was := Now();
        left, folders := left - 1, folders[c.target := Folder(None, map[])];
        OneMore(h', s, was, Now());
        h' := h' + [Now()];
      }
      if left == 0 {
        return;
      }
      var payload := if c.kind.Bundle? then c.payload else Files(folders, c.target).payload;
      was := Now();
      left, folders := left - 1, folders[c.target := Folder(Some(c.bytes), payload)];
      OneMore(h', s, was, Now());
      h' := h' + [Now()];
      assert folders == Written(old(folders), c);
      outcome := Broken(c.target);
      if !env.liveOk(folders) {
        return;
      }
      var done;
      left, done, h' := Settle(left, s, h');
      if done {
        outcome := Published(receipt);
      }
    }

    /** The checks under the lock, in their order; `None` for a refusal. */
    method Admit(env: Env, r: Request) returns (receipt: Option<Receipt>)
      requires Locks(env, r)
      ensures receipt.Some? ==> Admitted(env, folders, r) && receipt.value == ReceiptFor(env, folders, r)
      ensures receipt.Some? && Same(folders, r.staged.value) ==> env.liveOk(folders)
      ensures receipt.None? ==> !Admitted(env, folders, r) || (Same(folders, r.staged.value) && !env.liveOk(folders))
    {
      receipt := None;
      if r.staged.None? {
        return;
      }
      var c := r.staged.value;
      if CandidateSha(env, c) != r.inputSha {
        return;
      }
      var before := Incumbent(folders, c.target);
      var sameSpec := before == Some(c.bytes);
      var confirmed := None;
      if before.Some? && !sameSpec {
        if !MarkerAllows(env.markers(before.value), r.managedBy) {
          return;
        }
        confirmed := r.managedBy;
      }
      match r.expectation {
        case Absent =>
          if before.Some? && before.value != c.bytes {
            return;
          }
        case Sha256(expected) =>
          if !ValidSha(expected) || before.None? || env.sha(before.value) != expected {
            return;
          }
      }
      if c.kind.Bundle? && (!r.expectation.Absent? || (c.target in folders && before.None?)) {
        return;
      }
      if !env.overlayOk(folders, c) {
        return;
      }
      if sameSpec && ((c.kind.Bundle? && !Projects(c.payload, folders[c.target])) || !env.liveOk(folders)) {
        return;
      }
      receipt := Some(Receipt(c.target, CandidateSha(env, c), ShaOf(env, before), env.sha(c.bytes), confirmed));
    }

    /** `publish`, with the lock held throughout; `luck` is how many of its changes come off before it fails. */
    method Publish(env: Env, r: Request, luck: nat) returns (outcome: Outcome, ghost h: seq<Store>)
      modifies this
      ensures Publishes(env, old(Now()), r, luck, Now(), outcome)
      ensures FromTo(h, old(Now()), Now())
    {
      hide FromTo, Admitted, ReceiptFor;
      h, outcome := [Now()], Refused;
      SingleMoment(Now());
      if !Locks(env, r) {
        AdmittedIsStaged(env, folders, r);
        return;
      }
      var left := luck;
      if intent {
        var done;
        left, done, h := Settle(left, old(Now()), h);
        if !done {
          return;
        }
      }
      var receipt := Admit(env, r);
      if receipt.None? || left == 0 {
        AdmittedIsStaged(env, folders, r);
        return;
      }
      AdmittedIsStaged(env, folders, r);
      var c := r.staged.value;
      if Same(folders, c) {
        return Unchanged(receipt.value), h;
      }
      outcome, h := Commit(env, c, receipt.value, left, old(Now()), h);
    }
  }

  lemma SingleMoment(s: Store)
    ensures FromTo([s], s, s)
  {
  }

  lemma AdmittedIsStaged(env: Env, folders: Folders, r: Request)
    ensures Admitted(env, folders, r) ==> r.staged.Some? && Locks(env, r)
  {
  }

  // ----- what the generation is for -----

  lemma {:induction false} GenerationNeverFalls(h: seq<Store>, i: nat, j: nat)
    requires IsHistory(h) && i <= j < |h|
    ensures h[i].generation <= h[j].generation
    decreases j - i
  {
    if i < j {
      GenerationNeverFalls(h, i, j - 1);
      assert Change(h, j - 1);
    }
  }

  /** A commit that has begun stays visible: the intent is there, or the generation has advanced. */
  lemma {:induction false} CommitStaysVisible(h: seq<Store>, i: nat, j: nat)
    requires IsHistory(h) && i <= j < |h| && h[i].intent
    ensures h[j].intent || h[i].generation < h[j].generation || (i > 0 && Advanced(h[i - 1], h[i]))
    decreases j - i
  {
    if i < j {
      CommitStaysVisible(h, i, j - 1);
      GenerationNeverFalls(h, i, j - 1);
      assert Change(h, j - 1);
      if !h[j].intent && h[j - 1].intent && j - 1 > i {
        GenerationNeverFalls(h, i, j - 2);
      }
    }
  }

  /**
   * Two moments of one generation without an intent file: every moment between them has the same
   * files. So a reader that finds the same generation before and after has read one catalog.
   */
  lemma {:induction false} SameGenerationSameFiles(h: seq<Store>, i: nat, j: nat, k: nat)
    requires IsHistory(h) && i <= k <= j < |h|
    requires !h[i].intent && !h[j].intent && h[i].generation == h[j].generation
    ensures h[k].folders == h[i].folders && !h[k].intent
    decreases k - i
  {
    GenerationNeverFalls(h, i, k);
    GenerationNeverFalls(h, k, j);
    if i < k {
      SameGenerationSameFiles(h, i, j, k - 1);
      assert Change(h, k - 1);
      if h[k].intent {
        CommitStaysVisible(h, k, j);
      }
    }
  }

  /** One `read_fence`: generation, intent, generation, intent, at ever later moments. */
  datatype Fence = Fence(first: nat, check: nat, second: nat, recheck: nat)

  ghost predicate FenceHeld(h: seq<Store>, f: Fence, value: nat) {
    && f.first <= f.check <= f.second <= f.recheck < |h|
    && h[f.first].generation == h[f.second].generation == value && !h[f.check].intent && !h[f.recheck].intent
  }

  /** Two fences with one value: whatever was read in between, from the first to the second, was one unchanged catalog. */
  lemma FencedReadIsConsistent(h: seq<Store>, f: Fence, g: Fence, value: nat, k: nat)
    requires IsHistory(h) && FenceHeld(h, f, value) && FenceHeld(h, g, value) && f.recheck <= k <= g.first
    ensures h[k].folders == h[f.check].folders && h[g.check].folders == h[f.check].folders
  {
    GenerationNeverFalls(h, f.first, f.check);
    GenerationNeverFalls(h, f.check, f.second);
    GenerationNeverFalls(h, g.first, g.check);
    GenerationNeverFalls(h, g.check, g.second);
    SameGenerationSameFiles(h, f.check, g.check, k);
    SameGenerationSameFiles(h, f.check, g.check, g.check);
  }

  // ----- runs of publish calls -----

  /** Calls one after another under the lock, each failing wherever it may. */
  datatype Run = Run(stores: seq<Store>, requests: seq<Request>, lucks: seq<nat>, outcomes: seq<Outcome>, histories: seq<seq<Store>>)

  ghost predicate IsRun(env: Env, run: Run) {
    && |run.stores| == |run.requests| + 1 && |run.outcomes| == |run.lucks| == |run.histories| == |run.requests|
    && forall i :: 0 <= i < |run.requests| ==> Called(env, run, i)
  }

  ghost predicate Called(env: Env, run: Run, i: nat)
    requires i + 1 < |run.stores| && i < |run.requests| && |run.outcomes| == |run.lucks| == |run.histories| == |run.requests|
  {
    && Publishes(env, run.stores[i], run.requests[i], run.lucks[i], run.stores[i + 1], run.outcomes[i])
    && FromTo(run.histories[i], run.stores[i], run.stores[i + 1])
  }

  /** All moments of the first `n` calls. */
  ghost function Moments(run: Run, n: nat): seq<Store>
    requires n <= |run.histories| && 0 < |run.stores|
  {
    if n == 0 then [run.stores[0]]
    else if run.histories[n - 1] == [] then Moments(run, n - 1)
    else Moments(run, n - 1) + run.histories[n - 1][1..]
  }

  lemma JoinHistories(a: seq<Store>, b: seq<Store>)
    requires IsHistory(a) && IsHistory(b) && a[|a| - 1] == b[0]
    ensures IsHistory(a + b[1..]) && (a + b[1..])[|a + b[1..]| - 1] == b[|b| - 1]
  {
    var h, n := a + b[1..], |a| - 1;
    forall k: nat | k + 1 < |h| ensures Change(h, k) {
      if k < n {
        assert Change(a, k);
      } else {
        assert Change(b, k - n) && h[k + 1] == b[k - n + 1] && h[k] == b[k - n];
      }
    }
  }

  /** The moments of all calls together are one history, so the fence claims hold across calls. */
  lemma {:induction false} RunIsHistory(env: Env, run: Run, n: nat)
    requires IsRun(env, run) && n <= |run.requests|
    ensures FromTo(Moments(run, n), run.stores[0], run.stores[n])
  {
    if n == 0 {
      SingleMoment(run.stores[0]);
    } else {
      assert Called(env, run, n - 1);
      RunIsHistory(env, run, n - 1);
      hide IsHistory, Publishes;
      JoinHistories(Moments(run, n - 1), run.histories[n - 1]);
    }
  }

  function Writings(outcomes: seq<Outcome>): nat {
    if outcomes == [] then 0 else Writings(outcomes[..|outcomes| - 1]) + Wrote(outcomes[|outcomes| - 1])
  }

  /** How many of the calls from `i` to `j` overcount. */
  ghost function Extras(env: Env, run: Run, i: nat, j: nat): nat
    requires i <= j < |run.stores| && |run.stores| == |run.requests| + 1 && |run.lucks| == |run.requests|
    decreases j - i
  {
    if i == j then 0
    else Extras(env, run, i, j - 1) + if Overcounts(env, run.stores[j - 1], run.requests[j - 1], run.lucks[j - 1]) then 1 else 0
  }

  /** The generation, with a pending intent, rises by exactly the writes and the calls that overcount. */
  lemma {:induction false} WritesAreCounted(env: Env, run: Run, i: nat, j: nat)
    requires IsRun(env, run) && i <= j < |run.stores|
    ensures run.stores[j].generation + Pending(run.stores[j]) ==
            run.stores[i].generation + Pending(run.stores[i]) + Writings(run.outcomes[i..j]) + Extras(env, run, i, j)
    decreases j - i
  {
    if i < j {
      WritesAreCounted(env, run, i, j - 1);
      hide Overcounts, Result, FromTo, LeavesIntent, Commits, FoldersAfter;
      assert Called(env, run, j - 1);
      assert run.outcomes[i..j][..j - 1 - i] == run.outcomes[i..j - 1];
    }
  }

  /** Without faults no call overcounts, so the generation rises by exactly the writes. */
  lemma {:induction false} FaultFreeRunsCountExactly(env: Env, run: Run, i: nat, j: nat)
    requires IsRun(env, run) && i <= j < |run.stores| && forall k :: i <= k < j ==> run.lucks[k] > CHANGES
    ensures run.stores[j].generation + Pending(run.stores[j]) ==
            run.stores[i].generation + Pending(run.stores[i]) + Writings(run.outcomes[i..j])
  {
    hide Called, Admitted;
    WritesAreCounted(env, run, i, j);
    NoFaultNoExtra(env, run, i, j);
  }

  lemma {:induction false} NoFaultNoExtra(env: Env, run: Run, i: nat, j: nat)
    requires i <= j < |run.stores| && |run.stores| == |run.requests| + 1 && |run.lucks| == |run.requests|
    requires forall k :: i <= k < j ==> run.lucks[k] > CHANGES
    ensures Extras(env, run, i, j) == 0
    decreases j - i
  {
    hide Admitted;
    if i < j {
      NoFaultNoExtra(env, run, i, j - 1);
    }
  }

  /** A write whose own commit failed is counted by the next call that takes the lock and gets as far as the counter. */
  lemma NextCallCounts(env: Env, run: Run, i: nat)
    requires IsRun(env, run) && i + 1 < |run.outcomes| && Wrote(run.outcomes[i]) == 1
    requires Locks(env, run.requests[i + 1]) && run.lucks[i + 1] > 0
    ensures run.stores[i + 2].generation > run.stores[i].generation
  {
    hide Result, FromTo;
    assert Called(env, run, i) && Called(env, run, i + 1);
    CallNeverFalls(env, run, i);
    CallNeverFalls(env, run, i + 1);
    hide Admitted, FoldersAfter;
    if run.stores[i + 1].intent {
      LockCounts(env, run.stores[i + 1], run.requests[i + 1], run.lucks[i + 1], run.stores[i + 2], run.outcomes[i + 1]);
    }
  }

  /** A call that finds an intent and gets as far as the counter advances the generation. */
  lemma LockCounts(env: Env, s: Store, r: Request, luck: nat, t: Store, outcome: Outcome)
    requires Publishes(env, s, r, luck, t, outcome) && s.intent && Locks(env, r) && luck > 0
    ensures t.generation > s.generation
  {
    hide Admitted, Same, FoldersAfter, Written;
  }

  lemma CallNeverFalls(env: Env, run: Run, i: nat)
    requires IsRun(env, run) && i < |run.outcomes|
    ensures run.stores[i].generation <= run.stores[i + 1].generation
  {
    hide Publishes;
    assert Called(env, run, i);
    GenerationNeverFalls(run.histories[i], 0, |run.histories[i]| - 1);
  }

  predicate Writes(outcome: Outcome, target: Target) {
    (outcome.Published? && outcome.receipt.target == target) || (outcome.Broken? && outcome.target == target)
  }

  /** A target nobody wrote to holds what it held. */
  lemma {:induction false} UntouchedStays(env: Env, run: Run, target: Target, i: nat, j: nat)
    requires IsRun(env, run) && i <= j < |run.stores|
    requires forall k :: i <= k < j ==> !Writes(run.outcomes[k], target)
    ensures Files(run.stores[j].folders, target) == Files(run.stores[i].folders, target)
    ensures target in run.stores[i].folders ==> target in run.stores[j].folders
    decreases j - i
  {
    hide FromTo, Admitted;
    if i < j {
      assert Called(env, run, j - 1);
      UntouchedStays(env, run, target, i, j - 1);
    }
  }

  /**
   * What a write leaves at its target: the candidate's declaration, and beside it, for a spec, the
   * files that were there, and for a bundle, the candidate's. No other target changes.
   */
  lemma WriteLeaves(env: Env, run: Run, i: nat, target: Target)
    requires IsRun(env, run) && i < |run.outcomes| && Writes(run.outcomes[i], target)
    ensures run.requests[i].staged.Some? && run.requests[i].staged.value.target == target
    ensures var c := run.requests[i].staged.value;
      var before, after := run.stores[i].folders, run.stores[i + 1].folders;
      && target in after && after[target].spec == Some(c.bytes)
      && (c.kind.Spec? && target in before ==> after[target].payload == before[target].payload)
      && (c.kind.Spec? && target !in before ==> after[target].payload == map[])
      && (c.kind.Bundle? ==> after[target].payload == c.payload)
      && (forall t :: t != target ==> (t in after <==> t in before) && (t in before ==> after[t] == before[t]))
  {
    hide FromTo, CommitOvercounts, CommitLeavesIntent;
    assert Called(env, run, i);
    AdmittedIsStaged(env, run.stores[i].folders, run.requests[i]);
  }

  /**
   * Nothing is written against expectation: the input is the announced one, a create finds no
   * declaration, a replacement finds the expected digest, a bundle finds no directory, and a marked
   * incumbent goes only under the assertion of its one marker.
   */
  lemma WritesOnlyAsExpected(env: Env, run: Run, i: nat, target: Target)
    requires IsRun(env, run) && i < |run.outcomes| && Writes(run.outcomes[i], target)
    ensures var r, before := run.requests[i], run.stores[i].folders;
      && r.staged.Some? && r.inputSha == (if r.staged.value.kind.Spec? then env.sha(r.staged.value.bytes) else env.digest(r.staged.value))
      && (r.expectation.Absent? ==> target !in before || before[target].spec.None?)
      && (r.expectation.Sha256? ==>
            target in before && before[target].spec.Some? && env.sha(before[target].spec.value) == r.expectation.sha && r.staged.value.kind.Spec?)
      && (r.staged.value.kind.Bundle? ==> target !in before)
      && (target in before && before[target].spec.Some? ==>
            var markers := env.markers(before[target].spec.value);
            if r.managedBy.Some? then markers == [r.managedBy.value] else "nix" !in markers)
      && env.overlayOk(before, r.staged.value)
  {
    hide FromTo, CommitOvercounts, CommitLeavesIntent;
    assert Called(env, run, i);
  }

  lemma ValidShaMeans(sha: Sha)
    ensures ValidSha(sha) <==> |sha| == 64 && forall k :: 0 <= k < |sha| ==> sha[k] in "0123456789abcdef"
  {
    var digits := "0123456789abcdef";
    assert forall d: char :: d in digits <==> '0' <= d <= '9' || 'a' <= d <= 'f';
  }

  /** The request is well formed and its candidate is the announced one. */
  ghost predicate Announced(env: Env, r: Request) {
    && r.staged.Some? && ValidSha(r.inputSha)
    && r.inputSha == (if r.staged.value.kind.Spec? then env.sha(r.staged.value.bytes) else env.digest(r.staged.value))
    && (r.managedBy.Some? ==> r.managedBy.value != "" && !env.padded(r.managedBy.value))
    && (r.expectation.Sha256? ==> r.staged.value.kind.Spec? && ValidSha(r.expectation.sha))
  }

  /** There is no declaration and none is expected, or one that is expected and whose owner lets go of it. */
  ghost predicate MayWrite(env: Env, before: Folders, r: Request, c: Candidate) {
    if c.target !in before then r.expectation.Absent?
    else match before[c.target].spec
         case None => r.expectation.Absent? && c.kind.Spec?
         case Some(was) =>
           && was != c.bytes && r.expectation.Sha256? && env.sha(was) == r.expectation.sha
           && (if r.managedBy.Some? then env.markers(was) == [r.managedBy.value] else "nix" !in env.markers(was))
  }

  /** The declaration is there already, with all the candidate's files if it is a bundle, and nothing else is expected. */
  ghost predicate MayStay(env: Env, before: Folders, r: Request, c: Candidate) {
    && c.target in before && before[c.target].spec == Some(c.bytes)
    && (r.expectation.Sha256? ==> env.sha(c.bytes) == r.expectation.sha)
    && (c.kind.Bundle? ==> forall name :: name in c.payload ==>
          name in before[c.target].payload && before[c.target].payload[name] == c.payload[name])
  }

  /**
   * Without a fault a request writes if and only if it may, and is then published if and only if the
   * catalog validates; it finds its candidate unchanged if and only if it may stay; all else is refused.
   */
  lemma WrittenExactlyIf(env: Env, run: Run, i: nat)
    requires IsRun(env, run) && i < |run.outcomes| && run.lucks[i] > CHANGES
    ensures var r, before := run.requests[i], run.stores[i].folders;
      && (Wrote(run.outcomes[i]) == 1 <==>
            Announced(env, r) && env.overlayOk(before, r.staged.value) && MayWrite(env, before, r, r.staged.value))
      && (run.outcomes[i].Unchanged? <==>
            && Announced(env, r) && env.overlayOk(before, r.staged.value) && MayStay(env, before, r, r.staged.value)
            && env.liveOk(before))
      && (Wrote(run.outcomes[i]) == 1 ==> (run.outcomes[i].Published? <==> env.liveOk(run.stores[i + 1].folders)))
  {
    hide FromTo, CommitOvercounts, CommitLeavesIntent;
    assert Called(env, run, i);
    AdmittedMeans(env, run.stores[i].folders, run.requests[i]);
    hide Admitted, Announced, MayWrite, MayStay;
  }

  lemma AdmittedMeans(env: Env, before: Folders, r: Request)
    ensures Admitted(env, before, r) ==> Announced(env, r)
    ensures Announced(env, r) ==>
      && (Admitted(env, before, r) && !Same(before, r.staged.value) <==> env.overlayOk(before, r.staged.value) && MayWrite(env, before, r, r.staged.value))
      && (Admitted(env, before, r) && Same(before, r.staged.value) <==> env.overlayOk(before, r.staged.value) && MayStay(env, before, r, r.staged.value))
  {
    hide ValidSha;
  }

  /** A published receipt tells the digests of what was and what is at its target, and no other target changed. */
  lemma ReceiptIsTrue(env: Env, run: Run, i: nat)
    requires IsRun(env, run) && i < |run.outcomes| && run.outcomes[i].Published?
    ensures var receipt := run.outcomes[i].receipt;
      && receipt.before == ShaOf(env, Incumbent(run.stores[i].folders, receipt.target))
      && Some(receipt.after) == ShaOf(env, Incumbent(run.stores[i + 1].folders, receipt.target))
      && receipt.inputSha == run.requests[i].inputSha
      && receipt.managedBy == (if Incumbent(run.stores[i].folders, receipt.target).Some? then run.requests[i].managedBy else None)
      && forall t :: t != receipt.target ==> Files(run.stores[i + 1].folders, t) == Files(run.stores[i].folders, t)
  {
    hide FromTo, CommitOvercounts, CommitLeavesIntent;
    assert Called(env, run, i);
    AdmittedIsStaged(env, run.stores[i].folders, run.requests[i]);
  }

  /** No lost update: with no write to the target in between, the next receipt starts where the last one ended. */
  lemma ReceiptsChain(env: Env, run: Run, target: Target, i: nat, j: nat)
    requires IsRun(env, run) && i < j < |run.outcomes|
    requires run.outcomes[i].Published? && run.outcomes[i].receipt.target == target
    requires run.outcomes[j].Published? && run.outcomes[j].receipt.target == target
    requires forall k :: i < k < j ==> !Writes(run.outcomes[k], target)
    ensures run.outcomes[j].receipt.before == Some(run.outcomes[i].receipt.after)
  {
    hide Called;
    ReceiptIsTrue(env, run, i);
    ReceiptIsTrue(env, run, j);
    UntouchedStays(env, run, target, i + 1, j);
  }

  /** Two callers that saw the same incumbent cannot both replace it, unless the first put bytes of the same digest back. */
  lemma OnlyOneReplacesAVersion(env: Env, run: Run, target: Target, i: nat, j: nat)
    requires IsRun(env, run) && i < j < |run.outcomes|
    requires Writes(run.outcomes[i], target) && Writes(run.outcomes[j], target) && run.requests[i].expectation.Sha256?
    requires run.requests[i].expectation == run.requests[j].expectation
    requires forall k :: i < k < j ==> !Writes(run.outcomes[k], target)
    ensures run.requests[i].staged.Some? && env.sha(run.requests[i].staged.value.bytes) == run.requests[i].expectation.sha
  {
    hide FromTo;
    assert Called(env, run, i) && Called(env, run, j);
    UntouchedStays(env, run, target, i + 1, j);
  }

  /** A call that fails before its write, wherever and for whatever reason, leaves every declaration and every other file. */
  lemma FailureBeforeTheWriteChangesNothing(env: Env, run: Run, i: nat, target: Target)
    requires IsRun(env, run) && i < |run.outcomes| && Wrote(run.outcomes[i]) == 0
    ensures Files(run.stores[i + 1].folders, target) == Files(run.stores[i].folders, target)
    ensures Incumbent(run.stores[i + 1].folders, target) == Incumbent(run.stores[i].folders, target)
  {
    UntouchedStays(env, run, target, i, i + 1);
  }

  /** An incumbent marked `nix` is replaced only under the assertion of exactly that one marker. */
  lemma NixIsReplacedOnlyByAssertion(env: Env, run: Run, target: Target, i: nat)
    requires IsRun(env, run) && i < |run.outcomes| && Writes(run.outcomes[i], target)
    requires Incumbent(run.stores[i].folders, target).Some? && "nix" in env.markers(Incumbent(run.stores[i].folders, target).value)
    ensures run.requests[i].managedBy == Some("nix") && env.markers(Incumbent(run.stores[i].folders, target).value) == ["nix"]
  {
    hide FromTo;
    assert Called(env, run, i);
  }

  /**
   * Replaying a create exactly, with nothing written in between, no fault before the end of the checks
   * and a catalog that still validates, is `Unchanged` and leaves no intent, whether the first call was
   * published or broke after its write.
   */
  lemma ReplayIsUnchanged(env: Env, run: Run, i: nat, j: nat)
    requires IsRun(env, run) && i < j < |run.outcomes|
    requires run.requests[j] == run.requests[i] && run.requests[i].expectation.Absent? && run.requests[i].staged.Some?
    requires Writes(run.outcomes[i], run.requests[i].staged.value.target)
    requires forall k :: i < k < j ==> !Writes(run.outcomes[k], run.requests[i].staged.value.target)
    requires env.overlayOk(run.stores[j].folders, run.requests[j].staged.value) && env.liveOk(run.stores[j].folders)
    requires Left(run.stores[j], run.lucks[j]) > 0
    ensures run.outcomes[j].Unchanged? && run.stores[j + 1].folders == run.stores[j].folders && !run.stores[j + 1].intent
    ensures var sha := env.sha(run.requests[i].staged.value.bytes);
      run.outcomes[j].receipt.before == Some(sha) && run.outcomes[j].receipt.after == sha
    ensures run.outcomes[i].Published? ==> run.outcomes[j].receipt.after == run.outcomes[i].receipt.after
  {
    hide FromTo;
    assert Called(env, run, i) && Called(env, run, j);
    UntouchedStays(env, run, run.requests[i].staged.value.target, i + 1, j);
  }

  // ----- the two things a failure before the write does leave -----

  /** A refusal leaves a new directory exactly if it was about to create a declaration and failed between directory and write. */
  lemma EmptyDirectoryStaysExactlyIf(env: Env, s: Store, r: Request, luck: nat, t: Store, outcome: Outcome)
    requires Publishes(env, s, r, luck, t, outcome) && Wrote(outcome) == 0
    ensures t.folders != s.folders <==>
      Commits(env, s, r) && r.staged.value.kind.Spec? && r.staged.value.target !in s.folders && Left(s, luck) == 2
    ensures t.folders != s.folders ==> t.folders == s.folders[r.staged.value.target := Folder(None, map[])]
  {
    hide Admitted;
  }

  const AGENT: Target := ("host", "agent")

  function Zeros(): (s: Sha)
    ensures ValidSha(s)
  {
    seq(64, _ => '0')
  }

  function ZeroSha(bytes: Bytes): Sha { Zeros() }
  function ZeroDigest(c: Candidate): Sha { Zeros() }
  function NoMarkers(bytes: Bytes): seq<string> { [] }
  predicate NotPadded(marker: string) { false }
  predicate AnyOverlay(folders: Folders, c: Candidate) { true }
  predicate AnyCatalog(folders: Folders) { true }

  /** An environment in which every check of digests and catalogs passes. */
  function Permissive(): Env {
    Env(ZeroSha, ZeroDigest, NoMarkers, NotPadded, AnyOverlay, AnyCatalog)
  }

  function Create(kind: Kind): Request {
    Request(Some(Candidate(AGENT, kind, "agent", map[])), Absent, Zeros(), None)
  }

  /**
   * A new declaration that fails before its write leaves an empty directory and an intent. A bundle
   * that was admitted before is refused now, and that refusal, without a fault, advances the
   * generation: it counts one although nothing was ever written.
   */
  lemma FailedCreateIsCounted()
    ensures var empty, left := Store(map[], 0, false), map[AGENT := Folder(None, map[])];
      && Publishes(Permissive(), empty, Create(Spec), 2, Store(left, 0, true), Refused)
      && Admitted(Permissive(), empty.folders, Create(Bundle))
      && Publishes(Permissive(), Store(left, 0, true), Create(Bundle), CHANGES + 1, Store(left, 1, false), Refused)
  {
    var empty: Store := Store(map[], 0, false);
    assert Commits(Permissive(), empty, Create(Spec));
    assert empty.folders[AGENT := Folder(None, map[])] == map[AGENT := Folder(None, map[])];
    assert !Admitted(Permissive(), map[AGENT := Folder(None, map[])], Create(Bundle));
  }
}
