/** Consumption of side-effecting Mesh grants: an in-process nonce fence, a durable receipt,
    and their removal once the grant has expired. Calls interleave at every point. */
module Grants {

  datatype Grant = Grant(nonce: string, expires: nat, content: string)

  /** Where a call to consume a grant stands. `checkedAt` is the clock it read. */
  datatype Stage = Checked | Fenced | Missed | Written | Accepted

  datatype Call = Call(grant: Grant, checkedAt: nat, stage: Stage)

  /** `nonces` is the process's fence; `live` and `durable` are the receipts as the process
      and a restart see them; `accepted` is the history of grants that were let through. */
  datatype State = State(
    clock: nat,
    nonces: map<string, nat>,
    live: set<Grant>,
    durable: set<Grant>,
    calls: map<nat, Call>,
    accepted: seq<Grant>)

  datatype Step =
    | Tick(to: nat)
    | Check(call: nat, grant: Grant)
    | Fence(call: nat)
    | Lookup(call: nat)
    | Abandon(call: nat)
    | Write(call: nat)
    | Persist(call: nat, ok: bool)
    | Clean(call: nat)
    | Prune(victims: set<Grant>)
    | Flush(records: set<Grant>)
    | Crash

  function Initial(): State {
    State(0, map[], {}, {}, map[], [])
  }

  predicate At(s: State, call: nat, stage: Stage) {
    call in s.calls && s.calls[call].stage == stage
  }

  /** The Sovereign draws a random nonce per grant: no two grants share one. */
  predicate OwnNonce(s: State, g: Grant) {
    forall i :: i in s.calls && s.calls[i].grant.nonce == g.nonce ==> s.calls[i].grant == g
  }

  predicate Enabled(s: State, step: Step) {
    match step
    case Tick(to) => s.clock <= to
    case Check(call, g) => call !in s.calls && s.clock < g.expires && OwnNonce(s, g)
    case Fence(call) => At(s, call, Checked)
    case Lookup(call) => At(s, call, Fenced)
    case Abandon(call) => At(s, call, Missed)
    case Write(call) => At(s, call, Missed)
    case Persist(call, _) => At(s, call, Written)
    case Clean(call) => At(s, call, Accepted)
    case Prune(victims) => victims <= s.live && forall g :: g in victims ==> g.expires <= s.clock
    case Flush(_) => true
    case Crash => true
  }

  function Moved(s: State, call: nat, stage: Stage): State
    requires call in s.calls
  {
    s.(calls := s.calls[call := s.calls[call].(stage := stage)])
  }

  function Ended(s: State, call: nat): State {
    s.(calls := s.calls - {call})
  }

  function Take(s: State, step: Step): State
    requires Enabled(s, step)
  {
    match step
    case Tick(to) => s.(clock := to)
    case Check(call, g) => s.(calls := s.calls[call := Call(g, s.clock, Checked)])
    case Fence(call) =>
      var g := s.calls[call].grant;
      if g.nonce in s.nonces then Ended(s, call) else Moved(s, call, Fenced).(nonces := s.nonces[g.nonce := g.expires])
    case Lookup(call) =>
      var g := s.calls[call].grant;
      if g in s.live then Ended(s, call).(nonces := s.nonces - {g.nonce}) else Moved(s, call, Missed)
    case Abandon(call) => Ended(s, call).(nonces := s.nonces - {s.calls[call].grant.nonce})
    case Write(call) => Moved(s, call, Written).(live := s.live + {s.calls[call].grant})
    case Persist(call, ok) =>
      var g := s.calls[call].grant;
      if ok then Moved(s, call, Accepted).(durable := s.live, accepted := s.accepted + [g])
      else Ended(s, call).(nonces := s.nonces - {g.nonce})
    case Clean(call) =>
      var at := s.calls[call].checkedAt;
      Ended(s, call).(nonces := map n | n in s.nonces && s.nonces[n] > at :: s.nonces[n])
    case Prune(victims) => s.(live := s.live - victims)
    case Flush(records) => s.(durable := (s.durable - records) + (s.live * records))
    case Crash => s.(nonces := map[], live := s.durable, calls := map[])
  }

  /** No call looks for the receipt of a grant that has expired since it checked it. */
  predicate Prompt(s: State, step: Step) {
    step.Lookup? && step.call in s.calls ==> s.clock < s.calls[step.call].grant.expires
  }

  // ---- Invariant -----------------------------------------------------------------------

  predicate Busy(c: Call) {
    c.stage.Fenced? || c.stage.Missed? || c.stage.Written?
  }

  predicate PastLookup(c: Call) {
    c.stage.Missed? || c.stage.Written?
  }

  /** Two calls are busy with one grant only once it has expired, and never both past the
      lookup. */
  predicate CallsApart(s: State, c: Call, d: Call) {
    Busy(c) && Busy(d) && c.grant == d.grant ==> c.grant.expires <= s.clock && !(PastLookup(c) && PastLookup(d))
  }

  predicate CallKept(s: State, c: Call) {
    && c.checkedAt <= s.clock
    && (Busy(c) && s.clock < c.grant.expires ==>
          c.grant.nonce in s.nonces && s.nonces[c.grant.nonce] == c.grant.expires)
    && (c.stage.Written? && s.clock < c.grant.expires ==> c.grant in s.live)
    && (PastLookup(c) ==> c.grant !in s.accepted)
  }

  predicate GrantKept(s: State, g: Grant) {
    g in s.accepted && s.clock < g.expires ==> g in s.live && g in s.durable
  }

  ghost predicate Inv(s: State) {
    && (forall i :: i in s.calls ==> CallKept(s, s.calls[i]) && OwnNonce(s, s.calls[i].grant))
    && (forall i, j :: i in s.calls && j in s.calls && i != j ==> CallsApart(s, s.calls[i], s.calls[j]))
    && (forall g :: GrantKept(s, g))
    && (forall i, j :: 0 <= i < j < |s.accepted| ==> s.accepted[i] != s.accepted[j])
  }

  lemma StepNonces(s: State, step: Step)
    requires Inv(s) && Enabled(s, step)
    ensures var t := Take(s, step); forall i :: i in t.calls ==> OwnNonce(t, t.calls[i].grant)
  {
    var t := Take(s, step);
    forall i, j | i in t.calls && j in t.calls && t.calls[j].grant.nonce == t.calls[i].grant.nonce
      ensures t.calls[j].grant == t.calls[i].grant
    {
      assert i in s.calls ==> OwnNonce(s, s.calls[i].grant);
      assert j in s.calls ==> OwnNonce(s, s.calls[j].grant);
    }
  }

  lemma StepInv(s: State, step: Step)
    requires Inv(s) && Enabled(s, step) && Prompt(s, step)
    ensures Inv(Take(s, step))
  {
    StepNonces(s, step);
    StepCalls(s, step);
    StepBusy(s, step);
    StepGrants(s, step);
    StepAccepted(s, step);
  }

  lemma StepCalls(s: State, step: Step)
    requires Inv(s) && Enabled(s, step) && Prompt(s, step)
    ensures forall i :: i in Take(s, step).calls ==> CallKept(Take(s, step), Take(s, step).calls[i])
  {
    forall i | i in Take(s, step).calls ensures CallKept(Take(s, step), Take(s, step).calls[i]) {
      StepCall(s, step, i);
    }
  }

  lemma StepCall(s: State, step: Step, i: nat)
    requires Inv(s) && Enabled(s, step) && Prompt(s, step) && i in Take(s, step).calls
    ensures CallKept(Take(s, step), Take(s, step).calls[i])
  {
    var t := Take(s, step);
    if i in s.calls {
      assert CallKept(s, s.calls[i]);
      assert GrantKept(s, s.calls[i].grant);
      if Busy(t.calls[i]) && t.clock < t.calls[i].grant.expires {
        StepNonce(s, step, i);
      }
      StepReceipt(s, step, i);
    }
  }

  /** A busy call keeps its nonce: only its own steps and sweeps of expired nonces take it. */
  lemma StepNonce(s: State, step: Step, i: nat)
    requires Inv(s) && Enabled(s, step) && i in s.calls && i in Take(s, step).calls
    requires var t := Take(s, step); Busy(t.calls[i]) && t.clock < t.calls[i].grant.expires
    ensures var t := Take(s, step); var g := t.calls[i].grant; g.nonce in t.nonces && t.nonces[g.nonce] == g.expires
  {
    assert CallKept(s, s.calls[i]);
    if (step.Lookup? || step.Abandon? || step.Persist? || step.Clean?) && step.call != i {
      assert CallKept(s, s.calls[step.call]);
      assert CallsApart(s, s.calls[step.call], s.calls[i]) && OwnNonce(s, s.calls[i].grant);
    }
  }

  lemma StepReceipt(s: State, step: Step, i: nat)
    requires Inv(s) && Enabled(s, step) && Prompt(s, step) && i in s.calls && i in Take(s, step).calls
    ensures var t := Take(s, step); var c := t.calls[i];
            && c.checkedAt <= t.clock
            && (c.stage.Written? && t.clock < c.grant.expires ==> c.grant in t.live)
            && (PastLookup(c) ==> c.grant !in t.accepted)
  {
    assert CallKept(s, s.calls[i]) && GrantKept(s, s.calls[i].grant);
    if step.Persist? && step.call != i {
      assert CallsApart(s, s.calls[step.call], s.calls[i]);
    }
  }

  lemma StepBusy(s: State, step: Step)
    requires Inv(s) && Enabled(s, step) && Prompt(s, step)
    ensures var t := Take(s, step); forall i, j :: i in t.calls && j in t.calls && i != j ==> CallsApart(t, t.calls[i], t.calls[j])
  {
    var t := Take(s, step);
    forall i, j | i in t.calls && j in t.calls && i != j ensures CallsApart(t, t.calls[i], t.calls[j]) {
      if i in s.calls && j in s.calls {
        assert CallsApart(s, s.calls[i], s.calls[j]) && CallKept(s, s.calls[i]) && CallKept(s, s.calls[j]);
      }
    }
  }

  lemma StepGrants(s: State, step: Step)
    requires Inv(s) && Enabled(s, step) && Prompt(s, step)
    ensures forall g :: GrantKept(Take(s, step), g)
  {
    forall g ensures GrantKept(Take(s, step), g) {
      assert GrantKept(s, g);
      if step.Persist? {
        assert CallKept(s, s.calls[step.call]);
      }
    }
  }

  lemma StepAccepted(s: State, step: Step)
    requires Inv(s) && Enabled(s, step)
    ensures var t := Take(s, step); forall i, j :: 0 <= i < j < |t.accepted| ==> t.accepted[i] != t.accepted[j]
  {
    if step.Persist? {
      assert CallKept(s, s.calls[step.call]);
    }
  }

  // ---- Main results --------------------------------------------------------------------

  predicate IsRun(s: State, steps: seq<Step>)
    decreases |steps|
  {
    |steps| == 0 || (Enabled(s, steps[0]) && IsRun(Take(s, steps[0]), steps[1..]))
  }

  function After(s: State, steps: seq<Step>): State
    requires IsRun(s, steps)
    decreases |steps|
  {
    if |steps| == 0 then s else After(Take(s, steps[0]), steps[1..])
  }

  ghost predicate AllPrompt(s: State, steps: seq<Step>)
    requires IsRun(s, steps)
    decreases |steps|
  {
    |steps| == 0 || (Prompt(s, steps[0]) && AllPrompt(Take(s, steps[0]), steps[1..]))
  }

  lemma {:induction false} RunInv(s: State, steps: seq<Step>)
    requires Inv(s) && IsRun(s, steps) && AllPrompt(s, steps)
    ensures Inv(After(s, steps))
    decreases |steps|
  {
    if |steps| > 0 {
      StepInv(s, steps[0]);
      RunInv(Take(s, steps[0]), steps[1..]);
    }
  }

  /** Over every interleaving, crash, failed persist, cleanup and pruning: if no call pauses
      across its grant's expiry before the receipt lookup, no grant is accepted twice. */
  lemma AcceptedAtMostOnce(steps: seq<Step>)
    requires IsRun(Initial(), steps) && AllPrompt(Initial(), steps)
    ensures var a := After(Initial(), steps).accepted; forall i, j :: 0 <= i < j < |a| ==> a[i] != a[j]
  {
    RunInv(Initial(), steps);
  }

  ghost predicate Reachable(s: State) {
    exists steps :: IsRun(Initial(), steps) && After(Initial(), steps) == s
  }

  lemma {:induction false} Snoc(s: State, steps: seq<Step>, step: Step)
    requires IsRun(s, steps) && Enabled(After(s, steps), step)
    ensures IsRun(s, steps + [step]) && After(s, steps + [step]) == Take(After(s, steps), step)
    decreases |steps|
  {
    if |steps| == 0 {
      assert steps + [step] == [step];
      assert [step][1..] == [];
    } else {
      Snoc(Take(s, steps[0]), steps[1..], step);
      assert (steps + [step])[1..] == steps[1..] + [step];
    }
  }

  lemma Then(s: State, step: Step) returns (t: State)
    requires Reachable(s) && Enabled(s, step)
    ensures Reachable(t) && t == Take(s, step)
  {
    var steps :| IsRun(Initial(), steps) && After(Initial(), steps) == s;
    Snoc(Initial(), steps, step);
    t := Take(s, step);
  }

  /** Two calls for a grant pass the expiry check; one pauses, the other fences and looks. */
  lemma OneCallPauses(g: Grant) returns (s: State)
    requires g.expires > 0
    ensures Reachable(s)
    ensures s == State(0, map[g.nonce := g.expires], {}, {}, map[0 := Call(g, 0, Checked), 1 := Call(g, 0, Missed)], [])
  {
    s := Initial();
    assert IsRun(s, []) && After(s, []) == s;
    s := Then(s, Check(0, g));
    s := Then(s, Check(1, g));
    s := Then(s, Fence(1));
    s := Then(s, Lookup(1));
  }

  /** A call that meets no fence, no receipt and no failure. */
  lemma Consumed(s: State, call: nat) returns (t: State)
    requires Reachable(s) && At(s, call, Checked)
    requires s.calls[call].grant.nonce !in s.nonces && s.calls[call].grant !in s.live
    ensures var c := s.calls[call]; var g := c.grant;
            Reachable(t) && t.calls == s.calls - {call} && t.live == s.live + {g} && t.accepted == s.accepted + [g] &&
            t.nonces.Keys <= s.nonces.Keys + {g.nonce} && forall n :: n in s.nonces && s.nonces[n] <= c.checkedAt ==> n !in t.nonces
  {
    t := Then(s, Fence(call));
    t := Then(t, Lookup(call));
    t := Then(t, Write(call));
    t := Then(t, Persist(call, true));
    t := Then(t, Clean(call));
  }

  /** Another grant is consumed at the moment of expiry and sweeps the nonce away. */
  lemma NonceIsSwept(s: State, g: Grant, other: Grant) returns (t: State)
    requires Reachable(s) && g.expires > 0 && other.nonce != g.nonce && other.expires > g.expires
    requires s == State(0, map[g.nonce := g.expires], {}, {}, map[0 := Call(g, 0, Checked), 1 := Call(g, 0, Missed)], [])
    ensures Reachable(t) && t.calls == map[0 := Call(g, 0, Checked), 1 := Call(g, 0, Missed)]
    ensures g.nonce !in t.nonces && g !in t.live && t.accepted == [other]
  {
    t := Then(s, Tick(g.expires));
    t := Then(t, Check(2, other));
    t := Consumed(t, 2);
    assert t.calls == map[0 := Call(g, 0, Checked), 1 := Call(g, 0, Missed)];
  }

  lemma BothFinish(s: State, g: Grant) returns (t: State)
    requires Reachable(s) && s.calls == map[0 := Call(g, 0, Checked), 1 := Call(g, 0, Missed)]
    requires g.nonce !in s.nonces && g !in s.live
    ensures Reachable(t) && t.accepted == s.accepted + [g, g]
  {
    t := Then(s, Fence(0));
    t := Then(t, Lookup(0));
    t := Then(t, Write(0));
    t := Then(t, Persist(0, true));
    t := Then(t, Write(1));
    t := Then(t, Persist(1, true));
    assert s.accepted + [g] + [g] == s.accepted + [g, g];
  }

  /** Without that condition the promise fails for every grant: the expiry check does not
      cover the time until the fence. */
  lemma PausedCallIsAcceptedTwice(g: Grant, other: Grant) returns (s: State)
    requires g.expires > 0 && other.nonce != g.nonce && other.expires > g.expires
    ensures Reachable(s) && s.accepted == [other, g, g]
  {
    s := OneCallPauses(g);
    s := NonceIsSwept(s, g, other);
    s := BothFinish(s, g);
  }

  // ---- The call ------------------------------------------------------------------------

  /** Reached without any call pausing across an expiry. */
  ghost predicate PromptlyReachable(s: State) {
    exists steps :: IsRun(Initial(), steps) && AllPrompt(Initial(), steps) && After(Initial(), steps) == s
  }

  lemma {:induction false} PromptSnoc(s: State, steps: seq<Step>, step: Step)
    requires IsRun(s, steps) && AllPrompt(s, steps)
    requires Enabled(After(s, steps), step) && Prompt(After(s, steps), step)
    ensures IsRun(s, steps + [step]) && AllPrompt(s, steps + [step])
    ensures After(s, steps + [step]) == Take(After(s, steps), step)
    decreases |steps|
  {
    if |steps| == 0 {
      assert steps + [step] == [step];
      assert [step][1..] == [];
    } else {
      PromptSnoc(Take(s, steps[0]), steps[1..], step);
      assert (steps + [step])[1..] == steps[1..] + [step];
    }
  }

  lemma Promptly(s: State, step: Step)
    requires PromptlyReachable(s) && Enabled(s, step) && Prompt(s, step)
    ensures PromptlyReachable(Take(s, step))
  {
    var steps :| IsRun(Initial(), steps) && AllPrompt(Initial(), steps) && After(Initial(), steps) == s;
    PromptSnoc(Initial(), steps, step);
  }

  lemma PromptInv(s: State)
    requires PromptlyReachable(s)
    ensures Inv(s)
  {
    var steps :| IsRun(Initial(), steps) && AllPrompt(Initial(), steps) && After(Initial(), steps) == s;
    RunInv(Initial(), steps);
  }

  /** Whether the record write is accepted, and how the two barriers end. */
  datatype Io = Io(fits: bool, prune: bool, persist: bool)

  lemma LeftAre(receipts: set<Grant>, now: nat)
    ensures receipts - (receipts - Unexpired(receipts, now)) == Unexpired(receipts, now)
    ensures forall x :: x in receipts - Unexpired(receipts, now) ==> x.expires <= now
  {
  }

  function Unexpired(receipts: set<Grant>, now: nat): set<Grant> {
    set x | x in receipts && x.expires > now
  }

  class Consumer {
    var nonces: map<string, nat>
    var live: set<Grant>
    var durable: set<Grant>
    const maxReceipts: nat
    ghost var clock: nat
    ghost var accepted: seq<Grant>

    ghost function View(): State
      reads this
    {
      State(clock, nonces, live, durable, map[], accepted)
    }

    ghost predicate Valid()
      reads this
    {
      PromptlyReachable(View())
    }

    constructor (maxReceipts: nat)
      ensures Valid() && View() == Initial()
    {
      nonces, live, durable, clock, accepted := map[], {}, {}, 0, [];
      this.maxReceipts := maxReceipts;
      new;
      assert IsRun(Initial(), []) && After(Initial(), []) == Initial() && AllPrompt(Initial(), []);
    }

    /** A new process: the receipts are read back and the nonces are forgotten. */
    method Restart()
      requires Valid()
      modifies this
      ensures Valid() && live == durable == old(durable) && nonces == map[]
      ensures accepted == old(accepted) && clock == old(clock)
    {
      Promptly(View(), Crash);
      nonces, live := map[], durable;
    }

    /** The machine state while this call is under way. */
    ghost function During(g: Grant, stage: Stage): State
      reads this
    {
      View().(calls := map[0 := Call(g, clock, stage)])
    }

    ghost predicate Working(g: Grant, stage: Stage)
      reads this
    {
      PromptlyReachable(During(g, stage))
    }

    /** The call gives up and takes its nonce back. */
    method GiveUp(g: Grant)
      requires Working(g, Missed)
      modifies this`nonces
      ensures Valid() && nonces == old(nonces) - {g.nonce}
    {
      Promptly(During(g, Missed), Abandon(0));
      assert map[0 := Call(g, clock, Missed)] - {0} == map[];
      nonces := nonces - {g.nonce};
    }

    /** The receipts that the expiry check already rejects. */
    method Expired(now: nat) returns (expired: set<Grant>)
      ensures expired == live - Unexpired(live, now)
    {
      expired := {};
      var todo := live;
      while todo != {}
        invariant todo <= live && expired == (live - todo) - Unexpired(live, now)
        decreases todo
      {
        var x :| x in todo;
        todo := todo - {x};
        if x.expires <= now {
          expired := expired + {x};
        }
      }
    }

    /** `pruneExpiredMeshGrantReceipts`: under pressure, deletes the receipts of expired
        grants. */
    method PruneExpired(g: Grant, now: nat, ok: bool) returns (done: bool)
      requires Working(g, Missed) && now == clock
      modifies this`live, this`durable
      ensures Working(g, Missed)
      ensures live == if |old(live)| < maxReceipts then old(live) else Unexpired(old(live), now)
      ensures done <==> |old(live)| < maxReceipts || ok
      ensures done && |old(live)| >= maxReceipts ==> durable == live
    {
      if |live| < maxReceipts {
        return true;
      }
      var expired := Expired(now);
      LeftAre(live, now);
      Promptly(During(g, Missed), Prune(expired));
      live := live - expired;
      Barrier(g, ok);
      return ok;
    }

    method Barrier(g: Grant, ok: bool)
      requires Working(g, Missed)
      modifies this`durable
      ensures Working(g, Missed) && durable == if ok then live else old(durable)
    {
      if ok {
        Promptly(During(g, Missed), Flush(live + durable));
        assert (durable - (live + durable)) + (live * (live + durable)) == live;
        durable := live;
      }
    }

    /** The nonce fence of the process. */
    method TakeNonce(g: Grant, now: nat) returns (taken: bool)
      requires Valid() && clock == now < g.expires
      modifies this`nonces
      ensures taken <==> g.nonce !in old(nonces)
      ensures taken ==> Working(g, Fenced) && nonces == old(nonces)[g.nonce := g.expires]
      ensures !taken ==> Valid() && nonces == old(nonces)
    {
      Promptly(View(), Check(0, g));
      assert Take(View(), Check(0, g)) == During(g, Checked);
      Promptly(During(g, Checked), Fence(0));
      assert map[0 := Call(g, clock, Checked)] - {0} == map[];
      if g.nonce in nonces {
        return false;
      }
      nonces := nonces[g.nonce := g.expires];
      return true;
    }

    /** The nonce fence and the receipt lookup. */
    method EnterFence(g: Grant, now: nat) returns (entered: bool)
      requires Valid() && clock == now < g.expires
      modifies this`nonces
      ensures entered <==> g.nonce !in old(nonces) && g !in live
      ensures entered ==> Working(g, Missed) && nonces == old(nonces)[g.nonce := g.expires]
      ensures !entered ==> Valid() && nonces == old(nonces)
    {
      var taken := TakeNonce(g, now);
      if !taken {
        return false;
      }
      Promptly(During(g, Fenced), Lookup(0));
      assert map[0 := Call(g, clock, Fenced)] - {0} == map[];
      if g in live {
        nonces := nonces - {g.nonce};
        return false;
      }
      return true;
    }

    /** Finds room for the receipt, or gives up. */
    method Reserve(g: Grant, now: nat, io: Io) returns (reserved: bool)
      requires Working(g, Missed) && now == clock
      modifies this`nonces, this`live, this`durable
      ensures reserved <==> io.fits && (|old(live)| < maxReceipts || (io.prune && |Unexpired(old(live), now)| < maxReceipts))
      ensures reserved ==> Working(g, Missed) && nonces == old(nonces)
      ensures !reserved ==> Valid() && nonces == old(nonces) - {g.nonce}
    {
      var pruned := PruneExpired(g, now, io.prune);
      reserved := pruned && |live| < maxReceipts && io.fits;
      if !reserved {
        GiveUp(g);
      }
    }

    /** Writes the receipt and crosses the barrier; the grant is accepted only then. */
    method Record(g: Grant, ok: bool)
      requires Working(g, Missed)
      modifies this`nonces, this`live, this`durable, this`accepted
      ensures ok ==> Working(g, Accepted) && accepted == old(accepted) + [g] && g in durable && g !in old(accepted) && nonces == old(nonces)
      ensures !ok ==> Valid() && accepted == old(accepted) && nonces == old(nonces) - {g.nonce}
    {
      PromptInv(During(g, Missed));
      assert CallKept(During(g, Missed), During(g, Missed).calls[0]);
      Promptly(During(g, Missed), Write(0));
      live := live + {g};
      Promptly(During(g, Written), Persist(0, ok));
      assert map[0 := Call(g, clock, Written)] - {0} == map[];
      if ok {
        durable := live;
        accepted := accepted + [g];
      } else {
        nonces := nonces - {g.nonce};
      }
    }

    /** Forgets the nonces of expired grants. */
    method Sweep(g: Grant, now: nat)
      requires Working(g, Accepted) && now == clock
      modifies this`nonces
      ensures Valid()
      ensures forall n :: n in nonces <==> n in old(nonces) && old(nonces)[n] > now
    {
      Promptly(During(g, Accepted), Clean(0));
      assert map[0 := Call(g, clock, Accepted)] - {0} == map[];
      nonces := map n | n in nonces && nonces[n] > now :: nonces[n];
    }

    /** `consumeMeshGrant` at one reading of the clock: a call that runs to its end before
        the clock moves is prompt, so histories of such calls accept a grant at most once. It
        accepts exactly an unexpired grant whose nonce is free and whose receipt is missing, if
        there is room for a receipt, at once or after pruning the expired ones, and its write
        and barriers succeed; a refused call leaves the nonces as they were. */
    method Consume(g: Grant, now: nat, io: Io) returns (ok: bool)
      requires Valid() && clock <= now
      modifies this
      ensures Valid() && clock == now
      ensures ok <==>
                now < g.expires && g.nonce !in old(nonces) && g !in old(live) && io.fits && io.persist &&
                (|old(live)| < maxReceipts || (io.prune && |Unexpired(old(live), now)| < maxReceipts))
      ensures ok ==> g !in old(accepted) && accepted == old(accepted) + [g] && g in durable
      ensures ok ==> forall n :: n in nonces <==> (n in old(nonces) && old(nonces)[n] > now) || n == g.nonce
      ensures !ok ==> accepted == old(accepted) && nonces == old(nonces)
    {
      Promptly(View(), Tick(now));
      clock := now;
      if g.expires <= now {
        return false;
      }
      var entered := EnterFence(g, now);
      if !entered {
        return false;
      }
      var reserved := Reserve(g, now, io);
      if !reserved {
        return false;
      }
      Record(g, io.persist);
      if !io.persist {
        return false;
      }
      Sweep(g, now);
      return true;
    }
  }
}
