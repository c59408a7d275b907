/** Commits interleaved with each other and with direct mutations, lock by lock and record
    by record. The bodies' locks are ranked in the order all commits acquire them. */
module CommitLocking {
  import opened Records
  import opened Strings
  import opened Bodies
  import opened Plans
  import C = SpeculativeCommit

  datatype Key = Key(owner: nat, id: string)

  /** One plan of a commit, at the body that owns its id. */
  datatype Item = Item(owner: nat, plan: Plan, baseline: Memory)

  function KeyOf(item: Item): Key {
    Key(item.owner, item.plan.id)
  }

  /** A live record, and the stored version that shows again when it is discarded although
      the body marks it as new. */
  datatype Cell = Cell(live: Memory, beneath: Option<Memory>)

  type View = map<Key, Cell>

  /** What a plan leaves of the cell it was validated against. */
  function Leaves(p: Plan, cell: Cell): Option<Cell> {
    if p.Discard? then (if cell.beneath.Some? then Some(Cell(cell.beneath.value, None)) else None)
    else Some(Cell(Outcome(p, cell.live).value, cell.beneath))
  }

  function CellOf(b: Body, id: string): Option<Cell> {
    if Live(b, id).None? then None
    else Some(Cell(Live(b, id).value, if id in b.newIds && id in b.store then Some(b.store[id]) else None))
  }

  /** Applying a plan to a body is applying it to the cell. */
  lemma LeavesIsApplied(b: Body, p: Plan)
    requires CellOf(b, p.id).Some?
    ensures CellOf(ApplyPlan(b, p, CellOf(b, p.id).value.live), p.id) == Leaves(p, CellOf(b, p.id).value)
  {
  }

  function Lookup(view: View, key: Key): Option<Cell> {
    if key in view then Some(view[key]) else None
  }

  function Update(view: View, key: Key, m: Option<Cell>): View {
    if m.Some? then view[key := m.value] else view - {key}
  }

  /** A commit takes its locks in order, checks, applies, and releases in reverse. */
  datatype Stage = Locking(n: nat) | Checking(n: nat) | Applying(n: nat) | Releasing(n: nat, ok: bool)

  datatype Txn = Txn(owners: seq<nat>, items: seq<Item>, currents: seq<Cell>, stage: Stage)

  /** What an observer of whole commits sees happen. */
  datatype Deed = Committed(t: nat, items: seq<Item>) | Mutated(key: Key, m: Option<Cell>)

  datatype State = State(view: View, locks: map<nat, nat>, txns: seq<Txn>, history: seq<Deed>)

  datatype Step = Advance(t: nat) | Mutate(key: Key, m: Option<Cell>)

  predicate Increasing(owners: seq<nat>) {
    forall i, j :: 0 <= i < j < |owners| ==> owners[i] < owners[j]
  }

  predicate WellFormed(x: Txn) {
    && Increasing(x.owners)
    && (forall k :: 0 <= k < |x.items| ==> x.items[k].owner in x.owners)
    && (forall i, j :: 0 <= i < j < |x.items| ==> KeyOf(x.items[i]) != KeyOf(x.items[j]))
  }

  /** The check of one item against the record found. */
  predicate Passes(item: Item, m: Option<Cell>) {
    m.Some? && (!item.plan.Count? ==> NoExec(m.value.live) == NoExec(item.baseline))
  }

  /** It is the check that the commit over owner bodies makes of each planned id. */
  lemma PassesIsReady(b: Body, base: map<string, Memory>, d: C.Diff, owner: nat, id: string)
    requires id in C.Planned(d) && id in base
    ensures Passes(Item(owner, C.PlanOf(d, id), base[id]), CellOf(b, id)) <==> C.ReadyAt(b, base, d, id)
  {
  }

  /** How many of its locks a commit holds. */
  function HeldBy(x: Txn): nat {
    match x.stage
    case Locking(n) => n
    case Checking(_) => |x.owners|
    case Applying(_) => |x.owners|
    case Releasing(n, _) => n
  }

  // ---- Steps ---------------------------------------------------------------------------

  predicate Finished(x: Txn) {
    x.stage.Releasing? && x.stage.n == 0
  }

  /** A commit waits only for its next lock. A direct mutation holds the body's own lock. */
  predicate Enabled(s: State, step: Step) {
    match step
    case Mutate(key, _) => key.owner !in s.locks
    case Advance(t) =>
      t < |s.txns| && !Finished(s.txns[t]) &&
      var x := s.txns[t];
      match x.stage
      case Locking(n) => n < |x.owners| ==> x.owners[n] !in s.locks
      case Checking(n) => n <= |x.items| && |x.currents| == n
      case Applying(n) => n <= |x.items| && |x.currents| == |x.items|
      case Releasing(n, _) => n <= |x.owners|
  }

  function Take(s: State, step: Step): State
    requires Enabled(s, step)
  {
    match step
    case Mutate(key, m) => s.(view := Update(s.view, key, m), history := s.history + [Mutated(key, m)])
    case Advance(t) =>
      var x := s.txns[t];
      match x.stage
      case Locking(n) =>
        if n < |x.owners|
        then s.(locks := s.locks[x.owners[n] := t], txns := s.txns[t := x.(stage := Locking(n + 1))])
        else s.(txns := s.txns[t := x.(stage := Checking(0))])
      case Checking(n) =>
        if n == |x.items|
        then s.(txns := s.txns[t := x.(stage := Applying(0))], history := s.history + [Committed(t, x.items)])
        else
          var m := Lookup(s.view, KeyOf(x.items[n]));
          if Passes(x.items[n], m)
          then s.(txns := s.txns[t := x.(stage := Checking(n + 1), currents := x.currents + [m.value])])
          else s.(txns := s.txns[t := x.(stage := Releasing(|x.owners|, false))])
      case Applying(n) =>
        if n == |x.items|
        then s.(txns := s.txns[t := x.(stage := Releasing(|x.owners|, true))])
        else
          s.(view := Update(s.view, KeyOf(x.items[n]), Leaves(x.items[n].plan, x.currents[n])),
             txns := s.txns[t := x.(stage := Applying(n + 1))])
      case Releasing(n, ok) =>
        s.(locks := s.locks - {x.owners[n - 1]}, txns := s.txns[t := x.(stage := Releasing(n - 1, ok))])
  }

  // ---- The simple form ---------------------------------------------------------------------

  /** The item of a commit that plans this key. */
  function Find(items: seq<Item>, key: Key): (k: int)
    ensures -1 <= k < |items|
    ensures k >= 0 ==> KeyOf(items[k]) == key
    ensures k < 0 ==> forall i :: 0 <= i < |items| ==> KeyOf(items[i]) != key
  {
    if |items| == 0 then -1
    else if KeyOf(items[|items| - 1]) == key then |items| - 1
    else Find(items[..|items| - 1], key)
  }

  /** One whole commit or one mutation at a time. */
  function DeedAt(d: Deed, key: Key, m: Option<Cell>): Option<Cell> {
    match d
    case Mutated(k, n) => if k == key then n else m
    case Committed(_, items) =>
      var k := Find(items, key);
      if k < 0 then m else if m.Some? then Leaves(items[k].plan, m.value) else None
  }

  function ReplayAt(start: View, history: seq<Deed>, key: Key): Option<Cell> {
    if |history| == 0 then Lookup(start, key)
    else DeedAt(history[|history| - 1], key, ReplayAt(start, history[..|history| - 1], key))
  }

  /** Every commit of the history found its records when its turn came, and those it changes or
      deletes as its baselines say. */
  ghost predicate Justified(start: View, history: seq<Deed>) {
    forall i, k :: 0 <= i < |history| && history[i].Committed? && 0 <= k < |history[i].items| ==>
      Unmoved(history[i].items[k], ReplayAt(start, history[..i], KeyOf(history[i].items[k])))
  }

  predicate Unmoved(item: Item, m: Option<Cell>) {
    m.Some? && (item.plan.Restructure? || item.plan.Discard? ==> NoExec(m.value.live) == NoExec(item.baseline))
  }

  /** A commit is refused exactly at an item whose record is gone or has moved, and decided
      exactly when all were found. */
  lemma CheckDecides(s: State, t: nat)
    requires Enabled(s, Advance(t)) && s.txns[t].stage.Checking?
    ensures var x, y := s.txns[t], Take(s, Advance(t)).txns[t];
            && (y.stage == Releasing(|x.owners|, false) <==>
                  x.stage.n < |x.items| && !Unmoved(x.items[x.stage.n], Lookup(s.view, KeyOf(x.items[x.stage.n]))))
            && (y.stage == Applying(0) <==> x.stage.n == |x.items|)
  {
  }

  // ---- Invariant ---------------------------------------------------------------------------

  /** Locks and commits agree on who holds what. */
  predicate LocksKept(s: State) {
    && (forall t, k :: 0 <= t < |s.txns| && 0 <= k < HeldBy(s.txns[t]) && k < |s.txns[t].owners| ==>
          s.txns[t].owners[k] in s.locks && s.locks[s.txns[t].owners[k]] == t)
    && (forall o :: o in s.locks ==> s.locks[o] < |s.txns| && Among(s.txns[s.locks[o]].owners, HeldBy(s.txns[s.locks[o]]), o))
  }

  predicate Among(owners: seq<nat>, n: nat, o: nat) {
    exists k :: 0 <= k < n && k < |owners| && owners[k] == o
  }

  /** The records a commit read under its locks are still there. */
  predicate TxnKept(view: View, x: Txn) {
    && WellFormed(x)
    && HeldBy(x) <= |x.owners|
    && match x.stage
       case Locking(_) => x.currents == []
       case Checking(n) => |x.currents| == n <= |x.items| && forall k :: 0 <= k < n ==> Read(view, x, k)
       case Applying(n) => |x.currents| == |x.items| && n <= |x.items| && forall k :: n <= k < |x.items| ==> Read(view, x, k)
       case Releasing(_, _) => true
  }

  predicate Read(view: View, x: Txn, k: nat)
    requires k < |x.items| && k < |x.currents|
  {
    Lookup(view, KeyOf(x.items[k])) == Some(x.currents[k]) && Passes(x.items[k], Some(x.currents[k]))
  }

  /** What the simple form shows: the view with the rest of a commit that is being applied
      by the holder of the body's lock. */
  function Seen(s: State, key: Key): Option<Cell> {
    if key.owner in s.locks && s.locks[key.owner] < |s.txns|
    then Ahead(s.txns[s.locks[key.owner]], key, Lookup(s.view, key))
    else Lookup(s.view, key)
  }

  function Ahead(x: Txn, key: Key, m: Option<Cell>): Option<Cell> {
    var k := Find(x.items, key);
    if x.stage.Applying? && k >= x.stage.n && k < |x.currents| then Leaves(x.items[k].plan, x.currents[k]) else m
  }

  /** The commit is decided: its writes are being made or were made. */
  predicate Decided(x: Txn) {
    x.stage.Applying? || (x.stage.Releasing? && x.stage.ok)
  }

  /** The history names exactly the decided commits, once each. */
  ghost predicate DeedsKept(s: State) {
    && (forall i :: 0 <= i < |s.history| && s.history[i].Committed? ==>
          s.history[i].t < |s.txns| && Decided(s.txns[s.history[i].t]) && s.history[i].items == s.txns[s.history[i].t].items)
    && (forall i, j :: 0 <= i < j < |s.history| && s.history[i].Committed? && s.history[j].Committed? ==>
          s.history[i].t != s.history[j].t)
    && (forall t :: 0 <= t < |s.txns| && Decided(s.txns[t]) ==> Committed(t, s.txns[t].items) in s.history)
  }

  ghost predicate Inv(start: View, s: State) {
    && LocksKept(s)
    && (forall t :: 0 <= t < |s.txns| ==> TxnKept(s.view, s.txns[t]))
    && (forall key :: Seen(s, key) == ReplayAt(start, s.history, key))
    && Justified(start, s.history)
    && DeedsKept(s)
  }

  // ---- Steps keep the invariant --------------------------------------------------------

  /** From the first check to the last write, a commit holds the lock of every item. */
  lemma ItemLocked(s: State, t: nat, k: nat)
    requires LocksKept(s) && t < |s.txns| && TxnKept(s.view, s.txns[t]) && k < |s.txns[t].items|
    requires s.txns[t].stage.Checking? || s.txns[t].stage.Applying?
    ensures s.txns[t].items[k].owner in s.locks && s.locks[s.txns[t].items[k].owner] == t
  {
    var x := s.txns[t];
    assert x.items[k].owner in x.owners;
    var i :| 0 <= i < |x.owners| && x.owners[i] == x.items[k].owner;
  }

  lemma LockStep(s: State, t: nat)
    requires LocksKept(s) && Enabled(s, Advance(t)) && WellFormed(s.txns[t])
    requires s.txns[t].stage.Locking? && s.txns[t].stage.n < |s.txns[t].owners|
    ensures LocksKept(Take(s, Advance(t)))
  {
    var r := Take(s, Advance(t));
    var owners, n := s.txns[t].owners, s.txns[t].stage.n;
    assert Among(owners, n + 1, owners[n]);
    forall o | o in s.locks ensures Among(r.txns[s.locks[o]].owners, HeldBy(r.txns[s.locks[o]]), o) {
      assert Among(s.txns[s.locks[o]].owners, HeldBy(s.txns[s.locks[o]]), o);
      AmongMore(s.txns[s.locks[o]].owners, n, o);
    }
    forall u, k | 0 <= u < |r.txns| && 0 <= k < HeldBy(r.txns[u]) && k < |r.txns[u].owners|
      ensures r.txns[u].owners[k] in r.locks && r.locks[r.txns[u].owners[k]] == u
    {
      HeldAfterLock(s, t, u, k);
    }
  }

  lemma AmongMore(owners: seq<nat>, n: nat, o: nat)
    ensures Among(owners, n, o) ==> Among(owners, n + 1, o)
  {
    if Among(owners, n, o) {
      var k :| 0 <= k < n && k < |owners| && owners[k] == o;
      assert owners[k] == o;
    }
  }

  /** After taking the next lock, every commit holds what it did, and this one the new lock. */
  lemma HeldAfterLock(s: State, t: nat, u: nat, k: nat)
    requires LocksKept(s) && Enabled(s, Advance(t)) && u < |s.txns|
    requires s.txns[t].stage.Locking? && s.txns[t].stage.n < |s.txns[t].owners|
    requires var r := Take(s, Advance(t)); k < HeldBy(r.txns[u]) && k < |r.txns[u].owners|
    ensures var r := Take(s, Advance(t)); r.txns[u].owners[k] in r.locks && r.locks[r.txns[u].owners[k]] == u
  {
    var x := s.txns[u];
    if u != t || k < x.stage.n {
      assert x.owners[k] in s.locks && s.locks[x.owners[k]] == u;
    }
  }

  lemma ReleaseStep(s: State, t: nat)
    requires LocksKept(s) && Enabled(s, Advance(t)) && WellFormed(s.txns[t]) && s.txns[t].stage.Releasing?
    ensures LocksKept(Take(s, Advance(t)))
  {
    var r := Take(s, Advance(t));
    var owners, n := s.txns[t].owners, s.txns[t].stage.n;
    assert s.locks[owners[n - 1]] == t;
    forall o | o in r.locks ensures r.locks[o] < |r.txns| && Among(r.txns[r.locks[o]].owners, HeldBy(r.txns[r.locks[o]]), o) {
      assert Among(s.txns[s.locks[o]].owners, HeldBy(s.txns[s.locks[o]]), o);
      if s.locks[o] == t {
        var k :| 0 <= k < n && k < |owners| && owners[k] == o;
        assert k < n - 1 && Among(owners, n - 1, owners[k]);
      }
    }
  }

  /** A step that neither takes nor releases a lock. */
  lemma SameLocks(s: State, r: State, t: nat)
    requires LocksKept(s) && t < |s.txns| == |r.txns| && r.locks == s.locks
    requires forall u :: 0 <= u < |s.txns| && u != t ==> r.txns[u] == s.txns[u]
    requires r.txns[t].owners == s.txns[t].owners && HeldBy(r.txns[t]) == HeldBy(s.txns[t])
    ensures LocksKept(r)
  {
    forall o | o in r.locks ensures r.locks[o] < |r.txns| && Among(r.txns[r.locks[o]].owners, HeldBy(r.txns[r.locks[o]]), o) {
      assert Among(s.txns[s.locks[o]].owners, HeldBy(s.txns[s.locks[o]]), o);
    }
  }

  lemma StepLocks(s: State, step: Step)
    requires LocksKept(s) && Enabled(s, step) && forall t :: 0 <= t < |s.txns| ==> TxnKept(s.view, s.txns[t])
    ensures LocksKept(Take(s, step))
  {
    if step.Advance? {
      var x := s.txns[step.t];
      if x.stage.Locking? && x.stage.n < |x.owners| {
        LockStep(s, step.t);
      } else if x.stage.Releasing? {
        ReleaseStep(s, step.t);
      } else {
        SameLocks(s, Take(s, step), step.t);
      }
    }
  }

  /** A write to a record that a commit does not hold leaves the commit's reads alone. */
  lemma WriteElsewhere(view: View, x: Txn, key: Key, m: Option<Cell>)
    requires TxnKept(view, x)
    requires x.stage.Checking? || x.stage.Applying? ==> forall k :: 0 <= k < |x.items| ==> KeyOf(x.items[k]) != key
    ensures TxnKept(Update(view, key, m), x)
  {
    if x.stage.Checking? || x.stage.Applying? {
      forall k | 0 <= k < |x.items| && k < |x.currents| && Read(view, x, k) ensures Read(Update(view, key, m), x, k) {
        assert KeyOf(x.items[k]) != key;
      }
    }
  }

  lemma OthersKept(s: State, key: Key, m: Option<Cell>, u: nat)
    requires LocksKept(s) && u < |s.txns| && TxnKept(s.view, s.txns[u])
    requires key.owner in s.locks ==> s.locks[key.owner] != u
    ensures TxnKept(Update(s.view, key, m), s.txns[u])
  {
    var x := s.txns[u];
    if x.stage.Checking? || x.stage.Applying? {
      forall k | 0 <= k < |x.items| ensures KeyOf(x.items[k]) != key {
        ItemLocked(s, u, k);
      }
    }
    WriteElsewhere(s.view, x, key, m);
  }

  lemma CheckKept(s: State, t: nat)
    requires LocksKept(s) && Enabled(s, Advance(t)) && TxnKept(s.view, s.txns[t]) && s.txns[t].stage.Checking?
    ensures TxnKept(s.view, Take(s, Advance(t)).txns[t])
  {
    var x, y := s.txns[t], Take(s, Advance(t)).txns[t];
    forall k | 0 <= k < |x.currents| ensures Read(s.view, y, k) {
      assert Read(s.view, x, k);
    }
  }

  lemma OwnKept(s: State, t: nat)
    requires LocksKept(s) && Enabled(s, Advance(t)) && TxnKept(s.view, s.txns[t])
    ensures TxnKept(Take(s, Advance(t)).view, Take(s, Advance(t)).txns[t])
  {
    var x := s.txns[t];
    if x.stage.Checking? {
      CheckKept(s, t);
    } else if x.stage.Applying? && x.stage.n < |x.items| {
      ApplyKept(s, t);
    }
  }

  lemma ApplyKept(s: State, t: nat)
    requires Enabled(s, Advance(t)) && TxnKept(s.view, s.txns[t])
    requires s.txns[t].stage.Applying? && s.txns[t].stage.n < |s.txns[t].items|
    ensures TxnKept(Take(s, Advance(t)).view, Take(s, Advance(t)).txns[t])
  {
    var x := s.txns[t];
    var r := Take(s, Advance(t));
    forall k | x.stage.n < k < |x.items| ensures Read(r.view, r.txns[t], k) {
      assert Read(s.view, x, k);
      assert KeyOf(x.items[k]) != KeyOf(x.items[x.stage.n]);
    }
  }

  lemma StepTxns(s: State, step: Step)
    requires LocksKept(s) && Enabled(s, step) && forall t :: 0 <= t < |s.txns| ==> TxnKept(s.view, s.txns[t])
    ensures forall t :: 0 <= t < |s.txns| ==> TxnKept(Take(s, step).view, Take(s, step).txns[t])
  {
    forall u | 0 <= u < |s.txns| ensures TxnKept(Take(s, step).view, Take(s, step).txns[u]) {
      match step
      case Mutate(key, m) => OthersKept(s, key, m, u);
      case Advance(t) =>
        var x := s.txns[t];
        if u == t {
          OwnKept(s, t);
        } else if x.stage.Applying? && x.stage.n < |x.items| {
          ItemLocked(s, t, x.stage.n);
          OthersKept(s, KeyOf(x.items[x.stage.n]), Leaves(x.items[x.stage.n].plan, x.currents[x.stage.n]), u);
        }
    }
  }

  // ---- Refinement ----------------------------------------------------------------------

  lemma FindUnique(items: seq<Item>, key: Key, k: nat)
    requires k < |items| && KeyOf(items[k]) == key
    requires forall i, j :: 0 <= i < j < |items| ==> KeyOf(items[i]) != KeyOf(items[j])
    ensures Find(items, key) == k
  {
    var f := Find(items, key);
    assert KeyOf(items[f]) == KeyOf(items[k]);
  }

  /** A step that changes neither what a holder still has to apply nor who holds what. */
  lemma SeenStays(s: State, r: State, t: nat, key: Key)
    requires LocksKept(s) && t < |s.txns| == |r.txns| && r.view == s.view
    requires forall u :: 0 <= u < |s.txns| && u != t ==> r.txns[u] == s.txns[u]
    requires !s.txns[t].stage.Applying? || s.txns[t].stage.n == |s.txns[t].items|
    requires !r.txns[t].stage.Applying?
    requires forall o :: o in s.locks && o !in r.locks ==> s.locks[o] == t
    requires forall o :: o in r.locks ==> if o in s.locks then r.locks[o] == s.locks[o] else r.locks[o] == t
    ensures Seen(r, key) == Seen(s, key)
  {
  }

  /** The commit takes effect as a whole when its last check has passed. */
  lemma CommitSeen(s: State, t: nat, key: Key)
    requires LocksKept(s) && Enabled(s, Advance(t)) && TxnKept(s.view, s.txns[t])
    requires s.txns[t].stage == Checking(|s.txns[t].items|)
    ensures Seen(Take(s, Advance(t)), key) == DeedAt(Committed(t, s.txns[t].items), key, Seen(s, key))
  {
    var x := s.txns[t];
    var k := Find(x.items, key);
    if k >= 0 {
      ItemLocked(s, t, k);
      assert Read(s.view, x, k);
    }
  }

  lemma ApplySeen(s: State, t: nat, key: Key)
    requires LocksKept(s) && Enabled(s, Advance(t)) && TxnKept(s.view, s.txns[t])
    requires s.txns[t].stage.Applying? && s.txns[t].stage.n < |s.txns[t].items|
    ensures Seen(Take(s, Advance(t)), key) == Seen(s, key)
  {
    var x := s.txns[t];
    var n := x.stage.n;
    var r := Take(s, Advance(t));
    ItemLocked(s, t, n);
    FindUnique(x.items, KeyOf(x.items[n]), n);
    if key != KeyOf(x.items[n]) {
      assert Lookup(r.view, key) == Lookup(s.view, key);
      assert Find(x.items, key) != n;
    }
  }

  lemma MutateSeen(s: State, changed: Key, m: Option<Cell>, key: Key)
    requires LocksKept(s) && changed.owner !in s.locks
    ensures Seen(Take(s, Mutate(changed, m)), key) == DeedAt(Mutated(changed, m), key, Seen(s, key))
  {
  }

  /** What a step does to the simple form: one commit, one mutation, or nothing. */
  function DeedOf(s: State, step: Step): seq<Deed>
    requires Enabled(s, step)
  {
    match step
    case Mutate(key, m) => [Mutated(key, m)]
    case Advance(t) =>
      var x := s.txns[t];
      if x.stage == Checking(|x.items|) then [Committed(t, x.items)] else []
  }

  lemma StepSeen(s: State, step: Step, key: Key)
    requires LocksKept(s) && Enabled(s, step) && forall t :: 0 <= t < |s.txns| ==> TxnKept(s.view, s.txns[t])
    ensures Take(s, step).history == s.history + DeedOf(s, step)
    ensures Seen(Take(s, step), key) ==
            if DeedOf(s, step) == [] then Seen(s, key) else DeedAt(DeedOf(s, step)[0], key, Seen(s, key))
  {
    match step
    case Mutate(k, m) => MutateSeen(s, k, m, key);
    case Advance(t) =>
      var x := s.txns[t];
      if x.stage == Checking(|x.items|) {
        CommitSeen(s, t, key);
      } else if x.stage.Applying? && x.stage.n < |x.items| {
        ApplySeen(s, t, key);
      } else {
        IdleSeen(s, t, key);
      }
  }

  /** Taking a lock, releasing one, a check that is not the last and the end of the writes
      show nothing. */
  lemma IdleSeen(s: State, t: nat, key: Key)
    requires LocksKept(s) && Enabled(s, Advance(t)) && TxnKept(s.view, s.txns[t])
    requires s.txns[t].stage != Checking(|s.txns[t].items|)
    requires s.txns[t].stage.Applying? ==> s.txns[t].stage.n == |s.txns[t].items|
    ensures Take(s, Advance(t)).history == s.history && Seen(Take(s, Advance(t)), key) == Seen(s, key)
  {
    var x := s.txns[t];
    assert x.stage.Releasing? ==> s.locks[x.owners[x.stage.n - 1]] == t;
    SeenStays(s, Take(s, Advance(t)), t, key);
  }

  lemma StepJustified(start: View, s: State, step: Step)
    requires Inv(start, s) && Enabled(s, step)
    ensures Justified(start, s.history + DeedOf(s, step))
  {
    var history := s.history + DeedOf(s, step);
    forall i, k | 0 <= i < |history| && history[i].Committed? && 0 <= k < |history[i].items|
      ensures Passes(history[i].items[k], ReplayAt(start, history[..i], KeyOf(history[i].items[k])))
    {
      if i < |s.history| {
        assert history[..i] == s.history[..i] && history[i] == s.history[i];
      } else {
        var x := s.txns[step.t];
        assert history[..i] == s.history && history[i] == Committed(step.t, x.items);
        ItemLocked(s, step.t, k);
        assert Read(s.view, x, k) && Seen(s, KeyOf(x.items[k])) == Lookup(s.view, KeyOf(x.items[k]));
      }
    }
  }

  lemma StepReplay(start: View, s: State, step: Step, key: Key)
    requires Inv(start, s) && Enabled(s, step)
    ensures Seen(Take(s, step), key) == ReplayAt(start, Take(s, step).history, key)
  {
    var r := Take(s, step);
    StepSeen(s, step, key);
    assert Seen(s, key) == ReplayAt(start, s.history, key);
    if DeedOf(s, step) != [] {
      assert r.history[..|r.history| - 1] == s.history;
    } else {
      assert r.history == s.history;
    }
  }

  predicate Deciding(s: State, step: Step, u: nat) {
    step == Advance(u) && u < |s.txns| && s.txns[u].stage == Checking(|s.txns[u].items|)
  }

  lemma StageStep(s: State, step: Step, u: nat)
    requires Enabled(s, step) && u < |s.txns|
    ensures |Take(s, step).txns| == |s.txns| && Take(s, step).txns[u].items == s.txns[u].items
    ensures Decided(Take(s, step).txns[u]) <==> Decided(s.txns[u]) || Deciding(s, step, u)
    ensures Deciding(s, step, u) ==> !Decided(s.txns[u])
  {
  }

  lemma HistoryStep(s: State, step: Step)
    requires Enabled(s, step)
    ensures Take(s, step).history == s.history + DeedOf(s, step)
  {
  }

  lemma StepDeeds(s: State, step: Step)
    requires DeedsKept(s) && Enabled(s, step)
    ensures DeedsKept(Take(s, step))
  {
    HistoryStep(s, step);
    var r := Take(s, step);
    var deed := DeedOf(s, step);
    forall u | 0 <= u < |r.txns|
      ensures Decided(r.txns[u]) ==> Committed(u, r.txns[u].items) in r.history
      ensures Decided(s.txns[u]) ==> Decided(r.txns[u]) && r.txns[u].items == s.txns[u].items
    {
      StageStep(s, step, u);
      assert Deciding(s, step, u) ==> deed == [Committed(u, s.txns[u].items)];
    }
    if deed != [] && deed[0].Committed? {
      StageStep(s, step, deed[0].t);
    }
  }

  lemma StepInv(start: View, s: State, step: Step)
    requires Inv(start, s) && Enabled(s, step)
    ensures Inv(start, Take(s, step))
  {
    StepLocks(s, step);
    StepTxns(s, step);
    StepJustified(start, s, step);
    StepDeeds(s, step);
    StepSeen(s, step, Key(0, ""));
    forall key ensures Seen(Take(s, step), key) == ReplayAt(start, Take(s, step).history, key) {
      StepReplay(start, s, step, key);
    }
  }

  // ---- Main results --------------------------------------------------------------------

  /** Commits about to take their first lock, and nothing held. */
  predicate Begins(s: State) {
    s.locks == map[] && s.history == [] &&
    forall t :: 0 <= t < |s.txns| ==> WellFormed(s.txns[t]) && s.txns[t].stage == Locking(0) && s.txns[t].currents == []
  }

  predicate IsRun(s: State, steps: seq<Step>)
    decreases |steps|
  {
    |steps| == 0 || (Enabled(s, steps[0]) && IsRun(Take(s, steps[0]), steps[1..]))
  }

  function After(s: State, steps: seq<Step>): State
    requires IsRun(s, steps)
    decreases |steps|
  {
    if |steps| == 0 then s else After(Take(s, steps[0]), steps[1..])
  }

  lemma {:induction false} RunInv(start: View, s: State, steps: seq<Step>)
    requires Inv(start, s) && IsRun(s, steps)
    ensures Inv(start, After(s, steps))
    decreases |steps|
  {
    if |steps| > 0 {
      StepInv(start, s, steps[0]);
      RunInv(start, Take(s, steps[0]), steps[1..]);
    }
  }

  /** The holder of the body's lock is applying its writes. */
  predicate BeingWritten(s: State, key: Key) {
    key.owner in s.locks && s.locks[key.owner] < |s.txns| && s.txns[s.locks[key.owner]].stage.Applying?
  }

  /** Every interleaving is a history of whole commits and single mutations: each commit in
      it held its baselines at its turn, a commit is in it exactly if it was decided, and a
      record that no commit is in the middle of writing shows what the history left. */
  lemma InterleavingIsAtomic(s: State, steps: seq<Step>)
    requires Begins(s) && IsRun(s, steps)
    ensures var r := After(s, steps);
            Justified(s.view, r.history) && DeedsKept(r) &&
            forall key :: !BeingWritten(r, key) ==> Lookup(r.view, key) == ReplayAt(s.view, r.history, key)
  {
    assert Inv(s.view, s);
    RunInv(s.view, s, steps);
    var r := After(s, steps);
    forall key | !BeingWritten(r, key)
      ensures Lookup(r.view, key) == ReplayAt(s.view, r.history, key)
    {
      assert Seen(r, key) == ReplayAt(s.view, r.history, key);
    }
  }

  /** The locks beyond the one a commit waits for. */
  ghost function Beyond(s: State, o: nat): set<nat> {
    set x | x in s.locks && x > o
  }

  /** Acquiring in one order cannot deadlock: while a commit is unfinished, some commit can
      advance. */
  lemma {:induction false} SomeCommitAdvances(start: View, s: State, t: nat) returns (u: nat)
    requires Inv(start, s) && t < |s.txns| && !Finished(s.txns[t])
    ensures Enabled(s, Advance(u))
    decreases if s.txns[t].stage.Locking? && s.txns[t].stage.n < |s.txns[t].owners|
              then |Beyond(s, s.txns[t].owners[s.txns[t].stage.n])| + 1 else 0
  {
    var x := s.txns[t];
    assert TxnKept(s.view, x);
    if x.stage.Locking? && x.stage.n < |x.owners| && x.owners[x.stage.n] in s.locks {
      var o := x.owners[x.stage.n];
      var v := s.locks[o];
      var y := s.txns[v];
      assert Among(y.owners, HeldBy(y), o) && TxnKept(s.view, y);
      if y.stage.Locking? && y.stage.n < |y.owners| {
        var next := y.owners[y.stage.n];
        assert next > o;
        if next !in s.locks {
          return v;
        }
        assert Beyond(s, next) < Beyond(s, o) by {
          assert next in Beyond(s, o) && next !in Beyond(s, next);
        }
        Smaller(Beyond(s, next), Beyond(s, o));
      }
      u := SomeCommitAdvances(start, s, v);
    } else {
      u := t;
    }
  }

  lemma Smaller(a: set<nat>, b: set<nat>)
    requires a < b
    ensures |a| < |b|
  {
    assert |b| == |a| + |b - a| by { assert b == a + (b - a); }
    var x :| x in b - a;
  }
}
