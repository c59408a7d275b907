/** The registry of per-path locks for passive bodies: entries are created on demand,
    reference-counted over holders, waiters and unfinished releases, and then removed. */
module BodyLocks {

  /** One registry entry, which outlives its registration while someone refers to it. */
  datatype Entry = Entry(path: string, refs: int, locked: bool)

  /** What one transaction is doing with its entry. */
  datatype Use = Waiting(entry: nat) | Holding(entry: nat) | Releasing(entry: nat)

  /** `entries` are all entries ever allocated; `registry` maps canonical paths to them. */
  datatype State = State(registry: map<string, nat>, entries: seq<Entry>, uses: map<nat, Use>)

  datatype Step =
    | Acquire(thread: nat, path: string)
    | Lock(thread: nat)
    | Unlock(thread: nat)
    | Drop(thread: nat)

  predicate Enabled(s: State, step: Step) {
    match step
    case Acquire(t, path) => t !in s.uses && (path in s.registry ==> s.registry[path] < |s.entries|)
    case Lock(t) => t in s.uses && s.uses[t].Waiting? && s.uses[t].entry < |s.entries| && !s.entries[s.uses[t].entry].locked
    case Unlock(t) => t in s.uses && s.uses[t].Holding? && s.uses[t].entry < |s.entries|
    case Drop(t) => t in s.uses && s.uses[t].Releasing? && s.uses[t].entry < |s.entries|
  }

  function Referred(s: State, e: nat, change: int): State
    requires e < |s.entries|
  {
    s.(entries := s.entries[e := s.entries[e].(refs := s.entries[e].refs + change)])
  }

  function Take(s: State, step: Step): State
    requires Enabled(s, step)
  {
    match step
    case Acquire(t, path) =>
      if path in s.registry then
        Referred(s, s.registry[path], 1).(uses := s.uses[t := Waiting(s.registry[path])])
      else
        s.(entries := s.entries + [Entry(path, 1, false)], registry := s.registry[path := |s.entries|],
           uses := s.uses[t := Waiting(|s.entries|)])
    case Lock(t) =>
      var e := s.uses[t].entry;
      s.(entries := s.entries[e := s.entries[e].(locked := true)], uses := s.uses[t := Holding(e)])
    case Unlock(t) =>
      var e := s.uses[t].entry;
      s.(entries := s.entries[e := s.entries[e].(locked := false)], uses := s.uses[t := Releasing(e)])
    case Drop(t) =>
      var e := s.uses[t].entry;
      var path := s.entries[e].path;
      var left := Referred(s, e, -1).(uses := s.uses - {t});
      if left.entries[e].refs == 0 && path in s.registry && s.registry[path] == e
      then left.(registry := s.registry - {path})
      else left
  }

  // ---- Invariant -----------------------------------------------------------------------

  function Users(s: State, e: nat): set<nat> {
    set t | t in s.uses && s.uses[t].entry == e
  }

  /** An entry counts its users, is registered exactly while it has some, and is locked
      exactly while one of them holds it. */
  ghost predicate EntryKept(s: State, e: nat)
    requires e < |s.entries|
  {
    && s.entries[e].refs == |Users(s, e)|
    && (s.entries[e].refs > 0 <==> s.entries[e].path in s.registry && s.registry[s.entries[e].path] == e)
    && (s.entries[e].locked <==> exists t :: t in s.uses && s.uses[t] == Holding(e))
  }

  ghost predicate Inv(s: State) {
    && (forall e :: 0 <= e < |s.entries| ==> EntryKept(s, e))
    && (forall t :: t in s.uses ==> s.uses[t].entry < |s.entries|)
    && (forall path :: path in s.registry ==> s.registry[path] < |s.entries| && s.entries[s.registry[path]].path == path)
    && (forall t, u :: t in s.uses && u in s.uses && t != u && s.uses[t].Holding? && s.uses[u].Holding? ==>
          s.uses[t].entry != s.uses[u].entry)
  }

  lemma UsersSame(s: State, r: State, e: nat)
    requires forall t :: t in s.uses && s.uses[t].entry == e <==> t in r.uses && r.uses[t].entry == e
    ensures Users(r, e) == Users(s, e)
  {
  }

  ghost predicate SameHolders(s: State, r: State, e: nat) {
    forall u :: u in s.uses && s.uses[u] == Holding(e) <==> u in r.uses && r.uses[u] == Holding(e)
  }

  /** An entry that a step leaves alone, with its users and its registration. */
  lemma KeptElsewhere(s: State, r: State, e: nat)
    requires e < |s.entries| && e < |r.entries| && r.entries[e] == s.entries[e] && EntryKept(s, e)
    requires Users(r, e) == Users(s, e) && SameHolders(s, r, e)
    requires s.entries[e].path in s.registry && s.registry[s.entries[e].path] == e <==>
             s.entries[e].path in r.registry && r.registry[s.entries[e].path] == e
    ensures EntryKept(r, e)
  {
  }

  /** The entry that gains a waiting user. */
  lemma GainsUser(s: State, t: nat, path: string)
    requires Enabled(s, Acquire(t, path)) && path in s.registry
    requires EntryKept(s, s.registry[path]) && s.entries[s.registry[path]].path == path
    ensures EntryKept(Take(s, Acquire(t, path)), s.registry[path])
  {
    var r := Take(s, Acquire(t, path));
    var mine := s.registry[path];
    assert Users(r, mine) == Users(s, mine) + {t};
    assert SameHolders(s, r, mine);
  }

  lemma AcquireKnownEntry(s: State, t: nat, path: string, e: nat)
    requires Inv(s) && Enabled(s, Acquire(t, path)) && path in s.registry && e < |s.entries|
    ensures EntryKept(Take(s, Acquire(t, path)), e)
  {
    var r := Take(s, Acquire(t, path));
    assert EntryKept(s, e);
    if e == s.registry[path] {
      GainsUser(s, t, path);
    } else {
      UsersSame(s, r, e);
      assert SameHolders(s, r, e);
      KeptElsewhere(s, r, e);
    }
  }

  lemma AcquireKnown(s: State, t: nat, path: string)
    requires Inv(s) && Enabled(s, Acquire(t, path)) && path in s.registry
    ensures Inv(Take(s, Acquire(t, path)))
  {
    var r := Take(s, Acquire(t, path));
    forall e | 0 <= e < |r.entries| ensures EntryKept(r, e) {
      AcquireKnownEntry(s, t, path, e);
    }
  }

  lemma AcquireNew(s: State, t: nat, path: string)
    requires Inv(s) && Enabled(s, Acquire(t, path)) && path !in s.registry
    ensures Inv(Take(s, Acquire(t, path)))
  {
    var r := Take(s, Acquire(t, path));
    var mine := |s.entries|;
    assert Users(r, mine) == {t};
    assert EntryKept(r, mine);
    forall e | 0 <= e < mine ensures EntryKept(r, e) {
      assert EntryKept(s, e);
      UsersSame(s, r, e);
      assert r.entries[e] == s.entries[e];
      assert forall u :: u in s.uses && s.uses[u] == Holding(e) <==> u in r.uses && r.uses[u] == Holding(e);
    }
  }

  lemma LockInv(s: State, t: nat)
    requires Inv(s) && Enabled(s, Lock(t))
    ensures Inv(Take(s, Lock(t)))
  {
    var r := Take(s, Lock(t));
    var mine := s.uses[t].entry;
    assert EntryKept(s, mine);
    forall e | 0 <= e < |r.entries| ensures EntryKept(r, e) {
      assert EntryKept(s, e);
      UsersSame(s, r, e);
      assert r.uses[t] == Holding(mine);
      assert e != mine ==> forall u :: u in s.uses && s.uses[u] == Holding(e) <==> u in r.uses && r.uses[u] == Holding(e);
    }
  }

  lemma UnlockInv(s: State, t: nat)
    requires Inv(s) && Enabled(s, Unlock(t))
    ensures Inv(Take(s, Unlock(t)))
  {
    var r := Take(s, Unlock(t));
    var mine := s.uses[t].entry;
    forall e | 0 <= e < |r.entries| ensures EntryKept(r, e) {
      assert EntryKept(s, e);
      UsersSame(s, r, e);
      assert e != mine ==> forall u :: u in s.uses && s.uses[u] == Holding(e) <==> u in r.uses && r.uses[u] == Holding(e);
    }
  }

  lemma DropInv(s: State, t: nat)
    requires Inv(s) && Enabled(s, Drop(t))
    ensures Inv(Take(s, Drop(t)))
  {
    var r := Take(s, Drop(t));
    var mine := s.uses[t].entry;
    assert EntryKept(s, mine) && t in Users(s, mine);
    forall e | 0 <= e < |r.entries| ensures EntryKept(r, e) {
      DropEntry(s, t, e);
    }
  }

  lemma DropEntry(s: State, t: nat, e: nat)
    requires Inv(s) && Enabled(s, Drop(t)) && e < |s.entries|
    ensures EntryKept(Take(s, Drop(t)), e)
  {
    var r := Take(s, Drop(t));
    var mine := s.uses[t].entry;
    assert EntryKept(s, e) && EntryKept(s, mine) && t in Users(s, mine);
    assert SameHolders(s, r, e);
    if e == mine {
      assert Users(r, e) == Users(s, e) - {t};
    } else {
      UsersSame(s, r, e);
      KeptElsewhere(s, r, e);
    }
  }

  lemma StepInv(s: State, step: Step)
    requires Inv(s) && Enabled(s, step)
    ensures Inv(Take(s, step))
  {
    match step
    case Acquire(t, path) =>
      if path in s.registry {
        AcquireKnown(s, t, path);
      } else {
        AcquireNew(s, t, path);
      }
    case Lock(t) => LockInv(s, t);
    case Unlock(t) => UnlockInv(s, t);
    case Drop(t) => DropInv(s, t);
  }

  // ---- Main results --------------------------------------------------------------------

  predicate IsRun(s: State, steps: seq<Step>)
    decreases |steps|
  {
    |steps| == 0 || (Enabled(s, steps[0]) && IsRun(Take(s, steps[0]), steps[1..]))
  }

  function After(s: State, steps: seq<Step>): State
    requires IsRun(s, steps)
    decreases |steps|
  {
    if |steps| == 0 then s else After(Take(s, steps[0]), steps[1..])
  }

  lemma {:induction false} RunInv(s: State, steps: seq<Step>)
    requires Inv(s) && IsRun(s, steps)
    ensures Inv(After(s, steps))
    decreases |steps|
  {
    if |steps| > 0 {
      StepInv(s, steps[0]);
      RunInv(Take(s, steps[0]), steps[1..]);
    }
  }

  /** In every interleaving a path has at most one holder, even across entries that were
      removed and created again, and the registry holds a path exactly while some
      transaction holds it, waits for it or has not finished releasing it. */
  lemma OneHolderPerPath(steps: seq<Step>)
    requires IsRun(State(map[], [], map[]), steps)
    ensures var s := After(State(map[], [], map[]), steps);
            (forall t, u :: HoldsPath(s, t) && HoldsPath(s, u) && PathOf(s, t) == PathOf(s, u) ==> t == u) &&
            (forall path :: path in s.registry <==> exists t :: t in s.uses && PathOf(s, t) == path)
  {
    RunInv(State(map[], [], map[]), steps);
    var s := After(State(map[], [], map[]), steps);
    forall t | t in s.uses ensures PathOf(s, t) in s.registry && s.registry[PathOf(s, t)] == s.uses[t].entry {
      UserRegistered(s, t);
    }
    forall path | path in s.registry ensures exists t :: t in s.uses && PathOf(s, t) == path {
      var e := s.registry[path];
      assert EntryKept(s, e);
      var t :| t in Users(s, e);
      assert PathOf(s, t) == path;
    }
  }

  /** No transaction is stuck but behind another one that holds its path: it can take the lock
      exactly if nobody holds it, can always release it, and can ask for any path if it has
      none. */
  lemma OnlyHoldersBlock(steps: seq<Step>, t: nat, path: string)
    requires IsRun(State(map[], [], map[]), steps)
    ensures var s := After(State(map[], [], map[]), steps);
            && (t !in s.uses ==> Enabled(s, Acquire(t, path)))
            && (t in s.uses && s.uses[t].Waiting? ==>
                  (Enabled(s, Lock(t)) <==> forall u :: !(HoldsPath(s, u) && PathOf(s, u) == PathOf(s, t))))
            && (t in s.uses && s.uses[t].Holding? ==> Enabled(s, Unlock(t)))
            && (t in s.uses && s.uses[t].Releasing? ==> Enabled(s, Drop(t)))
  {
    RunInv(State(map[], [], map[]), steps);
    var s := After(State(map[], [], map[]), steps);
    if t in s.uses {
      var e := s.uses[t].entry;
      assert EntryKept(s, e);
      UserRegistered(s, t);
      forall u | HoldsPath(s, u) ensures PathOf(s, u) == PathOf(s, t) <==> s.uses[u] == Holding(e) {
        UserRegistered(s, u);
      }
    }
  }

  predicate HoldsPath(s: State, t: nat) {
    t in s.uses && s.uses[t].Holding?
  }

  function PathOf(s: State, t: nat): string {
    if t in s.uses && s.uses[t].entry < |s.entries| then s.entries[s.uses[t].entry].path else ""
  }

  lemma UserRegistered(s: State, t: nat)
    requires Inv(s) && t in s.uses
    ensures PathOf(s, t) in s.registry && s.registry[PathOf(s, t)] == s.uses[t].entry
  {
    var e := s.uses[t].entry;
    assert EntryKept(s, e) && t in Users(s, e);
  }
}
