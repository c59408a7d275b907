/** Optimistic transactions on the live view of the whole Fabric: a program runs against a
    private snapshot filled lazily from a Fabric that others keep changing, and its diff is
    committed or the program is run again in place. */
module Serializability {
  import opened Records

  type Fabric = map<string, Memory>

  const LIMIT := 0x1_0000_0000_0000_0000

  /** What a program may do to a record. Creating records never commits speculatively, and
      evicting a cached record is excluded. */
  datatype Action =
    | Get(id: string)
    | ReadCount(id: string)
    | Set(id: string, m: Memory)
    | Del(id: string)
    | Exec(id: string)
    | Select(pick: Memory -> bool)
    | Halt(frame: string)

  /** An action on one record. `Select` lists by tag, by feature or by anything else that does
      not depend on the counter. */
  predicate OnRecord(a: Action) {
    !a.Halt? && !a.Select?
  }

  datatype Obs = Missing | Found(m: Memory) | Counted(n: nat) | Acted | Listed(ids: set<string>)

  /** A deterministic program: what it has observed so far decides what it does next. */
  type Program = seq<Obs> -> Action

  /** The private snapshot. `base` holds the first version read of each record and `cache`
      the working copies. `read`, `counted` and `absent` record what was observed. */
  datatype Private = Private(
    base: Fabric,
    cache: Fabric,
    deleted: set<string>,
    read: set<string>,
    counted: set<string>,
    absent: set<string>,
    seen: seq<Obs>)

  /** The canonical run works on the Fabric itself. */
  datatype Direct = Direct(fabric: Fabric, seen: seq<Obs>)

  /** A lazy snapshot starts with copies of the unpersisted records and tombstones only. */
  function Snapshot(pending: Fabric, tombstones: set<string>): Private {
    Private(pending, pending, tombstones, {}, {}, {}, [])
  }

  function PageIn(s: Private, fabric: Fabric, id: string): Private {
    if id in s.deleted || id in s.cache || id !in fabric then s
    else s.(base := s.base[id := fabric[id]], cache := s.cache[id := fabric[id]])
  }

  predicate Present(s: Private, id: string) {
    id in s.cache && id !in s.deleted
  }

  /** Looking a record up pages it in and adds to what the run has observed. */
  function Touch(s: Private, fabric: Fabric, id: string): Private {
    var t := PageIn(s, fabric, id);
    if Present(t, id) then t.(read := t.read + {id})
    else if id in t.read then t
    else t.(absent := t.absent + {id})
  }

  /** What an action makes of a record. */
  function Changes(m: Option<Memory>, a: Action): Option<Memory>
    requires OnRecord(a)
  {
    if m.None? then None
    else
      match a
      case Get(_) => m
      case ReadCount(_) => m
      case Set(_, n) => Some(n.(execCount := m.value.execCount))
      case Del(_) => None
      case Exec(_) => Some(m.value.(execCount := Add64(m.value.execCount, 1)))
  }

  function Sees(m: Option<Memory>, a: Action): Obs
    requires OnRecord(a)
  {
    if m.None? then Missing
    else
      match a
      case Get(_) => Found(NoExec(m.value))
      case ReadCount(_) => Counted(m.value.execCount)
      case _ => Acted
  }

  function Lookup(f: Fabric, id: string): Option<Memory> {
    if id in f then Some(f[id]) else None
  }

  function Update(f: Fabric, id: string, m: Option<Memory>): Fabric {
    if m.Some? then f[id := m.value] else f - {id}
  }

  /** The action itself, on the working copy that the lookup left. */
  function Perform(t: Private, a: Action): Private
    requires OnRecord(a)
  {
    var m := if Present(t, a.id) then Some(t.cache[a.id]) else None;
    t.(cache := if m.Some? then Update(t.cache, a.id, Changes(m, a)) else t.cache,
       deleted := if m.Some? && a.Del? then t.deleted + {a.id} else t.deleted,
       counted := if m.Some? && a.ReadCount? then t.counted + {a.id} else t.counted,
       seen := t.seen + [Sees(m, a)])
  }

  function Act(s: Private, fabric: Fabric, a: Action): Private
    requires !a.Halt?
  {
    if a.Select? then s.(seen := s.seen + [Listed(Selected(s, fabric, a.pick))]) else Perform(Touch(s, fabric, a.id), a)
  }

  /** What a listing sees of a record: the working copy, else the Fabric. */
  function Visible(s: Private, fabric: Fabric, id: string): Option<Memory> {
    if id in s.deleted then None else if id in s.cache then Some(s.cache[id]) else Lookup(fabric, id)
  }

  predicate Chosen(m: Option<Memory>, pick: Memory -> bool) {
    m.Some? && pick(NoExec(m.value))
  }

  function Selected(s: Private, fabric: Fabric, pick: Memory -> bool): set<string> {
    set id | id in fabric.Keys + s.cache.Keys && Chosen(Visible(s, fabric, id), pick)
  }

  function SelectedDirect(fabric: Fabric, pick: Memory -> bool): set<string> {
    set id | id in fabric && Chosen(Lookup(fabric, id), pick)
  }

  function ActDirect(c: Direct, a: Action): Direct
    requires !a.Halt?
  {
    if a.Select? then Direct(c.fabric, c.seen + [Listed(SelectedDirect(c.fabric, a.pick))])
    else
      var m := Lookup(c.fabric, a.id);
      Direct(Update(c.fabric, a.id, Changes(m, a)), c.seen + [Sees(m, a)])
  }

  /** Either run sees that a record is missing exactly if it does not show one. */
  lemma MissIsSeen(s: Private, fabric: Fabric, c: Direct, a: Action)
    requires OnRecord(a)
    ensures Act(s, fabric, a).seen[|s.seen|..] == [Missing] <==> Visible(s, fabric, a.id).None?
    ensures ActDirect(c, a).seen[|c.seen|..] == [Missing] <==> a.id !in c.fabric
  {
    assert Act(s, fabric, a).seen[|s.seen|] != Missing || Act(s, fabric, a).seen[|s.seen|..] == [Missing];
    assert ActDirect(c, a).seen[|c.seen|] != Missing || ActDirect(c, a).seen[|c.seen|..] == [Missing];
  }

  /** The speculative run; `fabrics[i]` is what the Fabric looks like at its i-th action. */
  function Speculate(p: Program, s: Private, fabrics: seq<Fabric>): Private
    decreases |fabrics|
  {
    if |fabrics| == 0 || p(s.seen).Halt? then s
    else Speculate(p, Act(s, fabrics[0], p(s.seen)), fabrics[1..])
  }

  function Canonical(p: Program, c: Direct, steps: nat): Direct
    decreases steps
  {
    if steps == 0 || p(c.seen).Halt? then c
    else Canonical(p, ActDirect(c, p(c.seen)), steps - 1)
  }

  /** How often a run in place executes a record that is there, and what it last writes to it. */
  function Execs(p: Program, c: Direct, steps: nat, id: string): nat
    decreases steps
  {
    if steps == 0 || p(c.seen).Halt? then 0
    else (if p(c.seen) == Exec(id) && id in c.fabric then 1 else 0) + Execs(p, ActDirect(c, p(c.seen)), steps - 1, id)
  }

  function Written(p: Program, c: Direct, steps: nat, id: string): Option<Memory>
    decreases steps
  {
    if steps == 0 || p(c.seen).Halt? then None
    else
      var a, later := p(c.seen), Written(p, ActDirect(c, p(c.seen)), steps - 1, id);
      if later.Some? then later
      else if a.Set? && a.id == id && id in c.fabric then Some(a.m)
      else None
  }

  /** A run in place leaves of a record what it last wrote to it, and brings none back. */
  lemma {:induction false} CanonicalWrites(p: Program, c: Direct, steps: nat, id: string)
    requires id in Canonical(p, c, steps).fabric
    ensures id in c.fabric
    ensures var w := Written(p, c, steps, id);
            NoExec(Canonical(p, c, steps).fabric[id]) == NoExec(if w.Some? then w.value else c.fabric[id])
    decreases steps
  {
    if steps > 0 && !p(c.seen).Halt? {
      CanonicalWrites(p, ActDirect(c, p(c.seen)), steps - 1, id);
      DirectAt(c, p(c.seen), id);
    }
  }

  /** It counts each execution of a record once, modulo the width of the counter. */
  lemma {:induction false} CanonicalCounts(p: Program, c: Direct, steps: nat, id: string)
    requires id in Canonical(p, c, steps).fabric && id in c.fabric && c.fabric[id].execCount < LIMIT
    ensures Canonical(p, c, steps).fabric[id].execCount == (c.fabric[id].execCount + Execs(p, c, steps, id)) % LIMIT
    decreases steps
  {
    if steps > 0 && !p(c.seen).Halt? {
      var next := ActDirect(c, p(c.seen));
      CanonicalWrites(p, next, steps - 1, id);
      DirectAt(c, p(c.seen), id);
      CanonicalCounts(p, next, steps - 1, id);
      CountWraps(c.fabric[id].execCount, next.fabric[id].execCount, p(c.seen) == Exec(id), Execs(p, next, steps - 1, id));
    }
  }

  lemma CountWraps(n: nat, after: nat, one: bool, more: nat)
    requires n < LIMIT && after == if one then (n + 1) % LIMIT else n
    ensures (after + more) % LIMIT == (n + (if one then 1 else 0) + more) % LIMIT
  {
    if one && n + 1 == LIMIT {
      assert after == 0;
      Wrapped(more);
    }
  }

  lemma Wrapped(more: nat)
    ensures (LIMIT + more) % LIMIT == more % LIMIT
  {
  }

  lemma DirectAt(c: Direct, a: Action, id: string)
    requires !a.Halt? && id in ActDirect(c, a).fabric
    ensures id in c.fabric
    ensures var m := ActDirect(c, a).fabric[id];
            && NoExec(m) == NoExec(if a.Set? && a.id == id then a.m else c.fabric[id])
            && m.execCount == if a == Exec(id) then (c.fabric[id].execCount + 1) % LIMIT else c.fabric[id].execCount
  {
  }

  // ---- Diff and commit -----------------------------------------------------------------

  predicate Deleted(s: Private, id: string) {
    id in s.base && (id in s.deleted || id !in s.cache)
  }

  predicate Changed(s: Private, id: string) {
    id in s.base && !Deleted(s, id) && NoExec(s.cache[id]) != NoExec(s.base[id])
  }

  function Delta(s: Private, id: string): nat {
    if id in s.base && !Deleted(s, id) && s.cache[id].execCount > s.base[id].execCount
    then s.cache[id].execCount - s.base[id].execCount
    else 0
  }

  predicate Created(s: Private, id: string) {
    id in s.cache && id !in s.base && id !in s.deleted
  }

  /** What the commit checks under the owner locks. */
  ghost predicate Validates(s: Private, shared: Fabric) {
    && (forall id :: id in s.cache ==> !Created(s, id))
    && (forall id :: id in s.base && (Changed(s, id) || Deleted(s, id)) ==>
          id in shared && NoExec(shared[id]) == NoExec(s.base[id]))
    && (forall id :: id in s.base && Delta(s, id) > 0 ==> id in shared)
  }

  function Committed(s: Private, shared: Fabric): Fabric {
    map id | id in shared && !Deleted(s, id) ::
      (if Changed(s, id) then s.cache[id] else shared[id]).(execCount := Add64(shared[id].execCount, Delta(s, id)))
  }

  // ---- Equivalence ---------------------------------------------------------------------

  /** All that a private snapshot holds about one record. Actions work on one record at a
      time, so the simulation is stated and proved on cells. */
  datatype Cell = Cell(
    base: Option<Memory>, cached: Option<Memory>, deleted: bool, read: bool, counted: bool, absent: bool)

  function CellOf(s: Private, id: string): Cell {
    Cell(Lookup(s.base, id), Lookup(s.cache, id), id in s.deleted, id in s.read, id in s.counted, id in s.absent)
  }

  predicate CellPresent(c: Cell) {
    c.cached.Some? && !c.deleted
  }

  function TouchCell(c: Cell, here: Option<Memory>): Cell {
    var t := if c.deleted || c.cached.Some? || here.None? then c else c.(base := here, cached := here);
    if CellPresent(t) then t.(read := true) else if t.read then t else t.(absent := true)
  }

  function PerformCell(t: Cell, a: Action): Cell
    requires OnRecord(a)
  {
    if !CellPresent(t) then t
    else t.(cached := Changes(t.cached, a), deleted := a.Del?, counted := t.counted || a.ReadCount?)
  }

  function Shown(c: Cell): Option<Memory> {
    if c.deleted then None else c.cached
  }

  lemma TouchAt(s: Private, fabric: Fabric, id: string, x: string)
    ensures CellOf(Touch(s, fabric, id), x) ==
            if x == id then TouchCell(CellOf(s, x), Lookup(fabric, x)) else CellOf(s, x)
    ensures Touch(s, fabric, id).seen == s.seen
  {
  }

  lemma PerformAt(t: Private, a: Action, x: string)
    requires OnRecord(a)
    ensures CellOf(Perform(t, a), x) == if x == a.id then PerformCell(CellOf(t, x), a) else CellOf(t, x)
    ensures Perform(t, a).seen == t.seen + [Sees(Shown(CellOf(t, a.id)), a)]
  {
  }

  function ActCell(c: Cell, here: Option<Memory>, a: Action): Cell
    requires OnRecord(a)
  {
    PerformCell(TouchCell(c, here), a)
  }

  lemma ActAt(s: Private, here: Fabric, a: Action, x: string)
    requires OnRecord(a)
    ensures CellOf(Act(s, here, a), x) ==
            if x == a.id then ActCell(CellOf(s, x), Lookup(here, x), a) else CellOf(s, x)
    ensures Act(s, here, a).seen == s.seen + [Sees(Shown(TouchCell(CellOf(s, a.id), Lookup(here, a.id))), a)]
  {
    var t := Touch(s, here, a.id);
    TouchAt(s, here, a.id, x);
    TouchAt(s, here, a.id, a.id);
    PerformAt(t, a, x);
  }

  lemma ActDirectAt(c: Direct, a: Action, x: string)
    requires OnRecord(a)
    ensures Lookup(ActDirect(c, a).fabric, x) ==
            if x == a.id then Changes(Lookup(c.fabric, x), a) else Lookup(c.fabric, x)
  {
  }

  // ---- One record ----------------------------------------------------------------------

  /** What the run observed of the record still holds. */
  predicate CellHolds(c: Cell, shared: Option<Memory>) {
    && (c.read ==> c.base.Some? && shared.Some? && NoExec(shared.value) == NoExec(c.base.value))
    && (c.counted ==> c.base.Some? && shared.Some? && shared.value.execCount == c.base.value.execCount)
    && (c.absent ==> shared.None?)
  }

  /** Bookkeeping after at most `steps` of `total` actions. */
  predicate CellTidy(c: Cell, steps: nat, total: nat) {
    && (c.cached.Some? ==> c.base.Some?)
    && (c.counted ==> c.read)
    && (c.read ==> c.base.Some? && (c.deleted <==> c.cached.None?))
    && (c.base.Some? && !c.read ==> c.cached == c.base && !c.deleted)
    && (c.base.Some? ==> c.base.value.execCount + total < LIMIT)
    && (c.cached.Some? ==>
          c.base.value.execCount <= c.cached.value.execCount <= c.base.value.execCount + steps)
  }

  predicate CellMatches(c: Cell, direct: Option<Memory>, shared: Option<Memory>) {
    if !c.read then direct == shared
    else if c.deleted then direct.None?
    else
      c.cached.Some? && c.base.Some? && direct.Some? && shared.Some? &&
      c.base.value.execCount <= c.cached.value.execCount &&
      direct.value == c.cached.value.(
        execCount := Add64(shared.value.execCount, c.cached.value.execCount - c.base.value.execCount))
  }

  predicate InRange(m: Option<Memory>, room: nat) {
    m.Some? ==> m.value.execCount + room < LIMIT
  }

  lemma AddOne(a: nat, k: nat)
    ensures Add64(Add64(a, k), 1) == Add64(a, k + 1)
  {
  }

  lemma TouchCellStep(c: Cell, here: Option<Memory>, direct: Option<Memory>, shared: Option<Memory>, steps: nat, total: nat)
    requires CellTidy(c, steps, total) && InRange(here, total) && InRange(shared, 0)
    ensures CellTidy(TouchCell(c, here), steps, total)
    ensures CellHolds(TouchCell(c, here), shared) ==> CellHolds(c, shared)
    ensures CellHolds(TouchCell(c, here), shared) && CellMatches(c, direct, shared) ==>
              CellMatches(TouchCell(c, here), direct, shared) &&
              (Shown(TouchCell(c, here)).Some? <==> direct.Some?)
    ensures CellPresent(TouchCell(c, here)) ==> TouchCell(c, here).read
  {
  }

  lemma PerformCellStep(t: Cell, direct: Option<Memory>, shared: Option<Memory>, a: Action, steps: nat, total: nat)
    requires OnRecord(a) && CellTidy(t, steps, total) && steps < total && InRange(shared, 0) && (CellPresent(t) ==> t.read)
    ensures CellTidy(PerformCell(t, a), steps + 1, total)
    ensures CellHolds(PerformCell(t, a), shared) ==> CellHolds(t, shared)
    ensures CellHolds(PerformCell(t, a), shared) && CellMatches(t, direct, shared) && (Shown(t).Some? <==> direct.Some?) ==>
              CellMatches(PerformCell(t, a), Changes(direct, a), shared) && Sees(Shown(t), a) == Sees(direct, a)
  {
    PerformTidy(t, shared, a, steps, total);
    if CellHolds(PerformCell(t, a), shared) && CellMatches(t, direct, shared) && (Shown(t).Some? <==> direct.Some?) {
      PerformMatches(t, direct, shared, a, steps, total);
    }
  }

  lemma PerformTidy(t: Cell, shared: Option<Memory>, a: Action, steps: nat, total: nat)
    requires OnRecord(a) && CellTidy(t, steps, total) && steps < total && (CellPresent(t) ==> t.read)
    ensures CellTidy(PerformCell(t, a), steps + 1, total)
    ensures CellHolds(PerformCell(t, a), shared) ==> CellHolds(t, shared)
  {
  }

  lemma PerformMatches(t: Cell, direct: Option<Memory>, shared: Option<Memory>, a: Action, steps: nat, total: nat)
    requires OnRecord(a) && CellTidy(t, steps, total) && steps < total && InRange(shared, 0) && (CellPresent(t) ==> t.read)
    requires CellHolds(PerformCell(t, a), shared) && CellMatches(t, direct, shared) && (Shown(t).Some? <==> direct.Some?)
    ensures CellMatches(PerformCell(t, a), Changes(direct, a), shared) && Sees(Shown(t), a) == Sees(direct, a)
  {
    if a.Exec? {
      ExecMatches(t, direct, shared, a, steps, total);
    }
  }

  lemma ExecMatches(t: Cell, direct: Option<Memory>, shared: Option<Memory>, a: Action, steps: nat, total: nat)
    requires a.Exec? && CellTidy(t, steps, total) && steps < total && InRange(shared, 0) && (CellPresent(t) ==> t.read)
    requires CellHolds(PerformCell(t, a), shared) && CellMatches(t, direct, shared) && (Shown(t).Some? <==> direct.Some?)
    ensures CellMatches(PerformCell(t, a), Changes(direct, a), shared)
  {
    if CellPresent(t) && shared.Some? {
      AddOne(shared.value.execCount, t.cached.value.execCount - t.base.value.execCount);
    }
  }

  lemma ActCellStep(c: Cell, here: Option<Memory>, direct: Option<Memory>, shared: Option<Memory>, a: Action, steps: nat, total: nat)
    requires OnRecord(a) && CellTidy(c, steps, total) && steps < total && InRange(here, total) && InRange(shared, 0)
    ensures CellTidy(ActCell(c, here, a), steps + 1, total)
    ensures CellHolds(ActCell(c, here, a), shared) ==> CellHolds(c, shared)
    ensures CellHolds(ActCell(c, here, a), shared) && CellMatches(c, direct, shared) ==>
              CellMatches(ActCell(c, here, a), Changes(direct, a), shared) &&
              Sees(Shown(TouchCell(c, here)), a) == Sees(direct, a)
  {
    TouchCellStep(c, here, direct, shared, steps, total);
    PerformCellStep(TouchCell(c, here), direct, shared, a, steps, total);
  }

  // ---- Whole runs ----------------------------------------------------------------------

  ghost predicate Tidy(s: Private, steps: nat, total: nat) {
    forall id :: CellTidy(CellOf(s, id), steps, total)
  }

  /** Everything the run observed still holds. */
  ghost predicate Holds(s: Private, shared: Fabric) {
    forall id :: CellHolds(CellOf(s, id), Lookup(shared, id))
  }

  ghost predicate Simulates(s: Private, c: Direct, shared: Fabric) {
    s.seen == c.seen && forall id :: CellMatches(CellOf(s, id), Lookup(c.fabric, id), Lookup(shared, id))
  }

  ghost predicate Counters(f: Fabric, room: nat) {
    forall id :: InRange(Lookup(f, id), room)
  }

  lemma ActTidy(s: Private, shared: Fabric, here: Fabric, a: Action, steps: nat, total: nat)
    requires !a.Halt? && Tidy(s, steps, total) && steps < total && Counters(here, total) && Counters(shared, 0)
    ensures Tidy(Act(s, here, a), steps + 1, total)
    ensures Holds(Act(s, here, a), shared) ==> Holds(s, shared)
  {
    forall x
      ensures CellTidy(CellOf(Act(s, here, a), x), steps + 1, total)
      ensures CellHolds(CellOf(Act(s, here, a), x), Lookup(shared, x)) ==> CellHolds(CellOf(s, x), Lookup(shared, x))
    {
      assert CellTidy(CellOf(s, x), steps, total) && InRange(Lookup(here, x), total) && InRange(Lookup(shared, x), 0);
      if OnRecord(a) {
        ActAt(s, here, a, x);
        ActCellStep(CellOf(s, x), Lookup(here, x), None, Lookup(shared, x), a, steps, total);
      } else {
        assert CellOf(Act(s, here, a), x) == CellOf(s, x);
      }
    }
  }

  lemma ActMatches(s: Private, c: Direct, shared: Fabric, here: Fabric, a: Action, steps: nat, total: nat, x: string)
    requires OnRecord(a) && Tidy(s, steps, total) && steps < total && Counters(here, total) && Counters(shared, 0)
    requires Simulates(s, c, shared) && Holds(Act(s, here, a), shared)
    ensures CellMatches(CellOf(Act(s, here, a), x), Lookup(ActDirect(c, a).fabric, x), Lookup(shared, x))
    ensures x == a.id ==>
              Sees(Shown(TouchCell(CellOf(s, x), Lookup(here, x))), a) == Sees(Lookup(c.fabric, x), a)
  {
    assert CellTidy(CellOf(s, x), steps, total) && InRange(Lookup(here, x), total) && InRange(Lookup(shared, x), 0);
    assert CellHolds(CellOf(Act(s, here, a), x), Lookup(shared, x));
    assert CellMatches(CellOf(s, x), Lookup(c.fabric, x), Lookup(shared, x));
    ActAt(s, here, a, x);
    ActDirectAt(c, a, x);
    if x == a.id {
      ActCellStep(CellOf(s, x), Lookup(here, x), Lookup(c.fabric, x), Lookup(shared, x), a, steps, total);
    }
  }

  /** Nothing outside what the run read has changed its place in the listing. */
  ghost predicate SelectionHolds(s: Private, here: Fabric, shared: Fabric, pick: Memory -> bool) {
    forall id :: id !in s.read ==> (Chosen(Visible(s, here, id), pick) <==> Chosen(Lookup(shared, id), pick))
  }

  lemma SelectMatches(s: Private, c: Direct, shared: Fabric, here: Fabric, pick: Memory -> bool, steps: nat, total: nat, id: string)
    requires Tidy(s, steps, total) && Simulates(s, c, shared) && SelectionHolds(s, here, shared, pick)
    ensures id in Selected(s, here, pick) <==> id in SelectedDirect(c.fabric, pick)
  {
    assert CellTidy(CellOf(s, id), steps, total);
    assert CellMatches(CellOf(s, id), Lookup(c.fabric, id), Lookup(shared, id));
    if id !in s.read {
      assert Chosen(Visible(s, here, id), pick) <==> Chosen(Lookup(shared, id), pick);
    }
  }

  lemma ActSimulates(s: Private, c: Direct, shared: Fabric, here: Fabric, a: Action, steps: nat, total: nat)
    requires !a.Halt? && Tidy(s, steps, total) && steps < total && Counters(here, total) && Counters(shared, 0)
    requires Simulates(s, c, shared) && Holds(Act(s, here, a), shared)
    requires a.Select? ==> SelectionHolds(s, here, shared, a.pick)
    ensures Simulates(Act(s, here, a), ActDirect(c, a), shared)
  {
    var u, d := Act(s, here, a), ActDirect(c, a);
    if a.Select? {
      forall id ensures id in Selected(s, here, a.pick) <==> id in SelectedDirect(c.fabric, a.pick) {
        SelectMatches(s, c, shared, here, a.pick, steps, total, id);
      }
      assert Selected(s, here, a.pick) == SelectedDirect(c.fabric, a.pick);
      assert u.seen == d.seen;
      forall x ensures CellMatches(CellOf(u, x), Lookup(d.fabric, x), Lookup(shared, x)) {
        assert CellOf(u, x) == CellOf(s, x);
      }
    } else {
      forall x ensures CellMatches(CellOf(u, x), Lookup(d.fabric, x), Lookup(shared, x)) {
        ActMatches(s, c, shared, here, a, steps, total, x);
      }
      ActAt(s, here, a, a.id);
      ActMatches(s, c, shared, here, a, steps, total, a.id);
    }
  }

  /** Every listing of the run would come out the same on the Fabric at the commit. */
  ghost predicate SelectionsHold(p: Program, s: Private, fabrics: seq<Fabric>, shared: Fabric)
    decreases |fabrics|
  {
    |fabrics| == 0 || p(s.seen).Halt? ||
    ((p(s.seen).Select? ==> SelectionHolds(s, fabrics[0], shared, p(s.seen).pick)) &&
     SelectionsHold(p, Act(s, fabrics[0], p(s.seen)), fabrics[1..], shared))
  }

  /** Observations only accumulate, so what holds at the end held all along. */
  lemma {:induction false} HeldBefore(p: Program, s: Private, shared: Fabric, fabrics: seq<Fabric>, steps: nat, total: nat)
    requires Tidy(s, steps, total) && Counters(shared, 0) && Holds(Speculate(p, s, fabrics), shared)
    requires steps + |fabrics| <= total && forall i :: 0 <= i < |fabrics| ==> Counters(fabrics[i], total)
    ensures Holds(s, shared)
    decreases |fabrics|
  {
    if |fabrics| > 0 && !p(s.seen).Halt? {
      ActTidy(s, shared, fabrics[0], p(s.seen), steps, total);
      HeldBefore(p, Act(s, fabrics[0], p(s.seen)), shared, fabrics[1..], steps + 1, total);
    }
  }

  lemma {:induction false} RunTidy(p: Program, s: Private, fabrics: seq<Fabric>, steps: nat, total: nat)
    requires Tidy(s, steps, total)
    requires steps + |fabrics| <= total && forall i :: 0 <= i < |fabrics| ==> Counters(fabrics[i], total)
    ensures Tidy(Speculate(p, s, fabrics), total, total)
    decreases |fabrics|
  {
    if |fabrics| > 0 && !p(s.seen).Halt? {
      ActTidy(s, map[], fabrics[0], p(s.seen), steps, total);
      RunTidy(p, Act(s, fabrics[0], p(s.seen)), fabrics[1..], steps + 1, total);
    } else {
      forall id ensures CellTidy(CellOf(s, id), total, total) {
        assert CellTidy(CellOf(s, id), steps, total);
      }
    }
  }

  lemma {:induction false} RunSimulates(p: Program, s: Private, c: Direct, shared: Fabric, fabrics: seq<Fabric>, steps: nat, total: nat)
    requires Tidy(s, steps, total) && Counters(shared, 0) && Simulates(s, c, shared)
    requires steps + |fabrics| <= total && forall i :: 0 <= i < |fabrics| ==> Counters(fabrics[i], total)
    requires Holds(Speculate(p, s, fabrics), shared) && SelectionsHold(p, s, fabrics, shared)
    ensures Simulates(Speculate(p, s, fabrics), Canonical(p, c, |fabrics|), shared)
    decreases |fabrics|
  {
    if |fabrics| > 0 && !p(s.seen).Halt? {
      var a := p(s.seen);
      var u := Act(s, fabrics[0], a);
      ActTidy(s, shared, fabrics[0], a, steps, total);
      HeldBefore(p, u, shared, fabrics[1..], steps + 1, total);
      ActSimulates(s, c, shared, fabrics[0], a, steps, total);
      RunSimulates(p, u, ActDirect(c, a), shared, fabrics[1..], steps + 1, total);
    }
  }

  // ---- Commit ---------------------------------------------------------------------------

  /** What the commit does not check and the theorem asks for: records only read or executed
      still equal their baselines, counters that were read have not moved, and records that
      were missed are still missing. */
  predicate UncheckedHolds(s: Private, shared: Fabric) {
    && (forall id :: id in s.read && !Changed(s, id) && !Deleted(s, id) ==>
          id in s.base && id in shared && NoExec(shared[id]) == NoExec(s.base[id]))
    && (forall id :: id in s.counted && id in shared && id in s.base ==> shared[id].execCount == s.base[id].execCount)
    && (forall id :: id in s.absent ==> id !in shared)
  }

  lemma CheckedAndUnchecked(s: Private, shared: Fabric, total: nat)
    requires Tidy(s, total, total) && Validates(s, shared) && UncheckedHolds(s, shared)
    ensures Holds(s, shared)
  {
    forall id ensures CellHolds(CellOf(s, id), Lookup(shared, id)) {
      assert CellTidy(CellOf(s, id), total, total);
    }
  }

  lemma CommittedAt(s: Private, c: Direct, shared: Fabric, total: nat, id: string)
    requires Tidy(s, total, total) && Simulates(s, c, shared) && Holds(s, shared) && Counters(shared, 0)
    ensures Lookup(Committed(s, shared), id) == Lookup(c.fabric, id)
  {
    assert CellTidy(CellOf(s, id), total, total);
    assert CellMatches(CellOf(s, id), Lookup(c.fabric, id), Lookup(shared, id));
    assert CellHolds(CellOf(s, id), Lookup(shared, id));
    assert InRange(Lookup(shared, id), 0);
  }

  lemma SameFabric(a: Fabric, b: Fabric)
    requires forall id :: Lookup(a, id) == Lookup(b, id)
    ensures a == b
  {
    forall id ensures id in a <==> id in b {
      assert Lookup(a, id) == Lookup(b, id);
    }
    forall id | id in a ensures a[id] == b[id] {
      assert Lookup(a, id) == Lookup(b, id);
    }
  }

  lemma SnapshotTidy(pending: Fabric, tombstones: set<string>, total: nat)
    requires pending.Keys !! tombstones && Counters(pending, total)
    ensures Tidy(Snapshot(pending, tombstones), 0, total)
  {
    forall id ensures CellTidy(CellOf(Snapshot(pending, tombstones), id), 0, total) {
      assert InRange(Lookup(pending, id), total);
    }
  }

  lemma NothingCreated(s: Private, total: nat, id: string)
    requires Tidy(s, total, total)
    ensures !Created(s, id)
  {
    assert CellTidy(CellOf(s, id), total, total);
  }

  /** Conditional serializability: if what the commit does not check still holds, committing
      the diff leaves the Fabric, the observations and the Frame of running the program
      in place at the commit point. */
  lemma CommitIsCanonical(p: Program, pending: Fabric, tombstones: set<string>, fabrics: seq<Fabric>, shared: Fabric)
    requires pending.Keys !! tombstones && Counters(pending, |fabrics|) && Counters(shared, 0)
    requires forall i :: 0 <= i < |fabrics| ==> Counters(fabrics[i], |fabrics|)
    requires var s := Speculate(p, Snapshot(pending, tombstones), fabrics);
             Validates(s, shared) && UncheckedHolds(s, shared)
    requires SelectionsHold(p, Snapshot(pending, tombstones), fabrics, shared)
    ensures var s := Speculate(p, Snapshot(pending, tombstones), fabrics);
            Canonical(p, Direct(shared, []), |fabrics|) == Direct(Committed(s, shared), s.seen)
  {
    var start := Snapshot(pending, tombstones);
    var total := |fabrics|;
    var s := Speculate(p, start, fabrics);
    var c := Canonical(p, Direct(shared, []), total);
    SnapshotTidy(pending, tombstones, total);
    RunTidy(p, start, fabrics, 0, total);
    CheckedAndUnchecked(s, shared, total);
    RunSimulates(p, start, Direct(shared, []), shared, fabrics, 0, total);
    forall id ensures Lookup(Committed(s, shared), id) == Lookup(c.fabric, id) {
      CommittedAt(s, c, shared, total, id);
    }
    SameFabric(Committed(s, shared), c.fabric);
  }

  // ---- Undisturbed runs -----------------------------------------------------------------

  /** What a run that nobody disturbs knows of one record. */
  predicate CellFresh(c: Cell, here: Option<Memory>) {
    && (c.base.Some? ==> c.base == here)
    && (c.absent || (c.deleted && !c.read) ==> here.None?)
    && (c.counted ==> c.base.Some?)
  }

  ghost predicate FreshRun(s: Private, f: Fabric) {
    forall id :: CellFresh(CellOf(s, id), Lookup(f, id))
  }

  lemma ActFresh(s: Private, f: Fabric, a: Action, steps: nat, total: nat)
    requires !a.Halt? && Tidy(s, steps, total) && FreshRun(s, f)
    ensures FreshRun(Act(s, f, a), f)
  {
    forall id ensures CellFresh(CellOf(Act(s, f, a), id), Lookup(f, id)) {
      assert CellTidy(CellOf(s, id), steps, total) && CellFresh(CellOf(s, id), Lookup(f, id));
      if OnRecord(a) {
        ActAt(s, f, a, id);
      } else {
        assert CellOf(Act(s, f, a), id) == CellOf(s, id);
      }
    }
  }

  lemma FreshSelects(s: Private, f: Fabric, pick: Memory -> bool, steps: nat, total: nat)
    requires Tidy(s, steps, total) && FreshRun(s, f)
    ensures SelectionHolds(s, f, f, pick)
  {
    forall id | id !in s.read ensures Visible(s, f, id) == Lookup(f, id) {
      assert CellTidy(CellOf(s, id), steps, total) && CellFresh(CellOf(s, id), Lookup(f, id));
    }
  }

  lemma {:induction false} FreshThroughout(p: Program, s: Private, f: Fabric, fabrics: seq<Fabric>, steps: nat, total: nat)
    requires Tidy(s, steps, total) && FreshRun(s, f) && Counters(f, total) && steps + |fabrics| <= total
    requires forall i :: 0 <= i < |fabrics| ==> fabrics[i] == f
    ensures FreshRun(Speculate(p, s, fabrics), f) && SelectionsHold(p, s, fabrics, f)
    decreases |fabrics|
  {
    if |fabrics| > 0 && !p(s.seen).Halt? {
      var a := p(s.seen);
      ActTidy(s, map[], f, a, steps, total);
      ActFresh(s, f, a, steps, total);
      if a.Select? {
        FreshSelects(s, f, a.pick, steps, total);
      }
      FreshThroughout(p, Act(s, f, a), f, fabrics[1..], steps + 1, total);
    }
  }

  lemma FreshValidates(s: Private, f: Fabric, total: nat)
    requires Tidy(s, total, total) && FreshRun(s, f)
    ensures Validates(s, f) && UncheckedHolds(s, f)
  {
    forall id
      ensures !Created(s, id) && (id in s.base ==> id in f && f[id] == s.base[id])
      ensures (id in s.read || id in s.counted ==> id in s.base) && (id in s.absent ==> id !in f)
    {
      assert CellTidy(CellOf(s, id), total, total) && CellFresh(CellOf(s, id), Lookup(f, id));
    }
  }

  /** A run that nobody disturbs always commits: for every program, its diff validates against
      the Fabric it ran on, and committing it is running the program in place. */
  lemma UndisturbedCommits(p: Program, pending: Fabric, tombstones: set<string>, f: Fabric, fabrics: seq<Fabric>)
    requires (forall id :: id in pending ==> id in f && f[id] == pending[id]) && tombstones !! f.Keys
    requires Counters(f, |fabrics|) && forall i :: 0 <= i < |fabrics| ==> fabrics[i] == f
    ensures var s := Speculate(p, Snapshot(pending, tombstones), fabrics);
            Validates(s, f) && Canonical(p, Direct(f, []), |fabrics|) == Direct(Committed(s, f), s.seen)
  {
    var start, total := Snapshot(pending, tombstones), |fabrics|;
    forall id ensures InRange(Lookup(pending, id), total) && InRange(Lookup(f, id), 0) && CellFresh(CellOf(start, id), Lookup(f, id)) {
      assert InRange(Lookup(f, id), total);
    }
    SnapshotTidy(pending, tombstones, total);
    RunTidy(p, start, fabrics, 0, total);
    FreshThroughout(p, start, f, fabrics, 0, total);
    FreshValidates(Speculate(p, start, fabrics), f, total);
    CommitIsCanonical(p, pending, tombstones, fabrics, f);
  }

  // ---- Histories ------------------------------------------------------------------------

  /** Running the program in place turns `f` into `g` and halts with this Frame. */
  ghost predicate RunsTo(p: Program, f: Fabric, g: Fabric, frame: string) {
    exists n: nat :: var c := Canonical(p, Direct(f, []), n); c.fabric == g && p(c.seen) == Halt(frame)
  }

  /** One scheduled program: the snapshot it started from and the Fabrics it paged from. */
  datatype Attempt = Attempt(program: Program, pending: Fabric, tombstones: set<string>, fabrics: seq<Fabric>)

  function PrivateOf(t: Attempt): Private {
    Speculate(t.program, Snapshot(t.pending, t.tombstones), t.fabrics)
  }

  ghost predicate WellFormed(t: Attempt) {
    t.pending.Keys !! t.tombstones && Counters(t.pending, |t.fabrics|) &&
    forall i :: 0 <= i < |t.fabrics| ==> Counters(t.fabrics[i], |t.fabrics|)
  }

  /** The scheduler in the commit lane: a diff that validates is committed with the private
      Frame, any other attempt is replayed in place. */
  ghost predicate Schedules(t: Attempt, f: Fabric, g: Fabric, frame: string) {
    var s := PrivateOf(t);
    if t.program(s.seen).Halt? && Validates(s, f)
    then g == Committed(s, f) && t.program(s.seen) == Halt(frame)
    else RunsTo(t.program, f, g, frame)
  }

  /** What the commit lane leaves unchecked holds for this attempt. */
  ghost predicate Fair(t: Attempt, f: Fabric) {
    WellFormed(t) && Counters(f, 0) && (Validates(PrivateOf(t), f) ==>
       UncheckedHolds(PrivateOf(t), f) && SelectionsHold(t.program, Snapshot(t.pending, t.tombstones), t.fabrics, f))
  }

  ghost predicate History(ts: seq<Attempt>, states: seq<Fabric>, frames: seq<string>) {
    |states| == |ts| + 1 && |frames| == |ts| &&
    forall i :: 0 <= i < |ts| ==> Schedules(ts[i], states[i], states[i + 1], frames[i])
  }

  ghost predicate Serial(ps: seq<Program>, f: Fabric, g: Fabric, frames: seq<string>)
    requires |ps| == |frames|
    decreases |ps|
  {
    if |ps| == 0 then f == g
    else exists h :: RunsTo(ps[0], f, h, frames[0]) && Serial(ps[1..], h, g, frames[1..])
  }

  lemma ScheduleIsCanonical(t: Attempt, f: Fabric, g: Fabric, frame: string)
    requires Schedules(t, f, g, frame) && Fair(t, f)
    ensures RunsTo(t.program, f, g, frame)
  {
    var s := PrivateOf(t);
    if t.program(s.seen).Halt? && Validates(s, f) {
      CommitIsCanonical(t.program, t.pending, t.tombstones, t.fabrics, f);
      assert Canonical(t.program, Direct(f, []), |t.fabrics|) == Direct(g, s.seen);
    }
  }

  function Programs(ts: seq<Attempt>): (ps: seq<Program>)
    ensures |ps| == |ts|
  {
    if |ts| == 0 then [] else [ts[0].program] + Programs(ts[1..])
  }

  /** Any history of fair commits and replays is a serial one, in commit order. */
  lemma {:induction false} HistoryIsSerial(ts: seq<Attempt>, states: seq<Fabric>, frames: seq<string>)
    requires History(ts, states, frames) && forall i :: 0 <= i < |ts| ==> Fair(ts[i], states[i])
    ensures Serial(Programs(ts), states[0], states[|ts|], frames)
    decreases |ts|
  {
    if |ts| > 0 {
      ScheduleIsCanonical(ts[0], states[0], states[1], frames[0]);
      forall i | 0 <= i < |ts| - 1
        ensures Schedules(ts[1..][i], states[1..][i], states[1..][i + 1], frames[1..][i]) && Fair(ts[1..][i], states[1..][i])
      {
        assert Schedules(ts[i + 1], states[i + 1], states[i + 2], frames[i + 1]) && Fair(ts[i + 1], states[i + 1]);
      }
      HistoryIsSerial(ts[1..], states[1..], frames[1..]);
      assert Programs(ts)[1..] == Programs(ts[1..]);
    }
  }

  // ---- Why each part of the condition is needed ----------------------------------------

  /** The observing actions. */
  predicate Observes(w: Action) {
    w.Get? || w.ReadCount? || w.Select?
  }

  function ObservedIn(f: Fabric, w: Action): Obs
    requires Observes(w)
  {
    if w.Select? then Listed(SelectedDirect(f, w.pick)) else Sees(Lookup(f, w.id), w)
  }

  /** Observes once and writes one of two records, depending on what it saw. */
  ghost function Watcher(w: Action, expected: Obs, to: string, yes: Memory, no: Memory): Program {
    (seen: seq<Obs>) =>
      if |seen| == 0 then w
      else if |seen| == 1 then Set(to, if seen[0] == expected then yes else no)
      else Halt("watched")
  }

  lemma WatcherSees(f: Fabric, w: Action) returns (s: Private)
    requires Observes(w)
    ensures s == Act(Snapshot(map[], {}), f, w) && s.seen == [ObservedIn(f, w)] && s.deleted == {}
    ensures s.cache == s.base && forall id :: id in s.base ==> !w.Select? && id == w.id && id in f && s.base[id] == f[id]
  {
    var s0 := Snapshot(map[], {});
    s := Act(s0, f, w);
    if w.Select? {
      assert Selected(s0, f, w.pick) == SelectedDirect(f, w.pick);
    }
  }

  lemma WatcherSpeculates(f: Fabric, w: Action, to: string, yes: Memory, no: Memory) returns (s: Private)
    requires Observes(w) && (w.Select? || w.id != to) && to in f
    ensures s == Speculate(Watcher(w, ObservedIn(f, w), to, yes, no), Snapshot(map[], {}), [f, f])
    ensures s.seen == [ObservedIn(f, w), Acted] && s.deleted == {}
    ensures to in s.base && s.base[to] == f[to] && s.cache == s.base[to := yes.(execCount := f[to].execCount)]
  {
    var p := Watcher(w, ObservedIn(f, w), to, yes, no);
    var s0 := Snapshot(map[], {});
    var s1 := WatcherSees(f, w);
    assert p(s0.seen) == w && p(s1.seen) == Set(to, yes);
    s := Act(s1, f, Set(to, yes));
    SpeculateTwice(p, s0, s1, s, f);
    SetPagesIn(s1, f, to, yes);
  }

  /** Two actions on the same Fabric. */
  lemma SpeculateTwice(p: Program, s0: Private, s1: Private, s2: Private, f: Fabric)
    requires !p(s0.seen).Halt? && s1 == Act(s0, f, p(s0.seen))
    requires !p(s1.seen).Halt? && s2 == Act(s1, f, p(s1.seen))
    ensures Speculate(p, s0, [f, f]) == s2
  {
    assert [f, f][1..] == [f] && [f][1..] == [];
    assert Speculate(p, s1, [f]) == Speculate(p, s2, []);
  }

  /** Writing a record that was not paged in yet. */
  lemma SetPagesIn(s: Private, f: Fabric, to: string, m: Memory)
    requires to in f && to !in s.base && s.cache == s.base && s.deleted == {}
    ensures var t := Act(s, f, Set(to, m));
            && t.base == s.base[to := f[to]] && t.cache == t.base[to := m.(execCount := f[to].execCount)]
            && t.seen == s.seen + [Acted] && t.deleted == {}
  {
  }

  lemma WatcherCommits(s: Private, g: Fabric, to: string, n: Memory)
    requires s.deleted == {} && to in s.base && to in g && g[to] == s.base[to] && n.execCount == g[to].execCount
    requires s.cache == s.base[to := n] && NoExec(n) != NoExec(g[to]) && Counters(g, 0)
    ensures Validates(s, g) && to in Committed(s, g) && Committed(s, g)[to] == n
  {
    assert InRange(Lookup(g, to), 0);
    assert Changed(s, to) && !Deleted(s, to) && Delta(s, to) == 0;
    forall id | id in s.base && id != to ensures !Changed(s, id) && !Deleted(s, id) && Delta(s, id) == 0 {
    }
  }

  lemma WatcherRuns(g: Fabric, w: Action, expected: Obs, to: string, yes: Memory, no: Memory, h: Fabric, frame: string)
    requires Observes(w) && to in g && ObservedIn(g, w) != expected
    requires RunsTo(Watcher(w, expected, to, yes, no), g, h, frame)
    ensures to in h && NoExec(h[to]) == NoExec(no)
  {
    var p := Watcher(w, expected, to, yes, no);
    var n: nat :| var c := Canonical(p, Direct(g, []), n); c.fabric == h && p(c.seen) == Halt(frame);
    var c0 := Direct(g, []);
    var c1 := ActDirect(c0, w);
    assert c1.seen == [ObservedIn(g, w)] && c1.fabric == g;
    var c2 := ActDirect(c1, Set(to, no));
    assert p(c0.seen) == w && p(c1.seen) == Set(to, no) && p(c2.seen).Halt?;
    if n >= 2 {
      assert Canonical(p, c0, n) == Canonical(p, c1, n - 1);
      assert Canonical(p, c1, n - 1) == Canonical(p, c2, n - 2);
    }
  }

  /** Whenever an observation would come out differently at the commit, some program's diff
      validates and commits to something else than running in place. */
  lemma StaleObservationDiverges(f: Fabric, g: Fabric, w: Action, to: string, yes: Memory, no: Memory)
    requires Observes(w) && (w.Select? || w.id != to) && to in f && to in g && f[to] == g[to] && Counters(g, 0)
    requires ObservedIn(f, w) != ObservedIn(g, w)
    requires NoExec(yes) != NoExec(f[to]) && NoExec(yes) != NoExec(no)
    ensures exists t, h ::
              Validates(PrivateOf(t), g) && Schedules(t, g, h, "watched") && !RunsTo(t.program, g, h, "watched")
  {
    var t, h := WatcherSchedules(f, g, w, to, yes, no);
    if RunsTo(t.program, g, h, "watched") {
      WatcherRuns(g, w, ObservedIn(f, w), to, yes, no, h, "watched");
    }
  }

  lemma WatcherSchedules(f: Fabric, g: Fabric, w: Action, to: string, yes: Memory, no: Memory) returns (t: Attempt, h: Fabric)
    requires Observes(w) && (w.Select? || w.id != to) && to in f && to in g && f[to] == g[to] && Counters(g, 0)
    requires NoExec(yes) != NoExec(f[to])
    ensures t.program == Watcher(w, ObservedIn(f, w), to, yes, no)
    ensures Validates(PrivateOf(t), g) && Schedules(t, g, h, "watched") && to in h && NoExec(h[to]) == NoExec(yes)
  {
    var p := Watcher(w, ObservedIn(f, w), to, yes, no);
    t := Attempt(p, map[], {}, [f, f]);
    var s := WatcherSpeculates(f, w, to, yes, no);
    assert p(s.seen) == Halt("watched");
    WatcherCommits(s, g, to, yes.(execCount := f[to].execCount));
    h := Committed(s, g);
    assert PrivateOf(t) == s;
  }

  /** The four ways an observation can come out differently: a record that was read changed,
      a counter that was read moved, a record that was missed is there, a listing differs. */
  lemma ObservationsDiffer(f: Fabric, g: Fabric, x: string, pick: Memory -> bool)
    ensures x in f && x in g && NoExec(f[x]) != NoExec(g[x]) ==> ObservedIn(f, Get(x)) != ObservedIn(g, Get(x))
    ensures x in f && x in g && f[x].execCount != g[x].execCount ==> ObservedIn(f, ReadCount(x)) != ObservedIn(g, ReadCount(x))
    ensures x !in f && x in g ==> ObservedIn(f, Get(x)) != ObservedIn(g, Get(x))
    ensures Chosen(Lookup(f, x), pick) != Chosen(Lookup(g, x), pick) ==> ObservedIn(f, Select(pick)) != ObservedIn(g, Select(pick))
  {
    assert x in SelectedDirect(f, pick) <==> Chosen(Lookup(f, x), pick);
    assert x in SelectedDirect(g, pick) <==> Chosen(Lookup(g, x), pick);
  }

  // ---- Why serializability fails without it --------------------------------------------

  function Renamed(m: Memory, id: string): Memory {
    NoExec(m).(id := id)
  }

  /** Copies what it reads at one id to another. */
  function Copier(from: string, to: string): Program {
    (seen: seq<Obs>) =>
      if |seen| == 0 then Get(from)
      else if |seen| == 1 && seen[0].Found? then Set(to, Renamed(seen[0].m, to))
      else Halt("copied")
  }

  /** What the copier makes of the target. */
  function Copied(from: Memory, to: Memory, id: string): Memory {
    Renamed(from, id).(execCount := to.execCount)
  }

  function CopierPrivate(from: string, to: string, m: Memory, n: Memory): Private {
    Private(map[from := m, to := n], map[from := m, to := Copied(m, n, to)],
            {}, {from, to}, {}, {}, [Found(NoExec(m)), Acted])
  }

  lemma CopierSpeculates(from: string, to: string, f: Fabric)
    requires from != to && from in f && to in f
    ensures Speculate(Copier(from, to), Snapshot(map[], {}), [f, f]) == CopierPrivate(from, to, f[from], f[to])
  {
    var p := Copier(from, to);
    var s0 := Snapshot(map[], {});
    var s1 := Act(s0, f, Get(from));
    CopierReads(from, f);
    var s2 := Act(s1, f, Set(to, Renamed(f[from], to)));
    SpeculateTwice(p, s0, s1, s2, f);
    CopierWrites(from, to, f);
  }

  function CopierRead(from: string, m: Memory): Private {
    Private(map[from := m], map[from := m], {}, {from}, {}, {}, [Found(NoExec(m))])
  }

  lemma CopierReads(from: string, f: Fabric)
    requires from in f
    ensures Act(Snapshot(map[], {}), f, Get(from)) == CopierRead(from, f[from])
  {
  }

  lemma CopierWrites(from: string, to: string, f: Fabric)
    requires from != to && from in f && to in f
    ensures Act(CopierRead(from, f[from]), f, Set(to, Renamed(f[from], to))) == CopierPrivate(from, to, f[from], f[to])
  {
    var s := CopierRead(from, f[from]);
    SetPagesIn(s, f, to, Renamed(f[from], to));
  }

  lemma CopierRuns(from: string, to: string, f: Fabric, n: nat)
    requires from != to && from in f && to in f && n >= 2
    ensures Canonical(Copier(from, to), Direct(f, []), n) ==
            Direct(f[to := Copied(f[from], f[to], to)], [Found(NoExec(f[from])), Acted])
  {
    var p := Copier(from, to);
    var c0 := Direct(f, []);
    var c1 := ActDirect(c0, Get(from));
    assert c1 == Direct(f, [Found(NoExec(f[from]))]);
    var c2 := ActDirect(c1, Set(to, Renamed(f[from], to)));
    assert Canonical(p, c0, n) == Canonical(p, c1, n - 1);
    assert Canonical(p, c1, n - 1) == Canonical(p, c2, n - 2);
    assert p(c2.seen).Halt?;
  }

  lemma CopierRunsTo(from: string, to: string, f: Fabric, g: Fabric, frame: string)
    requires from != to && from in f && to in f && RunsTo(Copier(from, to), f, g, frame)
    ensures g == f[to := Copied(f[from], f[to], to)]
  {
    var p := Copier(from, to);
    var n: nat :| var c := Canonical(p, Direct(f, []), n); c.fabric == g && p(c.seen) == Halt(frame);
    if n >= 2 {
      CopierRuns(from, to, f, n);
    }
  }

  lemma CopierCommittedAt(from: string, to: string, m: Memory, g: Fabric, id: string)
    requires from != to && to in g && Counters(g, 0) && Renamed(m, to) != NoExec(g[to])
    ensures var s := CopierPrivate(from, to, m, g[to]);
            Lookup(Committed(s, g), id) == Lookup(g[to := Copied(m, g[to], to)], id)
  {
    var s := CopierPrivate(from, to, m, g[to]);
    assert InRange(Lookup(g, id), 0);
    assert Changed(s, to) && !Changed(s, from);
    assert Delta(s, id) == 0;
  }

  /** The target is validated, the source is not: the copy validates as long as the target
      still holds its baseline. */
  lemma CopierValidates(from: string, to: string, m: Memory, g: Fabric)
    requires from != to && to in g && Counters(g, 0) && Renamed(m, to) != NoExec(g[to])
    ensures var s := CopierPrivate(from, to, m, g[to]);
            Validates(s, g) && Committed(s, g) == g[to := Copied(m, g[to], to)]
  {
    var s := CopierPrivate(from, to, m, g[to]);
    assert !Changed(s, from) && !Deleted(s, from) && Delta(s, from) == 0 && Delta(s, to) == 0;
    forall id ensures Lookup(Committed(s, g), id) == Lookup(g[to := Copied(m, g[to], to)], id) {
      CopierCommittedAt(from, to, m, g, id);
    }
    SameFabric(Committed(s, g), g[to := Copied(m, g[to], to)]);
  }

  function CopyAttempt(from: string, to: string, f: Fabric): Attempt {
    Attempt(Copier(from, to), map[], {}, [f, f])
  }

  lemma CopierCommits(from: string, to: string, f: Fabric, g: Fabric)
    requires from != to && from in f && to in f && to in g && f[to] == g[to]
    requires Renamed(f[from], to) != NoExec(f[to]) && Counters(g, 0)
    ensures Validates(PrivateOf(CopyAttempt(from, to, f)), g)
    ensures Schedules(CopyAttempt(from, to, f), g, g[to := Copied(f[from], g[to], to)], "copied")
  {
    var t := CopyAttempt(from, to, f);
    var s := CopierPrivate(from, to, f[from], f[to]);
    assert PrivateOf(t) == s by { CopierSpeculates(from, to, f); }
    assert t.program(s.seen) == Halt("copied");
    CopierValidates(from, to, f[from], g);
  }

  /** Two copies in opposite directions that both started before either committed swap the
      records, which neither serial order does. */
  lemma WriteSkew(f: Fabric, x: string, y: string)
    requires x != y && x in f && y in f && f[x].id == x && f[y].id == y && Counters(f, 2)
    requires Renamed(f[x], "") != Renamed(f[y], "")
    ensures exists g, h ::
              History([CopyAttempt(x, y, f), CopyAttempt(y, x, f)], [f, g, h], ["copied", "copied"]) &&
              !Serial([Copier(x, y), Copier(y, x)], f, h, ["copied", "copied"]) &&
              !Serial([Copier(y, x), Copier(x, y)], f, h, ["copied", "copied"])
  {
    var g := f[y := Copied(f[x], f[y], y)];
    var h := g[x := Copied(f[y], g[x], x)];
    BothCommit(f, x, y);
    NotSerial(f, h, x, y);
    assert h == f[x := Copied(f[y], f[x], x)][y := Copied(f[x], f[y], y)];
    NotSerial(f, h, y, x);
  }

  lemma BothCommit(f: Fabric, x: string, y: string)
    requires x != y && x in f && y in f && f[x].id == x && f[y].id == y && Counters(f, 2)
    requires Renamed(f[x], "") != Renamed(f[y], "")
    ensures var g := f[y := Copied(f[x], f[y], y)];
            History([CopyAttempt(x, y, f), CopyAttempt(y, x, f)], [f, g, g[x := Copied(f[y], g[x], x)]], ["copied", "copied"])
  {
    var g := f[y := Copied(f[x], f[y], y)];
    forall id ensures InRange(Lookup(f, id), 0) && InRange(Lookup(g, id), 0) {
      assert InRange(Lookup(f, id), 2) && InRange(Lookup(f, y), 2);
    }
    CopierCommits(x, y, f, f);
    CopierCommits(y, x, f, g);
    TwoSteps(CopyAttempt(x, y, f), CopyAttempt(y, x, f), f, g, g[x := Copied(f[y], g[x], x)], "copied");
  }

  lemma TwoSteps(t: Attempt, u: Attempt, f: Fabric, g: Fabric, h: Fabric, frame: string)
    requires Schedules(t, f, g, frame) && Schedules(u, g, h, frame)
    ensures History([t, u], [f, g, h], [frame, frame])
  {
  }

  lemma NotSerial(f: Fabric, h: Fabric, x: string, y: string)
    requires x != y && x in f && y in f && f[x].id == x && f[y].id == y
    requires Renamed(f[x], "") != Renamed(f[y], "")
    requires h == f[y := Copied(f[x], f[y], y)][x := Copied(f[y], f[x], x)]
    ensures !Serial([Copier(x, y), Copier(y, x)], f, h, ["copied", "copied"])
  {
    var g := f[y := Copied(f[x], f[y], y)];
    assert h[x] != Copied(g[y], g[x], x);
    if Serial([Copier(x, y), Copier(y, x)], f, h, ["copied", "copied"]) {
      SerialCopies(f, h, x, y);
    }
  }

  lemma SerialCopies(f: Fabric, h: Fabric, x: string, y: string)
    requires x != y && x in f && y in f && Serial([Copier(x, y), Copier(y, x)], f, h, ["copied", "copied"])
    ensures var g := f[y := Copied(f[x], f[y], y)]; h == g[x := Copied(g[y], g[x], x)]
  {
    var ps, frames := [Copier(x, y), Copier(y, x)], ["copied", "copied"];
    var g :| RunsTo(ps[0], f, g, frames[0]) && Serial(ps[1..], g, h, frames[1..]);
    CopierRunsTo(x, y, f, g, "copied");
    var k :| RunsTo(ps[1..][0], g, k, frames[1..][0]) && Serial(ps[1..][1..], k, h, frames[1..][1..]);
    CopierRunsTo(y, x, g, k, "copied");
  }
}
