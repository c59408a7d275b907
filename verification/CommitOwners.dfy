/** The order in which commits lock their bodies: by path, then by body id. */
module CommitOwners {
  import opened Strings
  import CommitLocking

  /** A body is known by its canonical path and its id; no two mounted bodies share both. */
  datatype Owner = Owner(path: string, bodyId: string)

  predicate OwnerLess(a: Owner, b: Owner) {
    if a.path != b.path then StringLess(a.path, b.path) else StringLess(a.bodyId, b.bodyId)
  }

  lemma OwnerTransitive(a: Owner, b: Owner, c: Owner)
    requires OwnerLess(a, b) && OwnerLess(b, c)
    ensures OwnerLess(a, c)
  {
    if a.path != b.path && b.path != c.path {
      StringLessTransitive(a.path, b.path, c.path);
      StringLessIrreflexive(a.path);
    } else if a.path == b.path == c.path {
      StringLessTransitive(a.bodyId, b.bodyId, c.bodyId);
    }
  }

  lemma OwnerIrreflexive(a: Owner)
    ensures !OwnerLess(a, a)
  {
    StringLessIrreflexive(a.bodyId);
  }

  lemma OwnerConnected(a: Owner, b: Owner)
    ensures a == b || OwnerLess(a, b) || OwnerLess(b, a)
  {
    StringLessConnected(a.path, b.path);
    StringLessConnected(a.bodyId, b.bodyId);
  }

  ghost predicate InOrder(os: seq<Owner>) {
    forall i, j :: 0 <= i < j < |os| ==> OwnerLess(os[i], os[j])
  }

  /** Sorted insertion that keeps one copy. */
  function InsertOwner(o: Owner, os: seq<Owner>): (r: seq<Owner>)
    ensures forall x :: x in r <==> x == o || x in os
  {
    if |os| == 0 then [o]
    else if o == os[0] then os
    else if OwnerLess(o, os[0]) then [o] + os
    else
      assert os == [os[0]] + os[1..];
      [os[0]] + InsertOwner(o, os[1..])
  }

  lemma {:induction false} InsertInOrder(o: Owner, os: seq<Owner>)
    requires InOrder(os)
    ensures InOrder(InsertOwner(o, os))
  {
    if |os| > 0 && o != os[0] {
      if OwnerLess(o, os[0]) {
        forall i | 0 < i < |os| ensures OwnerLess(o, os[i]) {
          OwnerTransitive(o, os[0], os[i]);
        }
      } else {
        OwnerConnected(o, os[0]);
        InsertInOrder(o, os[1..]);
        var rest := InsertOwner(o, os[1..]);
        forall j | 0 <= j < |rest| ensures OwnerLess(os[0], rest[j]) {
          assert rest[j] in rest;
        }
      }
    }
  }

  /** `speculativeCommitOwners`: each owner once, in lock order. */
  method CommitOwnersOf(planned: seq<Owner>) returns (out: seq<Owner>)
    ensures InOrder(out) && forall o :: o in out <==> o in planned
  {
    out := [];
    for i := 0 to |planned|
      invariant InOrder(out) && forall o :: o in out <==> o in planned[..i]
    {
      InsertInOrder(planned[i], out);
      out := InsertOwner(planned[i], out);
      assert planned[..i + 1] == planned[..i] + [planned[i]];
    }
    assert planned[..|planned|] == planned;
  }

  /** The place of a body in the order of all mounted bodies. */
  ghost function Rank(all: set<Owner>, o: Owner): nat {
    |Below(all, o)|
  }

  ghost function Below(all: set<Owner>, o: Owner): set<Owner> {
    set x | x in all && OwnerLess(x, o)
  }

  lemma RankFollows(all: set<Owner>, a: Owner, b: Owner)
    requires a in all && OwnerLess(a, b)
    ensures Rank(all, a) < Rank(all, b)
  {
    forall x | x in Below(all, a) ensures x in Below(all, b) {
      OwnerTransitive(x, a, b);
    }
    OwnerIrreflexive(a);
    var more := Below(all, b) - Below(all, a);
    assert a in more;
    assert Below(all, b) == Below(all, a) + more;
  }

  /** Distinct bodies have distinct ranks, so locking by rank is locking by body. */
  lemma RankIsIdentity(all: set<Owner>, a: Owner, b: Owner)
    requires a in all && b in all
    ensures Rank(all, a) == Rank(all, b) <==> a == b
  {
    OwnerConnected(a, b);
    if OwnerLess(a, b) {
      RankFollows(all, a, b);
    } else if OwnerLess(b, a) {
      RankFollows(all, b, a);
    }
  }

  /** The lock order of every commit is increasing in one ranking of all bodies, which is what
      rules deadlock out. */
  lemma OwnersAreRanked(all: set<Owner>, out: seq<Owner>, ranks: seq<nat>)
    requires InOrder(out) && (forall o :: o in out ==> o in all)
    requires |ranks| == |out| && forall i :: 0 <= i < |out| ==> ranks[i] == Rank(all, out[i])
    ensures CommitLocking.Increasing(ranks)
  {
    forall i, j | 0 <= i < j < |ranks| ensures ranks[i] < ranks[j] {
      assert out[i] in out;
      RankFollows(all, out[i], out[j]);
    }
  }
}
