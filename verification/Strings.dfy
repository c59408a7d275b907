/** Byte-order comparison, sorted id pages and whitespace trimming, shared by
    every index and by the Mesh identities. */
module Strings {

  /** The strict order `sort.Strings` sorts by. */
  predicate StringLess(a: string, b: string) {
    && |b| > 0
    && (|a| == 0 || a[0] < b[0] || (a[0] == b[0] && StringLess(a[1..], b[1..])))
  }

  /** It is decided where the strings first differ; a proper prefix comes first. */
  lemma {:induction false} StringLessIff(a: string, b: string)
    ensures StringLess(a, b) <==>
            (|a| < |b| && b[..|a|] == a) || exists i :: 0 <= i < |a| && i < |b| && a[..i] == b[..i] && a[i] < b[i]
  {
    if |a| > 0 && |b| > 0 && a[0] == b[0] {
      StringLessIff(a[1..], b[1..]);
      assert a == [a[0]] + a[1..] && b == [a[0]] + b[1..];
      if |a| < |b| {
        assert b[..|a|] == [a[0]] + b[1..][..|a| - 1];
      }
      if i :| 0 <= i < |a| - 1 && i < |b| - 1 && a[1..][..i] == b[1..][..i] && a[1..][i] < b[1..][i] {
        assert a[..i + 1] == [a[0]] + a[1..][..i] && b[..i + 1] == [a[0]] + b[1..][..i];
        assert a[i + 1] < b[i + 1];
      }
      if i :| 0 <= i < |a| && i < |b| && a[..i] == b[..i] && a[i] < b[i] {
        assert a[1..][..i - 1] == a[..i][1..] && b[1..][..i - 1] == b[..i][1..];
        assert a[1..][i - 1] < b[1..][i - 1];
      }
    } else if |a| > 0 && |b| > 0 {
      assert a[..0] == b[..0];
      forall i | 0 < i <= |a| && i <= |b| ensures a[..i] != b[..i] {
        assert a[..i][0] == a[0] && b[..i][0] == b[0];
      }
    }
  }

  lemma {:induction false} StringLessTransitive(a: string, b: string, c: string)
    requires StringLess(a, b) && StringLess(b, c)
    ensures StringLess(a, c)
  {
    if |a| > 0 && a[0] == b[0] == c[0] {
      StringLessTransitive(a[1..], b[1..], c[1..]);
    }
  }

  lemma {:induction false} StringLessIrreflexive(a: string)
    ensures !StringLess(a, a)
  {
    if |a| > 0 {
      StringLessIrreflexive(a[1..]);
    }
  }

  lemma {:induction false} StringLessConnected(a: string, b: string)
    ensures a == b || StringLess(a, b) || StringLess(b, a)
  {
    if |a| > 0 && |b| > 0 && a[0] == b[0] {
      StringLessConnected(a[1..], b[1..]);
      assert a == [a[0]] + a[1..] && b == [b[0]] + b[1..];
    }
  }

  /** Strictly increasing: sorted and without duplicates. */
  ghost predicate Sorted(s: seq<string>) {
    forall i, j :: 0 <= i < j < |s| ==> StringLess(s[i], s[j])
  }

  ghost function Elems<T>(s: seq<T>): set<T> {
    set x | x in s
  }

  /** A strictly increasing page is determined by its set of ids. */
  lemma {:induction false} SortedUnique(a: seq<string>, b: seq<string>)
    requires Sorted(a) && Sorted(b)
    requires Elems(a) == Elems(b)
    ensures a == b
    decreases |a|
  {
    if a == [] {
      assert forall i :: 0 <= i < |b| ==> b[i] in Elems(b);
    } else {
      assert a[0] in Elems(b);
      assert b[0] in Elems(a);
      SortedHead(a, b[0]);
      SortedHead(b, a[0]);
      if a[0] != b[0] {
        StringLessTransitive(a[0], b[0], a[0]);
        StringLessIrreflexive(a[0]);
      }
      SortedTail(a);
      SortedTail(b);
      SortedUnique(a[1..], b[1..]);
      assert a == [a[0]] + a[1..] && b == [b[0]] + b[1..];
    }
  }

  lemma SortedHead(a: seq<string>, x: string)
    requires Sorted(a) && x in a
    ensures x == a[0] || StringLess(a[0], x)
  {
    var i :| 0 <= i < |a| && a[i] == x;
  }

  lemma SortedTail(a: seq<string>)
    requires Sorted(a) && |a| > 0
    ensures Sorted(a[1..])
    ensures Elems(a[1..]) == Elems(a) - {a[0]}
  {
    forall x | x in a[1..]
      ensures x != a[0]
    {
      var i :| 0 <= i < |a[1..]| && a[1..][i] == x;
      assert StringLess(a[0], a[i + 1]);
      StringLessIrreflexive(x);
    }
    assert a == [a[0]] + a[1..];
  }

  /** A sorted sequence has no duplicates. */
  lemma {:induction false} SortedLength(a: seq<string>)
    requires Sorted(a)
    ensures |Elems(a)| == |a|
    ensures forall i, j :: 0 <= i < j < |a| ==> a[i] != a[j]
  {
    forall i, j | 0 <= i < j < |a| ensures a[i] != a[j] {
      StringLessIrreflexive(a[i]);
    }
    if |a| > 0 {
      var n := |a| - 1;
      SortedLength(a[..n]);
      assert Elems(a) == Elems(a[..n]) + {a[n]};
    }
  }

  lemma ElemsNext(xs: seq<string>, k: nat)
    requires k < |xs|
    ensures Elems(xs[..k + 1]) == Elems(xs[..k]) + {xs[k]}
  {
  }

  lemma SubsetSize(a: set<string>, b: set<string>)
    requires a <= b
    ensures |a| <= |b|
  {
    assert b == a + (b - a);
  }

  /** Sorted insertion, the step of building a sorted id page. */
  function Insert(x: string, s: seq<string>): (r: seq<string>)
    requires Sorted(s)
    ensures Sorted(r)
    ensures Elems(r) == Elems(s) + {x}
  {
    if s == [] then
      [x]
    else if x == s[0] then
      s
    else if StringLess(x, s[0]) then
      InsertFront(x, s);
      [x] + s
    else
      StringLessConnected(x, s[0]);
      SortedTail(s);
      var rest := Insert(x, s[1..]);
      InsertBehind(s, x, rest);
      [s[0]] + rest
  }

  lemma InsertFront(x: string, s: seq<string>)
    requires Sorted(s) && |s| > 0 && StringLess(x, s[0])
    ensures Sorted([x] + s) && Elems([x] + s) == Elems(s) + {x}
  {
    forall i | 0 <= i < |s|
      ensures StringLess(x, s[i])
    {
      if i > 0 {
        StringLessTransitive(x, s[0], s[i]);
      }
    }
  }

  lemma InsertBehind(s: seq<string>, x: string, rest: seq<string>)
    requires Sorted(s) && |s| > 0 && StringLess(s[0], x)
    requires Sorted(rest) && Elems(rest) == Elems(s[1..]) + {x}
    ensures Sorted([s[0]] + rest) && Elems([s[0]] + rest) == Elems(s) + {x}
  {
    forall i | 0 <= i < |rest|
      ensures StringLess(s[0], rest[i])
    {
      assert rest[i] in Elems(rest);
      if rest[i] != x {
        assert rest[i] in s[1..];
        SortedHead(s, rest[i]);
        SortedTail(s);
      }
    }
    ElemsCons(s[0], rest);
    ElemsCons(s[0], s[1..]);
    assert s == [s[0]] + s[1..];
  }

  lemma ElemsCons(x: string, s: seq<string>)
    ensures Elems([x] + s) == {x} + Elems(s)
  {
    forall y ensures y in [x] + s <==> y == x || y in s {
    }
  }

  /** `sort.Strings` over the keys of a set-like map. */
  method SortIds(ids: set<string>) returns (out: seq<string>)
    ensures Sorted(out)
    ensures Elems(out) == ids
  {
    out := [];
    var rest := ids;
    while rest != {}
      invariant rest <= ids
      invariant Sorted(out)
      invariant Elems(out) == ids - rest
      decreases rest
    {
      var id :| id in rest;
      out := Insert(id, out);
      rest := rest - {id};
    }
  }

  /** The characters `strings.TrimSpace` strips. */
  predicate IsSpace(c: char) {
    || '\t' <= c <= '\r'
    || c == ' ' || c == '\U{85}' || c == '\U{A0}' || c == '\U{1680}'
    || '\U{2000}' <= c <= '\U{200A}'
    || c == '\U{2028}' || c == '\U{2029}' || c == '\U{202F}' || c == '\U{205F}' || c == '\U{3000}'
  }

  function TrimLeft(s: string): string {
    if |s| > 0 && IsSpace(s[0]) then TrimLeft(s[1..]) else s
  }

  function TrimRight(s: string): string {
    if |s| > 0 && IsSpace(s[|s| - 1]) then TrimRight(s[..|s| - 1]) else s
  }

  function TrimSpace(s: string): string {
    TrimRight(TrimLeft(s))
  }

  predicate HasPrefix(s: string, p: string) {
    |p| <= |s| && s[..|p|] == p
  }

  predicate AllSpace(s: string) {
    forall k :: 0 <= k < |s| ==> IsSpace(s[k])
  }

  /** `t`, then nothing but space. */
  predicate Padded(s: string, t: string) {
    HasPrefix(s, t) && AllSpace(s[|t|..])
  }

  predicate EndsTight(t: string) {
    t == "" || !IsSpace(t[|t| - 1])
  }

  lemma {:induction false} TrimRightIff(s: string, t: string)
    ensures TrimRight(s) == t <==> Padded(s, t) && EndsTight(t)
  {
    if |s| > 0 && IsSpace(s[|s| - 1]) {
      var init := s[..|s| - 1];
      TrimRightIff(init, t);
      assert s == init + [s[|s| - 1]];
      if Padded(init, t) {
        assert s[..|t|] == init[..|t|];
        assert s[|t|..] == init[|t|..] + [s[|s| - 1]];
      }
      if Padded(s, t) && EndsTight(t) {
        assert |t| < |s| by {
          assert t == s[..|t|];
        }
        assert init[..|t|] == s[..|t|] && init[|t|..] == s[|t|..|s| - 1];
      }
    } else {
      assert |t| < |s| ==> s[|t|..][|s| - 1 - |t|] == s[|s| - 1];
    }
  }

  lemma {:induction false} TrimLeftAt(s: string, i: nat)
    requires i <= |s| && AllSpace(s[..i]) && (i == |s| || !IsSpace(s[i]))
    ensures TrimLeft(s) == s[i..]
  {
    if i > 0 {
      assert s[0] == s[..i][0];
      assert s[1..][..i - 1] == s[..i][1..];
      TrimLeftAt(s[1..], i - 1);
      assert s[1..][i - 1..] == s[i..];
    }
  }

  lemma {:induction false} FirstTight(s: string) returns (i: nat)
    ensures i <= |s| && AllSpace(s[..i]) && (i == |s| || !IsSpace(s[i]))
  {
    i := 0;
    while i < |s| && IsSpace(s[i])
      invariant i <= |s| && AllSpace(s[..i])
    {
      assert s[..i + 1] == s[..i] + [s[i]];
      i := i + 1;
    }
  }

  /** Trimming gives the text that starts and ends without space and has only space around it. */
  lemma TrimSpaceIff(s: string, t: string)
    ensures TrimSpace(s) == t <==>
            EndsTight(t) && (t == "" || !IsSpace(t[0])) &&
            exists i :: 0 <= i <= |s| && AllSpace(s[..i]) && Padded(s[i..], t)
  {
    var first := FirstTight(s);
    TrimLeftAt(s, first);
    TrimRightIff(s[first..], t);
    if TrimSpace(s) == t {
      assert AllSpace(s[..first]) && Padded(s[first..], t);
      assert t != "" ==> t[0] == s[first..][..|t|][0];
    }
    if i :| 0 <= i <= |s| && AllSpace(s[..i]) && Padded(s[i..], t) && EndsTight(t) && (t == "" || !IsSpace(t[0])) {
      if t == "" {
        assert s == s[..i] + s[i..];
        assert s[i..][|t|..] == s[i..];
        assert first == |s|;
      } else {
        assert s[i] == s[i..][..|t|][0];
        TrimLeftAt(s, i);
        TrimRightIff(s[i..], t);
      }
    }
  }

  /** Behind a prefix without space at its ends only the end is trimmed. */
  lemma TrimPrefixed(p: string, x: string)
    requires p != "" && !IsSpace(p[0]) && EndsTight(p)
    ensures TrimSpace(p + x) == p + TrimRight(x)
  {
    var s, t := p + x, TrimRight(x);
    TrimRightIff(x, t);
    assert s[..|p + t|] == p + x[..|t|];
    assert s[|p + t|..] == x[|t|..];
    assert EndsTight(p + t);
    TrimRightIff(s, p + t);
  }
}
