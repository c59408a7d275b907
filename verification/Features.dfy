/** The exact physical features of a record and of a query. */
module Features {
  import opened Strings
  import opened Records

  /** The feature texts before trimming. */
  function FeatureTexts(m: Memory): set<string> {
    {"id:" + m.id} + Tagged("tag:", m.tags) + Tagged("trigger:", m.triggers) + StateTexts(m.state, m.state.Keys)
  }

  function Tagged(prefix: string, xs: seq<string>): set<string> {
    set x | x in xs :: prefix + x
  }

  /** Every State key, and every scalar with its value. */
  function StateTexts(state: map<string, StateValue>, keys: set<string>): set<string> {
    (set k | k in keys :: "state-key:" + k) +
    (set k | k in keys && k in state && state[k].Scalar? :: "state-kv:" + k + "=" + state[k].text)
  }

  function Trimmed(texts: set<string>): set<string> {
    set x | x in texts && TrimSpace(x) != "" :: TrimSpace(x)
  }

  function FeaturesOf(m: Memory): set<string> {
    Trimmed(FeatureTexts(m))
  }

  function AddTrimmed(seen: set<string>, x: string): set<string> {
    if TrimSpace(x) == "" then seen else seen + {TrimSpace(x)}
  }

  lemma AddTrimmedTo(texts: set<string>, x: string)
    ensures AddTrimmed(Trimmed(texts), x) == Trimmed(texts + {x})
  {
  }

  method AddAll(seen: set<string>, ghost texts: set<string>, prefix: string, xs: seq<string>) returns (out: set<string>)
    requires seen == Trimmed(texts)
    ensures out == Trimmed(texts + Tagged(prefix, xs))
  {
    out := seen;
    assert Tagged(prefix, xs[..0]) == {};
    assert texts + {} == texts;
    for i := 0 to |xs|
      invariant out == Trimmed(texts + Tagged(prefix, xs[..i]))
    {
      AddTrimmedTo(texts + Tagged(prefix, xs[..i]), prefix + xs[i]);
      TaggedSnoc(prefix, xs, i);
      assert texts + Tagged(prefix, xs[..i + 1]) == texts + Tagged(prefix, xs[..i]) + {prefix + xs[i]};
      out := AddTrimmed(out, prefix + xs[i]);
    }
    assert xs[..|xs|] == xs;
  }

  lemma TaggedSnoc(prefix: string, xs: seq<string>, i: nat)
    requires i < |xs|
    ensures Tagged(prefix, xs[..i + 1]) == Tagged(prefix, xs[..i]) + {prefix + xs[i]}
  {
    forall x ensures x in xs[..i + 1] <==> x in xs[..i] || x == xs[i] {
      assert xs[..i + 1] == xs[..i] + [xs[i]];
    }
  }

  lemma StateTextsAdd(state: map<string, StateValue>, keys: set<string>, k: string)
    requires k in state
    ensures StateTexts(state, keys + {k}) ==
            StateTexts(state, keys) + {"state-key:" + k} +
            (if state[k].Scalar? then {"state-kv:" + k + "=" + state[k].text} else {})
  {
  }

  method AddState(seen: set<string>, ghost texts: set<string>, state: map<string, StateValue>) returns (out: set<string>)
    requires seen == Trimmed(texts)
    ensures out == Trimmed(texts + StateTexts(state, state.Keys))
  {
    out := seen;
    var todo := state.Keys;
    ghost var have := texts;
    assert texts + StateTexts(state, {}) == texts;
    while todo != {}
      invariant todo <= state.Keys
      invariant have == texts + StateTexts(state, state.Keys - todo)
      invariant out == Trimmed(have)
      decreases todo
    {
      var k :| k in todo;
      StateTextsAdd(state, state.Keys - todo, k);
      assert state.Keys - (todo - {k}) == (state.Keys - todo) + {k};
      AddTrimmedTo(have, "state-key:" + k);
      out := AddTrimmed(out, "state-key:" + k);
      have := have + {"state-key:" + k};
      if state[k].Scalar? {
        AddTrimmedTo(have, "state-kv:" + k + "=" + state[k].text);
        out := AddTrimmed(out, "state-kv:" + k + "=" + state[k].text);
        have := have + {"state-kv:" + k + "=" + state[k].text};
      }
      todo := todo - {k};
    }
  }

  /** `activationFeaturesForMemory`: the features, each once, in order. */
  method ActivationFeatures(m: Memory) returns (out: seq<string>)
    ensures Sorted(out) && Elems(out) == FeaturesOf(m)
  {
    ghost var texts := {"id:" + m.id};
    AddTrimmedTo({}, "id:" + m.id);
    assert {} + {"id:" + m.id} == texts;
    var seen := AddTrimmed({}, "id:" + m.id);
    seen := AddAll(seen, texts, "tag:", m.tags);
    texts := texts + Tagged("tag:", m.tags);
    seen := AddAll(seen, texts, "trigger:", m.triggers);
    texts := texts + Tagged("trigger:", m.triggers);
    seen := AddState(seen, texts, m.state);
    out := SortIds(seen);
  }

  /** `queryActivationFeatures`: an explicit feature stands for itself; anything else is
      looked up as an id, a tag and a trigger. */
  function QueryFeatures(q: string): (r: seq<string>)
    ensures r == [] <==> TrimSpace(q) == ""
    ensures forall i, j :: 0 <= i < j < |r| ==> r[i] != r[j]
  {
    var raw := TrimSpace(q);
    if raw == "" then []
    else if HasPrefix(raw, "id:") || HasPrefix(raw, "tag:") || HasPrefix(raw, "trigger:") ||
            HasPrefix(raw, "state-key:") || HasPrefix(raw, "state-kv:") then [raw]
    else
      assert ("id:" + raw)[0] != ("tag:" + raw)[0];
      assert ("id:" + raw)[0] != ("trigger:" + raw)[0];
      assert ("tag:" + raw)[1] != ("trigger:" + raw)[1];
      ["id:" + raw, "tag:" + raw, "trigger:" + raw]
  }

  // ---- What a query asks for -----------------------------------------------------------

  /** The record has this id, tag, trigger, State key or State value, up to space behind it:
      that is all the trimming of a feature removes. */
  predicate HasId(m: Memory, t: string) {
    Padded(m.id, t)
  }

  predicate HasTag(m: Memory, t: string) {
    exists x :: x in m.tags && Padded(x, t)
  }

  predicate HasTrigger(m: Memory, t: string) {
    exists x :: x in m.triggers && Padded(x, t)
  }

  predicate HasStateKey(m: Memory, t: string) {
    exists k :: k in m.state && Padded(k, t)
  }

  predicate HasStateValue(m: Memory, t: string) {
    exists k :: k in m.state && m.state[k].Scalar? && Padded(k + "=" + m.state[k].text, t)
  }

  function OneIf(b: bool): nat {
    if b then 1 else 0
  }

  /** How often a record answers a trimmed query: at most once if the query names the kind of
      thing it asks for, else once for its id, once for a tag and once for a trigger. */
  function HitsOf(m: Memory, t: string): nat {
    if t == "" then 0
    else if HasPrefix(t, "id:") then OneIf(HasId(m, t[3..]))
    else if HasPrefix(t, "tag:") then OneIf(HasTag(m, t[4..]))
    else if HasPrefix(t, "trigger:") then OneIf(HasTrigger(m, t[8..]))
    else if HasPrefix(t, "state-key:") then OneIf(HasStateKey(m, t[10..]))
    else if HasPrefix(t, "state-kv:") then OneIf(HasStateValue(m, t[9..]))
    else OneIf(HasId(m, t)) + OneIf(HasTag(m, t)) + OneIf(HasTrigger(m, t))
  }

  /** The reserved prefixes. */
  predicate IsKind(p: string) {
    p == "id:" || p == "tag:" || p == "trigger:" || p == "state-key:" || p == "state-kv:"
  }

  /** Texts of different kinds do not trim to the same feature. */
  lemma TrimmedKind(p: string, x: string, q: string, t: string)
    requires IsKind(p)
    requires IsKind(q)
    requires EndsTight(t)
    ensures TrimSpace(p + x) == q + t <==> p == q && Padded(x, t)
    ensures TrimSpace(p + x) != ""
  {
    TrimPrefixed(p, x);
    TrimRightIff(x, t);
    var r := TrimRight(x);
    assert (p + r)[0] == p[0] && (p + r)[1] == p[1] && (q + t)[0] == q[0] && (q + t)[1] == q[1];
    assert |p| > 7 ==> (p + r)[7] == p[7];
    assert |q| > 7 ==> (q + t)[7] == q[7];
    if p == q {
      assert (p + r)[|p|..] == r && (q + t)[|p|..] == t;
    }
  }

  /** Every feature text is of one of the five kinds. */
  lemma TextKinds(m: Memory, text: string) returns (p: string, x: string)
    requires text in FeatureTexts(m)
    ensures Texted(m, p, x) && text == p + x
  {
    if text == "id:" + m.id {
      return "id:", m.id;
    } else if y :| y in m.tags && text == "tag:" + y {
      return "tag:", y;
    } else if y :| y in m.triggers && text == "trigger:" + y {
      return "trigger:", y;
    } else {
      p, x := StateTextKinds(m, text);
    }
  }

  lemma StateTextKinds(m: Memory, text: string) returns (p: string, x: string)
    requires text in StateTexts(m.state, m.state.Keys)
    ensures Texted(m, p, x) && text == p + x
  {
    if k :| k in m.state && text == "state-key:" + k {
      return "state-key:", k;
    } else {
      var k :| k in m.state && m.state[k].Scalar? && text == "state-kv:" + k + "=" + m.state[k].text;
      assert text == "state-kv:" + (k + "=" + m.state[k].text);
      return "state-kv:", k + "=" + m.state[k].text;
    }
  }

  ghost predicate Texted(m: Memory, p: string, x: string) {
    || (p == "id:" && x == m.id)
    || (p == "tag:" && x in m.tags)
    || (p == "trigger:" && x in m.triggers)
    || (p == "state-key:" && x in m.state)
    || (p == "state-kv:" && exists k :: k in m.state && m.state[k].Scalar? && x == k + "=" + m.state[k].text)
  }

  lemma TextedIsText(m: Memory, p: string, x: string)
    requires Texted(m, p, x)
    ensures p + x in FeatureTexts(m)
  {
    if p == "state-kv:" {
      var k :| k in m.state && m.state[k].Scalar? && x == k + "=" + m.state[k].text;
      assert p + x == "state-kv:" + k + "=" + m.state[k].text;
    }
  }

  /** The features of a record of one kind. */
  lemma FeatureOfKind(m: Memory, q: string, t: string)
    requires IsKind(q) && EndsTight(t)
    ensures q + t in FeaturesOf(m) <==> exists x :: Texted(m, q, x) && Padded(x, t)
  {
    if q + t in FeaturesOf(m) {
      var text :| text in FeatureTexts(m) && TrimSpace(text) == q + t;
      var p, x := TextKinds(m, text);
      TrimmedKind(p, x, q, t);
    }
    if x :| Texted(m, q, x) && Padded(x, t) {
      TextedIsText(m, q, x);
      TrimmedKind(q, x, q, t);
    }
  }

  lemma StateValueMeans(m: Memory, t: string)
    requires EndsTight(t)
    ensures "state-kv:" + t in FeaturesOf(m) <==> HasStateValue(m, t)
  {
    FeatureOfKind(m, "state-kv:", t);
    if k :| k in m.state && m.state[k].Scalar? && Padded(k + "=" + m.state[k].text, t) {
      assert Texted(m, "state-kv:", k + "=" + m.state[k].text);
    }
  }

  lemma StateKeyMeans(m: Memory, t: string)
    requires EndsTight(t)
    ensures "state-key:" + t in FeaturesOf(m) <==> HasStateKey(m, t)
  {
    FeatureOfKind(m, "state-key:", t);
    if k :| k in m.state && Padded(k, t) {
      assert Texted(m, "state-key:", k);
    }
  }

  /** What the features of a record say about it. */
  lemma FeaturesMean(m: Memory, t: string)
    requires EndsTight(t)
    ensures "id:" + t in FeaturesOf(m) <==> HasId(m, t)
    ensures "tag:" + t in FeaturesOf(m) <==> HasTag(m, t)
    ensures "trigger:" + t in FeaturesOf(m) <==> HasTrigger(m, t)
    ensures "state-key:" + t in FeaturesOf(m) <==> HasStateKey(m, t)
    ensures "state-kv:" + t in FeaturesOf(m) <==> HasStateValue(m, t)
  {
    FeatureOfKind(m, "id:", t);
    FeatureOfKind(m, "tag:", t);
    FeatureOfKind(m, "trigger:", t);
    assert Texted(m, "id:", m.id);
    if x :| x in m.tags && Padded(x, t) {
      assert Texted(m, "tag:", x);
    }
    if x :| x in m.triggers && Padded(x, t) {
      assert Texted(m, "trigger:", x);
    }
    StateKeyMeans(m, t);
    StateValueMeans(m, t);
  }

  lemma OneKind(t: string, p: string, q: string)
    requires IsKind(p) && IsKind(q) && HasPrefix(t, p) && HasPrefix(t, q)
    ensures p == q
  {
    assert t[0] == p[0] == q[0] && t[1] == p[1] == q[1];
    assert |p| > 7 ==> t[7] == p[7];
    assert |q| > 7 ==> t[7] == q[7];
  }

  /** What a record answers to a query of one kind. */
  function HitOf(m: Memory, p: string, r: string): nat {
    if p == "id:" then OneIf(HasId(m, r))
    else if p == "tag:" then OneIf(HasTag(m, r))
    else if p == "trigger:" then OneIf(HasTrigger(m, r))
    else if p == "state-key:" then OneIf(HasStateKey(m, r))
    else OneIf(HasStateValue(m, r))
  }

  lemma HitsOfKind(m: Memory, p: string, t: string)
    requires IsKind(p) && HasPrefix(t, p)
    ensures HitsOf(m, t) == HitOf(m, p, t[|p|..])
  {
    if HasPrefix(t, "id:") {
      OneKind(t, p, "id:");
    } else if HasPrefix(t, "tag:") {
      OneKind(t, p, "tag:");
    } else if HasPrefix(t, "trigger:") {
      OneKind(t, p, "trigger:");
    } else if HasPrefix(t, "state-key:") {
      OneKind(t, p, "state-key:");
    }
  }

  lemma ExplicitHits(m: Memory, p: string, t: string)
    requires IsKind(p) && HasPrefix(t, p) && EndsTight(t)
    ensures OneIf(t in FeaturesOf(m)) == HitsOf(m, t)
  {
    var r := t[|p|..];
    assert t == p + r;
    FeaturesMean(m, r);
    HitsOfKind(m, p, t);
  }

  lemma BareHits(m: Memory, t: string)
    requires EndsTight(t)
    ensures |{"id:" + t, "tag:" + t, "trigger:" + t} * FeaturesOf(m)| == OneIf(HasId(m, t)) + OneIf(HasTag(m, t)) + OneIf(HasTrigger(m, t))
  {
    FeaturesMean(m, t);
    var a, b, c := "id:" + t, "tag:" + t, "trigger:" + t;
    assert a[0] != b[0] && a[0] != c[0] && b[1] != c[1];
    MeetThree(a, b, c, FeaturesOf(m));
  }

  lemma MeetAdd<T>(xs: set<T>, x: T, fs: set<T>)
    requires x !in xs
    ensures |(xs + {x}) * fs| == |xs * fs| + OneIf(x in fs)
  {
    assert (xs + {x}) * fs == if x in fs then (xs * fs) + {x} else xs * fs;
  }

  lemma MeetThree<T>(a: T, b: T, c: T, fs: set<T>)
    requires a != b && a != c && b != c
    ensures |{a, b, c} * fs| == OneIf(a in fs) + OneIf(b in fs) + OneIf(c in fs)
  {
    MeetOne(a, fs);
    MeetAdd({a}, b, fs);
    MeetAdd({a} + {b}, c, fs);
    assert {a, b, c} == {a} + {b} + {c};
  }

  lemma MeetOne<T>(x: T, fs: set<T>)
    ensures |{x} * fs| == OneIf(x in fs)
  {
    MeetAdd({}, x, fs);
    assert {} + {x} == {x};
  }

  lemma QueryFeaturesAre(q: string)
    ensures var t := TrimSpace(q);
            if t == "" then QueryFeatures(q) == []
            else if exists p :: IsKind(p) && HasPrefix(t, p) then QueryFeatures(q) == [t]
            else QueryFeatures(q) == ["id:" + t, "tag:" + t, "trigger:" + t]
  {
    assert IsKind("id:") && IsKind("tag:") && IsKind("trigger:") && IsKind("state-key:") && IsKind("state-kv:");
  }

  /** The features of a query that a record has are as many as the query has answers in it. */
  lemma QueryHits(m: Memory, q: string)
    ensures |Elems(QueryFeatures(q)) * FeaturesOf(m)| == HitsOf(m, TrimSpace(q))
  {
    var t, fs := TrimSpace(q), FeaturesOf(m);
    TrimSpaceIff(q, t);
    QueryFeaturesAre(q);
    if t == "" {
      assert Elems(QueryFeatures(q)) * fs == {};
    } else if p :| IsKind(p) && HasPrefix(t, p) {
      ExplicitHits(m, p, t);
      MeetOne(t, fs);
      ElemsFew(t, t, t);
    } else {
      BareHits(m, t);
      BareIsNoKind(m, t);
      ElemsFew("id:" + t, "tag:" + t, "trigger:" + t);
    }
  }

  lemma ElemsFew<T>(a: T, b: T, c: T)
    ensures Elems([a]) == {a} && Elems([a, b, c]) == {a, b, c}
  {
    var xs := [a, b, c];
    assert xs[0] == a && xs[1] == b && xs[2] == c;
  }

  lemma BareIsNoKind(m: Memory, t: string)
    requires t != "" && !exists p :: IsKind(p) && HasPrefix(t, p)
    ensures HitsOf(m, t) == OneIf(HasId(m, t)) + OneIf(HasTag(m, t)) + OneIf(HasTrigger(m, t))
  {
    assert IsKind("id:") && IsKind("tag:") && IsKind("trigger:") && IsKind("state-key:") && IsKind("state-kv:");
  }

  /** A tag is found under its own text, asked for as a tag, whatever space it has around it. */
  lemma ExplicitTagFinds(m: Memory, x: string)
    requires x in m.tags
    ensures HitsOf(m, TrimSpace("tag:" + x)) == 1
  {
    TrimPrefixed("tag:", x);
    TrimRightIff(x, TrimRight(x));
    var t := "tag:" + TrimRight(x);
    assert HasPrefix(t, "tag:") && t[4..] == TrimRight(x);
    HitsOfKind(m, "tag:", t);
  }

  /** Asked for without its kind it is found unless it starts with space: the query loses
      that space and the feature does not. */
  lemma TagFoundIff(m: Memory, x: string)
    requires m.tags == [x]
    ensures HasTag(m, TrimSpace(x)) <==> TrimSpace(x) == "" || !IsSpace(x[0])
  {
    var t := TrimSpace(x);
    assert m.tags[0] == x;
    TrimSpaceIff(x, t);
    if t != "" && Padded(x, t) {
      assert x[0] == x[..|t|][0];
    }
    if t != "" && !IsSpace(x[0]) {
      TrimRightIff(x, t);
    }
    if t == "" {
      var i :| 0 <= i <= |x| && AllSpace(x[..i]) && Padded(x[i..], t);
      assert x[i..][0..] == x[i..] && x[0..] == x;
      forall k | 0 <= k < |x| ensures IsSpace(x[k]) {
        assert x[k] == if k < i then x[..i][k] else x[i..][k - i];
      }
      assert Padded(x, t);
    }
  }
}
