/** The append-only log of writes (ctrltest/recorder.go), and what a reader with a scope sees of it. */
module OpLog {
  import opened Wrappers

  datatype ObjectKey = ObjectKey(namespace: string, name: string)

  /** One write: `accepted` unless the API server refused it. */
  datatype Op = Op(controller: string, verb: string, kind: string, key: ObjectKey, accepted: bool)

  /** What a cursor can see: one namespace, one controller unless "", refused writes only if `attempts`. */
  datatype Scope = Scope(namespace: string, controller: string, attempts: bool)

  predicate InScope(op: Op, scope: Scope) {
    && (scope.attempts || op.accepted)
    && op.key.namespace == scope.namespace
    && (scope.controller == "" || op.controller == scope.controller)
  }

  /**
   One scope shows all that another does exactly when both are of the same namespace, and the first
   asks for no other controller and shows refused writes if the second does.
   */
  lemma {:induction false} ScopesWiden(wide: Scope, narrow: Scope)
    ensures (forall op :: InScope(op, narrow) ==> InScope(op, wide)) <==>
            && wide.namespace == narrow.namespace
            && (wide.controller == "" || wide.controller == narrow.controller)
            && (narrow.attempts ==> wide.attempts)
  {
    var stranger := if wide.controller == "" then "c" else wide.controller + "c";
    var op := Op(if narrow.controller == "" then stranger else narrow.controller, "", "", ObjectKey(narrow.namespace, ""), !narrow.attempts);
    assert |stranger| != |wide.controller|;
    assert InScope(op, narrow);
  }

  /** The writes in scope, in the order of the log. */
  function Seen(ops: seq<Op>, scope: Scope): seq<Op> {
    if |ops| == 0 then []
    else
      var rest := Seen(ops[..|ops| - 1], scope);
      var last := ops[|ops| - 1];
      if InScope(last, scope) then rest + [last] else rest
  }

  lemma {:induction false} SeenNext(ops: seq<Op>, op: Op, scope: Scope)
    ensures Seen(ops + [op], scope) == if InScope(op, scope) then Seen(ops, scope) + [op] else Seen(ops, scope)
  {
    assert (ops + [op])[..|ops|] == ops;
  }

  lemma {:induction false} SeenNothing(ops: seq<Op>, scope: Scope)
    ensures ops == [] ==> Seen(ops, scope) == []
  {
  }

  lemma {:induction false} SeenSplits(a: seq<Op>, b: seq<Op>, scope: Scope)
    ensures Seen(a + b, scope) == Seen(a, scope) + Seen(b, scope)
  {
    hide Seen, InScope;
    if |b| == 0 {
      assert a + b == a && Seen(b, scope) == [] by {
        SeenNothing(b, scope);
      }
    } else {
      var front, last := b[..|b| - 1], b[|b| - 1];
      SeenSplits(a, front, scope);
      assert a + b == (a + front) + [last];
      SeenNext(a + front, last, scope);
      SeenNext(front, last, scope);
      assert b == front + [last];
    }
  }

  /** The writes in scope in a stretch of the log. */
  function Between(ops: seq<Op>, from: nat, end: nat, scope: Scope): seq<Op>
    requires from <= end <= |ops|
  {
    Seen(ops[from..end], scope)
  }

  lemma {:induction false} BetweenNone(ops: seq<Op>, at: nat, scope: Scope)
    requires at <= |ops|
    ensures Between(ops, at, at, scope) == []
  {
  }

  lemma {:induction false} BetweenNext(ops: seq<Op>, from: nat, end: nat, scope: Scope)
    requires from <= end < |ops|
    ensures Between(ops, from, end + 1, scope)
            == if InScope(ops[end], scope) then Between(ops, from, end, scope) + [ops[end]] else Between(ops, from, end, scope)
  {
    assert ops[from..end + 1] == ops[from..end] + [ops[end]];
    SeenNext(ops[from..end], ops[end], scope);
  }

  /** Reading a stretch of the log in two parts. */
  lemma {:induction false} BetweenSplits(ops: seq<Op>, from: nat, mid: nat, end: nat, scope: Scope)
    requires from <= mid <= end <= |ops|
    ensures Between(ops, from, end, scope) == Between(ops, from, mid, scope) + Between(ops, mid, end, scope)
  {
    assert ops[from..end] == ops[from..mid] + ops[mid..end];
    SeenSplits(ops[from..mid], ops[mid..end], scope);
  }

  /** What was read stays as it was when the log grows. */
  lemma {:induction false} BetweenGrown(ops: seq<Op>, more: seq<Op>, from: nat, end: nat, scope: Scope)
    requires from <= end <= |ops|
    ensures Between(ops + more, from, end, scope) == Between(ops, from, end, scope)
  {
    assert (ops + more)[from..end] == ops[from..end];
  }

  lemma {:induction false} BetweenPrefix(ops: seq<Op>, longer: seq<Op>, from: nat, end: nat, scope: Scope)
    requires from <= end <= |ops| && ops <= longer
    ensures Between(longer, from, end, scope) == Between(ops, from, end, scope)
  {
    assert longer[from..end] == ops[from..end];
  }

  // ----- Matching writes as a multiset -----

  datatype Expect = Expect(verb: string, kind: string, name: string)

  /** The part of a kind after its last dot. */
  function KindSuffix(full: string): string {
    if |full| == 0 then ""
    else if full[|full| - 1] == '.' then ""
    else KindSuffix(full[..|full| - 1]) + [full[|full| - 1]]
  }

  /** What follows the last dot, or everything if there is none. */
  lemma {:induction false} KindSuffixIs(group: string, kind: string)
    requires '.' !in kind
    ensures KindSuffix(kind) == kind && KindSuffix(group + "." + kind) == kind
  {
    if kind == "" {
      assert group + "." + kind == group + ".";
    } else {
      var front, last := kind[..|kind| - 1], kind[|kind| - 1];
      assert last in kind && kind == front + [last];
      forall c | c in front ensures c in kind {
      }
      KindSuffixIs(group, front);
      var full := group + "." + kind;
      assert full[..|full| - 1] == group + "." + front;
    }
  }

  function ExpectKey(e: Expect): string { e.verb + "|" + KindSuffix(e.kind) + "|" + e.name }

  function OpKey(op: Op): string { op.verb + "|" + KindSuffix(op.kind) + "|" + op.key.name }

  /**
   Unless a verb or a kind contains a bar, a write is one that was expected if and only if verb, the
   kind's last part and name are the same.
   */
  lemma {:induction false} KeysTellApart(e: Expect, op: Op)
    requires '|' !in e.verb && '|' !in op.verb && '|' !in KindSuffix(e.kind) && '|' !in KindSuffix(op.kind)
    ensures ExpectKey(e) == OpKey(op) <==> e.verb == op.verb && KindSuffix(e.kind) == KindSuffix(op.kind) && e.name == op.key.name
  {
    hide KindSuffix;
    var p, q := KindSuffix(e.kind), KindSuffix(op.kind);
    if ExpectKey(e) == OpKey(op) {
      assert ExpectKey(e) == e.verb + "|" + (p + "|" + e.name) && OpKey(op) == op.verb + "|" + (q + "|" + op.key.name);
      CutAtBar(e.verb, p + "|" + e.name, op.verb, q + "|" + op.key.name);
      CutAtBar(p, e.name, q, op.key.name);
    }
  }

  lemma {:induction false} CutAtBar(a: string, rest: string, b: string, other: string)
    requires '|' !in a && '|' !in b && a + "|" + rest == b + "|" + other
    ensures a == b && rest == other
  {
    var s := a + "|" + rest;
    assert s[|a|] == '|' && s[|b|] == '|';
    assert forall i | 0 <= i < |a| :: s[i] == a[i] && a[i] in a;
    assert forall i | 0 <= i < |b| :: s[i] == b[i] && b[i] in b;
    assert a == s[..|a|] && b == s[..|b|];
    assert rest == s[|a| + 1..] && other == s[|b| + 1..];
  }

  function ExpectKeys(want: seq<Expect>): multiset<string> {
    if |want| == 0 then multiset{} else ExpectKeys(want[..|want| - 1]) + multiset{ExpectKey(want[|want| - 1])}
  }

  function OpKeys(ops: seq<Op>): multiset<string> {
    if |ops| == 0 then multiset{} else OpKeys(ops[..|ops| - 1]) + multiset{OpKey(ops[|ops| - 1])}
  }

  method CountExpected(want: seq<Expect>) returns (keys: multiset<string>)
    ensures keys == ExpectKeys(want)
  {
    hide KindSuffix, ExpectKey;
    keys := multiset{};
    for i := 0 to |want|
      invariant keys == ExpectKeys(want[..i])
    {
      assert want[..i + 1][..i] == want[..i];
      keys := keys + multiset{ExpectKey(want[i])};
    }
    assert want[..|want|] == want;
  }

  /** What is missing from the writes and what nothing expected; neither, exactly if they are the expected multiset. */
  method CompareMultiset(want: seq<Expect>, got: seq<Op>) returns (missing: multiset<string>, unexpected: seq<Op>)
    ensures missing == ExpectKeys(want) - OpKeys(got)
    ensures OpKeys(unexpected) == OpKeys(got) - ExpectKeys(want)
    ensures missing == multiset{} && unexpected == [] <==> ExpectKeys(want) == OpKeys(got)
  {
    hide KindSuffix, ExpectKey, OpKey, ExpectKeys, OpKeys;
    OpKeysOfNone();
    missing := CountExpected(want);
    unexpected := [];
    for i := 0 to |got|
      invariant missing == ExpectKeys(want) - OpKeys(got[..i])
      invariant OpKeys(unexpected) == OpKeys(got[..i]) - ExpectKeys(want)
    {
      var k := OpKey(got[i]);
      assert got[..i + 1] == got[..i] + [got[i]];
      OpKeysNext(got[..i], got[i]);
      OneMore(ExpectKeys(want), OpKeys(got[..i]), k);
      if missing[k] > 0 {
        missing := missing[k := missing[k] - 1];
      } else {
        OpKeysNext(unexpected, got[i]);
        unexpected := unexpected + [got[i]];
      }
    }
    assert got[..|got|] == got;
    OpKeysEmpty(unexpected);
    NoDifference(ExpectKeys(want), OpKeys(got));
  }

  lemma {:induction false} OpKeysOfNone()
    ensures OpKeys([]) == multiset{}
  {
  }

  lemma {:induction false} OpKeysNext(ops: seq<Op>, op: Op)
    ensures OpKeys(ops + [op]) == OpKeys(ops) + multiset{OpKey(op)}
  {
    assert (ops + [op])[..|ops|] == ops;
  }

  /** One more `k` on the right: it cancels one on the left if there is one, and is left over if not. */
  lemma {:induction false} OneMore(w: multiset<string>, g: multiset<string>, k: string)
    ensures (w - g)[k] > 0 ==>
      w - (g + multiset{k}) == (w - g)[k := (w - g)[k] - 1] && (g + multiset{k}) - w == g - w
    ensures (w - g)[k] == 0 ==>
      w - (g + multiset{k}) == w - g && (g + multiset{k}) - w == (g - w) + multiset{k}
  {
  }

  lemma {:induction false} NoDifference(w: multiset<string>, g: multiset<string>)
    ensures w - g == multiset{} && g - w == multiset{} <==> w == g
  {
    forall k ensures w - g == multiset{} && g - w == multiset{} ==> w[k] == g[k] {
      assert (w - g)[k] == 0 && (g - w)[k] == 0 ==> w[k] == g[k];
    }
  }

  lemma {:induction false} OpKeysEmpty(ops: seq<Op>)
    ensures OpKeys(ops) == multiset{} <==> ops == []
  {
    if |ops| > 0 {
      assert OpKey(ops[|ops| - 1]) in OpKeys(ops);
    }
  }
}
