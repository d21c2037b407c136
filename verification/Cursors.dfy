/** Cursors over the op log (ctrltest/recorder.go and ctrltest/matchers.go), while others append to it. */
module Cursors {
  import opened Wrappers
  import opened OpLog

  datatype Wait = Matched(ops: seq<Op>) | Mismatched(ops: seq<Op>) | TimedOut(ops: seq<Op>) | NothingWanted

  class Cursor {
    const scope: Scope

    /** What the controllers append before each access to the log. */
    const others: nat -> seq<Op>

    var tick: nat
    var ops: seq<Op>
    var scan: nat

    /** Where the cursor started, and what it has handed out since. */
    ghost const start: nat
    ghost var consumed: seq<Op>

    /** A cursor at the end of the log. */
    constructor (ops: seq<Op>, scope: Scope, others: nat -> seq<Op>)
      ensures Valid() && consumed == [] && start == scan == |ops| && this.ops == ops && this.scope == scope
    {
      this.ops, this.scope, this.others := ops, scope, others;
      scan, tick, start, consumed := |ops|, 0, |ops|, [];
    }

    /** Exactly the writes in scope between the start and the scan have been handed out, in order. */
    ghost predicate Valid()
      reads this
    {
      start <= scan <= |ops| && consumed == Between(ops, start, scan, scope)
    }

    method Others()
      requires Valid()
      modifies this`tick, this`ops
      ensures Valid() && old(ops) <= ops && tick == old(tick) + 1
    {
      hide Between, InScope;
      BetweenGrown(ops, others(tick), start, scan, scope);
      ops := ops + others(tick);
      tick := tick + 1;
    }

    /** The first write in scope at or after `from`, or the end of the log. */
    method FirstMatchFrom(from: nat) returns (op: Option<Op>, at: nat)
      requires Valid() && from <= |ops|
      modifies this`tick, this`ops
      ensures Valid() && old(ops) <= ops && from <= at <= |ops| && Between(ops, from, at, scope) == []
      ensures op.Some? ==> at < |ops| && ops[at] == op.value && InScope(op.value, scope)
      ensures op.None? ==> at == |ops|
    {
      hide Between, InScope;
      Others();
      at := from;
      BetweenNone(ops, from, scope);
      while at < |ops|
        invariant from <= at <= |ops| && Between(ops, from, at, scope) == []
        decreases |ops| - at
        modifies {}
      {
        if InScope(ops[at], scope) {
          return Some(ops[at]), at;
        }
        BetweenNext(ops, from, at, scope);
        at := at + 1;
      }
      op := None;
    }

    /** Parks the scan on the next write in scope, or at the end. */
    method Peek() returns (op: Option<Op>)
      requires Valid()
      modifies this`tick, this`ops, this`scan
      ensures Valid() && old(ops) <= ops && old(scan) <= scan
      ensures op.Some? ==> scan < |ops| && ops[scan] == op.value && InScope(op.value, scope)
      ensures Between(ops, old(scan), scan, scope) == [] && (op.None? ==> scan == |ops|)
    {
      hide Between, InScope;
      var at;
      op, at := FirstMatchFrom(scan);
      BetweenSplits(ops, start, scan, at, scope);
      scan := at;
    }

    /** Hands out the next write in scope. */
    method Take() returns (op: Option<Op>)
      requires Valid()
      modifies this
      ensures Valid() && old(ops) <= ops && old(scan) <= scan
      ensures consumed == old(consumed) + if op.Some? then [op.value] else []
      ensures Between(ops, old(scan), scan, scope) == if op.Some? then [op.value] else []
      ensures op.None? ==> scan == |ops|
    {
      hide Between, InScope;
      ghost var s := scan;
      op := Peek();
      if op.Some? {
        BetweenNext(ops, start, scan, scope);
        BetweenNext(ops, s, scan, scope);
        scan := scan + 1;
        consumed := consumed + [op.value];
      }
    }

    /** Up to `n` writes in scope from `from`, where the last of them ends, and where the first is. */
    method ScanInScope(from: nat, n: nat) returns (got: seq<Op>, end: nat, floor: nat)
      requires Valid() && from <= |ops| && n > 0
      modifies this`tick, this`ops
      ensures Valid() && old(ops) <= ops && from <= floor <= |ops| && from <= end <= |ops|
      ensures got == Between(ops, from, end, scope) && |got| <= n && tick == old(tick) + 1
      ensures |got| < n ==> end == |ops|
      ensures Between(ops, from, floor, scope) == []
    {
      hide Between, InScope;
      Others();
      var i := from;
      BetweenNone(ops, from, scope);
      got, floor := [], |ops|;
      while i < |ops| && |got| < n
        invariant from <= i <= |ops| && |got| <= n && got == Between(ops, from, i, scope)
        invariant from <= floor <= |ops| && if got == [] then floor == |ops| else Between(ops, from, floor, scope) == []
        decreases |ops| - i
        modifies {}
      {
        BetweenNext(ops, from, i, scope);
        if InScope(ops[i], scope) {
          if got == [] {
            floor := i;
          }
          got := got + [ops[i]];
        }
        i := i + 1;
      }
      end := i;
    }

    /** Moves forward over writes, never back. */
    method AdvanceTo(at: nat)
      requires Valid() && at <= |ops|
      modifies this`scan, this`consumed
      ensures Valid() && scan == Max(old(scan), at)
      ensures consumed == old(consumed) + Between(ops, old(scan), scan, scope)
    {
      hide Between, InScope;
      if at > scan {
        BetweenSplits(ops, start, scan, at, scope);
        consumed := consumed + Between(ops, scan, at, scope);
        scan := at;
      } else {
        BetweenNone(ops, scan, scope);
      }
    }

    /**
     Waits, for so many polls, until as many writes as wanted have come, and hands them out
     whether or not they match. They match exactly if they are the wanted multiset. Only when all
     polls are over does it give up.
     */
    method WaitForAll(want: seq<Expect>, polls: nat) returns (r: Wait)
      requires Valid()
      modifies this
      ensures Valid() && old(ops) <= ops && old(scan) <= scan
      ensures r.NothingWanted? <==> want == []
      ensures r.Matched? || r.Mismatched? ==>
        |r.ops| == |want| && consumed == old(consumed) + r.ops && r.ops == Between(ops, old(scan), scan, scope)
      ensures r.Matched? ==> OpKeys(r.ops) == ExpectKeys(want)
      ensures r.Mismatched? ==> OpKeys(r.ops) != ExpectKeys(want)
      ensures r.TimedOut? ==> |r.ops| < |want| && consumed == old(consumed) && r.ops == Between(ops, old(scan), |ops|, scope)
      ensures r.TimedOut? ==> tick == old(tick) + polls + 1
      ensures r.Matched? || r.Mismatched? ==> old(tick) < tick <= old(tick) + polls + 1
      ensures r.NothingWanted? ==> tick == old(tick) && ops == old(ops) && scan == old(scan) && consumed == old(consumed)
    {
      hide Between, InScope, OpKeys, ExpectKeys;
      if want == [] {
        return NothingWanted;
      }
      ghost var s, done := scan, consumed;
      BetweenNone(ops, s, scope);
      var i := 0;
      while true
        invariant Valid() && old(ops) <= ops && s <= scan && consumed == done
        invariant Between(ops, s, scan, scope) == []
        invariant i <= polls && tick == old(tick) + i
        decreases polls - i
      {
        var from := scan;
        ghost var log := ops;
        var got, end, floor := ScanInScope(from, |want|);
        BetweenPrefix(log, ops, s, from, scope);
        BetweenSplits(ops, s, from, end, scope);
        BetweenSplits(ops, s, from, floor, scope);
        if |got| == |want| {
          AdvanceTo(end);
          var missing, unexpected := CompareMultiset(want, got);
          return if missing == multiset{} && unexpected == [] then Matched(got) else Mismatched(got);
        }
        AdvanceTo(floor);
        if i >= polls {
          return TimedOut(got);
        }
        i := i + 1;
      }
    }
  }
}
