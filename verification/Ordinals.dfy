/**
 Names that end in an ordinal (ctrltest/workload.go): decimal numerals, reading them back, and
 picking the ordinals of what is created next.
 */
module Ordinals {
  import opened Wrappers

  // ----- Decimal numerals -----

  predicate IsDigit(c: char) { '0' <= c <= '9' }

  predicate AllDigits(s: string) { forall i | 0 <= i < |s| :: IsDigit(s[i]) }

  function DigitOf(d: nat): char
    requires d < 10
  {
    ('0' as int + d) as char
  }

  function Itoa(n: nat): (s: string) {
    if n < 10 then [DigitOf(n)] else Itoa(n / 10) + [DigitOf(n % 10)]
  }

  function Decimal(s: string): nat
    requires AllDigits(s)
  {
    if |s| == 0 then 0
    else Decimal(s[..|s| - 1]) * 10 + (s[|s| - 1] as int - '0' as int)
  }

  /** What strconv.Atoi makes of a string: an optional sign and at least one digit, leading zeros allowed. */
  function Atoi(s: string): Option<int> {
    var signed := |s| > 0 && (s[0] == '-' || s[0] == '+');
    var body := if signed then s[1..] else s;
    if |body| == 0 || !AllDigits(body) then None
    else
      var n: int := Decimal(body);
      Some(if signed && s[0] == '-' then -n else n)
  }

  /** The ordinal at the end of `name`, if the rest of it is `prefix`. */
  function ParseOrdinal(name: string, prefix: string): Option<nat> {
    if !(prefix <= name) then None
    else
      match Atoi(name[|prefix|..])
      case None => None
      case Some(n) => if n < 0 then None else Some(n)
  }

  lemma {:induction false} NumeralRoundTrip(n: nat)
    ensures |Itoa(n)| > 0 && AllDigits(Itoa(n)) && Decimal(Itoa(n)) == n
  {
    if n >= 10 {
      NumeralRoundTrip(n / 10);
      var s := Itoa(n);
      assert s[..|s| - 1] == Itoa(n / 10);
    } else {
      assert Itoa(n)[..0] == "";
    }
  }

  /** A name made from a prefix and an ordinal reads back as that ordinal. */
  lemma {:induction false} NameRoundTrip(prefix: string, n: nat)
    ensures ParseOrdinal(prefix + Itoa(n), prefix) == Some(n)
  {
    NumeralRoundTrip(n);
    assert (prefix + Itoa(n))[|prefix|..] == Itoa(n);
  }

  function Zeros(n: nat): (s: string)
    ensures |s| == n && forall i | 0 <= i < n :: s[i] == '0'
  {
    seq(n, _ => '0')
  }

  lemma {:induction false} PaddedDecimal(z: nat, s: string)
    requires AllDigits(s)
    ensures AllDigits(Zeros(z) + s) && Decimal(Zeros(z) + s) == Decimal(s)
    decreases z + |s|
  {
    var all := Zeros(z) + s;
    if |s| > 0 {
      assert all[..|all| - 1] == Zeros(z) + s[..|s| - 1];
      PaddedDecimal(z, s[..|s| - 1]);
    } else if z > 0 {
      assert all[..|all| - 1] == Zeros(z - 1) + s;
      PaddedDecimal(z - 1, s);
    }
  }

  lemma {:induction false} DigitsArePadded(body: string) returns (z: nat)
    requires AllDigits(body) && |body| > 0
    ensures body == Zeros(z) + Itoa(Decimal(body))
  {
    var front, last := body[..|body| - 1], body[|body| - 1];
    assert body == front + [last] && IsDigit(last);
    var n := Decimal(body);
    if front == "" {
      assert Decimal("") == 0;
      z := 0;
      assert Itoa(n) == [last];
    } else {
      var y := DigitsArePadded(front);
      if n >= 10 {
        z := y;
        assert Zeros(y) + Itoa(n) == Zeros(y) + Itoa(n / 10) + [last];
      } else {
        z := y + 1;
        assert Itoa(0) == "0" && Itoa(n) == [last];
        assert Zeros(z) == Zeros(y) + "0";
      }
    }
  }

  /** A sign that does not make the ordinal negative. */
  ghost predicate IsSign(sign: string, n: nat) {
    sign == "" || sign == "+" || (sign == "-" && n == 0)
  }

  ghost predicate IsPadded(name: string, prefix: string, sign: string, z: nat, n: nat) {
    name == prefix + (sign + (Zeros(z) + Itoa(n)))
  }

  /** Exactly these names read as the ordinal: the prefix, a sign or none, any zeros, and the numeral. */
  lemma {:induction false} NamesReadAs(name: string, prefix: string, n: nat)
    ensures ParseOrdinal(name, prefix) == Some(n) <==> exists sign, z: nat :: IsSign(sign, n) && IsPadded(name, prefix, sign, z, n)
  {
    hide ParseOrdinal, IsSign, IsPadded;
    if ParseOrdinal(name, prefix) == Some(n) {
      var sign, z := ReadIsPadded(name, prefix, n);
    }
    if sign, z: nat :| IsSign(sign, n) && IsPadded(name, prefix, sign, z, n) {
      PaddedReads(name, prefix, sign, z, n);
    }
  }

  lemma {:induction false} ReadIsPadded(name: string, prefix: string, n: nat) returns (sign: string, z: nat)
    requires ParseOrdinal(name, prefix) == Some(n)
    ensures IsSign(sign, n) && IsPadded(name, prefix, sign, z, n)
  {
    hide Itoa, Decimal;
    var rest := name[|prefix|..];
    var signed := |rest| > 0 && (rest[0] == '-' || rest[0] == '+');
    sign := if signed then rest[..1] else "";
    var body := if signed then rest[1..] else rest;
    assert rest == sign + body && name == prefix + rest;
    z := DigitsArePadded(body);
  }

  lemma {:induction false} PaddedReads(name: string, prefix: string, sign: string, z: nat, n: nat)
    requires IsSign(sign, n) && IsPadded(name, prefix, sign, z, n)
    ensures ParseOrdinal(name, prefix) == Some(n)
  {
    hide Itoa, Decimal;
    var body := Zeros(z) + Itoa(n);
    NumeralRoundTrip(n);
    PaddedDecimal(z, Itoa(n));
    assert name[|prefix|..] == sign + body;
    assert IsDigit(body[0]);
    assert sign != "" ==> (sign + body)[1..] == body;
    assert sign == "" ==> sign + body == body;
  }

  /**
   However a dash-terminated prefix cuts a name that ends in a dash and a numeral, the ordinal
   it reads off, if any, is that numeral.
   */
  lemma {:induction false} SuffixOrdinal(prefix: string, stem: string, k: nat)
    requires |prefix| > 0 && prefix[|prefix| - 1] == '-'
    ensures var r := ParseOrdinal(stem + "-" + Itoa(k), prefix); r.Some? ==> r.value == k
  {
    NumeralRoundTrip(k);
    var digits := Itoa(k);
    var name := stem + "-" + digits;
    if prefix <= name {
      var rest := name[|prefix|..];
      var signed := |rest| > 0 && (rest[0] == '-' || rest[0] == '+');
      var body := if signed then rest[1..] else rest;
      if |body| > 0 && AllDigits(body) {
        var front := name[..|name| - |body| - 1];
        var before := name[|name| - |body| - 1];
        assert before == (if signed then rest[0] else prefix[|prefix| - 1]);
        assert name == front + [before] + body;
        SameNumeral(front, before, body, stem, '-', digits);
      }
    }
  }

  /** The digits after the last character that is not one are determined by the name. */
  lemma {:induction false} SameNumeral(f: string, c: char, a: string, g: string, d: char, b: string)
    requires f + [c] + a == g + [d] + b && !IsDigit(c) && !IsDigit(d) && AllDigits(a) && AllDigits(b)
    ensures a == b
  {
    var name := f + [c] + a;
    forall i | |f| < i < |name| ensures IsDigit(name[i]) {
      assert name[i] == a[i - |f| - 1];
    }
    forall i | |g| < i < |name| ensures IsDigit(name[i]) {
      assert (g + [d] + b)[i] == b[i - |g| - 1];
    }
    assert name[|f|] == c && (g + [d] + b)[|g|] == d;
    assert a == name[|f| + 1..] && b == (g + [d] + b)[|g| + 1..];
  }

  // ----- Fresh ordinals -----

  ghost predicate Ascending(out: seq<nat>) {
    forall i, j | 0 <= i < j < |out| :: out[i] < out[j]
  }

  /** `out` holds the `n` smallest numbers not in `used`, in ascending order. */
  ghost predicate SmallestFree(used: set<nat>, n: nat, out: seq<nat>) {
    && |out| == n && Ascending(out)
    && (forall x | x in out :: x !in used)
    && forall x: nat | x !in used && x !in out :: forall y | y in out :: y < x
  }

  /** The unused numbers below `i`. */
  ghost function FreeBelow(used: set<nat>, i: nat): set<nat> {
    set x: nat | x < i && x !in used
  }

  ghost function Members(out: seq<nat>): set<nat> {
    set x | x in out
  }

  lemma {:induction false} AscendingSize(out: seq<nat>)
    requires Ascending(out)
    ensures |Members(out)| == |out|
  {
    if |out| > 0 {
      var front, last := out[..|out| - 1], out[|out| - 1];
      AscendingSize(front);
      assert out == front + [last];
      assert Members(out) == Members(front) + {last};
      assert last !in Members(front);
    }
  }

  /** A number is chosen exactly if it is unused and fewer than `n` unused numbers are smaller. */
  lemma {:induction false} SmallestFreeHas(used: set<nat>, n: nat, out: seq<nat>, i: nat)
    requires SmallestFree(used, n, out)
    ensures i in out <==> i !in used && |FreeBelow(used, i)| < n
  {
    if i in out {
      var k :| 0 <= k < |out| && out[k] == i;
      AscendingSize(out[..k]);
      forall x | x in FreeBelow(used, i) ensures x in Members(out[..k]) {
        assert i in out && !(i < x);
        var j :| 0 <= j < |out| && out[j] == x;
        assert j < k && out[..k][j] == x;
      }
      SubsetSize(FreeBelow(used, i), Members(out[..k]));
    } else if i !in used {
      AscendingSize(out);
      assert Members(out) <= FreeBelow(used, i);
      SubsetSize(Members(out), FreeBelow(used, i));
    }
  }

  lemma {:induction false} AscendingNext(out: seq<nat>, x: nat)
    requires Ascending(out) && forall y | y in out :: y < x
    ensures Ascending(out + [x])
  {
    var next := out + [x];
    forall i, j | 0 <= i < j < |next| ensures next[i] < next[j] {
      assert next[i] in out;
    }
  }

  method NextOrdinals(used: set<nat>, n: nat) returns (out: seq<nat>)
    ensures SmallestFree(used, n, out)
  {
    out := [];
    var i: nat := 0;
    ghost var above := used;
    while |out| < n
      invariant |out| <= n && Ascending(out)
      invariant above == set u | u in used && u >= i
      invariant forall x: nat :: x in out <==> x < i && x !in used
      decreases n - |out| + |above|
    {
      ghost var rest := set u | u in used && u >= i + 1;
      assert above == if i in used then rest + {i} else rest;
      if i !in used {
        AscendingNext(out, i);
        out := out + [i];
      }
      above := rest;
      i := i + 1;
    }
  }

  /** There is only one such choice. */
  lemma {:induction false} SmallestFreeIsUnique(used: set<nat>, n: nat, a: seq<nat>, b: seq<nat>)
    requires SmallestFree(used, n, a) && SmallestFree(used, n, b)
    ensures a == b
  {
    SmallestFreeAgree(used, n, a, b, n);
    assert a[..n] == a && b[..n] == b;
  }

  lemma {:induction false} SmallestFreeAgree(used: set<nat>, n: nat, a: seq<nat>, b: seq<nat>, k: nat)
    requires SmallestFree(used, n, a) && SmallestFree(used, n, b) && k <= n
    ensures a[..k] == b[..k]
    decreases k
  {
    if k > 0 {
      SmallestFreeAgree(used, n, a, b, k - 1);
      NotLater(used, n, a, b, k - 1);
      NotLater(used, n, b, a, k - 1);
    }
  }

  /** After equal beginnings, neither choice can pass over what the other takes. */
  lemma {:induction false} NotLater(used: set<nat>, n: nat, a: seq<nat>, b: seq<nat>, k: nat)
    requires SmallestFree(used, n, a) && SmallestFree(used, n, b) && k < n && a[..k] == b[..k]
    ensures a[k] <= b[k]
  {
    assert a[k] in a && b[k] in b;
    forall j | 0 <= j < k ensures a[j] == b[j] {
      assert a[..k][j] == b[..k][j];
    }
  }
}
