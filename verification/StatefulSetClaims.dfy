/**
 The volume claims of a StatefulSet (ctrltest/statefulset_sim.go): which a sweep provides, which
 it deletes, and that no pod loses its own.
 */
module StatefulSetClaims {
  import opened Wrappers
  import opened Ordinals
  import opened PodOrder
  import opened PodStore
  import opened StatefulSets

  /** A claim; `owned` says that it goes when its StatefulSet does. */
  datatype Claim = Claim(owned: bool, held: bool, terminating: bool)

  type Claims = map<string, Claim>

  function ClaimPrefix(ss: StatefulSet, template: string): string { template + "-" + ss.name + "-" }

  function ClaimName(ss: StatefulSet, template: string, k: nat): string { ClaimPrefix(ss, template) + Itoa(k) }

  /** A name that reads as the claim of `template` at ordinal `k`. */
  predicate ReadsAs(ss: StatefulSet, template: string, name: string, k: nat) {
    ParseOrdinal(name, ClaimPrefix(ss, template)) == Some(k)
  }

  /** `existing` has one of the listed names for every ordinal that any of them reads as. */
  ghost predicate IsExisting(ss: StatefulSet, template: string, listed: set<string>, existing: map<nat, string>) {
    && (forall k | k in existing :: existing[k] in listed && ReadsAs(ss, template, existing[k], k))
    && forall n, k | n in listed && ReadsAs(ss, template, n, k) :: k in existing
  }

  ghost function Provided(ss: StatefulSet, template: string, existing: map<nat, string>): set<string> {
    set k | k in Before(Want(ss)) && k !in existing :: ClaimName(ss, template, k)
  }

  /** The claims of ordinals scaled away, once their pods are gone. */
  ghost function ScaledAway(ss: StatefulSet, pods: set<nat>, existing: map<nat, string>): set<string> {
    if ss.deleteScaled then set k | k in existing && k >= Want(ss) && k !in pods :: existing[k] else {}
  }

  /** After deleting `gone`: claims that nothing holds vanish, the others start terminating. */
  function Dropped(c: Claims, gone: set<string>): Claims {
    map n | n in c && (n !in gone || c[n].held) :: if n in gone then c[n].(terminating := true) else c[n]
  }

  /** After creating the claims named, unless they are there. */
  function WithClaims(c: Claims, names: set<string>, owned: bool): Claims {
    map n | n in c.Keys + names :: if n in c then c[n] else Claim(owned, false, false)
  }

  lemma {:induction false} WithNoClaims(c: Claims, names: set<string>, owned: bool)
    ensures names == {} ==> WithClaims(c, names, owned) == c
  {
  }

  lemma {:induction false} WithOneMore(c: Claims, names: set<string>, n: string, owned: bool)
    ensures WithClaims(WithClaims(c, names, owned), {n}, owned) == WithClaims(c, names + {n}, owned)
  {
  }

  lemma {:induction false} DroppedNone(c: Claims, gone: set<string>)
    ensures gone == {} ==> Dropped(c, gone) == c
  {
  }

  lemma {:induction false} DroppedOneMore(c: Claims, gone: set<string>, n: string)
    ensures Dropped(Dropped(c, gone), {n}) == Dropped(c, gone + {n})
  {
  }

  ghost function ProvidedBefore(ss: StatefulSet, template: string, existing: map<nat, string>, n: nat): set<string> {
    set k | k in Before(n) && k !in existing :: ClaimName(ss, template, k)
  }

  lemma {:induction false} ProvidedEnds(ss: StatefulSet, template: string, existing: map<nat, string>)
    ensures ProvidedBefore(ss, template, existing, 0) == {}
    ensures ProvidedBefore(ss, template, existing, Want(ss)) == Provided(ss, template, existing)
  {
  }

  lemma {:induction false} ProvidedNext(ss: StatefulSet, template: string, existing: map<nat, string>, n: nat)
    ensures ProvidedBefore(ss, template, existing, n + 1)
            == if n in existing then ProvidedBefore(ss, template, existing, n)
               else ProvidedBefore(ss, template, existing, n) + {ClaimName(ss, template, n)}
  {
  }

  ghost function ScaledAwayAmong(ss: StatefulSet, pods: set<nat>, existing: map<nat, string>, among: set<nat>): set<string> {
    set k | k in among && k in existing && k >= Want(ss) && k !in pods :: existing[k]
  }

  lemma {:induction false} ScaledAwayNext(ss: StatefulSet, pods: set<nat>, existing: map<nat, string>, among: set<nat>, n: nat)
    requires n in existing
    ensures ScaledAwayAmong(ss, pods, existing, among + {n})
            == ScaledAwayAmong(ss, pods, existing, among) + if n >= Want(ss) && n !in pods then {existing[n]} else {}
  {
  }

  /** What a sweep does for one claim template; `pods` are the ordinals that have a pod. */
  ghost predicate TemplateStep(ss: StatefulSet, template: string, pods: set<nat>, listed: set<string>, c: Claims, d: Claims) {
    exists existing ::
      && IsExisting(ss, template, listed, existing)
      && d == Dropped(WithClaims(c, Provided(ss, template, existing), ss.ownClaims), ScaledAway(ss, pods, existing))
  }

  /** What it does for several, on one list of the claims. */
  ghost predicate ClaimsStep(ss: StatefulSet, templates: seq<string>, pods: set<nat>, listed: set<string>, c: Claims, d: Claims) {
    if |templates| == 0 then d == c
    else
      var front, last := templates[..|templates| - 1], templates[|templates| - 1];
      exists mid ::
        && TemplateStep(ss, last, pods, listed, mid, d)
        && ClaimsStep(ss, front, pods, listed, c, mid)
  }

  // ----- Claims in use are kept -----

  lemma {:induction false} TemplateKeeps(ss: StatefulSet, template: string, pods: set<nat>, listed: set<string>,
                                         c: Claims, d: Claims, stem: string, k: nat)
    requires TemplateStep(ss, template, pods, listed, c, d)
    requires stem + "-" + Itoa(k) in c && (k in pods || k < Want(ss))
    ensures stem + "-" + Itoa(k) in d && d[stem + "-" + Itoa(k)] == c[stem + "-" + Itoa(k)]
  {
    var existing :| IsExisting(ss, template, listed, existing)
                    && d == Dropped(WithClaims(c, Provided(ss, template, existing), ss.ownClaims), ScaledAway(ss, pods, existing));
    var name := stem + "-" + Itoa(k);
    SuffixOrdinal(ClaimPrefix(ss, template), stem, k);
    assert name !in ScaledAway(ss, pods, existing);
  }

  /**
   No sweep touches a claim that ends in the ordinal of an existing or wanted pod, whatever
   template it is for and however other claims are named.
   */
  lemma {:induction false} ClaimsInUseAreKept(ss: StatefulSet, templates: seq<string>, pods: set<nat>, listed: set<string>,
                                              c: Claims, d: Claims, stem: string, k: nat)
    requires ClaimsStep(ss, templates, pods, listed, c, d)
    requires stem + "-" + Itoa(k) in c && (k in pods || k < Want(ss))
    ensures stem + "-" + Itoa(k) in d && d[stem + "-" + Itoa(k)] == c[stem + "-" + Itoa(k)]
  {
    if |templates| > 0 {
      var front := templates[..|templates| - 1];
      var mid :| ClaimsStep(ss, front, pods, listed, c, mid)
                 && TemplateStep(ss, templates[|templates| - 1], pods, listed, mid, d);
      ClaimsInUseAreKept(ss, front, pods, listed, c, mid, stem, k);
      TemplateKeeps(ss, templates[|templates| - 1], pods, listed, mid, d, stem, k);
    }
  }

  // ----- Wanted claims are provided -----

  /** Some listed claim reads as this one. */
  ghost predicate Taken(ss: StatefulSet, template: string, listed: set<string>, k: nat) {
    exists n :: n in listed && ReadsAs(ss, template, n, k)
  }

  lemma {:induction false} ClaimNameIsInjective(ss: StatefulSet, v: string, j: nat, w: string, k: nat)
    requires ClaimName(ss, v, j) == ClaimName(ss, w, k)
    ensures v == w && j == k
  {
    NumeralRoundTrip(j);
    NumeralRoundTrip(k);
    var name := ClaimName(ss, v, j);
    SameNumeral(v + "-" + ss.name, '-', Itoa(j), w + "-" + ss.name, '-', Itoa(k));
    NameRoundTrip(ClaimPrefix(ss, v), j);
    NameRoundTrip(ClaimPrefix(ss, w), k);
    assert v == name[..|v|] && w == name[..|w|];
    assert |v| == |w|;
  }

  lemma {:induction false} WantedIsNotScaledAway(ss: StatefulSet, template: string, pods: set<nat>, listed: set<string>,
                                                 existing: map<nat, string>, v: string, k: nat)
    requires IsExisting(ss, template, listed, existing) && k < Want(ss)
    ensures ClaimName(ss, v, k) !in ScaledAway(ss, pods, existing)
  {
    hide ReadsAs, ClaimName;
    forall j | j in existing && existing[j] == ClaimName(ss, v, k) ensures j == k {
      ReadsItsOrdinal(ss, v, k, template, j);
    }
  }

  lemma {:induction false} TemplateProvides(ss: StatefulSet, template: string, pods: set<nat>, listed: set<string>,
                                            c: Claims, d: Claims, v: string, k: nat)
    requires TemplateStep(ss, template, pods, listed, c, d) && k < Want(ss)
    ensures ClaimName(ss, v, k) in d <==> ClaimName(ss, v, k) in c || (v == template && !Taken(ss, v, listed, k))
  {
    hide ReadsAs;
    var existing :| IsExisting(ss, template, listed, existing)
                    && d == Dropped(WithClaims(c, Provided(ss, template, existing), ss.ownClaims), ScaledAway(ss, pods, existing));
    var name := ClaimName(ss, v, k);
    WantedIsNotScaledAway(ss, template, pods, listed, existing, v, k);
    if name in Provided(ss, template, existing) {
      var j :| j in Before(Want(ss)) && j !in existing && name == ClaimName(ss, template, j);
      ClaimNameIsInjective(ss, v, k, template, j);
    }
  }

  /**
   After a sweep, a wanted claim is there if and only if it was there before or no claim listed
   before reads as it.
   */
  lemma {:induction false} ClaimsProvidedExactly(ss: StatefulSet, templates: seq<string>, pods: set<nat>, listed: set<string>,
                                                 c: Claims, d: Claims, v: string, k: nat)
    requires ClaimsStep(ss, templates, pods, listed, c, d) && k < Want(ss)
    ensures ClaimName(ss, v, k) in d <==> ClaimName(ss, v, k) in c || (v in templates && !Taken(ss, v, listed, k))
  {
    hide TemplateStep, ClaimName, Taken;
    if |templates| > 0 {
      var front, last := templates[..|templates| - 1], templates[|templates| - 1];
      var mid :| TemplateStep(ss, last, pods, listed, mid, d) && ClaimsStep(ss, front, pods, listed, c, mid);
      ClaimsProvidedExactly(ss, front, pods, listed, c, mid, v, k);
      TemplateProvides(ss, last, pods, listed, mid, d, v, k);
      assert templates == front + [last];
    }
  }

  // ----- Claims scaled away -----

  /** The claim has been deleted: it is gone, or going. */
  ghost predicate Going(d: Claims, n: string) {
    n !in d || d[n].terminating
  }

  /** The claim was listed and reads as one of the template at an ordinal no longer wanted that has no pod. */
  ghost predicate Superfluous(ss: StatefulSet, template: string, pods: set<nat>, listed: set<string>, n: string, k: nat) {
    n in listed && ReadsAs(ss, template, n, k) && k >= Want(ss) && k !in pods
  }

  ghost predicate SuperfluousFor(ss: StatefulSet, templates: seq<string>, pods: set<nat>, listed: set<string>, n: string) {
    exists v, k :: v in templates && Superfluous(ss, v, pods, listed, n, k)
  }

  lemma {:induction false} TemplateDeletes(ss: StatefulSet, template: string, pods: set<nat>, listed: set<string>, c: Claims, d: Claims, n: string)
    requires TemplateStep(ss, template, pods, listed, c, d) && n in c
    ensures (n in d && d[n] == c[n]) || (ss.deleteScaled && exists k :: Superfluous(ss, template, pods, listed, n, k))
  {
    hide ReadsAs, ClaimName, Provided;
    var existing :| IsExisting(ss, template, listed, existing)
                    && d == Dropped(WithClaims(c, Provided(ss, template, existing), ss.ownClaims), ScaledAway(ss, pods, existing));
    if n in ScaledAway(ss, pods, existing) {
      var k :| k in existing && k >= Want(ss) && k !in pods && n == existing[k];
      assert Superfluous(ss, template, pods, listed, n, k);
    }
  }

  /** A claim is touched only to delete it, and only where claims scaled away are to go and it is one of them. */
  lemma {:induction false} OnlySuperfluousClaimsGo(ss: StatefulSet, templates: seq<string>, pods: set<nat>, listed: set<string>,
                                                   c: Claims, d: Claims, n: string)
    requires ClaimsStep(ss, templates, pods, listed, c, d) && n in c
    ensures (n in d && d[n] == c[n]) || (ss.deleteScaled && SuperfluousFor(ss, templates, pods, listed, n))
  {
    hide TemplateStep, Superfluous;
    if |templates| > 0 {
      var front, last := templates[..|templates| - 1], templates[|templates| - 1];
      var mid :| TemplateStep(ss, last, pods, listed, mid, d) && ClaimsStep(ss, front, pods, listed, c, mid);
      OnlySuperfluousClaimsGo(ss, front, pods, listed, c, mid, n);
      assert templates == front + [last];
      if n in mid && mid[n] == c[n] {
        TemplateDeletes(ss, last, pods, listed, mid, d, n);
      }
    }
  }

  /** No claim that is provided is one of those scaled away. */
  lemma {:induction false} ProvidedIsWanted(ss: StatefulSet, template: string, existing: map<nat, string>, v: string, n: string, k: nat)
    requires n in Provided(ss, template, existing) && ReadsAs(ss, v, n, k)
    ensures k < Want(ss)
  {
    hide ReadsAs, ClaimPrefix;
    var j :| j in Before(Want(ss)) && j !in existing && n == ClaimName(ss, template, j);
    ReadsItsOrdinal(ss, template, j, v, k);
  }

  lemma {:induction false} ReadsItsOrdinal(ss: StatefulSet, template: string, j: nat, v: string, k: nat)
    requires ReadsAs(ss, v, ClaimName(ss, template, j), k)
    ensures k == j
  {
    assert ClaimName(ss, template, j) == (template + "-" + ss.name) + "-" + Itoa(j);
    SuffixOrdinal(ClaimPrefix(ss, v), template + "-" + ss.name, j);
  }

  lemma {:induction false} TemplateRetires(ss: StatefulSet, template: string, pods: set<nat>, listed: set<string>, c: Claims, d: Claims,
                                           v: string, k: nat, n: string)
    requires TemplateStep(ss, template, pods, listed, c, d) && ss.deleteScaled && Superfluous(ss, v, pods, listed, n, k)
    ensures Going(c, n) ==> Going(d, n)
    ensures v == template ==> exists m :: Superfluous(ss, v, pods, listed, m, k) && Going(d, m)
  {
    hide ReadsAs, ClaimName, Provided;
    var existing :| IsExisting(ss, template, listed, existing)
                    && d == Dropped(WithClaims(c, Provided(ss, template, existing), ss.ownClaims), ScaledAway(ss, pods, existing));
    if n in Provided(ss, template, existing) {
      ProvidedIsWanted(ss, template, existing, v, n, k);
    }
    if v == template {
      assert k in existing && existing[k] in ScaledAway(ss, pods, existing);
      assert Superfluous(ss, v, pods, listed, existing[k], k) && Going(d, existing[k]);
    }
  }

  /** Where claims scaled away are to go, one goes for each ordinal of each template that has any. */
  lemma {:induction false} SuperfluousClaimsGo(ss: StatefulSet, templates: seq<string>, pods: set<nat>, listed: set<string>,
                                               c: Claims, d: Claims, v: string, k: nat)
    requires ClaimsStep(ss, templates, pods, listed, c, d) && ss.deleteScaled && v in templates
    requires exists n :: Superfluous(ss, v, pods, listed, n, k)
    ensures exists n :: Superfluous(ss, v, pods, listed, n, k) && Going(d, n)
  {
    hide TemplateStep, Superfluous, Going;
    var front, last := templates[..|templates| - 1], templates[|templates| - 1];
    var mid :| TemplateStep(ss, last, pods, listed, mid, d) && ClaimsStep(ss, front, pods, listed, c, mid);
    assert templates == front + [last];
    if v == last {
      var n :| Superfluous(ss, v, pods, listed, n, k);
      TemplateRetires(ss, last, pods, listed, mid, d, v, k, n);
    } else {
      SuperfluousClaimsGo(ss, front, pods, listed, c, mid, v, k);
      var n :| Superfluous(ss, v, pods, listed, n, k) && Going(mid, n);
      TemplateRetires(ss, last, pods, listed, mid, d, v, k, n);
    }
  }

  /**
   Where every name reads as at most its own claim, a claim of a template at an ordinal scaled away goes in
   a sweep exactly if such claims are to go and no pod is left there.
   */
  lemma {:induction false} ScaledAwayExactly(ss: StatefulSet, pods: set<nat>, c: Claims, d: Claims, v: string, k: nat)
    requires ClaimsStep(ss, ss.templates, pods, c.Keys, c, d) && Canonical(ss, c.Keys)
    requires v in ss.templates && k >= Want(ss) && ClaimName(ss, v, k) in c && !c[ClaimName(ss, v, k)].terminating
    ensures Going(d, ClaimName(ss, v, k)) <==> ss.deleteScaled && k !in pods
  {
    hide ClaimsStep, ReadsAs, ClaimName;
    var n := ClaimName(ss, v, k);
    NameReadsBack(ss, v, k);
    OnlySuperfluousClaimsGo(ss, ss.templates, pods, c.Keys, c, d, n);
    if Going(d, n) {
      var w, j :| w in ss.templates && Superfluous(ss, w, pods, c.Keys, n, j);
      ReadsItsOrdinal(ss, v, k, w, j);
    }
    if ss.deleteScaled && k !in pods {
      assert Superfluous(ss, v, pods, c.Keys, n, k);
      SuperfluousClaimsGo(ss, ss.templates, pods, c.Keys, c, d, v, k);
    }
  }

  lemma {:induction false} NameReadsBack(ss: StatefulSet, v: string, k: nat)
    ensures ReadsAs(ss, v, ClaimName(ss, v, k), k)
  {
    NameRoundTrip(ClaimPrefix(ss, v), k);
  }

  lemma {:induction false} TemplateMakes(ss: StatefulSet, template: string, pods: set<nat>, listed: set<string>, c: Claims, d: Claims, n: string)
    requires TemplateStep(ss, template, pods, listed, c, d) && n in d && n !in c
    ensures exists k: nat :: k < Want(ss) && n == ClaimName(ss, template, k)
    ensures d[n] == Claim(ss.ownClaims, false, false)
  {
    hide ReadsAs, ClaimName;
    var existing :| IsExisting(ss, template, listed, existing)
                    && d == Dropped(WithClaims(c, Provided(ss, template, existing), ss.ownClaims), ScaledAway(ss, pods, existing));
    assert n in Provided(ss, template, existing);
    forall k | k in existing && existing[k] == n ensures k < Want(ss) {
      ProvidedIsWanted(ss, template, existing, template, n, k);
    }
  }

  /** A claim that was not there is one of those wanted, and goes with the set if the set says so. */
  lemma {:induction false} NewClaimsAreWanted(ss: StatefulSet, templates: seq<string>, pods: set<nat>, listed: set<string>,
                                              c: Claims, d: Claims, n: string)
    requires ClaimsStep(ss, templates, pods, listed, c, d) && n in d && n !in c
    ensures exists v, k: nat :: v in templates && k < Want(ss) && n == ClaimName(ss, v, k)
    ensures d[n] == Claim(ss.ownClaims, false, false)
  {
    hide TemplateStep, ClaimName;
    var front, last := templates[..|templates| - 1], templates[|templates| - 1];
    var mid :| TemplateStep(ss, last, pods, listed, mid, d) && ClaimsStep(ss, front, pods, listed, c, mid);
    assert templates == front + [last];
    if n in mid {
      NewClaimsAreWanted(ss, front, pods, listed, c, mid, n);
      var v, k: nat :| v in front && k < Want(ss) && n == ClaimName(ss, v, k);
      NewStays(ss, last, pods, listed, mid, d, v, k);
    } else {
      TemplateMakes(ss, last, pods, listed, mid, d, n);
    }
  }

  lemma {:induction false} NewStays(ss: StatefulSet, template: string, pods: set<nat>, listed: set<string>, c: Claims, d: Claims, v: string, k: nat)
    requires TemplateStep(ss, template, pods, listed, c, d) && k < Want(ss) && ClaimName(ss, v, k) in c
    ensures ClaimName(ss, v, k) in d && d[ClaimName(ss, v, k)] == c[ClaimName(ss, v, k)]
  {
    assert ClaimName(ss, v, k) == (v + "-" + ss.name) + "-" + Itoa(k);
    TemplateKeeps(ss, template, pods, listed, c, d, v + "-" + ss.name, k);
  }

  const DB := StatefulSet("web", 3, "web-1", Some(1), false, false, 0, ["data"], false, false, false)

  /** A claim named with a leading zero is taken for the one wanted, which is then never made. */
  lemma {:induction false} PaddedClaimIsTaken(pods: set<nat>, d: Claims)
    requires ClaimsStep(DB, DB.templates, pods, {"data-web-00"}, map["data-web-00" := Claim(false, false, false)], d)
    ensures ClaimName(DB, "data", 0) !in d
  {
    var prefix := ClaimPrefix(DB, "data");
    assert prefix == "data-web-";
    assert "data-web-00" == prefix + "00";
    assert "data-web-00"[|prefix|..] == "00" && "00"[..1] == "0" && "0"[..0] == "";
    assert Decimal("00") == 0;
    assert ReadsAs(DB, "data", "data-web-00", 0);
    assert Taken(DB, "data", {"data-web-00"}, 0);
    assert |ClaimName(DB, "data", 0)| == 10;
    ClaimsProvidedExactly(DB, DB.templates, pods, {"data-web-00"}, map["data-web-00" := Claim(false, false, false)], d, "data", 0);
  }

  // ----- Every pod has its claims -----

  /** A name the API server allows does not end in a dash. */
  predicate ProperName(ss: StatefulSet) {
    |ss.name| > 0 && ss.name[|ss.name| - 1] != '-'
  }

  /** Nothing but the claims themselves reads as a claim of one of the templates. */
  ghost predicate Canonical(ss: StatefulSet, names: set<string>) {
    forall n, v, k | n in names && v in ss.templates && ReadsAs(ss, v, n, k) :: n == ClaimName(ss, v, k)
  }

  lemma {:induction false} OwnClaimsAreCanonical(ss: StatefulSet, v: string, j: nat, w: string, k: nat)
    requires ProperName(ss) && ReadsAs(ss, w, ClaimName(ss, v, j), k)
    ensures ClaimName(ss, v, j) == ClaimName(ss, w, k)
  {
    hide Itoa;
    var name, prefix := ClaimName(ss, v, j), ClaimPrefix(ss, w);
    NumeralRoundTrip(j);
    assert name == (v + "-" + ss.name) + "-" + Itoa(j);
    SuffixOrdinal(prefix, v + "-" + ss.name, j);
    OwnDigits(ss, v, j, w, k);
    assert name[|prefix| - 1] == '-';
    assert name[|v| + |ss.name|] == ss.name[|ss.name| - 1];
  }

  /** The digits that are read off the claim's name are those it was given. */
  lemma {:induction false} OwnDigits(ss: StatefulSet, v: string, j: nat, w: string, k: nat)
    requires ReadsAs(ss, w, ClaimName(ss, v, j), k)
    ensures var rest := ClaimName(ss, v, j)[|ClaimPrefix(ss, w)|..];
            rest != "" && (if rest[0] == '-' || rest[0] == '+' then rest[1..] else rest) == Itoa(j)
  {
    hide Itoa, Decimal, ParseOrdinal, AllDigits;
    var name, prefix := ClaimName(ss, v, j), ClaimPrefix(ss, w);
    NumeralRoundTrip(j);
    ReadDigits(name, prefix, k);
    assert name == (v + "-" + ss.name) + "-" + Itoa(j);
    var rest := name[|prefix|..];
    assert name == prefix + rest;
    var signed := rest[0] == '-' || rest[0] == '+';
    var front := if signed then prefix else w + "-" + ss.name;
    var before := if signed then rest[0] else '-';
    var body := if signed then rest[1..] else rest;
    assert name == front + [before] + body;
    SameNumeral(front, before, body, v + "-" + ss.name, '-', Itoa(j));
  }

  /** What is read as an ordinal has digits, after a sign at most. */
  lemma {:induction false} ReadDigits(name: string, prefix: string, k: nat)
    requires ParseOrdinal(name, prefix) == Some(k)
    ensures prefix <= name
    ensures var rest := name[|prefix|..];
            rest != "" && AllDigits(if rest[0] == '-' || rest[0] == '+' then rest[1..] else rest)
  {
    hide Decimal;
  }

  lemma {:induction false} TickKeepsClaims(ss: StatefulSet, s: Pods, c: Claims, born: set<string>, healthy: Pod -> bool)
    requires PodsHaveClaims(ss, s, c)
    ensures PodsHaveClaims(ss, Ticked(s, born, healthy), c)
  {
    var u := Ticked(s, born, healthy);
    forall p, k, v | SitsAt(ss, u, p, k) && p.name == PodName(ss, k) && v in ss.templates ensures ClaimName(ss, v, k) in c {
      assert s[p.name].name == p.name;
      assert SitsAt(ss, s, s[p.name], k);
    }
  }

  /** Every pod of the set has a claim for every template. */
  ghost predicate PodsHaveClaims(ss: StatefulSet, s: Pods, c: Claims) {
    forall p, k, v | SitsAt(ss, s, p, k) && p.name == PodName(ss, k) && v in ss.templates :: ClaimName(ss, v, k) in c
  }

  /** Providing claims keeps the names canonical. */
  lemma {:induction false} CanonicalStays(ss: StatefulSet, templates: seq<string>, pods: set<nat>, listed: set<string>,
                                          c: Claims, d: Claims)
    requires ProperName(ss) && ClaimsStep(ss, templates, pods, listed, c, d) && Canonical(ss, c.Keys)
    ensures Canonical(ss, d.Keys)
  {
    hide ClaimName, ReadsAs;
    if |templates| > 0 {
      var front, last := templates[..|templates| - 1], templates[|templates| - 1];
      var mid :| TemplateStep(ss, last, pods, listed, mid, d) && ClaimsStep(ss, front, pods, listed, c, mid);
      CanonicalStays(ss, front, pods, listed, c, mid);
      var existing :| IsExisting(ss, last, listed, existing)
                      && d == Dropped(WithClaims(mid, Provided(ss, last, existing), ss.ownClaims), ScaledAway(ss, pods, existing));
      forall n, v, k | n in d && v in ss.templates && ReadsAs(ss, v, n, k) ensures n == ClaimName(ss, v, k) {
        if n !in mid {
          var j :| j in Before(Want(ss)) && j !in existing && n == ClaimName(ss, last, j);
          OwnClaimsAreCanonical(ss, last, j, v, k);
        }
      }
    }
  }

  /**
   In a store where only its claims read as such, every pod a StatefulSet has kept or made has
   all its claims after every sweep, however the set is scaled.
   */
  lemma {:induction false} PodsKeepTheirClaims(ss: StatefulSet, s: Pods, idx: Index, t: Pods, born: set<string>, c: Claims, d: Claims)
    requires Keyed(s) && IsIndex(ss, s, idx) && Step(ss, idx, s, t, born)
    requires ClaimsStep(ss, ss.templates, idx.Keys, c.Keys, c, d)
    requires ProperName(ss) && Canonical(ss, c.Keys) && PodsHaveClaims(ss, s, c)
    ensures Canonical(ss, d.Keys) && PodsHaveClaims(ss, t, d)
  {
    hide Step, ClaimsStep, Canonical, PodName, ClaimName;
    CanonicalStays(ss, ss.templates, idx.Keys, c.Keys, c, d);
    forall p, k, v | SitsAt(ss, t, p, k) && p.name == PodName(ss, k) && v in ss.templates ensures ClaimName(ss, v, k) in d {
      if p.name in s {
        StepKeepsPod(ss, s, idx, t, born, p.name);
        assert SitsAt(ss, s, s[p.name], k);
        ClaimInUseIsKept(ss, idx.Keys, c, d, v, k);
      } else {
        BornIsWanted(ss, s, idx, t, born, k);
        CanonicalClaimIsThere(ss, idx.Keys, c, d, v, k);
      }
    }
  }

  lemma {:induction false} ClaimInUseIsKept(ss: StatefulSet, pods: set<nat>, c: Claims, d: Claims, v: string, k: nat)
    requires ClaimsStep(ss, ss.templates, pods, c.Keys, c, d)
    requires ClaimName(ss, v, k) in c && k in pods
    ensures ClaimName(ss, v, k) in d
  {
    assert ClaimName(ss, v, k) == (v + "-" + ss.name) + "-" + Itoa(k);
    ClaimsInUseAreKept(ss, ss.templates, pods, c.Keys, c, d, v + "-" + ss.name, k);
  }

  lemma {:induction false} CanonicalClaimIsThere(ss: StatefulSet, pods: set<nat>, c: Claims, d: Claims, v: string, k: nat)
    requires ClaimsStep(ss, ss.templates, pods, c.Keys, c, d) && Canonical(ss, c.Keys)
    requires v in ss.templates && k < Want(ss)
    ensures ClaimName(ss, v, k) in d
  {
    ClaimsProvidedExactly(ss, ss.templates, pods, c.Keys, c, d, v, k);
  }
}
