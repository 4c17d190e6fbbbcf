/** When the order of the envelopes decides what is kept
    (crates/revoot-core/src/findings.rs, lines 349-426 and 525-534). */
module FindingsOrder {
  import opened Wrappers
  import opened Digests
  import opened Sorting
  import opened Sequences
  import opened ChangedPaths
  import opened Findings
  import Anchors
  import Strings
  import Texts

  // ----- where ranked findings come from

  lemma {:induction false} RankedIn(p: Pipeline, a: seq<Envelope>, x: RankedFinding)
    ensures x in AllRanked(p, a) <==> exists e :: e in a && x in RankedOf(p, e)
  {
    if a != [] {
      var n := |a| - 1;
      RankedIn(p, a[..n], x);
      assert a == a[..n] + [a[n]];
    }
  }

  lemma OfItsUnit(p: Pipeline, e: Envelope, x: RankedFinding)
    requires x in RankedOf(p, e)
    ensures x.unit == e.unit
    ensures Admissible(p, e) ==> e.unit in p.issued && x.anchorId in p.issued[e.unit]
  {
    var i :| 0 <= i < |e.findings| && RankedOf(p, e)[i] == x;
    assert e.findings[i] in e.findings;
  }

  lemma {:induction false} SameRanked(p: Pipeline, a: seq<Envelope>, b: seq<Envelope>)
    requires multiset(a) == multiset(b)
    ensures forall x :: x in AllRanked(p, a) <==> x in AllRanked(p, b)
  {
    SameElements(a, b);
    forall x ensures x in AllRanked(p, a) <==> x in AllRanked(p, b) {
      RankedIn(p, a, x);
      RankedIn(p, b, x);
    }
  }

  /** No work unit reports twice. */
  ghost predicate OwnUnits(a: seq<Envelope>) {
    Distinct(Map(UnitOf, a))
  }

  lemma UnitsDiffer(a: seq<Envelope>, i: nat, j: nat)
    requires OwnUnits(a) && i < |a| && j < |a| && i != j
    ensures a[i].unit != a[j].unit
  {
    assert Map(UnitOf, a)[i] != Map(UnitOf, a)[j];
  }

  lemma EnvelopesDiffer(a: seq<Envelope>, e: Envelope, f: Envelope)
    requires OwnUnits(a) && e in a && f in a && e != f
    ensures e.unit != f.unit
  {
    var i, j :| 0 <= i < |a| && a[i] == e && 0 <= j < |a| && a[j] == f;
    UnitsDiffer(a, i, j);
  }

  lemma OwnUnitsPermuted(a: seq<Envelope>, b: seq<Envelope>)
    requires multiset(a) == multiset(b)
    ensures OwnUnits(a) <==> OwnUnits(b)
  {
    MapPermutation(UnitOf, a, b);
    if OwnUnits(a) {
      DistinctPermutation(Map(UnitOf, a), Map(UnitOf, b));
    } else if OwnUnits(b) {
      DistinctPermutation(Map(UnitOf, b), Map(UnitOf, a));
    }
  }

  lemma Place(a: seq<Envelope>, e: Envelope) returns (l: seq<Envelope>, r: seq<Envelope>)
    requires e in a
    ensures a == l + [e] + r
  {
    var i :| 0 <= i < |a| && a[i] == e;
    l, r := a[..i], a[i + 1..];
  }

  // ----- contested keys

  /** `x` comes from `e`, and no finding with its key is preferred to it. */
  ghost predicate Top(p: Pipeline, a: seq<Envelope>, e: Envelope, x: RankedFinding) {
    e in a && x in RankedOf(p, e) && forall z :: z in AllRanked(p, a) && z.key == x.key ==> !Preferred(z, x)
  }

  /** Two work units tie for a key. */
  ghost predicate Contested(p: Pipeline, a: seq<Envelope>) {
    exists e, f, x, y :: Top(p, a, e, x) && Top(p, a, f, y) && e.unit != f.unit && x.key == y.key
  }

  lemma {:induction false} ThreeParts(p: Pipeline, l: seq<Envelope>, e: Envelope, r: seq<Envelope>, key: Digest)
    ensures Best(AllRanked(p, l + [e] + r), key)
         == Merge(Merge(Best(AllRanked(p, l), key), Best(RankedOf(p, e), key)), Best(AllRanked(p, r), key))
  {
    AllRankedConcat(p, l + [e], r);
    AllRankedConcat(p, l, [e]);
    AllRankedOne(p, e);
    BestConcat(AllRanked(p, l) + RankedOf(p, e), AllRanked(p, r), key);
    BestConcat(AllRanked(p, l), RankedOf(p, e), key);
  }

  /** A best finding has an envelope it is a top finding of. */
  lemma BestIsTop(p: Pipeline, a: seq<Envelope>, key: Digest) returns (e: Envelope)
    requires Best(AllRanked(p, a), key).Some?
    ensures Top(p, a, e, Best(AllRanked(p, a), key).value)
    ensures Best(AllRanked(p, a), key).value.unit == e.unit && Best(AllRanked(p, a), key).value.key == key
  {
    var x := Best(AllRanked(p, a), key).value;
    BestIsMinimal(AllRanked(p, a), key);
    RankedIn(p, a, x);
    e :| e in a && x in RankedOf(p, e);
    OfItsUnit(p, e, x);
  }

  /** Envelopes of other work units hold no finding of this one. */
  lemma {:induction false} BestElsewhere(p: Pipeline, a: seq<Envelope>, unit: string, key: Digest)
    requires forall f :: f in a ==> f.unit != unit
    ensures Best(AllRanked(p, a), key).Some? ==> Best(AllRanked(p, a), key).value.unit != unit
  {
    if Best(AllRanked(p, a), key).Some? {
      var f := BestIsTop(p, a, key);
    }
  }

  lemma OthersDiffer(l: seq<Envelope>, e: Envelope, r: seq<Envelope>)
    requires OwnUnits(l + [e] + r)
    ensures forall f :: f in l || f in r ==> f.unit != e.unit
  {
    var a := l + [e] + r;
    assert a[|l|] == e;
    forall f | f in l ensures f.unit != e.unit {
      var i :| 0 <= i < |l| && l[i] == f;
      assert a[i] == f;
      UnitsDiffer(a, i, |l|);
    }
    forall f | f in r ensures f.unit != e.unit {
      var i :| 0 <= i < |r| && r[i] == f;
      assert a[|l| + 1 + i] == f;
      UnitsDiffer(a, |l| + 1 + i, |l|);
    }
  }

  /** The best finding of all is the best one of its own envelope. */
  lemma {:induction false} BestOfItsEnvelope(p: Pipeline, a: seq<Envelope>, e: Envelope, key: Digest)
    requires OwnUnits(a) && e in a
    requires Best(AllRanked(p, a), key).Some? && Best(AllRanked(p, a), key).value.unit == e.unit
    ensures Best(AllRanked(p, a), key) == Best(RankedOf(p, e), key)
  {
    var l, r := Place(a, e);
    ThreeParts(p, l, e, r, key);
    OthersDiffer(l, e, r);
    BestElsewhere(p, l, e.unit, key);
    BestElsewhere(p, r, e.unit, key);
  }

  lemma TopPermuted(p: Pipeline, a: seq<Envelope>, b: seq<Envelope>, e: Envelope, x: RankedFinding)
    requires multiset(a) == multiset(b) && Top(p, b, e, x)
    ensures Top(p, a, e, x)
  {
    SameElements(a, b);
    SameRanked(p, a, b);
  }

  /** An uncontested key has one envelope on top. */
  lemma OneOnTop(p: Pipeline, a: seq<Envelope>, e: Envelope, f: Envelope, x: RankedFinding, y: RankedFinding)
    requires OwnUnits(a) && !Contested(p, a) && Top(p, a, e, x) && Top(p, a, f, y) && x.key == y.key
    ensures e == f
  {
    if e != f {
      EnvelopesDiffer(a, e, f);
    }
  }

  /** Uncontested keys keep the same finding in every order. */
  lemma {:induction false} UncontestedBest(p: Pipeline, a: seq<Envelope>, b: seq<Envelope>, key: Digest)
    requires multiset(a) == multiset(b) && OwnUnits(a) && !Contested(p, a)
    ensures Best(AllRanked(p, a), key) == Best(AllRanked(p, b), key)
  {
    BestInBoth(p, a, b, key);
    if Best(AllRanked(p, a), key).Some? {
      var e := BestIsTop(p, a, key);
      var f := BestIsTop(p, b, key);
      TopPermuted(p, a, b, f, Best(AllRanked(p, b), key).value);
      OneOnTop(p, a, e, f, Best(AllRanked(p, a), key).value, Best(AllRanked(p, b), key).value);
      OwnUnitsPermuted(a, b);
      BestOfItsEnvelope(p, a, e, key);
      BestOfItsEnvelope(p, b, e, key);
    }
  }

  lemma {:induction false} BestInBoth(p: Pipeline, a: seq<Envelope>, b: seq<Envelope>, key: Digest)
    requires multiset(a) == multiset(b)
    ensures Best(AllRanked(p, a), key).Some? == Best(AllRanked(p, b), key).Some?
  {
    SameRanked(p, a, b);
    BestIsMinimal(AllRanked(p, a), key);
    BestIsMinimal(AllRanked(p, b), key);
  }

  /** A top finding's envelope, moved to the front, wins its key. */
  lemma FrontWins(p: Pipeline, a: seq<Envelope>, e: Envelope, x: RankedFinding) returns (b: seq<Envelope>, w: RankedFinding)
    requires Top(p, a, e, x)
    ensures multiset(b) == multiset(a)
    ensures Best(AllRanked(p, b), x.key) == Some(w) && w.unit == e.unit && w.key == x.key
  {
    var l, r := Place(a, e);
    var rest := l + r;
    b := [] + [e] + rest;
    assert multiset(b) == multiset(l + [e] + r);
    SameRanked(p, a, b);
    ThreeParts(p, [], e, rest, x.key);
    BestIsMinimal(RankedOf(p, e), x.key);
    w := Best(RankedOf(p, e), x.key).value;
    OfItsUnit(p, e, w);
    BestIsMinimal(AllRanked(p, rest), x.key);
    var other := Best(AllRanked(p, rest), x.key);
    if other.Some? {
      AllRankedConcat(p, [] + [e], rest);
      assert other.value in AllRanked(p, b);
      if Preferred(other.value, w) {
        PreferredCotransitive(other.value, x, w);
      }
    }
  }

  // ----- what does not depend on the order

  lemma {:induction false} CountForgetsOrder(p: Pipeline, a: seq<Envelope>, b: seq<Envelope>)
    requires multiset(a) == multiset(b)
    ensures |AllRanked(p, a)| == |AllRanked(p, b)|
  {
    if a == [] {
      SameElements(a, b);
    } else {
      var i := TakeOut(a, b);
      var l, r := b[..i], b[i + 1..];
      CountForgetsOrder(p, a[1..], l + r);
      AllRankedConcat(p, l + [a[0]], r);
      AllRankedConcat(p, l, [a[0]]);
      AllRankedConcat(p, l, r);
      AllRankedConcat(p, [a[0]], a[1..]);
      assert a == [a[0]] + a[1..];
    }
  }

  lemma {:induction false} SummariesForgetOrder(p: Pipeline, a: seq<Envelope>, b: seq<Envelope>)
    requires multiset(a) == multiset(b) && Distinct(Map(UnitOf, a)) && Distinct(Map(UnitOf, b))
    ensures Summaries(p, a) == Summaries(p, b)
  {
    SameElements(a, b);
    forall u ensures (u in Summaries(p, a) <==> u in Summaries(p, b)) && (u in Summaries(p, a) ==> Summaries(p, a)[u] == Summaries(p, b)[u]) {
      SummaryOf(p, a, u);
      SummaryOf(p, b, u);
    }
  }

  lemma {:induction false} KeptForgetsOrder(p: Pipeline, a: seq<Envelope>, b: seq<Envelope>)
    requires multiset(a) == multiset(b) && OwnUnits(a) && !Contested(p, a)
    ensures KeepAll(AllRanked(p, a)) == KeepAll(AllRanked(p, b))
  {
    var x, y := AllRanked(p, a), AllRanked(p, b);
    forall f ensures f in KeepAll(x) <==> f in KeepAll(y) {
      UncontestedBest(p, a, b, f.key);
      KeptExactly(x, f);
      KeptExactly(y, f);
    }
    KeepAllSorted(x);
    KeepAllSorted(y);
    Strings.KeyOrder((f: RankedFinding) => f.key, ByKey);
    StrictlySortedUnique(ByKey, KeepAll(x), KeepAll(y));
  }

  /** Whether the pipeline accepts never depends on the order of the envelopes. */
  lemma AcceptanceForgetsOrder(p: Pipeline, a: seq<Envelope>, b: seq<Envelope>, limit: nat)
    requires multiset(a) == multiset(b)
    ensures Acceptable(p, a, limit) <==> Acceptable(p, b, limit)
  {
    SameElements(a, b);
    CountForgetsOrder(p, a, b);
    OwnUnitsPermuted(a, b);
  }

  ghost predicate OrderFree(p: Pipeline, a: seq<Envelope>) {
    forall b :: multiset(b) == multiset(a) ==> Outcome(p, b) == Outcome(p, a)
  }

  /** Deduplication is canonical exactly when no key is contested: every order of the envelopes gives
      the same outcome if and only if no two work units tie for a key. */
  lemma OrderMattersExactly(p: Pipeline, a: seq<Envelope>, limit: nat)
    requires Acceptable(p, a, limit)
    ensures forall b :: multiset(b) == multiset(a) ==> Acceptable(p, b, limit)
    ensures OrderFree(p, a) <==> !Contested(p, a)
  {
    forall b | multiset(b) == multiset(a) ensures Acceptable(p, b, limit) {
      AcceptanceForgetsOrder(p, a, b, limit);
    }
    if Contested(p, a) {
      ContestedOrders(p, a);
    } else {
      UncontestedIsOrderFree(p, a);
    }
  }

  lemma UncontestedIsOrderFree(p: Pipeline, a: seq<Envelope>)
    requires OwnUnits(a) && !Contested(p, a)
    ensures OrderFree(p, a)
  {
    forall b | multiset(b) == multiset(a) ensures Outcome(p, b) == Outcome(p, a) {
      OwnUnitsPermuted(a, b);
      KeptForgetsOrder(p, a, b);
      CountForgetsOrder(p, a, b);
      SummariesForgetOrder(p, a, b);
    }
  }

  /** Inputs whose best findings for one key differ come out differently. */
  lemma {:induction false} BestDecides(p: Pipeline, a: seq<Envelope>, b: seq<Envelope>, x: RankedFinding, y: RankedFinding)
    requires Best(AllRanked(p, a), x.key) == Some(x) && Best(AllRanked(p, b), x.key) == Some(y) && x != y
    ensures Outcome(p, a) != Outcome(p, b)
  {
    OutcomeIsRanked(p, a);
    OutcomeIsRanked(p, b);
    assert x in Outcome(p, a).findings;
    assert x !in Outcome(p, b).findings;
  }

  /** With either of two tied envelopes in front, findings of different work units are kept. */
  lemma TiedTops(p: Pipeline, a: seq<Envelope>, e: Envelope, f: Envelope, x: RankedFinding, y: RankedFinding)
    requires Top(p, a, e, x) && Top(p, a, f, y) && e.unit != f.unit && x.key == y.key
    ensures !OrderFree(p, a)
  {
    var b, v := FrontWins(p, a, e, x);
    var c, w := FrontWins(p, a, f, y);
    BestDecides(p, b, c, v, w);
  }

  lemma ContestedOrders(p: Pipeline, a: seq<Envelope>)
    requires Contested(p, a)
    ensures !OrderFree(p, a)
  {
    var e, f, x, y :| Top(p, a, e, x) && Top(p, a, f, y) && e.unit != f.unit && x.key == y.key;
    TiedTops(p, a, e, f, x, y);
  }

  // ----- anchors issued to one work unit only

  /** No anchor is issued to two work units. */
  ghost predicate DisjointlyIssued(p: Pipeline) {
    forall u, v :: u in p.issued && v in p.issued && u != v ==> p.issued[u] !! p.issued[v]
  }

  /** Findings at different anchors do not tie. */
  lemma TopsShareAnchor(p: Pipeline, a: seq<Envelope>, e: Envelope, f: Envelope, x: RankedFinding, y: RankedFinding)
    requires Top(p, a, e, x) && Top(p, a, f, y) && x.key == y.key
    ensures x.anchorId == y.anchorId
  {
    RankedIn(p, a, x);
    RankedIn(p, a, y);
    if x.anchorId != y.anchorId {
      DifferentAnchorsRank(x, y);
    }
  }

  lemma DisjointIsUncontested(p: Pipeline, a: seq<Envelope>)
    requires DisjointlyIssued(p) && forall e :: e in a ==> Admissible(p, e)
    ensures !Contested(p, a)
  {
    forall e, f, x, y | Top(p, a, e, x) && Top(p, a, f, y) && e.unit != f.unit ensures x.key != y.key {
      OfItsUnit(p, e, x);
      OfItsUnit(p, f, y);
      assert p.issued[e.unit] !! p.issued[f.unit];
      if x.key == y.key {
        TopsShareAnchor(p, a, e, f, x, y);
      }
    }
  }

  /** So disjoint issuance is enough: the order in which the envelopes arrive changes neither whether
      they are accepted nor what comes out. */
  lemma OrderIsForgotten(p: Pipeline, a: seq<Envelope>, b: seq<Envelope>, limit: nat)
    requires multiset(a) == multiset(b) && DisjointlyIssued(p)
    ensures Acceptable(p, a, limit) <==> Acceptable(p, b, limit)
    ensures Acceptable(p, a, limit) ==> Outcome(p, a) == Outcome(p, b)
  {
    AcceptanceForgetsOrder(p, a, b, limit);
    if Acceptable(p, a, limit) {
      DisjointIsUncontested(p, a);
      OrderMattersExactly(p, a, limit);
    }
  }

  // ----- a contested key

  /** Two envelopes with one finding each; the findings tie. */
  ghost predicate Tie(p: Pipeline, e: Envelope, f: Envelope, x: RankedFinding, y: RankedFinding) {
    && e.unit != f.unit && RankedOf(p, e) == [x] && RankedOf(p, f) == [y]
    && x.key == y.key && !Preferred(x, y) && !Preferred(y, x)
  }

  lemma {:induction false} PairRanked(p: Pipeline, e: Envelope, f: Envelope, x: RankedFinding, y: RankedFinding)
    requires Tie(p, e, f, x, y)
    ensures AllRanked(p, [e, f]) == [x, y] && Best([x, y], x.key) == Some(x)
  {
    assert [] + [e] + [f] == [e, f];
    AllRankedConcat(p, [e], [f]);
    AllRankedOne(p, e);
    AllRankedOne(p, f);
    assert [x] + [y] == [x, y];
    BestOfTie(x, y);
  }

  lemma {:induction false} BestOfTie(x: RankedFinding, y: RankedFinding)
    requires x.key == y.key && !Preferred(y, x)
    ensures Best([x, y], x.key) == Some(x)
  {
    BestOne(x);
    BestOne(y);
    BestConcat([x], [y], x.key);
    assert [x] + [y] == [x, y];
  }

  lemma {:induction false} BestOne(x: RankedFinding)
    ensures Best([x], x.key) == Some(x)
  {
    assert [x][..0] == [];
  }

  lemma {:induction false} TieRemembersOrder(p: Pipeline, e: Envelope, f: Envelope, x: RankedFinding, y: RankedFinding)
    requires Tie(p, e, f, x, y)
    ensures Outcome(p, [e, f]) != Outcome(p, [f, e])
  {
    PairRanked(p, e, f, x, y);
    PairRanked(p, f, e, y, x);
    OfItsUnit(p, e, x);
    OfItsUnit(p, f, y);
    BestDecides(p, [e, f], [f, e], x, y);
  }

  lemma {:induction false} TieIsContested(p: Pipeline, e: Envelope, f: Envelope, x: RankedFinding, y: RankedFinding)
    requires Tie(p, e, f, x, y)
    ensures Contested(p, [e, f])
  {
    PairRanked(p, e, f, x, y);
    PreferredIsWeak();
    assert x in RankedOf(p, e) && y in RankedOf(p, f) && e in [e, f] && f in [e, f];
    assert Top(p, [e, f], e, x) && Top(p, [e, f], f, y);
  }

  lemma {:induction false} PairAcceptable(p: Pipeline, e: Envelope, f: Envelope, x: RankedFinding, y: RankedFinding, limit: nat)
    requires Tie(p, e, f, x, y) && Admissible(p, e) && Admissible(p, f) && 2 <= limit <= MAX_REVIEW_FINDINGS
    ensures Acceptable(p, [e, f], limit)
  {
    PairRanked(p, e, f, x, y);
  }

  /** One finding at an anchor. */
  function Remark(id: string): Finding {
    Finding(id, High, 90, Correctness, "Title", "Explanation.", "Evidence.", None, None)
  }

  function Twin(unit: string, id: string): Envelope {
    Envelope(unit, [Remark(id)], "Summary.")
  }

  lemma {:induction false} TwinsTie(p: Pipeline, u: string, v: string, id: string)
    requires u != v
    ensures Tie(p, Twin(u, id), Twin(v, id), Ranked(p, u, Remark(id)), Ranked(p, v, Remark(id)))
  {
    var x, y := Ranked(p, u, Remark(id)), Ranked(p, v, Remark(id));
    assert RankedOf(p, Twin(u, id)) == [x] && RankedOf(p, Twin(v, id)) == [y];
    TieIsNoPreference(x, y);
  }

  lemma TieIsNoPreference(x: RankedFinding, y: RankedFinding)
    requires x.severity == y.severity && x.confidence == y.confidence && x.key == y.key
    requires x.content == y.content && x.anchorId == y.anchorId
    ensures !Preferred(x, y) && !Preferred(y, x)
  {
    Strings.LessIrreflexive(x.anchorId);
  }

  /** Two orders of one accepted input that come out differently. */
  ghost predicate OrdersDiffer(p: Pipeline, limit: nat, a: seq<Envelope>, b: seq<Envelope>) {
    multiset(a) == multiset(b) && Acceptable(p, a, limit) && Acceptable(p, b, limit) && Outcome(p, a) != Outcome(p, b)
  }

  /** Without disjoint issuance the order can matter: two work units that hold the same anchor and report
      the same finding are accepted in both orders, and the outcomes differ. */
  lemma {:induction false} SharedAnchorsRememberOrder(p: Pipeline, u: string, v: string, id: string, limit: nat)
    requires u != v && 2 <= limit <= MAX_REVIEW_FINDINGS
    requires Admissible(p, Twin(u, id)) && Admissible(p, Twin(v, id))
    ensures OrdersDiffer(p, limit, [Twin(u, id), Twin(v, id)], [Twin(v, id), Twin(u, id)])
    ensures Contested(p, [Twin(u, id), Twin(v, id)])
  {
    TwinsTie(p, u, v, id);
    TwinsTie(p, v, u, id);
    TiedPairDiffers(p, limit, Twin(u, id), Twin(v, id), Ranked(p, u, Remark(id)), Ranked(p, v, Remark(id)));
  }

  lemma {:induction false} TiedPairDiffers(p: Pipeline, limit: nat, e: Envelope, f: Envelope, x: RankedFinding, y: RankedFinding)
    requires 2 <= limit <= MAX_REVIEW_FINDINGS && Admissible(p, e) && Admissible(p, f)
    requires Tie(p, e, f, x, y) && Tie(p, f, e, y, x)
    ensures OrdersDiffer(p, limit, [e, f], [f, e]) && Contested(p, [e, f])
  {
    TieRemembersOrder(p, e, f, x, y);
    TieIsContested(p, e, f, x, y);
    PairAcceptable(p, e, f, x, y, limit);
    PairAcceptable(p, f, e, y, x, limit);
    Swapped(e, f);
  }

  lemma Swapped<T>(e: T, f: T)
    ensures multiset([e, f]) == multiset([f, e])
  {
    assert multiset([e, f]) == multiset{e, f} && multiset([f, e]) == multiset{f, e};
  }

  /** The checks of an envelope that do not look inside its texts. */
  predicate Filled(e: Envelope) {
    && e.unit != "" && |e.findings| <= 25 && !Texts.IsBlank(e.summary)
    && forall f :: f in e.findings ==> FilledFinding(f)
  }

  predicate FilledFinding(f: Finding) {
    f.anchorId != "" && f.confidence <= 100 && f.title != "" && !Texts.IsBlank(f.explanation) && !Texts.IsBlank(f.evidence)
  }

  lemma TwinFilled(unit: string, id: string)
    requires unit != "" && id != ""
    ensures Filled(Twin(unit, id))
  {
    NotBlank("Summary.");
    NotBlank("Explanation.");
    NotBlank("Evidence.");
  }

  lemma NotBlank(s: string)
    requires s != "" && !Texts.IsWhitespace(s[0])
    ensures !Texts.IsBlank(s)
  {
    assert s[0] in s;
  }

  /** A pipeline that issues one anchor to two work units. */
  lemma SharedPipeline(u: string, v: string, id: string, digest: Digest) returns (p: Pipeline)
    ensures StrictlySorted(Anchors.ById, p.anchors) && p.valid == Filled
    ensures u in p.issued && v in p.issued && id in p.issued[u] && id in p.issued[v] && Anchors.Scan(p.anchors, id).Some?
  {
    var anchor := Anchors.TrustedAnchor(id, ChangedPath("file", "file", Modified), Addition(1), digest, digest);
    p := Pipeline(map[u := {id}, v := {id}], [anchor], Filled, (_, _) => digest, (f: Finding) => f.title, _ => digest, (s: string) => s);
  }

  /** So there is a pipeline, and an input it accepts in two orders with different outcomes. */
  lemma {:induction false} SharedAnchorsHappen(u: string, v: string, id: string, digest: Digest)
    returns (p: Pipeline, a: seq<Envelope>, b: seq<Envelope>)
    requires u != v && u != "" && v != "" && AnchorShape(id)
    ensures StrictlySorted(Anchors.ById, p.anchors) && p.valid == Filled
    ensures OrdersDiffer(p, 2, a, b)
  {
    p := SharedPipeline(u, v, id, digest);
    TwinAdmissible(p, u, id);
    TwinAdmissible(p, v, id);
    SharedAnchorsRememberOrder(p, u, v, id, 2);
    a, b := [Twin(u, id), Twin(v, id)], [Twin(v, id), Twin(u, id)];
  }

  /** One unit of a shared anchor. */
  lemma {:induction false} TwinAdmissible(p: Pipeline, unit: string, id: string)
    requires p.valid == Filled && unit != "" && unit in p.issued && id in p.issued[unit]
    requires AnchorShape(id) && Anchors.Scan(p.anchors, id).Some?
    ensures Admissible(p, Twin(unit, id))
  {
    TwinFilled(unit, id);
  }
}
