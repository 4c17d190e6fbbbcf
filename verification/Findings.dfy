/** Aggregating model findings: validation of the envelopes, one finding kept for each key, and the
    ranking of the kept ones (crates/revoot-core/src/findings.rs, lines 305-447 and 525-534). */
module Findings {
  import opened Wrappers
  import opened Words
  import opened Digests
  import opened Sorting
  import opened Sequences
  import Anchors
  import Strings
  import Texts

  const MAX_REVIEW_FINDINGS := 250
  const ANCHOR_PREFIX := "ga1_"

  datatype Severity = Critical | High | Medium | Low | Info {
    function Priority(): nat {
      match this case Critical => 5 case High => 4 case Medium => 3 case Low => 2 case Info => 1
    }
  }

  datatype Category = Correctness | Security | Reliability | Performance | Maintainability

  datatype Finding = Finding(
    anchorId: string, severity: Severity, confidence: u8, category: Category, title: string, explanation: string,
    evidence: string, lineage: Option<Digest>, replacement: Option<string>)

  datatype Envelope = Envelope(unit: string, findings: seq<Finding>, summary: string)

  datatype RankedFinding = RankedFinding(
    unit: string, anchorId: string, severity: Severity, confidence: u8, category: Category, key: Digest, content: Digest,
    lineage: Option<Digest>, body: string)

  /** What the pipeline is given: issued anchors, the anchor table, and, as functions, the content
      checks of an envelope, the finding key, the renderers and the content digest. */
  datatype Pipeline = Pipeline(
    issued: map<string, set<string>>, anchors: seq<Anchors.TrustedAnchor>,
    valid: Envelope -> bool, key: (string, Finding) -> Digest, render: Finding -> string, digest: string -> Digest,
    summarize: string -> string)

  datatype RankedFindings = RankedFindings(findings: seq<RankedFinding>, summaries: map<string, string>, duplicates: nat)

  datatype PipelineError =
    | InvalidEnvelope | DuplicateWorkUnit | UnknownWorkUnit | InvalidAnchorShape | AnchorNotIssued | AnchorNotTrusted
    | ReviewFindingLimit

  predicate AnchorShape(id: string) {
    Texts.StripPrefix(id, ANCHOR_PREFIX).Some? && IsDigest(Texts.StripPrefix(id, ANCHOR_PREFIX).value)
  }

  /** An anchor identifier is `ga1_` and 64 lower-case hexadecimal digits. */
  lemma AnchorShapeIsTold(id: string)
    ensures AnchorShape(id) <==>
      |id| == 68 && id[..4] == "ga1_" && forall i :: 4 <= i < 68 ==> '0' <= id[i] <= '9' || 'a' <= id[i] <= 'f'
  {
    var rest := Texts.StripPrefix(id, ANCHOR_PREFIX);
    if rest.Some? {
      assert forall i :: 0 <= i < |rest.value| ==> rest.value[i] == id[i + 4] && rest.value[i] in rest.value;
      assert forall i :: 4 <= i < |id| ==> id[i] == rest.value[i - 4];
    }
  }

  function Ranked(p: Pipeline, unit: string, f: Finding): RankedFinding {
    var body := p.render(f);
    RankedFinding(unit, f.anchorId, f.severity, f.confidence, f.category, p.key(f.anchorId, f), p.digest(body), f.lineage, body)
  }

  /** `ranked_preference`: severity, confidence, key, content, anchor. */
  predicate Preferred(a: RankedFinding, b: RankedFinding) {
    if a.severity != b.severity then a.severity.Priority() > b.severity.Priority()
    else if a.confidence != b.confidence then a.confidence > b.confidence
    else if a.key != b.key then Strings.Less(a.key, b.key)
    else if a.content != b.content then Strings.Less(a.content, b.content)
    else Strings.Less(a.anchorId, b.anchorId)
  }

  lemma PreferredTransitive(a: RankedFinding, b: RankedFinding, c: RankedFinding)
    requires Preferred(a, b) && Preferred(b, c)
    ensures Preferred(a, c)
  {
    Strings.LessIsTotalOrder();
  }

  lemma PreferredCotransitive(a: RankedFinding, b: RankedFinding, c: RankedFinding)
    requires Preferred(a, c)
    ensures Preferred(a, b) || Preferred(b, c)
  {
    Strings.LessIsTotalOrder();
  }

  lemma PreferredIsWeak()
    ensures StrictWeak(Preferred)
  {
    forall a ensures !Preferred(a, a) { Strings.LessIrreflexive(a.anchorId); }
    forall a, b, c | Preferred(a, b) && Preferred(b, c) ensures Preferred(a, c) { PreferredTransitive(a, b, c); }
    forall a, b, c | Preferred(a, c) ensures Preferred(a, b) || Preferred(b, c) { PreferredCotransitive(a, b, c); }
  }

  lemma DifferentAnchorsRank(a: RankedFinding, b: RankedFinding)
    requires a.anchorId != b.anchorId
    ensures Preferred(a, b) || Preferred(b, a)
  {
    Strings.LessTotal(a.anchorId, b.anchorId);
    Strings.LessTotal(a.content, b.content);
    Strings.LessTotal(a.key, b.key);
  }

  // ----- all findings of all envelopes

  function RankedOf(p: Pipeline, e: Envelope): (r: seq<RankedFinding>)
    ensures |r| == |e.findings| && forall i :: 0 <= i < |r| ==> r[i] == Ranked(p, e.unit, e.findings[i])
  {
    seq(|e.findings|, i requires 0 <= i < |e.findings| => Ranked(p, e.unit, e.findings[i]))
  }

  function AllRanked(p: Pipeline, envelopes: seq<Envelope>): seq<RankedFinding> {
    if envelopes == [] then []
    else AllRanked(p, envelopes[..|envelopes| - 1]) + RankedOf(p, envelopes[|envelopes| - 1])
  }

  function UnitOf(e: Envelope): string { e.unit }

  function Summaries(p: Pipeline, envelopes: seq<Envelope>): map<string, string> {
    if envelopes == [] then map[]
    else
      var n := |envelopes| - 1;
      Summaries(p, envelopes[..n])[envelopes[n].unit := p.summarize(envelopes[n].summary)]
  }

  /** A finding whose anchor is issued to its work unit and trusted. */
  predicate Bound(p: Pipeline, unit: string, f: Finding) {
    AnchorShape(f.anchorId) && unit in p.issued && f.anchorId in p.issued[unit] && Anchors.Scan(p.anchors, f.anchorId).Some?
  }

  ghost predicate Admissible(p: Pipeline, e: Envelope) {
    p.valid(e) && e.unit in p.issued && forall f :: f in e.findings ==> Bound(p, e.unit, f)
  }

  /** The inputs the pipeline accepts. */
  ghost predicate Acceptable(p: Pipeline, envelopes: seq<Envelope>, limit: nat) {
    && 0 < limit <= MAX_REVIEW_FINDINGS
    && (forall e :: e in envelopes ==> Admissible(p, e))
    && Distinct(Map(UnitOf, envelopes))
    && |AllRanked(p, envelopes)| <= limit
  }

  // ----- keeping one finding for each key

  predicate ByKey(a: RankedFinding, b: RankedFinding) { Strings.Less(a.key, b.key) }

  /** The entry of a map ordered by key: a new key is inserted, a known one keeps the preferred finding. */
  function Keep(kept: seq<RankedFinding>, r: RankedFinding): seq<RankedFinding> {
    if kept == [] then [r]
    else if kept[0].key == r.key then [if Preferred(r, kept[0]) then r else kept[0]] + kept[1..]
    else if Strings.Less(r.key, kept[0].key) then [r] + kept
    else [kept[0]] + Keep(kept[1..], r)
  }

  function KeepAll(all: seq<RankedFinding>): seq<RankedFinding> {
    if all == [] then [] else Keep(KeepAll(all[..|all| - 1]), all[|all| - 1])
  }

  /** The result of a successful call. */
  function Outcome(p: Pipeline, envelopes: seq<Envelope>): RankedFindings {
    var all := AllRanked(p, envelopes);
    var kept := KeepAll(all);
    RankedFindings(SortBy(Preferred, kept), Summaries(p, envelopes), if |kept| <= |all| then |all| - |kept| else 0)
  }

  /** The better of two optional findings; the first of a tie. */
  function Merge(a: Option<RankedFinding>, b: Option<RankedFinding>): Option<RankedFinding> {
    if a.None? then b
    else if b.None? then a
    else if Preferred(b.value, a.value) then b
    else a
  }

  /** Independently of the map: the first of the preferred findings with a key. */
  function Best(all: seq<RankedFinding>, key: Digest): Option<RankedFinding> {
    if all == [] then None
    else
      var last := all[|all| - 1];
      Merge(Best(all[..|all| - 1], key), if last.key == key then Some(last) else None)
  }

  function Lookup(kept: seq<RankedFinding>, key: Digest): Option<RankedFinding> {
    if kept == [] then None else if kept[0].key == key then Some(kept[0]) else Lookup(kept[1..], key)
  }

  lemma {:induction false} KeepSorted(kept: seq<RankedFinding>, r: RankedFinding)
    requires StrictlySorted(ByKey, kept)
    ensures StrictlySorted(ByKey, Keep(kept, r))
    ensures forall x :: x in Keep(kept, r) ==> x in kept || x == r
  {
    Strings.LessIsTotalOrder();
    if kept != [] && kept[0].key != r.key && !Strings.Less(r.key, kept[0].key) {
      KeepSorted(kept[1..], r);
      var tail := Keep(kept[1..], r);
      forall j | 0 <= j < |tail| ensures ByKey(kept[0], tail[j]) {
        assert tail[j] in tail;
        assert kept == [kept[0]] + kept[1..];
      }
    }
  }

  lemma {:induction false} LookupKeep(kept: seq<RankedFinding>, r: RankedFinding, key: Digest)
    requires StrictlySorted(ByKey, kept)
    ensures Lookup(Keep(kept, r), key) == Merge(Lookup(kept, key), if r.key == key then Some(r) else None)
  {
    if kept != [] {
      if kept[0].key == r.key {
      } else if Strings.Less(r.key, kept[0].key) {
        if key == r.key {
          AbsentBelow(kept, key);
        }
      } else {
        LookupKeep(kept[1..], r, key);
      }
    }
  }

  /** A key below the first key is not there. */
  lemma {:induction false} AbsentBelow(kept: seq<RankedFinding>, key: Digest)
    requires StrictlySorted(ByKey, kept)
    requires kept != [] ==> Strings.Less(key, kept[0].key)
    ensures Lookup(kept, key) == None
  {
    Strings.LessIsTotalOrder();
    if |kept| > 1 {
      assert ByKey(kept[0], kept[1]);
      AbsentBelow(kept[1..], key);
    }
  }

  lemma {:induction false} KeepAllSorted(all: seq<RankedFinding>)
    ensures StrictlySorted(ByKey, KeepAll(all))
  {
    if all != [] {
      KeepAllSorted(all[..|all| - 1]);
      KeepSorted(KeepAll(all[..|all| - 1]), all[|all| - 1]);
    }
  }

  /** The map built one finding at a time holds, for every key, the first of the preferred findings. */
  lemma {:induction false} KeepsBest(all: seq<RankedFinding>, key: Digest)
    ensures Lookup(KeepAll(all), key) == Best(all, key)
  {
    if all != [] {
      var n := |all| - 1;
      KeepsBest(all[..n], key);
      KeepAllSorted(all[..n]);
      LookupKeep(KeepAll(all[..n]), all[n], key);
    }
  }

  /** What is best is among the findings with its key, and none of those is preferred to it. */
  lemma {:induction false} BestIsMinimal(all: seq<RankedFinding>, key: Digest)
    ensures match Best(all, key)
            case None => forall x :: x in all ==> x.key != key
            case Some(best) => best in all && best.key == key && forall x :: x in all && x.key == key ==> !Preferred(x, best)
  {
    if all != [] {
      var n := |all| - 1;
      BestIsMinimal(all[..n], key);
      assert all == all[..n] + [all[n]];
      PreferredIsWeak();
    }
  }

  lemma {:induction false} LookupMember(kept: seq<RankedFinding>, x: RankedFinding)
    requires StrictlySorted(ByKey, kept)
    ensures x in kept <==> Lookup(kept, x.key) == Some(x)
  {
    if kept != [] {
      LookupMember(kept[1..], x);
      assert kept == [kept[0]] + kept[1..];
      if x in kept[1..] {
        Strings.LessIrreflexive(x.key);
      }
    }
  }

  /** A finding is kept if and only if it is the best one with its key. */
  lemma {:induction false} KeptExactly(all: seq<RankedFinding>, x: RankedFinding)
    ensures x in KeepAll(all) <==> Best(all, x.key) == Some(x)
  {
    KeepsBest(all, x.key);
    KeepAllSorted(all);
    LookupMember(KeepAll(all), x);
  }

  /** Findings kept under different keys are never tied by the ranking. */
  lemma KeptUntied(kept: seq<RankedFinding>)
    requires StrictlySorted(ByKey, kept)
    ensures Untied(Preferred, kept) && Distinct(kept)
  {
    forall x, y | x in kept && y in kept && x != y ensures Preferred(x, y) || Preferred(y, x) {
      var i :| 0 <= i < |kept| && kept[i] == x;
      var j :| 0 <= j < |kept| && kept[j] == y;
      assert ByKey(x, y) || ByKey(y, x);
      Strings.LessIsTotalOrder();
    }
    forall i, j | 0 <= i < j < |kept| ensures kept[i] != kept[j] {
      assert ByKey(kept[i], kept[j]);
      Strings.LessIsTotalOrder();
    }
  }

  /** What comes out is ranked without ties and holds exactly the best finding of every key. */
  lemma {:induction false} OutcomeIsRanked(p: Pipeline, envelopes: seq<Envelope>)
    ensures var all, findings := AllRanked(p, envelopes), Outcome(p, envelopes).findings;
      StrictlySorted(Preferred, findings) && forall x :: x in findings <==> Best(all, x.key) == Some(x)
  {
    var all := AllRanked(p, envelopes);
    var kept := KeepAll(all);
    forall x ensures x in kept <==> Best(all, x.key) == Some(x) {
      KeptExactly(all, x);
    }
    SameElements(kept, SortBy(Preferred, kept));
    KeepAllSorted(all);
    KeptUntied(kept);
    PreferredIsWeak();
    SortByStrict(Preferred, kept);
  }

  // ----- what the result says

  /** From critical to informational. */
  predicate MoreSevere(a: Severity, b: Severity) {
    match b
    case Critical => false
    case High => a.Critical?
    case Medium => a.Critical? || a.High?
    case Low => a.Critical? || a.High? || a.Medium?
    case Info => !a.Info?
  }

  /** No finding stands behind a less severe one, nor among equally severe ones behind a less confident one;
      otherwise the smaller key comes first. */
  ghost predicate InReadingOrder(findings: seq<RankedFinding>) {
    forall i, j :: 0 <= i < j < |findings| ==>
      var a, b := findings[i], findings[j];
      && !MoreSevere(b.severity, a.severity)
      && (a.severity == b.severity ==> a.confidence >= b.confidence)
      && (a.severity == b.severity && a.confidence == b.confidence ==> Strings.Less(a.key, b.key))
  }

  /** Nothing reported with the key of `x` is more severe, nor equally severe and more confident, nor, if
      equal so far, smaller in content or then in anchor. */
  ghost predicate Unsurpassed(x: RankedFinding, all: seq<RankedFinding>) {
    x in all && forall z :: z in all && z.key == x.key ==>
      && !MoreSevere(z.severity, x.severity)
      && (z.severity == x.severity ==> z.confidence <= x.confidence)
      && (z.severity == x.severity && z.confidence == x.confidence ==>
            !Strings.Less(z.content, x.content) && (z.content == x.content ==> !Strings.Less(z.anchorId, x.anchorId)))
  }

  lemma PreferenceSpelledOut(a: RankedFinding, b: RankedFinding)
    requires Preferred(a, b)
    ensures !MoreSevere(b.severity, a.severity)
    ensures a.severity == b.severity ==> a.confidence >= b.confidence
    ensures a.severity == b.severity && a.confidence == b.confidence && a.key != b.key ==> Strings.Less(a.key, b.key)
  {
  }

  lemma NotPreferredSpelledOut(z: RankedFinding, x: RankedFinding)
    requires z.key == x.key && !Preferred(z, x)
    ensures Unsurpassed(x, [z, x])
  {
    Strings.LessIrreflexive(x.content);
    Strings.LessIrreflexive(x.anchorId);
  }

  ghost predicate OneForEachKey(findings: seq<RankedFinding>) {
    forall i, j :: 0 <= i < j < |findings| ==> findings[i].key != findings[j].key
  }

  ghost predicate HasKey(findings: seq<RankedFinding>, key: Digest) {
    exists x :: x in findings && x.key == key
  }

  /** The result is in reading order, each kept finding is unsurpassed, and every key that was reported is kept
      exactly once. */
  ghost predicate WellRanked(findings: seq<RankedFinding>, all: seq<RankedFinding>) {
    && InReadingOrder(findings)
    && OneForEachKey(findings)
    && (forall x :: x in findings ==> Unsurpassed(x, all))
    && (forall z :: z in all ==> HasKey(findings, z.key))
  }

  lemma {:induction false} OutcomeInOrder(p: Pipeline, envelopes: seq<Envelope>)
    ensures var findings := Outcome(p, envelopes).findings;
      InReadingOrder(findings) && OneForEachKey(findings)
  {
    OutcomeIsRanked(p, envelopes);
    var all, findings := AllRanked(p, envelopes), Outcome(p, envelopes).findings;
    Strings.LessIsTotalOrder();
    forall i, j | 0 <= i < j < |findings| ensures findings[i].key != findings[j].key {
      assert findings[i] in findings && findings[j] in findings;
      assert Preferred(findings[i], findings[j]);
      PreferredIsWeak();
    }
    forall i, j | 0 <= i < j < |findings|
      ensures !MoreSevere(findings[j].severity, findings[i].severity)
      ensures findings[i].severity == findings[j].severity ==> findings[i].confidence >= findings[j].confidence
      ensures findings[i].severity == findings[j].severity && findings[i].confidence == findings[j].confidence ==>
        Strings.Less(findings[i].key, findings[j].key)
    {
      PreferenceSpelledOut(findings[i], findings[j]);
    }
  }

  lemma {:induction false} OutcomeIsWellRanked(p: Pipeline, envelopes: seq<Envelope>)
    ensures WellRanked(Outcome(p, envelopes).findings, AllRanked(p, envelopes))
  {
    OutcomeIsRanked(p, envelopes);
    OutcomeInOrder(p, envelopes);
    var all, findings := AllRanked(p, envelopes), Outcome(p, envelopes).findings;
    forall x | x in findings ensures Unsurpassed(x, all) {
      BestIsMinimal(all, x.key);
      forall z | z in all && z.key == x.key ensures Unsurpassed(x, [z, x]) {
        NotPreferredSpelledOut(z, x);
      }
      forall z | z in all && z.key == x.key ensures z in [z, x] { }
    }
    forall z | z in all ensures HasKey(findings, z.key) {
      BestIsMinimal(all, z.key);
      assert Best(all, z.key).value in findings;
    }
  }

  /** A reported finding as the pipeline ranks it. */
  ghost predicate Stems(p: Pipeline, envelopes: seq<Envelope>, x: RankedFinding) {
    exists e, f :: e in envelopes && f in e.findings && x == RankedFinding(
      e.unit, f.anchorId, f.severity, f.confidence, f.category, p.key(f.anchorId, f), p.digest(p.render(f)), f.lineage, p.render(f))
  }

  /** Everything ranked was reported, and everything reported was ranked. */
  lemma {:induction false} RankedStems(p: Pipeline, envelopes: seq<Envelope>, x: RankedFinding)
    ensures x in AllRanked(p, envelopes) <==> Stems(p, envelopes, x)
  {
    if envelopes != [] {
      var n := |envelopes| - 1;
      var last := envelopes[n];
      assert envelopes == envelopes[..n] + [last];
      RankedStems(p, envelopes[..n], x);
      if x in RankedOf(p, last) {
        var i :| 0 <= i < |last.findings| && RankedOf(p, last)[i] == x;
        assert last.findings[i] in last.findings && last in envelopes;
      }
      forall f | f in last.findings && x == Ranked(p, last.unit, f) ensures x in RankedOf(p, last) {
        var i :| 0 <= i < |last.findings| && last.findings[i] == f;
        assert RankedOf(p, last)[i] == x;
      }
    }
  }

  /** One rendered summary for each work unit that reports. */
  ghost predicate Summarized(p: Pipeline, envelopes: seq<Envelope>, summaries: map<string, string>) {
    && (forall u :: u in summaries <==> exists e :: e in envelopes && e.unit == u)
    && forall e :: e in envelopes ==> e.unit in summaries && summaries[e.unit] == p.summarize(e.summary)
  }

  lemma {:induction false} SummaryOf(p: Pipeline, envelopes: seq<Envelope>, u: string)
    requires Distinct(Map(UnitOf, envelopes))
    ensures u in Summaries(p, envelopes) <==> exists e :: e in envelopes && e.unit == u
    ensures forall e :: e in envelopes && e.unit == u ==> u in Summaries(p, envelopes) && Summaries(p, envelopes)[u] == p.summarize(e.summary)
  {
    if envelopes != [] {
      var n := |envelopes| - 1;
      assert envelopes == envelopes[..n] + [envelopes[n]];
      MapSnoc(UnitOf, envelopes[..n], envelopes[n]);
      DistinctSnoc(Map(UnitOf, envelopes[..n]), envelopes[n].unit);
      SummaryOf(p, envelopes[..n], u);
      forall e | e in envelopes[..n] ensures e.unit != envelopes[n].unit {
        var i :| 0 <= i < n && envelopes[..n][i] == e;
        assert Map(UnitOf, envelopes[..n])[i] == e.unit;
      }
    }
  }

  lemma OutcomeIsSummarized(p: Pipeline, envelopes: seq<Envelope>)
    requires Distinct(Map(UnitOf, envelopes))
    ensures Summarized(p, envelopes, Outcome(p, envelopes).summaries)
  {
    forall u ensures u in Summaries(p, envelopes) <==> exists e :: e in envelopes && e.unit == u {
      SummaryOf(p, envelopes, u);
    }
    forall e | e in envelopes ensures e.unit in Summaries(p, envelopes) && Summaries(p, envelopes)[e.unit] == p.summarize(e.summary) {
      SummaryOf(p, envelopes, e.unit);
    }
  }

  // ----- concatenation

  lemma MergeAssociative(a: Option<RankedFinding>, b: Option<RankedFinding>, c: Option<RankedFinding>)
    ensures Merge(Merge(a, b), c) == Merge(a, Merge(b, c))
  {
    PreferredIsWeak();
  }

  lemma {:induction false} BestConcat(a: seq<RankedFinding>, b: seq<RankedFinding>, key: Digest)
    ensures Best(a + b, key) == Merge(Best(a, key), Best(b, key))
  {
    if b == [] {
      assert a + b == a;
    } else {
      var n := |b| - 1;
      assert a + b == (a + b[..n]) + [b[n]];
      assert (a + b)[..|a + b| - 1] == a + b[..n];
      BestConcat(a, b[..n], key);
      MergeAssociative(Best(a, key), Best(b[..n], key), if b[n].key == key then Some(b[n]) else None);
    }
  }

  lemma {:induction false} AllRankedConcat(p: Pipeline, a: seq<Envelope>, b: seq<Envelope>)
    ensures AllRanked(p, a + b) == AllRanked(p, a) + AllRanked(p, b)
  {
    if b == [] {
      assert a + b == a;
    } else {
      var n := |b| - 1;
      assert (a + b)[..|a + b| - 1] == a + b[..n];
      AllRankedConcat(p, a, b[..n]);
    }
  }

  lemma {:induction false} AllRankedOne(p: Pipeline, e: Envelope)
    ensures AllRanked(p, [e]) == RankedOf(p, e)
  {
    assert [e][..0] == [];
  }

  ghost predicate Separate(p: Pipeline, envelopes: seq<Envelope>) {
    (forall e :: e in envelopes ==> Admissible(p, e)) && Distinct(Map(UnitOf, envelopes))
  }

  // ----- the pipeline

  lemma {:induction false} KeepCount(kept: seq<RankedFinding>, r: RankedFinding)
    requires StrictlySorted(ByKey, kept)
    ensures |Keep(kept, r)| == |kept| + if Lookup(kept, r.key).Some? then 0 else 1
  {
    if kept != [] && kept[0].key != r.key {
      if Strings.Less(r.key, kept[0].key) {
        AbsentBelow(kept, r.key);
      } else {
        KeepCount(kept[1..], r);
      }
    }
  }

  /** What the loops have reached: the findings so far, the map and the number of duplicates. */
  ghost predicate Reached(all: seq<RankedFinding>, kept: seq<RankedFinding>, duplicates: nat) {
    kept == KeepAll(all) && |kept| + duplicates == |all|
  }

  lemma {:induction false} ReachedSnoc(all: seq<RankedFinding>, kept: seq<RankedFinding>, duplicates: nat, r: RankedFinding)
    requires Reached(all, kept, duplicates)
    ensures Reached(all + [r], Keep(kept, r), if Lookup(kept, r.key).Some? then duplicates + 1 else duplicates)
  {
    assert (all + [r])[..|all|] == all;
    KeepAllSorted(all);
    KeepCount(kept, r);
  }

  /** `e` is the first check that a finding fails behind `count` others. */
  ghost predicate FindingRefused(p: Pipeline, unit: string, f: Finding, count: nat, limit: nat, e: PipelineError)
    requires unit in p.issued
  {
    if count >= limit then e == ReviewFindingLimit
    else if !AnchorShape(f.anchorId) then e == InvalidAnchorShape
    else if f.anchorId !in p.issued[unit] then e == AnchorNotIssued
    else (forall a :: a in p.anchors ==> a.id != f.anchorId) && e == AnchorNotTrusted
  }

  ghost predicate FindingsRefused(p: Pipeline, unit: string, findings: seq<Finding>, count: nat, limit: nat, e: PipelineError)
    requires unit in p.issued
  {
    exists i :: 0 <= i < |findings| && (forall f :: f in findings[..i] ==> Bound(p, unit, f))
      && FindingRefused(p, unit, findings[i], count + i, limit, e)
  }

  /** `e` is the first check that an envelope fails behind the envelopes `before`. */
  ghost predicate EnvelopeRefused(p: Pipeline, before: seq<Envelope>, e: Envelope, limit: nat, error: PipelineError) {
    if !p.valid(e) then error == InvalidEnvelope
    else if exists b :: b in before && b.unit == e.unit then error == DuplicateWorkUnit
    else if e.unit !in p.issued then error == UnknownWorkUnit
    else FindingsRefused(p, e.unit, e.findings, |AllRanked(p, before)|, limit, error)
  }

  /** Why the pipeline refuses its input. */
  ghost predicate Refused(p: Pipeline, envelopes: seq<Envelope>, limit: nat, error: PipelineError) {
    if limit == 0 || limit > 250 then error == ReviewFindingLimit
    else exists i :: 0 <= i < |envelopes| && RefusedAt(p, envelopes[..i], envelopes[i], limit, error)
  }

  ghost predicate RefusedAt(p: Pipeline, before: seq<Envelope>, e: Envelope, limit: nat, error: PipelineError) {
    Separate(p, before) && |AllRanked(p, before)| <= limit && EnvelopeRefused(p, before, e, limit, error)
  }

  lemma UnitsSeen(before: seq<Envelope>, unit: string)
    ensures unit in SetOf(Map(UnitOf, before)) <==> exists b :: b in before && b.unit == unit
  {
    var units := Map(UnitOf, before);
    if b :| b in before && b.unit == unit {
      var i :| 0 <= i < |before| && before[i] == b;
      assert units[i] == unit;
    }
    if i :| 0 <= i < |before| && units[i] == unit {
      assert before[i] in before;
    }
  }

  /** The checks of one finding. */
  method CheckFinding(p: Pipeline, unit: string, f: Finding, count: nat, limit: nat) returns (e: Option<PipelineError>)
    requires StrictlySorted(Anchors.ById, p.anchors) && unit in p.issued
    ensures e.None? <==> count < limit && Bound(p, unit, f)
    ensures e.Some? ==> FindingRefused(p, unit, f, count, limit, e.value)
  {
    if count + 1 > limit {
      return Some(ReviewFindingLimit);
    }
    if !AnchorShape(f.anchorId) {
      return Some(InvalidAnchorShape);
    }
    if f.anchorId !in p.issued[unit] {
      return Some(AnchorNotIssued);
    }
    Anchors.ScanFinds(p.anchors, f.anchorId);
    var anchor := Anchors.Resolve(p.anchors, f.anchorId);
    return if anchor.None? then Some(AnchorNotTrusted) else None;
  }

  /** The findings of one envelope, one after the other. */
  method RankEnvelope(p: Pipeline, e: Envelope, limit: nat, ghost all: seq<RankedFinding>, keptBefore: seq<RankedFinding>,
                      duplicatesBefore: nat, inputsBefore: nat)
    returns (r: Result<(seq<RankedFinding>, nat, nat), PipelineError>)
    requires StrictlySorted(Anchors.ById, p.anchors) && e.unit in p.issued
    requires Reached(all, keptBefore, duplicatesBefore) && inputsBefore == |all|
    ensures r.Success? <==> (forall f :: f in e.findings ==> Bound(p, e.unit, f)) && (e.findings != [] ==> |all| + |e.findings| <= limit)
    ensures r.Success? ==>
      Reached(all + RankedOf(p, e), r.value.0, r.value.1) && r.value.2 == |all + RankedOf(p, e)|
    ensures r.Failure? ==> FindingsRefused(p, e.unit, e.findings, |all|, limit, r.error)
  {
    var kept, duplicates, inputs := keptBefore, duplicatesBefore, inputsBefore;
    ghost var ranked := RankedOf(p, e);
    assert all + ranked[..0] == all;
    for i := 0 to |e.findings|
      invariant Reached(all + ranked[..i], kept, duplicates) && inputs == |all| + i
      invariant i > 0 ==> inputs <= limit
      invariant forall f :: f in e.findings[..i] ==> Bound(p, e.unit, f)
    {
      var f := e.findings[i];
      assert f in e.findings;
      var refusal := CheckFinding(p, e.unit, f, inputs, limit);
      if refusal.Some? {
        return Failure(refusal.value);
      }
      inputs := inputs + 1;
      var candidate := Ranked(p, e.unit, f);
      ReachedSnoc(all + ranked[..i], kept, duplicates, candidate);
      assert all + ranked[..i + 1] == (all + ranked[..i]) + [candidate];
      assert e.findings[..i + 1] == e.findings[..i] + [f];
      duplicates := if Lookup(kept, candidate.key).Some? then duplicates + 1 else duplicates;
      kept := Keep(kept, candidate);
    }
    assert ranked[..|ranked|] == ranked && e.findings[..|e.findings|] == e.findings;
    return Success((kept, duplicates, inputs));
  }

  /** The envelopes `before` passed, and the loop variables describe them. */
  ghost predicate Passed(p: Pipeline, limit: nat, before: seq<Envelope>, seen: set<string>, summaries: map<string, string>) {
    && Separate(p, before)
    && seen == SetOf(Map(UnitOf, before))
    && summaries == Summaries(p, before)
    && |AllRanked(p, before)| <= limit
  }

  lemma {:induction false} PassedSnoc(p: Pipeline, limit: nat, before: seq<Envelope>, seen: set<string>, summaries: map<string, string>, e: Envelope)
    requires Passed(p, limit, before, seen, summaries)
    requires Admissible(p, e) && e.unit !in seen && |AllRanked(p, before)| + |e.findings| <= limit
    ensures Passed(p, limit, before + [e], seen + {e.unit}, summaries[e.unit := p.summarize(e.summary)])
    ensures AllRanked(p, before + [e]) == AllRanked(p, before) + RankedOf(p, e)
  {
    assert (before + [e])[..|before|] == before;
    MapSnoc(UnitOf, before, e);
    DistinctSnoc(Map(UnitOf, before), e.unit);
  }

  /** An envelope that does not pass makes the whole input unacceptable. */
  lemma {:induction false} NotPassed(p: Pipeline, limit: nat, before: seq<Envelope>, seen: set<string>, e: Envelope, after: seq<Envelope>)
    requires seen == SetOf(Map(UnitOf, before))
    requires !Admissible(p, e) || e.unit in seen || |AllRanked(p, before)| + |e.findings| > limit
    ensures !Acceptable(p, before + [e] + after, limit)
  {
    var all := before + [e] + after;
    assert all[|before|] == e && e in all;
    AllRankedConcat(p, before + [e], after);
    AllRankedConcat(p, before, [e]);
    AllRankedOne(p, e);
    if e.unit in seen {
      var i :| 0 <= i < |before| && Map(UnitOf, before)[i] == e.unit;
      assert Map(UnitOf, all)[i] == Map(UnitOf, all)[|before|];
    }
  }

  /** When every envelope has passed, the input is acceptable and the loop variables are its outcome. */
  lemma {:induction false} AllPassed(p: Pipeline, limit: nat, envelopes: seq<Envelope>, seen: set<string>,
                                     summaries: map<string, string>, kept: seq<RankedFinding>, duplicates: nat)
    requires Passed(p, limit, envelopes, seen, summaries) && Reached(AllRanked(p, envelopes), kept, duplicates)
    ensures 0 < limit <= MAX_REVIEW_FINDINGS ==> Acceptable(p, envelopes, limit)
    ensures Outcome(p, envelopes) == RankedFindings(SortBy(Preferred, kept), summaries, duplicates)
  {
  }

  /** `validate_rank_and_render`: accepts exactly the acceptable inputs; every finding that comes in is
      either kept or counted as a duplicate. */
  method ValidateRankAndRender(p: Pipeline, envelopes: seq<Envelope>, limit: nat) returns (r: Result<RankedFindings, PipelineError>)
    requires StrictlySorted(Anchors.ById, p.anchors)
    ensures r.Success? <==> Acceptable(p, envelopes, limit)
    ensures r.Success? ==> r.value == Outcome(p, envelopes) && |r.value.findings| + r.value.duplicates == |AllRanked(p, envelopes)|
    ensures r.Success? ==> WellRanked(r.value.findings, AllRanked(p, envelopes)) && Summarized(p, envelopes, r.value.summaries)
    ensures forall x :: x in AllRanked(p, envelopes) <==> Stems(p, envelopes, x)
    ensures r.Failure? ==> Refused(p, envelopes, limit, r.error)
  {
    forall x ensures x in AllRanked(p, envelopes) <==> Stems(p, envelopes, x) {
      RankedStems(p, envelopes, x);
    }
    if limit == 0 || limit > MAX_REVIEW_FINDINGS {
      return Failure(ReviewFindingLimit);
    }
    var seen: set<string>, summaries: map<string, string> := {}, map[];
    var kept: seq<RankedFinding>, duplicates, inputs := [], 0, 0;
    for i := 0 to |envelopes|
      invariant Passed(p, limit, envelopes[..i], seen, summaries)
      invariant Reached(AllRanked(p, envelopes[..i]), kept, duplicates) && inputs == |AllRanked(p, envelopes[..i])|
    {
      var e := envelopes[i];
      ghost var before, after := envelopes[..i], envelopes[i + 1..];
      assert envelopes == before + [e] + after && envelopes[..i + 1] == before + [e];
      UnitsSeen(before, e.unit);
      if !p.valid(e) {
        assert RefusedAt(p, before, e, limit, InvalidEnvelope);
        NotPassed(p, limit, before, seen, e, after);
        return Failure(InvalidEnvelope);
      }
      if e.unit in seen {
        assert RefusedAt(p, before, e, limit, DuplicateWorkUnit);
        NotPassed(p, limit, before, seen, e, after);
        return Failure(DuplicateWorkUnit);
      }
      if e.unit !in p.issued {
        assert RefusedAt(p, before, e, limit, UnknownWorkUnit);
        NotPassed(p, limit, before, seen, e, after);
        return Failure(UnknownWorkUnit);
      }
      var ranked := RankEnvelope(p, e, limit, AllRanked(p, before), kept, duplicates, inputs);
      if ranked.Failure? {
        assert RefusedAt(p, before, e, limit, ranked.error);
        NotPassed(p, limit, before, seen, e, after);
        return Failure(ranked.error);
      }
      PassedSnoc(p, limit, before, seen, summaries, e);
      seen, summaries := seen + {e.unit}, summaries[e.unit := p.summarize(e.summary)];
      kept, duplicates, inputs := ranked.value.0, ranked.value.1, ranked.value.2;
    }
    assert envelopes[..|envelopes|] == envelopes;
    AllPassed(p, limit, envelopes, seen, summaries, kept, duplicates);
    SameElements(kept, SortBy(Preferred, kept));
    OutcomeIsWellRanked(p, envelopes);
    OutcomeIsSummarized(p, envelopes);
    // `kept` holds no more findings than came in, so the source's last limit check cannot fail.
    return Success(RankedFindings(SortBy(Preferred, kept), summaries, duplicates));
  }
}
