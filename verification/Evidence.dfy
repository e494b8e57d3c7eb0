/** Consolidating the threats that several analyzers detected: one entry per
    infection type, nothing lost, in whatever order the type map is walked. */
module Evidence {
  import opened Text
  import opened Grouping

  datatype Threat = Threat(
    kind: string, name: string, severity: string, description: string, attribution: string, confidence: real,
    firstDetected: Option<int>, lastActive: Option<int>,
    anomalyIDs: seq<string>, techniques: seq<string>, iocs: seq<string>, remediation: seq<string>)

  const KIND := (t: Threat) => t.kind
  const ANOMALY_IDS := (t: Threat) => t.anomalyIDs
  const IOCS := (t: Threat) => t.iocs
  const TECHNIQUES := (t: Threat) => t.techniques
  const REMEDIATION := (t: Threat) => t.remediation

  // ---------------------------------------------------------------------------
  // Merging one group
  // ---------------------------------------------------------------------------

  /** The running maximum starts at zero. */
  function MaxConfidence(group: seq<Threat>): real {
    if group == [] then 0.0
    else
      var rest := MaxConfidence(group[..|group| - 1]);
      var last := group[|group| - 1].confidence;
      if last > rest then last else rest
  }

  function Earlier(a: Option<int>, b: Option<int>): Option<int> {
    if b.Some? && (a.None? || b.value < a.value) then b else a
  }

  function Later(a: Option<int>, b: Option<int>): Option<int> {
    if b.Some? && (a.None? || b.value > a.value) then b else a
  }

  function FirstSeen(group: seq<Threat>): Option<int> {
    if group == [] then None else Earlier(FirstSeen(group[..|group| - 1]), group[|group| - 1].firstDetected)
  }

  function LastSeen(group: seq<Threat>): Option<int> {
    if group == [] then None else Later(LastSeen(group[..|group| - 1]), group[|group| - 1].lastActive)
  }

  function Decimal(n: nat): string {
    if n < 10 then [(n + '0' as int) as char] else Decimal(n / 10) + Decimal(n % 10)
  }

  function SourcesNote(description: string, n: nat): string {
    description + " (evidence from " + Decimal(n) + " sources)"
  }

  function Merged(group: seq<Threat>): Threat
    requires group != []
  {
    Threat(group[0].kind, group[0].name, group[0].severity, SourcesNote(group[0].description, |group|),
           group[0].attribution,
           MaxConfidence(group), FirstSeen(group), LastSeen(group),
           Flatten(group, ANOMALY_IDS), Dedup(Flatten(group, TECHNIQUES)),
           Flatten(group, IOCS), Dedup(Flatten(group, REMEDIATION)))
  }

  /** A single threat passes through as it is. */
  function Representative(group: seq<Threat>): Threat
    requires group != []
  {
    if |group| == 1 then group[0] else Merged(group)
  }

  /** The loop over one threat's list, with its seen-set. */
  method AppendUnseen(merged: seq<string>, seen: set<string>, items: seq<string>, ghost whole: seq<string>)
    returns (merged': seq<string>, seen': set<string>)
    requires merged == Dedup(whole) && forall s :: s in seen <==> s in whole
    ensures merged' == Dedup(whole + items) && forall s :: s in seen' <==> s in whole + items
  {
    merged', seen' := merged, seen;
    assert whole + items[..0] == whole;
    for i := 0 to |items|
      invariant merged' == Dedup(whole + items[..i])
      invariant forall s :: s in seen' <==> s in whole + items[..i]
    {
      assert whole + items[..i + 1] == (whole + items[..i]) + [items[i]];
      DedupSnoc(whole + items[..i], items[i]);
      if items[i] !in seen' {
        seen' := seen' + {items[i]};
        merged' := merged' + [items[i]];
      }
    }
    assert items[..|items|] == items;
  }

  /** What one more threat adds to each accumulated field. */
  lemma MergeStep(group: seq<Threat>, i: nat)
    requires i < |group|
    ensures MaxConfidence(group[..i + 1])
         == if group[i].confidence > MaxConfidence(group[..i]) then group[i].confidence else MaxConfidence(group[..i])
    ensures FirstSeen(group[..i + 1]) == Earlier(FirstSeen(group[..i]), group[i].firstDetected)
    ensures LastSeen(group[..i + 1]) == Later(LastSeen(group[..i]), group[i].lastActive)
    ensures forall f: Threat -> seq<string> {:trigger Flatten(group[..i + 1], f)} ::
      Flatten(group[..i + 1], f) == Flatten(group[..i], f) + f(group[i])
  {
    assert group[..i + 1][..i] == group[..i];
  }

  method MergeGroup(group: seq<Threat>) returns (merged: Threat)
    requires group != []
    ensures merged == Merged(group)
  {
    var maxConfidence := 0.0;
    var ids: seq<string>, iocs: seq<string> := [], [];
    var techniques: seq<string>, techSeen: set<string> := [], {};
    var remediation: seq<string>, remSeen: set<string> := [], {};
    var first: Option<int>, last: Option<int> := None, None;
    for i := 0 to |group|
      invariant maxConfidence == MaxConfidence(group[..i])
      invariant ids == Flatten(group[..i], ANOMALY_IDS) && iocs == Flatten(group[..i], IOCS)
      invariant techniques == Dedup(Flatten(group[..i], TECHNIQUES))
      invariant forall s :: s in techSeen <==> s in Flatten(group[..i], TECHNIQUES)
      invariant remediation == Dedup(Flatten(group[..i], REMEDIATION))
      invariant forall s :: s in remSeen <==> s in Flatten(group[..i], REMEDIATION)
      invariant first == FirstSeen(group[..i]) && last == LastSeen(group[..i])
    {
      var t := group[i];
      MergeStep(group, i);
      if t.confidence > maxConfidence {
        maxConfidence := t.confidence;
      }
      ids := ids + t.anomalyIDs;
      iocs := iocs + t.iocs;
      techniques, techSeen := AppendUnseen(techniques, techSeen, t.techniques, Flatten(group[..i], TECHNIQUES));
      remediation, remSeen := AppendUnseen(remediation, remSeen, t.remediation, Flatten(group[..i], REMEDIATION));
      if t.firstDetected.Some? {
        if first.None? || t.firstDetected.value < first.value {
          first := t.firstDetected;
        }
      }
      if t.lastActive.Some? {
        if last.None? || t.lastActive.value > last.value {
          last := t.lastActive;
        }
      }
    }
    assert group[..|group|] == group;
    merged := Threat(group[0].kind, group[0].name, group[0].severity, SourcesNote(group[0].description, |group|),
                     group[0].attribution,
                     maxConfidence, first, last, ids, techniques, iocs, remediation);
  }

  // ---------------------------------------------------------------------------
  // Consolidation
  // ---------------------------------------------------------------------------

  function Kinds(threats: seq<Threat>): set<string> {
    set t | t in threats :: t.kind
  }

  /** One representative for each type that occurs, in any order. */
  ghost predicate Consolidates(threats: seq<Threat>, out: seq<Threat>) {
    && DistinctKeys(out, KIND)
    && Kinds(out) == Kinds(threats)
    && forall t :: t in out ==> Group(threats, KIND, t.kind) != [] && t == Representative(Group(threats, KIND, t.kind))
  }

  lemma GroupOfKind(threats: seq<Threat>, k: string)
    ensures k in Kinds(threats) <==> Group(threats, KIND, k) != []
    ensures k in Kinds(threats) ==> Representative(Group(threats, KIND, k)).kind == k
  {
    NonEmptyGroup(threats, KIND, k);
    var g := Group(threats, KIND, k);
    if g != [] {
      assert g[0] in g;
      GroupMembers(threats, KIND, k, g[0]);
    }
  }

  method RepresentGroup(group: seq<Threat>) returns (r: Threat)
    requires group != []
    ensures r == Representative(group)
  {
    if |group| == 1 {
      r := group[0];
    } else {
      r := MergeGroup(group);
    }
  }

  method ConsolidateThreats(threats: seq<Threat>) returns (consolidated: seq<Threat>)
    ensures Consolidates(threats, consolidated)
  {
    var byType := GroupByKey(threats, KIND);
    consolidated := [];
    var todo := byType.Keys;
    while todo != {}
      invariant todo <= byType.Keys
      invariant DistinctKeys(consolidated, KIND) && Kinds(consolidated) == byType.Keys - todo
      invariant forall t :: t in consolidated ==> t.kind in byType && t == Representative(byType[t.kind])
      decreases todo
    {
      var infType :| infType in todo;
      todo := todo - {infType};
      GroupOfKind(threats, infType);
      var r := RepresentGroup(byType[infType]);
      AddKind(consolidated, r);
      consolidated := consolidated + [r];
    }
    assert byType.Keys == Kinds(threats) by {
      forall k
        ensures k in byType.Keys <==> k in Kinds(threats)
      {
        GroupOfKind(threats, k);
      }
    }
  }

  lemma AddKind(out: seq<Threat>, t: Threat)
    ensures Kinds(out + [t]) == Kinds(out) + {t.kind}
    ensures DistinctKeys(out, KIND) && t.kind !in Kinds(out) ==> DistinctKeys(out + [t], KIND)
  {
    assert forall u :: u in out + [t] <==> u in out || u == t;
    if t.kind !in Kinds(out) {
      forall i | 0 <= i < |out|
        ensures KIND(out[i]) != KIND(t)
      {
        assert out[i] in out;
      }
    }
  }

  // ---------------------------------------------------------------------------
  // What consolidation keeps
  // ---------------------------------------------------------------------------

  /** A field that merging concatenates without loss. */
  ghost predicate Additive<V(!new)>(f: Threat -> seq<V>) {
    forall g: seq<Threat> :: g != [] ==> multiset(f(Representative(g))) == multiset(Flatten(g, f))
  }

  lemma AnomaliesAndIOCsAdditive()
    ensures Additive(ANOMALY_IDS) && Additive(IOCS)
  {
    forall g: seq<Threat> | g != []
      ensures multiset(Representative(g).anomalyIDs) == multiset(Flatten(g, ANOMALY_IDS))
      ensures multiset(Representative(g).iocs) == multiset(Flatten(g, IOCS))
    {
      if |g| == 1 {
        assert g[..0] == [];
        assert Flatten(g, ANOMALY_IDS) == [] + g[0].anomalyIDs;
        assert Flatten(g, IOCS) == [] + g[0].iocs;
      }
    }
  }

  /** Consolidating without the last type leaves the rest consolidated. */
  lemma DropLast(threats: seq<Threat>, out: seq<Threat>)
    requires Consolidates(threats, out) && out != []
    ensures Consolidates(Others(threats, KIND, out[|out| - 1].kind), out[..|out| - 1])
  {
    var last := out[|out| - 1];
    var rest, front := Others(threats, KIND, last.kind), out[..|out| - 1];
    assert out == front + [last];
    assert forall i :: 0 <= i < |front| ==> KIND(front[i]) != KIND(last);
    forall t | t in front
      ensures Group(rest, KIND, t.kind) == Group(threats, KIND, t.kind)
    {
      GroupOfOthers(threats, KIND, last.kind, t.kind);
    }
    KindsOfOthers(threats, last.kind);
    AddKind(front, last);
    assert Kinds(front) == Kinds(rest);
  }

  lemma KindsOfOthers(threats: seq<Threat>, k: string)
    ensures Kinds(Others(threats, KIND, k)) == Kinds(threats) - {k}
  {
    forall t
      ensures t in Others(threats, KIND, k) <==> t in threats && t.kind != k
    {
      GroupMembers(threats, KIND, k, t);
    }
  }

  lemma KindsOfSome(threats: seq<Threat>)
    ensures threats == [] <==> Kinds(threats) == {}
  {
    if threats != [] {
      assert threats[0].kind in Kinds(threats);
    }
  }

  lemma {:induction false} NothingLost<V(!new)>(threats: seq<Threat>, out: seq<Threat>, f: Threat -> seq<V>)
    requires Consolidates(threats, out) && Additive(f)
    ensures multiset(Flatten(out, f)) == multiset(Flatten(threats, f))
    decreases |out|
  {
    if out == [] {
      KindsOfSome(threats);
    } else {
      var last := out[|out| - 1];
      DropLast(threats, out);
      NothingLost(Others(threats, KIND, last.kind), out[..|out| - 1], f);
      SplitConserves(threats, KIND, last.kind, f);
    }
  }

  /** Conservation: every anomaly and every IOC match is in the result as often as
      in the input, however many threats were merged. */
  lemma EvidenceConserved(threats: seq<Threat>, out: seq<Threat>)
    requires Consolidates(threats, out)
    ensures multiset(Flatten(out, ANOMALY_IDS)) == multiset(Flatten(threats, ANOMALY_IDS))
    ensures multiset(Flatten(out, IOCS)) == multiset(Flatten(threats, IOCS))
  {
    AnomaliesAndIOCsAdditive();
    NothingLost(threats, out, ANOMALY_IDS);
    NothingLost(threats, out, IOCS);
  }

  /** And per type: no evidence moves from one type to another. */
  lemma EvidencePerType(threats: seq<Threat>, out: seq<Threat>, t: Threat)
    requires Consolidates(threats, out) && t in out
    ensures multiset(t.anomalyIDs) == multiset(Flatten(Group(threats, KIND, t.kind), ANOMALY_IDS))
    ensures multiset(t.iocs) == multiset(Flatten(Group(threats, KIND, t.kind), IOCS))
  {
    AnomaliesAndIOCsAdditive();
    var g := Group(threats, KIND, t.kind);
    assert multiset(ANOMALY_IDS(Representative(g))) == multiset(Flatten(g, ANOMALY_IDS));
    assert multiset(IOCS(Representative(g))) == multiset(Flatten(g, IOCS));
  }

  /** Per type, techniques and remediation steps are exactly those of its threats,
      and a merged entry repeats none. */
  lemma AdviceKept(threats: seq<Threat>, out: seq<Threat>, i: nat, s: string)
    requires Consolidates(threats, out) && i < |out|
    ensures s in out[i].techniques <==> exists t :: t in threats && t.kind == out[i].kind && s in t.techniques
    ensures s in out[i].remediation <==> exists t :: t in threats && t.kind == out[i].kind && s in t.remediation
    ensures |Group(threats, KIND, out[i].kind)| > 1 ==> Distinct(out[i].techniques) && Distinct(out[i].remediation)
  {
    var g := Group(threats, KIND, out[i].kind);
    forall t
      ensures t in g <==> t in threats && t.kind == out[i].kind
    {
      GroupMembers(threats, KIND, out[i].kind, t);
    }
    FlattenMembers(g, TECHNIQUES, s);
    FlattenMembers(g, REMEDIATION, s);
    if |g| == 1 {
      assert g == [g[0]];
    }
  }

  /** The maximum of the group, or zero when every confidence is negative. */
  lemma {:induction false} MaxConfidenceBounds(group: seq<Threat>)
    ensures forall t :: t in group ==> t.confidence <= MaxConfidence(group)
    ensures MaxConfidence(group) >= 0.0
    ensures MaxConfidence(group) == 0.0 || exists t :: t in group && t.confidence == MaxConfidence(group)
  {
    if group != [] {
      var front, last := group[..|group| - 1], group[|group| - 1];
      MaxConfidenceBounds(front);
      assert group == front + [last];
      assert last in group;
    }
  }

  /** A merged entry's confidence is the highest of its group exactly when the
      group holds a confidence that is not negative. */
  lemma MaxConfidenceExact(group: seq<Threat>)
    requires group != []
    ensures (exists t :: t in group && t.confidence == MaxConfidence(group))
            <==> exists t :: t in group && t.confidence >= 0.0
  {
    MaxConfidenceBounds(group);
  }

  lemma {:induction false} SeenBounds(group: seq<Threat>)
    ensures forall t :: t in group && t.firstDetected.Some? ==>
      FirstSeen(group).Some? && FirstSeen(group).value <= t.firstDetected.value
    ensures FirstSeen(group).Some? ==> exists t :: t in group && t.firstDetected == FirstSeen(group)
    ensures forall t :: t in group && t.lastActive.Some? ==>
      LastSeen(group).Some? && LastSeen(group).value >= t.lastActive.value
    ensures LastSeen(group).Some? ==> exists t :: t in group && t.lastActive == LastSeen(group)
  {
    if group != [] {
      var front, last := group[..|group| - 1], group[|group| - 1];
      SeenBounds(front);
      assert group == front + [last];
      assert last in group;
    }
  }

  // ---------------------------------------------------------------------------
  // An entry, read off the threats of its type
  // ---------------------------------------------------------------------------

  lemma RepresentsGroup(threats: seq<Threat>, out: seq<Threat>, t: Threat)
    requires Consolidates(threats, out) && t in out
    ensures var g := Group(threats, KIND, t.kind);
            && g != [] && (t == g[0] || |g| > 1)
            && (forall u :: u in g <==> u in threats && u.kind == t.kind)
  {
    forall u
      ensures u in Group(threats, KIND, t.kind) <==> u in threats && u.kind == t.kind
    {
      GroupMembers(threats, KIND, t.kind, u);
    }
  }

  /** First detected is the earliest time given by a threat of the type, last active
      the latest; both are unknown only where no threat of the type gives one. */
  lemma EntryTimes(threats: seq<Threat>, out: seq<Threat>, t: Threat)
    requires Consolidates(threats, out) && t in out
    ensures forall u :: u in threats && u.kind == t.kind && u.firstDetected.Some? ==>
      t.firstDetected.Some? && t.firstDetected.value <= u.firstDetected.value
    ensures t.firstDetected.Some? ==>
      exists u :: u in threats && u.kind == t.kind && u.firstDetected == t.firstDetected
    ensures forall u :: u in threats && u.kind == t.kind && u.lastActive.Some? ==>
      t.lastActive.Some? && t.lastActive.value >= u.lastActive.value
    ensures t.lastActive.Some? ==> exists u :: u in threats && u.kind == t.kind && u.lastActive == t.lastActive
  {
    var g := Group(threats, KIND, t.kind);
    RepresentsGroup(threats, out, t);
    if |g| > 1 {
      SeenBounds(g);
    } else {
      assert g == [t];
    }
  }

  /** The confidence is the highest of the type, where one is not negative. */
  lemma EntryConfidence(threats: seq<Threat>, out: seq<Threat>, t: Threat)
    requires Consolidates(threats, out) && t in out
    ensures forall u :: u in threats && u.kind == t.kind ==> u.confidence <= t.confidence
    ensures (exists u :: u in threats && u.kind == t.kind && u.confidence >= 0.0) ==>
      exists u :: u in threats && u.kind == t.kind && u.confidence == t.confidence
  {
    var g := Group(threats, KIND, t.kind);
    RepresentsGroup(threats, out, t);
    if |g| > 1 {
      MaxConfidenceBounds(g);
      MaxConfidenceExact(g);
    } else {
      assert g == [t];
    }
  }

  /** The position of the first threat of a type. */
  predicate FirstOfKind(threats: seq<Threat>, i: nat) {
    i < |threats| && forall k :: 0 <= k < i ==> threats[k].kind != threats[i].kind
  }

  lemma {:induction false} GroupStarts(threats: seq<Threat>, i: nat)
    requires FirstOfKind(threats, i)
    ensures var g := Group(threats, KIND, threats[i].kind); g != [] && g[0] == threats[i]
  {
    var front := threats[..|threats| - 1];
    if i < |front| {
      assert forall k :: 0 <= k <= i ==> front[k] == threats[k];
      GroupStarts(front, i);
    } else {
      NoGroup(front, KIND, threats[i].kind);
    }
  }

  /** Name, severity and attribution are those of the first threat of the type; its
      description gets a note where other threats of the type were merged into it. */
  lemma EntryHeading(threats: seq<Threat>, out: seq<Threat>, t: Threat, i: nat)
    requires Consolidates(threats, out) && t in out && i < |threats| && threats[i].kind == t.kind
    requires forall k :: 0 <= k < i ==> threats[k].kind != t.kind
    ensures t.name == threats[i].name && t.severity == threats[i].severity && t.attribution == threats[i].attribution
    ensures (forall k :: 0 <= k < |threats| && k != i ==> threats[k].kind != t.kind) ==> t == threats[i]
    ensures var n := |Group(threats, KIND, t.kind)|;
            t.description == if n == 1 then threats[i].description
                             else threats[i].description + " (evidence from " + Decimal(n) + " sources)"
  {
    GroupStarts(threats, i);
    if forall k :: 0 <= k < |threats| && k != i ==> threats[k].kind != t.kind {
      AloneInGroup(threats, i);
    }
  }

  lemma {:induction false} AloneInGroup(threats: seq<Threat>, i: nat)
    requires i < |threats| && forall k :: 0 <= k < |threats| && k != i ==> threats[k].kind != threats[i].kind
    ensures Group(threats, KIND, threats[i].kind) == [threats[i]]
  {
    var front, last := threats[..|threats| - 1], threats[|threats| - 1];
    if i < |front| {
      AloneInGroup(front, i);
    } else {
      NoGroup(front, KIND, last.kind);
    }
  }

  function Value(digits: string): nat
    requires forall i :: 0 <= i < |digits| ==> '0' <= digits[i] <= '9'
  {
    if digits == [] then 0 else 10 * Value(digits[..|digits| - 1]) + (digits[|digits| - 1] as int - '0' as int)
  }

  /** The number in the note reads back. */
  lemma {:induction false} DecimalValue(n: nat)
    ensures forall i :: 0 <= i < |Decimal(n)| ==> '0' <= Decimal(n)[i] <= '9'
    ensures Decimal(n) != [] && Value(Decimal(n)) == n
  {
    if n < 10 {
      assert Decimal(n)[..0] == [];
    } else {
      DecimalValue(n / 10);
      var last := [(n % 10 + '0' as int) as char];
      assert Decimal(n % 10) == last && Decimal(n) == Decimal(n / 10) + last;
      assert Decimal(n)[..|Decimal(n)| - 1] == Decimal(n / 10);
    }
  }

  // ---------------------------------------------------------------------------
  // Order and repetition
  // ---------------------------------------------------------------------------

  lemma KindsMakeDistinct(out: seq<Threat>)
    requires DistinctKeys(out, KIND)
    ensures Distinct(out)
  {
    forall i, j | 0 <= i < j < |out|
      ensures out[i] != out[j]
    {
      assert KIND(out[i]) != KIND(out[j]);
    }
  }

  lemma SameRepresentatives(threats: seq<Threat>, a: seq<Threat>, b: seq<Threat>, t: Threat)
    requires Consolidates(threats, a) && Consolidates(threats, b) && t in a
    ensures t in b
  {
    assert t.kind in Kinds(b);
  }

  /** The order in which the map of types is walked does not matter. */
  lemma OrderIrrelevant(threats: seq<Threat>, a: seq<Threat>, b: seq<Threat>)
    requires Consolidates(threats, a) && Consolidates(threats, b)
    ensures multiset(a) == multiset(b)
  {
    KindsMakeDistinct(a);
    KindsMakeDistinct(b);
    forall t
      ensures t in a <==> t in b
    {
      if t in a {
        SameRepresentatives(threats, a, b, t);
      }
      if t in b {
        SameRepresentatives(threats, b, a, t);
      }
    }
    SameElements(a, b);
  }

  /** A consolidated list is its own consolidation. */
  lemma ConsolidatedIsStable(out: seq<Threat>)
    requires DistinctKeys(out, KIND)
    ensures Consolidates(out, out)
  {
    forall t | t in out
      ensures Group(out, KIND, t.kind) == [t]
    {
      var i :| 0 <= i < |out| && out[i] == t;
      GroupOfDistinct(out, KIND, i);
    }
  }

  /** Consolidating again changes nothing but the order. */
  lemma ConsolidateIdempotent(threats: seq<Threat>, once: seq<Threat>, twice: seq<Threat>)
    requires Consolidates(threats, once) && Consolidates(once, twice)
    ensures multiset(twice) == multiset(once)
  {
    ConsolidatedIsStable(once);
    OrderIrrelevant(once, twice, once);
  }

  // ---------------------------------------------------------------------------
  // Substring search
  // ---------------------------------------------------------------------------

  predicate OccursAt(s: string, part: string, i: int) {
    0 <= i <= |s| - |part| && s[i..i + |part|] == part
  }

  ghost predicate Occurs(s: string, part: string) {
    exists i :: OccursAt(s, part, i)
  }

  lemma OccursMeaning(s: string, part: string)
    ensures Occurs(s, part) <==> exists front, back :: s == front + part + back
  {
    if i :| OccursAt(s, part, i) {
      assert s == s[..i] + part + s[i + |part|..];
    }
    if front, back :| s == front + part + back {
      assert s[|front|..|front| + |part|] == part;
      assert OccursAt(s, part, |front|);
    }
  }

  method ContainsHelper(s: string, part: string) returns (found: bool)
    ensures found <==> Occurs(s, part)
  {
    var i := 0;
    while i <= |s| - |part|
      invariant 0 <= i
      invariant forall k :: k < i ==> !OccursAt(s, part, k)
    {
      if s[i..i + |part|] == part {
        assert OccursAt(s, part, i);
        return true;
      }
      i := i + 1;
    }
    return false;
  }

  method Contains(s: string, part: string) returns (found: bool)
    ensures found <==> Occurs(s, part)
    ensures found <==> exists front, back :: s == front + part + back
  {
    OccursMeaning(s, part);
    if |s| < |part| {
      return false;
    }
    if s == part {
      assert OccursAt(s, part, 0);
      return true;
    }
    found := false;
    if |s| > 0 {
      found := ContainsHelper(s, part);
    }
  }

  method ContainsFolded(s: string, part: string) returns (found: bool)
    ensures found <==> Occurs(Lower(s), Lower(part))
  {
    found := Contains(Lower(s), Lower(part));
  }
}
