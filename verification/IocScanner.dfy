/** Matching evidence against known indicators of compromise, and folding the
    matches back into the anomalies and threats of a result. */
module IocScanner {
  import opened Text
  import opened Grouping

  datatype Ioc = Ioc(value: string, source: string, campaign: string, attribution: string)
  datatype Match = Match(iocType: string, value: string, source: string, campaign: string, attribution: string)

  // ---------------------------------------------------------------------------
  // Domains
  // ---------------------------------------------------------------------------

  /** The test of the loop: equal up to case, or a dot and the value at the end of
      the lower-cased domain. */
  predicate DomainHit(value: string, domain: string) {
    Lower(value) == Lower(domain) || HasSuffix(Lower(domain), ['.'] + value)
  }

  function DomainMatch(ioc: Ioc, domain: string): Match {
    Match("domain", Lower(domain), ioc.source, ioc.campaign, ioc.attribution)
  }

  function DomainMatches(iocs: seq<Ioc>, domain: string): seq<Match> {
    if iocs == [] then []
    else
      var last := iocs[|iocs| - 1];
      DomainMatches(iocs[..|iocs| - 1], domain) + if DomainHit(last.value, domain) then [DomainMatch(last, domain)]
                                                  else []
  }

  method ScanDomain(iocs: seq<Ioc>, domain: string) returns (matches: seq<Match>)
    ensures matches == DomainMatches(iocs, domain)
  {
    matches := [];
    var lower := Lower(domain);
    for i := 0 to |iocs|
      invariant matches == DomainMatches(iocs[..i], domain)
    {
      assert iocs[..i + 1][..i] == iocs[..i];
      LowerIdempotent(domain);
      if Lower(iocs[i].value) == Lower(lower) || HasSuffix(lower, "." + iocs[i].value) {
        matches := matches + [Match("domain", lower, iocs[i].source, iocs[i].campaign, iocs[i].attribution)];
      }
    }
    assert iocs[..|iocs|] == iocs;
  }

  /** For a value in lower case the test is exactly the label-suffix test. */
  lemma LowerCaseHit(value: string, domain: string)
    requires Lower(value) == value
    ensures DomainHit(value, domain) <==> LabelSuffix(value, Lower(domain))
  {
    LabelSuffixByChars(value, Lower(domain));
  }

  /** A domain under a value with a capital in it is missed. */
  lemma CapitalMissesSubdomain(value: string)
    requires Lower(value) != value
    ensures var domain := ['x', '.'] + value;
            !DomainHit(value, domain) && LabelSuffix(Lower(value), Lower(domain))
  {
    var domain := ['x', '.'] + value;
    var lower := Lower(domain);
    LowerAppend(['x', '.'], value);
    assert Lower(['x', '.']) == ['x', '.'];
    assert lower == ['x'] + (['.'] + Lower(value));
    assert |Lower(value)| != |lower|;
    SuffixOfConcat(['x'], ['.'] + Lower(value));
    LabelSuffixByChars(Lower(value), lower);
    assert lower[1..] == ['.'] + Lower(value);
    assert (['.'] + Lower(value))[1..] == Lower(value) && (['.'] + value)[1..] == value;
  }

  /** Subdomain matching honours letter case for every domain exactly when the
      stored value is in lower case. */
  lemma SubdomainsFoundExactly(value: string)
    ensures (forall domain :: DomainHit(value, domain) <==> LabelSuffix(Lower(value), Lower(domain)))
            <==> Lower(value) == value
  {
    if Lower(value) == value {
      forall domain
        ensures DomainHit(value, domain) <==> LabelSuffix(Lower(value), Lower(domain))
      {
        LowerCaseHit(value, domain);
      }
    } else {
      CapitalMissesSubdomain(value);
    }
  }

  /** Every stored value that the domain falls under is reported, and no other. */
  lemma {:induction false} ScanFindsExactly(iocs: seq<Ioc>, domain: string, m: Match)
    requires forall i :: 0 <= i < |iocs| ==> Lower(iocs[i].value) == iocs[i].value
    ensures m in DomainMatches(iocs, domain)
       <==> exists i :: 0 <= i < |iocs| && LabelSuffix(iocs[i].value, Lower(domain))
              && m == DomainMatch(iocs[i], domain)
  {
    if iocs != [] {
      var front, last := iocs[..|iocs| - 1], iocs[|iocs| - 1];
      assert forall i :: 0 <= i < |front| ==> front[i] == iocs[i];
      ScanFindsExactly(front, domain, m);
      LowerCaseHit(last.value, domain);
    }
  }

  // ---------------------------------------------------------------------------
  // Anomalies
  // ---------------------------------------------------------------------------

  datatype Anomaly = Anomaly(path: string, process: string, confidence: real, critical: bool, iocMatch: Option<Match>)

  predicate Related(m: Match, a: Anomaly) {
    m.value == a.path || m.value == a.process
  }

  predicate TopCampaign(m: Match) {
    m.campaign == "pegasus" || m.campaign == "predator"
  }

  function Raise(a: Anomaly, m: Match): Anomaly {
    if Related(m, a)
    then a.(iocMatch := Some(m), confidence := if a.confidence < 0.95 then 0.95 else a.confidence,
            critical := a.critical || TopCampaign(m))
    else a
  }

  function RaiseAll(a: Anomaly, matches: seq<Match>): Anomaly {
    if matches == [] then a else Raise(RaiseAll(a, matches[..|matches| - 1]), matches[|matches| - 1])
  }

  /** One anomaly against all matches. */
  method RaiseOne(anomalies: array<Anomaly>, i: nat, matches: seq<Match>)
    requires i < anomalies.Length
    modifies anomalies
    ensures anomalies[i] == RaiseAll(old(anomalies[i]), matches)
    ensures forall k :: 0 <= k < anomalies.Length && k != i ==> anomalies[k] == old(anomalies[k])
  {
    for j := 0 to |matches|
      invariant anomalies[i] == RaiseAll(old(anomalies[i]), matches[..j])
      invariant forall k :: 0 <= k < anomalies.Length && k != i ==> anomalies[k] == old(anomalies[k])
    {
      assert matches[..j + 1][..j] == matches[..j];
      var a, m := anomalies[i], matches[j];
      if m.value == a.path || m.value == a.process {
        a := a.(iocMatch := Some(m));
        if a.confidence < 0.95 {
          a := a.(confidence := 0.95);
        }
        if m.campaign == "pegasus" || m.campaign == "predator" {
          a := a.(critical := true);
        }
        anomalies[i] := a;
      }
    }
    assert matches[..|matches|] == matches;
  }

  method RaiseAnomalies(anomalies: array<Anomaly>, matches: seq<Match>)
    modifies anomalies
    ensures forall i :: 0 <= i < anomalies.Length ==> anomalies[i] == RaiseAll(old(anomalies[i]), matches)
  {
    for i := 0 to anomalies.Length
      invariant forall k :: 0 <= k < i ==> anomalies[k] == RaiseAll(old(anomalies[k]), matches)
      invariant forall k :: i <= k < anomalies.Length ==> anomalies[k] == old(anomalies[k])
    {
      RaiseOne(anomalies, i, matches);
    }
  }

  /** A confidence is never lowered: it becomes the larger of itself and 0.95 when
      some match is about the anomaly's path or process, and stays otherwise; the
      severity becomes critical for the two top campaigns. */
  lemma {:induction false} RaiseAllMeaning(a: Anomaly, matches: seq<Match>)
    ensures var r := RaiseAll(a, matches);
            && r.path == a.path && r.process == a.process && r.confidence >= a.confidence
            && r.confidence == (if (exists m :: m in matches && (m.value == a.path || m.value == a.process))
                                   && a.confidence < 0.95 then 0.95
                                else a.confidence)
            && (r.critical <==>
                  (a.critical || exists m :: m in matches && (m.value == a.path || m.value == a.process)
                                             && m.campaign in {"pegasus", "predator"}))
            && (r.iocMatch != a.iocMatch ==>
                  r.iocMatch.Some? && r.iocMatch.value in matches && r.iocMatch.value.value in {a.path, a.process})
  {
    if matches != [] {
      var front, last := matches[..|matches| - 1], matches[|matches| - 1];
      RaiseAllMeaning(a, front);
      assert matches == front + [last];
      assert last in matches;
    }
  }

  /** The match that is stored is the last one about the anomaly. */
  lemma {:induction false} LastMatchStored(a: Anomaly, matches: seq<Match>, i: nat)
    requires i < |matches| && (matches[i].value == a.path || matches[i].value == a.process)
    requires forall k :: i < k < |matches| ==> matches[k].value != a.path && matches[k].value != a.process
    ensures RaiseAll(a, matches).iocMatch == Some(matches[i])
  {
    var front := matches[..|matches| - 1];
    RaiseAllMeaning(a, front);
    if i < |front| {
      assert front[i] == matches[i] && forall k :: i < k < |front| ==> front[k] == matches[k];
      LastMatchStored(a, front, i);
    }
  }

  /** An anomaly that no match is about stays as it is. */
  lemma {:induction false} UnrelatedUntouched(a: Anomaly, matches: seq<Match>)
    requires forall k :: 0 <= k < |matches| ==> matches[k].value != a.path && matches[k].value != a.process
    ensures RaiseAll(a, matches) == a
  {
    if matches != [] {
      var front := matches[..|matches| - 1];
      assert forall k :: 0 <= k < |front| ==> front[k] == matches[k];
      UnrelatedUntouched(a, front);
    }
  }

  // ---------------------------------------------------------------------------
  // Campaigns
  // ---------------------------------------------------------------------------

  const CAMPAIGN := (m: Match) => m.campaign

  datatype CampaignThreat = CampaignThreat(campaign: string, iocs: seq<Match>)

  const CAMPAIGN_IOCS := (t: CampaignThreat) => t.iocs
  const CAMPAIGN_NAME := (t: CampaignThreat) => t.campaign

  /** Named campaigns with at least two matches. */
  predicate Notable(matches: seq<Match>, campaign: string) {
    campaign != "" && |Group(matches, CAMPAIGN, campaign)| >= 2
  }

  /** One threat per notable campaign of a part of the matches, carrying all its
      matches in that part, in any order. */
  ghost predicate CarriesGroups(matches: seq<Match>, of: seq<Match>, threats: seq<CampaignThreat>) {
    && DistinctKeys(threats, CAMPAIGN_NAME)
    && (forall t :: t in threats ==> Notable(matches, t.campaign) && t.iocs == Group(of, CAMPAIGN, t.campaign))
    && (forall m :: m in of && Notable(matches, m.campaign) ==> exists t :: t in threats && t.campaign == m.campaign)
  }

  ghost predicate AddedThreats(matches: seq<Match>, threats: seq<CampaignThreat>) {
    CarriesGroups(matches, matches, threats)
  }

  /** The named matches, grouped by campaign; then a threat for each big group. */
  method CampaignThreats(matches: seq<Match>) returns (threats: seq<CampaignThreat>)
    ensures AddedThreats(matches, threats)
  {
    var groups := GroupByKey(matches, CAMPAIGN);
    threats := [];
    var todo := groups.Keys;
    while todo != {}
      invariant todo <= groups.Keys
      invariant DistinctKeys(threats, CAMPAIGN_NAME)
      invariant forall t :: t in threats ==>
        t.campaign !in todo && Notable(matches, t.campaign) && t.iocs == Group(matches, CAMPAIGN, t.campaign)
      invariant forall k :: k in groups && k !in todo && Notable(matches, k) ==> CampaignThreat(k, groups[k]) in threats
      decreases todo
    {
      var campaign :| campaign in todo;
      todo := todo - {campaign};
      if campaign != "" && |groups[campaign]| >= 2 {
        NewCampaign(threats, CampaignThreat(campaign, groups[campaign]));
        threats := threats + [CampaignThreat(campaign, groups[campaign])];
      }
    }
    AllCampaigns(matches, groups, threats);
  }

  lemma NewCampaign(threats: seq<CampaignThreat>, t: CampaignThreat)
    requires DistinctKeys(threats, CAMPAIGN_NAME) && forall u :: u in threats ==> u.campaign != t.campaign
    ensures DistinctKeys(threats + [t], CAMPAIGN_NAME)
  {
    forall i | 0 <= i < |threats|
      ensures CAMPAIGN_NAME(threats[i]) != t.campaign
    {
      assert threats[i] in threats;
    }
  }

  lemma AllCampaigns(matches: seq<Match>, groups: map<string, seq<Match>>, threats: seq<CampaignThreat>)
    requires forall k :: k in groups <==> exists m :: m in matches && CAMPAIGN(m) == k
    requires forall k :: k in groups && Notable(matches, k) ==> CampaignThreat(k, groups[k]) in threats
    ensures forall m :: m in matches && Notable(matches, m.campaign) ==>
      exists t :: t in threats && t.campaign == m.campaign
  {
    forall m | m in matches && Notable(matches, m.campaign)
      ensures exists t :: t in threats && t.campaign == m.campaign
    {
      assert CAMPAIGN(m) in groups;
      assert CampaignThreat(m.campaign, groups[m.campaign]) in threats;
    }
  }

  /** A threat is added for exactly the named campaigns with two matches or more, one
      each, and it carries exactly the campaign's matches. */
  lemma ThreatsExactly(matches: seq<Match>, threats: seq<CampaignThreat>, campaign: string)
    requires AddedThreats(matches, threats)
    ensures (exists t :: t in threats && t.campaign == campaign)
       <==> campaign != "" && |Group(matches, CAMPAIGN, campaign)| >= 2
    ensures forall t, m :: t in threats ==> (m in t.iocs <==> m in matches && m.campaign == t.campaign)
    ensures forall i, j :: 0 <= i < j < |threats| ==> threats[i].campaign != threats[j].campaign
  {
    var g := Group(matches, CAMPAIGN, campaign);
    if campaign != "" && |g| >= 2 {
      assert g[0] in g;
      GroupMembers(matches, CAMPAIGN, campaign, g[0]);
    }
    forall t, m | t in threats
      ensures m in t.iocs <==> m in matches && m.campaign == t.campaign
    {
      GroupMembers(matches, CAMPAIGN, t.campaign, m);
    }
    forall i, j | 0 <= i < j < |threats|
      ensures threats[i].campaign != threats[j].campaign
    {
      assert CAMPAIGN_NAME(threats[i]) != CAMPAIGN_NAME(threats[j]);
    }
  }

  /** The matches that belong to notable campaigns, in order. */
  function NotableMatches(matches: seq<Match>, of: seq<Match>): seq<Match> {
    if of == [] then []
    else NotableMatches(matches, of[..|of| - 1]) + if Notable(matches, of[|of| - 1].campaign) then [of[|of| - 1]]
                                                   else []
  }

  lemma NotableSnoc(matches: seq<Match>, of: seq<Match>, x: Match)
    ensures NotableMatches(matches, of + [x])
         == NotableMatches(matches, of) + if Notable(matches, x.campaign) then [x] else []
  {
    assert (of + [x])[..|of|] == of;
  }

  lemma {:induction false} NotableOfOthers(matches: seq<Match>, of: seq<Match>, k: string)
    requires Notable(matches, k)
    ensures multiset(NotableMatches(matches, of)) == multiset(Group(of, CAMPAIGN, k))
            + multiset(NotableMatches(matches, Others(of, CAMPAIGN, k)))
  {
    if of != [] {
      var front, last := of[..|of| - 1], of[|of| - 1];
      NotableOfOthers(matches, front, k);
      var kept, group := Others(front, CAMPAIGN, k), Group(front, CAMPAIGN, k);
      if last.campaign == k {
        assert Others(of, CAMPAIGN, k) == kept && Group(of, CAMPAIGN, k) == group + [last];
        assert NotableMatches(matches, of) == NotableMatches(matches, front) + [last];
      } else {
        assert Others(of, CAMPAIGN, k) == kept + [last] && Group(of, CAMPAIGN, k) == group;
        NotableSnoc(matches, kept, last);
      }
    }
  }

  lemma DropThreat(matches: seq<Match>, of: seq<Match>, front: seq<CampaignThreat>, last: CampaignThreat)
    requires CarriesGroups(matches, of, front + [last])
    ensures CarriesGroups(matches, Others(of, CAMPAIGN, last.campaign), front)
    ensures Notable(matches, last.campaign) && last.iocs == Group(of, CAMPAIGN, last.campaign)
  {
    var threats, rest := front + [last], Others(of, CAMPAIGN, last.campaign);
    assert last in threats;
    forall t | t in front
      ensures Notable(matches, t.campaign) && t.iocs == Group(rest, CAMPAIGN, t.campaign)
    {
      var i :| 0 <= i < |front| && front[i] == t;
      assert threats[i] == t && t in threats;
      assert CAMPAIGN_NAME(threats[i]) != CAMPAIGN_NAME(threats[|threats| - 1]);
      GroupOfOthers(of, CAMPAIGN, last.campaign, t.campaign);
    }
    forall m | m in rest && Notable(matches, m.campaign)
      ensures exists t :: t in front && t.campaign == m.campaign
    {
      GroupMembers(of, CAMPAIGN, last.campaign, m);
      var t :| t in threats && t.campaign == m.campaign;
      assert t in front;
    }
    assert forall i :: 0 <= i < |front| ==> threats[i] == front[i];
  }

  /** The threats' lists against the part of the matches not yet accounted for. */
  lemma {:induction false} PartitionStep(matches: seq<Match>, of: seq<Match>, threats: seq<CampaignThreat>)
    requires CarriesGroups(matches, of, threats)
    ensures multiset(Flatten(threats, CAMPAIGN_IOCS)) == multiset(NotableMatches(matches, of))
    decreases |threats|
  {
    if threats == [] {
      NoneNotable(matches, of);
    } else {
      var front, last := threats[..|threats| - 1], threats[|threats| - 1];
      assert threats == front + [last];
      DropThreat(matches, of, front, last);
      PartitionStep(matches, Others(of, CAMPAIGN, last.campaign), front);
      NotableOfOthers(matches, of, last.campaign);
    }
  }

  lemma {:induction false} NoneNotable(matches: seq<Match>, of: seq<Match>)
    requires forall m :: m in of ==> !Notable(matches, m.campaign)
    ensures NotableMatches(matches, of) == []
  {
    if of != [] {
      assert of == of[..|of| - 1] + [of[|of| - 1]];
      NoneNotable(matches, of[..|of| - 1]);
    }
  }

  /** The lists of the added threats partition exactly the matches of the notable
      campaigns: none is lost, repeated, or attributed to another campaign. */
  lemma ThreatsPartitionMatches(matches: seq<Match>, threats: seq<CampaignThreat>)
    requires AddedThreats(matches, threats)
    ensures multiset(Flatten(threats, CAMPAIGN_IOCS)) == multiset(NotableMatches(matches, matches))
    ensures forall t, m :: t in threats && m in t.iocs ==> m.campaign == t.campaign
  {
    PartitionStep(matches, matches, threats);
    forall t, m | t in threats && m in t.iocs
      ensures m.campaign == t.campaign
    {
      GroupMembers(matches, CAMPAIGN, t.campaign, m);
    }
  }
}
