/** What DynamoCapture takes for granted about a governed source holds of the rules
    and cohorts of a policy. */
module GovernedSource {
  import opened ByteStrings
  import opened AttributeCodec
  import opened Cohort
  import opened GovernedState
  import opened DynamoCapture
  import opened DynamoContents
  import opened GovernedValues
  import opened ItemGovernance
  import CohortKeys

  /** The source governs by these rules and judges and ranks by this cohort. */
  ghost predicate FromPolicy(cfg: Config, t: Tools, rules: seq<Rule>, c: CohortKeys.Cohort, mac: Bytes -> Bytes) {
    && (forall item :: cfg.source.govern(item) == Govern(t, rules, item))
    && (forall item :: CohortKeys.Judged(cfg.documents, item, c, cfg.source.eligible(item)))
    && (forall keyValues :: cfg.source.rankOf(keyValues) == mac(CohortKeys.Framed(keyValues)))
    && (forall b :: |mac(b)| == RANK_SIZE)
    && (forall r | r in rules :: r.key.id in cfg.policy.rules)
  }

  /** The rules that fire are known to the policy, ranks have the size of a digest,
      and governing never makes an item unwritable. */
  lemma PolicyIsTame(cfg: Config, t: Tools, rules: seq<Rule>, c: CohortKeys.Cohort, mac: Bytes -> Bytes, item: Item)
    requires FromPolicy(cfg, t, rules, c, mac)
    ensures cfg.source.govern(item).Some? ==> KnownRules(cfg.policy, cfg.source.govern(item).value.1)
    ensures forall keyValues :: |cfg.source.rankOf(keyValues)| == RANK_SIZE
    ensures cfg.source.govern(item).Some? && CanonicalText(cfg.documents, item).Some?
            ==> CanonicalText(cfg.documents, cfg.source.govern(item).value.0).Some?
  {
    hide Govern, CohortKeys.Judged;
    if cfg.source.govern(item).Some? {
      FiredAreRules(t, rules, item);
      var fired := Govern(t, rules, item).value.1;
      forall id | id in fired ensures id in cfg.policy.rules {
        var i :| 0 <= i < |rules| && rules[i].key.id == id;
        assert rules[i] in rules;
      }
      if CanonicalText(cfg.documents, item).Some? {
        EncodesExactly(cfg.documents.go, M(item));
        GovernedIsSupported(t, rules, item);
        EncodesExactly(cfg.documents.go, M(Govern(t, rules, item).value.0));
      }
    }
  }

  /** How many of the items have an attribute at the path. */
  function Present(items: seq<Item>, p: Path): nat {
    if items == [] then 0 else (if AtPath(items[0], p).Some? then 1 else 0) + Present(items[1..], p)
  }

  /** The count of a rule is the number of captured items that have an attribute at its
      path. */
  lemma {:induction false} RuleCounts(cfg: Config, t: Tools, rules: seq<Rule>, c: CohortKeys.Cohort,
                                      mac: Bytes -> Bytes, i: nat, items: seq<Item>)
    requires FromPolicy(cfg, t, rules, c, mac) && cfg.options.governed && i < |rules|
    requires DifferentPaths(rules) && DifferentIds(rules)
    requires forall k | 0 <= k < |items| :: RowOf(cfg, items[k]).Some?
    ensures TimesFired(cfg, items, rules[i].key.id) == Present(items, rules[i].Parts())
    decreases |items|
  {
    hide Govern, CohortKeys.Judged, AtPath, SplitDots, CanonicalText;
    if items != [] {
      assert RowOf(cfg, items[0]).Some? && Governed(cfg, items[0]) == Govern(t, rules, items[0]);
      FiresOnce(t, rules, i, items[0]);
      forall k | 0 <= k < |items[1..]| ensures RowOf(cfg, items[1..][k]).Some? {
        assert items[1..][k] == items[k + 1];
      }
      RuleCounts(cfg, t, rules, c, mac, i, items[1..]);
    }
  }
}
