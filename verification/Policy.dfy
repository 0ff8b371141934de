/** The backup policy: which rule applies to a revision, and the defaults written into the rule's RPO policy. */
module Policy {
  import opened Strings
  import opened Revisions

  /** RPO policies are shared by pointer. */
  class RPOPolicy {
    var purgeOlderThan: int
    var rpo: int

    constructor (purgeOlderThan: int, rpo: int)
      ensures this.purgeOlderThan == purgeOlderThan && this.rpo == rpo
    {
      this.purgeOlderThan, this.rpo := purgeOlderThan, rpo;
    }
  }

  datatype BackupRule = BackupRule(
    apiGroups: seq<string>,
    resources: seq<string>,
    resourceNames: seq<string>,
    namespaces: seq<string>,
    fields: seq<string>,
    labelSelector: Option<string>,
    rpoPolicy: RPOPolicy?)

  /** Matching a label selector loads the revision's content, which may fail; selectors are opaque here. */
  datatype LabelVerdict = Matches | Differs | ContentError

  type Labels = (string, Revision) -> LabelVerdict

  /** An empty list and one that starts with a star admit everything. */
  predicate Admits(list: seq<string>, value: string) {
    value in list || |list| == 0 || (|list| > 0 && list[0] == "*")
  }

  predicate LabelsMatch(labels: Labels, rule: BackupRule, rev: Revision) {
    rule.labelSelector.Some? ==> labels(rule.labelSelector.value, rev) == Matches
  }

  /** How specifically a rule applies: 4 fully, 3 but for the name, 2 but for name and namespace, 1 by group only. */
  function Level(labels: Labels, rule: BackupRule, rev: Revision): nat {
    if !Admits(rule.apiGroups, rev.apiVersion) || !LabelsMatch(labels, rule, rev) then 0
    else if !Admits(rule.resources, rev.kind) then 1
    else if !Admits(rule.namespaces, rev.namespace) then 2
    else if !Admits(rule.resourceNames, rev.name) then 3
    else 4
  }

  /** The first rule that applies fully or, when none does, the last of the highest level reached above 0. */
  ghost predicate Chosen(labels: Labels, rules: seq<BackupRule>, rev: Revision, choice: Option<nat>) {
    match choice
    case None => forall j :: 0 <= j < |rules| ==> Level(labels, rules[j], rev) == 0
    case Some(i) =>
      && i < |rules|
      && var level := Level(labels, rules[i], rev);
         level > 0 &&
         forall j :: 0 <= j < |rules| && j != i ==>
           if level == 4 then j < i ==> Level(labels, rules[j], rev) < 4
           else if j < i then Level(labels, rules[j], rev) <= level
           else Level(labels, rules[j], rev) < level
  }

  /** There is one such choice. */
  lemma ChoiceUnique(labels: Labels, rules: seq<BackupRule>, rev: Revision, a: Option<nat>, b: Option<nat>)
    requires Chosen(labels, rules, rev, a) && Chosen(labels, rules, rev, b)
    ensures a == b
  {
  }

  datatype RuleResult = NoRule | NilDereference | Found(rule: nat, fields: seq<string>, rpoPolicy: RPOPolicy)

  /** A found rule, told by its values. */
  datatype Answer = NoAnswer | Answer(rule: nat, fields: seq<string>, purgeOlderThan: int, rpo: int)

  class BackupPolicy {
    const rules: seq<BackupRule>
    const fields: seq<string>
    const rpoPolicy: RPOPolicy?
    const labels: Labels

    constructor (rules: seq<BackupRule>, fields: seq<string>, rpoPolicy: RPOPolicy?, labels: Labels)
      ensures this.rules == rules && this.fields == fields && this.rpoPolicy == rpoPolicy && this.labels == labels
    {
      this.rules, this.fields, this.rpoPolicy, this.labels := rules, fields, rpoPolicy, labels;
    }

    /** The RPO policies that the rules point to. */
    ghost function Shared(): set<RPOPolicy> {
      set r | r in rules && r.rpoPolicy != null :: r.rpoPolicy
    }

    function PolicyOf(i: nat): RPOPolicy?
      requires i < |rules|
    {
      if rules[i].rpoPolicy == null then rpoPolicy else rules[i].rpoPolicy
    }

    /** A zero stands for the policy-level value. */
    function EffectiveRPO(p: RPOPolicy): int
      requires rpoPolicy != null
      reads p, rpoPolicy
    {
      if p.rpo == 0 then rpoPolicy.rpo else p.rpo
    }

    function EffectivePurge(p: RPOPolicy): int
      requires rpoPolicy != null
      reads p, rpoPolicy
    {
      if p.purgeOlderThan == 0 then rpoPolicy.purgeOlderThan else p.purgeOlderThan
    }

    /** What a lookup means in the present state of the policy, nothing having been written. */
    ghost predicate Means(rev: Revision, answer: Answer)
      requires rpoPolicy != null
      reads Shared(), rpoPolicy
    {
      match answer
      case NoAnswer => Chosen(labels, rules, rev, None)
      case Answer(i, fields', purgeOlderThan, rpo) =>
        && Chosen(labels, rules, rev, Some(i))
        && fields' == rules[i].fields + fields
        && rpo == EffectiveRPO(PolicyOf(i)) && purgeOlderThan == EffectivePurge(PolicyOf(i))
    }

    /** A lookup would dereference a nil policy: there is none at policy level, and the rule needs it. */
    ghost predicate NeedsMissingPolicy(i: nat)
      requires i < |rules|
      reads Shared()
    {
      rpoPolicy == null &&
      (rules[i].rpoPolicy == null || rules[i].rpoPolicy.rpo == 0 || rules[i].rpoPolicy.purgeOlderThan == 0)
    }

    /** The selection loop of RuleFor. */
    method Choose(rev: Revision) returns (ret: Option<nat>)
      ensures Chosen(labels, rules, rev, ret)
    {
      var specificity := 0;
      ret := None;
      for i := 0 to |rules|
        invariant 0 <= specificity <= 3
        invariant ret.None? ==> specificity == 0
        invariant ret.Some? ==> ret.value < i && specificity == Level(labels, rules[ret.value], rev) > 0
        invariant forall j :: 0 <= j < i ==>
          Level(labels, rules[j], rev) <= specificity &&
          (ret.Some? && ret.value < j ==> Level(labels, rules[j], rev) < specificity)
      {
        var rule := rules[i];
        var nameMatch := rev.name in rule.resourceNames || |rule.resourceNames| == 0 || rule.resourceNames[0] == "*";
        var namespaceMatch := rev.namespace in rule.namespaces || |rule.namespaces| == 0 || rule.namespaces[0] == "*";
        var resourcesMatch := rev.kind in rule.resources || |rule.resources| == 0 || rule.resources[0] == "*";
        var groupMatch := rev.apiVersion in rule.apiGroups || |rule.apiGroups| == 0 || rule.apiGroups[0] == "*";
        var labelMatch := true;
        if rule.labelSelector.Some? {
          var verdict := labels(rule.labelSelector.value, rev);
          if verdict == ContentError {
            continue;
          }
          labelMatch := verdict == Matches;
        }
        if nameMatch && namespaceMatch && resourcesMatch && groupMatch && labelMatch {
          return Some(i);
        }
        if specificity < 4 && namespaceMatch && resourcesMatch && groupMatch && labelMatch {
          ret, specificity := Some(i), 3;
        }
        if specificity < 3 && resourcesMatch && groupMatch && labelMatch {
          ret, specificity := Some(i), 2;
        }
        if specificity < 2 && groupMatch && labelMatch {
          ret, specificity := Some(i), 1;
        }
      }
    }

    /**
     * RuleFor. The chosen rule is copied, but the policy it points to is shared, and its zero fields are
     * overwritten in place.
     */
    method RuleFor(rev: Revision) returns (ret: RuleResult)
      modifies Shared(), rpoPolicy
      ensures ret.NoRule? ==> Chosen(labels, rules, rev, None)
      ensures ret.NilDereference? <==>
        exists i: nat :: Chosen(labels, rules, rev, Some(i)) && old(NeedsMissingPolicy(i))
      ensures ret.Found? ==>
        && Chosen(labels, rules, rev, Some(ret.rule))
        && ret.fields == rules[ret.rule].fields + fields
        && PolicyOf(ret.rule) == ret.rpoPolicy
        && ret.rpoPolicy.rpo == (if rpoPolicy == null then old(ret.rpoPolicy.rpo) else old(EffectiveRPO(ret.rpoPolicy)))
        && ret.rpoPolicy.purgeOlderThan ==
           (if rpoPolicy == null then old(ret.rpoPolicy.purgeOlderThan) else old(EffectivePurge(ret.rpoPolicy)))
      ensures rpoPolicy != null ==> unchanged(rpoPolicy)
      ensures forall p :: p in Shared() && !(ret.Found? && p == ret.rpoPolicy) ==> unchanged(p)
    {
      var choice := Choose(rev);
      if choice.None? {
        ret := NoRule;
        assert forall i: nat :: !Chosen(labels, rules, rev, Some(i)) by {
          NoOther(labels, rules, rev, None);
        }
        return;
      }
      var i := choice.value;
      assert forall j: nat :: Chosen(labels, rules, rev, Some(j)) ==> j == i by {
        NoOther(labels, rules, rev, Some(i));
      }
      assert Chosen(labels, rules, rev, Some(i));
      assert rules[i].rpoPolicy != null ==> rules[i] in rules && rules[i].rpoPolicy in Shared();
      var ret' := rules[i].(fields := rules[i].fields + fields);
      if ret'.rpoPolicy == null {
        ret' := ret'.(rpoPolicy := rpoPolicy);
      }
      if ret'.rpoPolicy == null {
        return NilDereference;
      }
      if ret'.rpoPolicy.rpo == 0 {
        if rpoPolicy == null {
          return NilDereference;
        }
        ret'.rpoPolicy.rpo := rpoPolicy.rpo;
      }
      if ret'.rpoPolicy.purgeOlderThan == 0 {
        if rpoPolicy == null {
          return NilDereference;
        }
        ret'.rpoPolicy.purgeOlderThan := rpoPolicy.purgeOlderThan;
      }
      ret := Found(i, ret'.fields, ret'.rpoPolicy);
    }

    /**
     * With a policy-level RPO policy, any sequence of lookups answers what each lookup meant before the
     * first of them wrote anything.
     */
    method Lookups(revs: seq<Revision>) returns (answers: seq<Answer>)
      requires rpoPolicy != null
      modifies Shared(), rpoPolicy
      ensures |answers| == |revs|
      ensures forall i :: 0 <= i < |revs| ==> old(Means(revs[i], answers[i]))
      ensures forall rev, a :: Means(rev, a) <==> old(Means(rev, a))
    {
      answers := [];
      for n := 0 to |revs|
        invariant |answers| == n
        invariant rpoPolicy.rpo == old(rpoPolicy.rpo) && rpoPolicy.purgeOlderThan == old(rpoPolicy.purgeOlderThan)
        invariant forall p :: p in Shared() ==>
          EffectiveRPO(p) == old(EffectiveRPO(p)) && EffectivePurge(p) == old(EffectivePurge(p))
        invariant forall i :: 0 <= i < n ==> old(Means(revs[i], answers[i]))
      {
        var ret := RuleFor(revs[n]);
        match ret
        case Found(i, fields', p) =>
          assert rules[i] in rules;
          answers := answers + [Answer(i, fields', p.purgeOlderThan, p.rpo)];
        case NoRule => answers := answers + [NoAnswer];
        case NilDereference =>
          assert false;
      }
      forall rev, a
        ensures Means(rev, a) <==> old(Means(rev, a))
      {
        if a.Answer? && Chosen(labels, rules, rev, Some(a.rule)) {
          assert rules[a.rule] in rules;
        }
      }
    }
  }

  lemma NoOther(labels: Labels, rules: seq<BackupRule>, rev: Revision, a: Option<nat>)
    requires Chosen(labels, rules, rev, a)
    ensures forall b: nat :: Chosen(labels, rules, rev, Some(b)) ==> a == Some(b)
  {
    forall b: nat | Chosen(labels, rules, rev, Some(b))
      ensures a == Some(b)
    {
      ChoiceUnique(labels, rules, rev, a, Some(b));
    }
  }
}
