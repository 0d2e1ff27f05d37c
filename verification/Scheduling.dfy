/**
 Placement: how the runtime and node constraints of a sandbox are added to the caller's affinity
 groups, and what the groups mean to the scheduler.
 */
module Scheduling {
  import opened Bytes

  datatype Operator = In | NotIn | Exists | NotExists

  datatype LabelOperator = LabelOperator(key: string, operator: Operator, values: seq<string>)

  datatype Kind = Resource | Instance

  datatype Affinity = Preferred | PreferredAnti | Required | RequiredAnti

  datatype ScheduleAffinity = ScheduleAffinity(
    labelOps: seq<LabelOperator>,
    kind: Kind,
    affinity: Affinity,
    preferredPriority: bool,
    preferredAntiOtherLabels: bool)

  /** The wire form of an expression and of a group. */
  datatype WireOp = WireOp(type_: nat, labelKey: string, labelValues: seq<string>)

  datatype WireGroup = WireGroup(
    kind: nat,
    affinity: nat,
    labelOps: seq<WireOp>,
    preferredPriority: bool,
    preferredAntiOtherLabels: bool)

  datatype Selector = Selector(kind: Kind, affinity: Affinity)

  datatype Built = Groups(groups: seq<WireGroup>) | PriorityConflict

  function OperatorCode(operator: Operator): nat {
    match operator case In => 0 case NotIn => 1 case Exists => 2 case NotExists => 3
  }

  function AffinityCode(affinity: Affinity): nat {
    match affinity case Preferred => 0 case PreferredAnti => 1 case Required => 2 case RequiredAnti => 3
  }

  function EncodeOp(op: LabelOperator): WireOp {
    WireOp(OperatorCode(op.operator), op.key, op.values)
  }

  function EncodeOps(ops: seq<LabelOperator>): seq<WireOp> {
    seq(|ops|, i requires 0 <= i < |ops| => EncodeOp(ops[i]))
  }

  /** `to_dict` of a group. */
  function Encode(group: ScheduleAffinity): WireGroup {
    WireGroup(if group.kind == Resource then 0 else 1, AffinityCode(group.affinity), EncodeOps(group.labelOps),
              group.preferredPriority, group.preferredAntiOtherLabels)
  }

  /** Kind and effective affinity: priority together with "anti other labels" promotes resource preferences. */
  function SelectorOf(group: ScheduleAffinity): Selector {
    if group.kind == Resource && group.preferredPriority && group.preferredAntiOtherLabels then
      Selector(Resource, match group.affinity
                         case Preferred => Required
                         case PreferredAnti => RequiredAnti
                         case other => other)
    else
      Selector(group.kind, group.affinity)
  }

  const REQUIRED_RESOURCE := Selector(Resource, Required)

  function Constraints(runtime: Option<string>, nodeId: Option<string>): seq<LabelOperator> {
    (if runtime.Some? then [LabelOperator("sandbox.runtime", In, [runtime.value])] else [])
    + (if nodeId.Some? then [LabelOperator("NODE_ID", In, [nodeId.value])] else [])
  }

  // ---- what groups mean to the scheduler

  /** The labels of a node: each key has a set of values. */
  type Labels = map<string, set<string>>

  predicate OpMatches(op: WireOp, labels: Labels) {
    var overlaps := op.labelKey in labels && exists v :: v in op.labelValues && v in labels[op.labelKey];
    if op.type_ == 0 then overlaps
    else if op.type_ == 1 then !overlaps
    else if op.type_ == 2 then op.labelKey in labels
    else op.labelKey !in labels
  }

  /** All of the expressions match. */
  predicate WireOpsMatch(ops: seq<WireOp>, labels: Labels) {
    forall i :: 0 <= i < |ops| ==> OpMatches(ops[i], labels)
  }

  /** Expressions of one group are ANDed. */
  predicate GroupMatches(group: WireGroup, labels: Labels) {
    WireOpsMatch(group.labelOps, labels)
  }

  /** Groups that decide whether a node can be used at all. */
  predicate Deciding(group: WireGroup) {
    && group.kind == 0
    && (group.affinity == 2 || (group.affinity == 0 && group.preferredPriority && group.preferredAntiOtherLabels))
  }

  function DecidingGroups(groups: seq<WireGroup>): seq<WireGroup> {
    if groups == [] then []
    else (if Deciding(groups[0]) then [groups[0]] else []) + DecidingGroups(groups[1..])
  }

  /** Ordinary deciding groups are ANDed; under priority they are alternatives. */
  predicate NodeMatches(groups: seq<WireGroup>, labels: Labels) {
    var deciding := DecidingGroups(groups);
    if deciding != [] && deciding[0].preferredPriority
    then exists i :: 0 <= i < |deciding| && GroupMatches(deciding[i], labels)
    else forall i :: 0 <= i < |deciding| ==> GroupMatches(deciding[i], labels)
  }

  /** A node has the value under the key; no demand holds everywhere. */
  predicate HasLabel(labels: Labels, key: string, value: Option<string>) {
    value.Some? ==> key in labels && value.value in labels[key]
  }

  // ---- the transformation

  function WithConstraints(group: ScheduleAffinity, constraints: seq<LabelOperator>): WireGroup {
    var encoded := Encode(group);
    if SelectorOf(group) == REQUIRED_RESOURCE
    then encoded.(labelOps := encoded.labelOps + EncodeOps(constraints))
    else encoded
  }

  function AllWithConstraints(groups: seq<ScheduleAffinity>, constraints: seq<LabelOperator>): seq<WireGroup> {
    seq(|groups|, i requires 0 <= i < |groups| => WithConstraints(groups[i], constraints))
  }

  function EncodeAll(groups: seq<ScheduleAffinity>): seq<WireGroup> {
    seq(|groups|, i requires 0 <= i < |groups| => Encode(groups[i]))
  }

  lemma NothingAdded(groups: seq<ScheduleAffinity>)
    ensures AllWithConstraints(groups, []) == EncodeAll(groups)
  {
    forall i | 0 <= i < |groups| ensures WithConstraints(groups[i], []) == Encode(groups[i]) {
      assert EncodeOps([]) == [];
      assert EncodeOps(groups[i].labelOps) + [] == EncodeOps(groups[i].labelOps);
    }
  }

  predicate HasRequired(groups: seq<ScheduleAffinity>) {
    exists i :: 0 <= i < |groups| && SelectorOf(groups[i]) == REQUIRED_RESOURCE
  }

  function Standalone(constraints: seq<LabelOperator>): ScheduleAffinity {
    ScheduleAffinity(constraints, Resource, Required, false, false)
  }

  predicate Conflict(groups: seq<ScheduleAffinity>, i: int, j: int) {
    && 0 <= i < j < |groups|
    && SelectorOf(groups[i]) == SelectorOf(groups[j])
    && groups[i].preferredPriority != groups[j].preferredPriority
  }

  predicate Consistent(groups: seq<ScheduleAffinity>) {
    forall i, j :: 0 <= i < j < |groups| ==> !Conflict(groups, i, j)
  }

  /** Each group in its place, the constraints inside the groups that decide resource placement, or in
      a group of their own at the end when there is none to put them in. */
  function Build(groups: seq<ScheduleAffinity>, constraints: seq<LabelOperator>): seq<WireGroup> {
    AllWithConstraints(groups, constraints)
    + (if constraints != [] && !HasRequired(groups) then [Encode(Standalone(constraints))] else [])
  }

  /** The priorities met in `groups`: one for each selector, the same for all its groups. */
  ghost predicate Tracks(priorities: map<Selector, bool>, groups: seq<ScheduleAffinity>) {
    && (forall i :: 0 <= i < |groups| ==>
          SelectorOf(groups[i]) in priorities && priorities[SelectorOf(groups[i])] == groups[i].preferredPriority)
    && (forall s :: s in priorities ==> exists i :: 0 <= i < |groups| && SelectorOf(groups[i]) == s)
  }

  lemma OneMoreGroup(groups: seq<ScheduleAffinity>, n: nat, constraints: seq<LabelOperator>)
    requires n < |groups|
    ensures AllWithConstraints(groups[..n + 1], constraints)
         == AllWithConstraints(groups[..n], constraints) + [WithConstraints(groups[n], constraints)]
    ensures HasRequired(groups[..n + 1]) <==> HasRequired(groups[..n]) || SelectorOf(groups[n]) == REQUIRED_RESOURCE
  {
    assert groups[..n + 1] == groups[..n] + [groups[n]];
    if HasRequired(groups[..n]) {
      var i :| 0 <= i < n && SelectorOf(groups[..n][i]) == REQUIRED_RESOURCE;
      assert SelectorOf(groups[..n + 1][i]) == REQUIRED_RESOURCE;
    }
    if SelectorOf(groups[n]) == REQUIRED_RESOURCE {
      assert SelectorOf(groups[..n + 1][n]) == REQUIRED_RESOURCE;
    }
  }

  lemma ConsistentWithOneMore(groups: seq<ScheduleAffinity>, n: nat, priorities: map<Selector, bool>)
    requires n < |groups| && Tracks(priorities, groups[..n]) && Consistent(groups[..n])
    ensures var selector := SelectorOf(groups[n]);
            if selector in priorities && priorities[selector] != groups[n].preferredPriority
            then !Consistent(groups) else Consistent(groups[..n + 1])
  {
    var selector := SelectorOf(groups[n]);
    var prefix := groups[..n];
    if selector in priorities && priorities[selector] != groups[n].preferredPriority {
      var i :| 0 <= i < |prefix| && SelectorOf(prefix[i]) == selector;
      assert Conflict(groups, i, n);
    } else {
      var longer := groups[..n + 1];
      forall i, j | 0 <= i < j < |longer| ensures !Conflict(longer, i, j) {
        if j < n { assert !Conflict(prefix, i, j); } else { assert prefix[i] == longer[i]; }
      }
    }
  }

  lemma TracksOneMore(groups: seq<ScheduleAffinity>, n: nat, priorities: map<Selector, bool>)
    requires n < |groups| && Tracks(priorities, groups[..n])
    requires var selector := SelectorOf(groups[n]);
             selector in priorities ==> priorities[selector] == groups[n].preferredPriority
    ensures Tracks(priorities[SelectorOf(groups[n]) := groups[n].preferredPriority], groups[..n + 1])
  {
    var prefix := groups[..n];
    var longer := groups[..n + 1];
    assert longer == prefix + [groups[n]];
    var extended := priorities[SelectorOf(groups[n]) := groups[n].preferredPriority];
    forall s | s in extended ensures exists i :: 0 <= i < |longer| && SelectorOf(longer[i]) == s {
      if s in priorities {
        var i :| 0 <= i < |prefix| && SelectorOf(prefix[i]) == s;
        assert SelectorOf(longer[i]) == s;
      } else {
        assert SelectorOf(longer[n]) == s;
      }
    }
  }

  /** The loop over the caller's groups. It refuses them exactly when two groups with one effective
      selector disagree on priority. */
  method BuildScheduleAffinities(affinities: Option<seq<ScheduleAffinity>>, runtime: Option<string>,
                                 nodeId: Option<string>) returns (built: Built)
    ensures var groups := if affinities.Some? then affinities.value else [];
            && (built.PriorityConflict? <==> !Consistent(groups))
            && (built.Groups? ==> built.groups == Build(groups, Constraints(runtime, nodeId)))
  {
    var groups := if affinities.Some? then affinities.value else [];
    var constraints: seq<LabelOperator> := [];
    if runtime.Some? { constraints := constraints + [LabelOperator("sandbox.runtime", In, [runtime.value])]; }
    if nodeId.Some? { constraints := constraints + [LabelOperator("NODE_ID", In, [nodeId.value])]; }
    assert constraints == Constraints(runtime, nodeId);
    var priorities: map<Selector, bool> := map[];
    var result: seq<WireGroup> := [];
    var hasRequiredResource := false;
    for n := 0 to |groups|
      invariant result == AllWithConstraints(groups[..n], constraints)
      invariant hasRequiredResource <==> HasRequired(groups[..n])
      invariant Tracks(priorities, groups[..n]) && Consistent(groups[..n])
    {
      var item := groups[n];
      var selector := SelectorOf(item);
      OneMoreGroup(groups, n, constraints);
      ConsistentWithOneMore(groups, n, priorities);
      if selector in priorities && priorities[selector] != item.preferredPriority {
        return PriorityConflict;
      }
      TracksOneMore(groups, n, priorities);
      priorities := priorities[selector := item.preferredPriority];
      var encoded := Encode(item);
      if selector == REQUIRED_RESOURCE {
        encoded := encoded.(labelOps := encoded.labelOps + EncodeOps(constraints));
        hasRequiredResource := true;
      }
      result := result + [encoded];
    }
    assert groups[..|groups|] == groups;
    if constraints != [] && !hasRequiredResource {
      result := result + [Encode(Standalone(constraints))];
    }
    return Groups(result);
  }

  // ---- meaning is preserved

  function RequiredOnes(groups: seq<ScheduleAffinity>): seq<ScheduleAffinity> {
    if groups == [] then []
    else (if SelectorOf(groups[0]) == REQUIRED_RESOURCE then [groups[0]] else []) + RequiredOnes(groups[1..])
  }

  /** The effective selector is what the scheduler decides by. */
  lemma SelectorDecides(group: ScheduleAffinity, constraints: seq<LabelOperator>)
    ensures Deciding(WithConstraints(group, constraints)) <==> SelectorOf(group) == REQUIRED_RESOURCE
    ensures WithConstraints(group, constraints).preferredPriority == group.preferredPriority
  {}

  lemma {:induction false} RequiredOnesFound(groups: seq<ScheduleAffinity>)
    ensures HasRequired(groups) <==> RequiredOnes(groups) != []
    ensures forall i :: 0 <= i < |RequiredOnes(groups)| ==> SelectorOf(RequiredOnes(groups)[i]) == REQUIRED_RESOURCE
  {
    if groups != [] {
      RequiredOnesFound(groups[1..]);
      if HasRequired(groups) {
        var i :| 0 <= i < |groups| && SelectorOf(groups[i]) == REQUIRED_RESOURCE;
        if i > 0 { assert SelectorOf(groups[1..][i - 1]) == REQUIRED_RESOURCE; }
      }
      if HasRequired(groups[1..]) {
        var i :| 0 <= i < |groups[1..]| && SelectorOf(groups[1..][i]) == REQUIRED_RESOURCE;
        assert SelectorOf(groups[i + 1]) == REQUIRED_RESOURCE;
      }
    }
  }

  lemma OneInFront(group: ScheduleAffinity, rest: seq<ScheduleAffinity>, constraints: seq<LabelOperator>)
    ensures AllWithConstraints([group] + rest, constraints)
         == [WithConstraints(group, constraints)] + AllWithConstraints(rest, constraints)
  {}

  lemma {:induction false} DecidingAreRequired(groups: seq<ScheduleAffinity>, constraints: seq<LabelOperator>)
    ensures DecidingGroups(AllWithConstraints(groups, constraints))
         == AllWithConstraints(RequiredOnes(groups), constraints)
  {
    if groups != [] {
      var rest := groups[1..];
      assert groups == [groups[0]] + rest;
      OneInFront(groups[0], rest, constraints);
      OneInFront(groups[0], RequiredOnes(rest), constraints);
      SelectorDecides(groups[0], constraints);
      DecidingAreRequired(rest, constraints);
      assert AllWithConstraints(groups, constraints)[1..] == AllWithConstraints(rest, constraints);
      assert [] + RequiredOnes(rest) == RequiredOnes(rest);
      assert [] + DecidingGroups(AllWithConstraints(rest, constraints))
          == DecidingGroups(AllWithConstraints(rest, constraints));
    }
  }

  lemma DecidingAppend(a: seq<WireGroup>, last: WireGroup)
    ensures DecidingGroups(a + [last]) == DecidingGroups(a) + (if Deciding(last) then [last] else [])
  {
    if a == [] {
      assert [] + [last] == [last];
    } else {
      assert (a + [last])[1..] == a[1..] + [last];
      DecidingAppend(a[1..], last);
    }
  }

  predicate OpsMatch(ops: seq<LabelOperator>, labels: Labels) {
    forall i :: 0 <= i < |ops| ==> OpMatches(EncodeOp(ops[i]), labels)
  }

  lemma OneValue(key: string, value: string, labels: Labels)
    ensures OpMatches(EncodeOp(LabelOperator(key, In, [value])), labels) <==> HasLabel(labels, key, Some(value))
  {
    if HasLabel(labels, key, Some(value)) {
      assert value in [value] && value in labels[key];
    }
  }

  lemma ConstraintsMean(runtime: Option<string>, nodeId: Option<string>, labels: Labels)
    ensures OpsMatch(Constraints(runtime, nodeId), labels)
       <==> HasLabel(labels, "sandbox.runtime", runtime) && HasLabel(labels, "NODE_ID", nodeId)
  {
    var constraints := Constraints(runtime, nodeId);
    if runtime.Some? {
      OneValue("sandbox.runtime", runtime.value, labels);
      assert constraints[0] == LabelOperator("sandbox.runtime", In, [runtime.value]);
    }
    if nodeId.Some? {
      OneValue("NODE_ID", nodeId.value, labels);
      assert constraints[|constraints| - 1] == LabelOperator("NODE_ID", In, [nodeId.value]);
    }
  }

  lemma WireOpsOfBoth(own: seq<WireOp>, added: seq<WireOp>, labels: Labels)
    ensures WireOpsMatch(own + added, labels) <==> WireOpsMatch(own, labels) && WireOpsMatch(added, labels)
  {
    var both := own + added;
    if WireOpsMatch(both, labels) {
      forall i | 0 <= i < |own| ensures OpMatches(own[i], labels) { assert OpMatches(both[i], labels); }
      forall i | 0 <= i < |added| ensures OpMatches(added[i], labels) { assert OpMatches(both[|own| + i], labels); }
    }
  }

  lemma EncodedOpsMatch(ops: seq<LabelOperator>, labels: Labels)
    ensures WireOpsMatch(EncodeOps(ops), labels) <==> OpsMatch(ops, labels)
  {
    if WireOpsMatch(EncodeOps(ops), labels) {
      forall i | 0 <= i < |ops| ensures OpMatches(EncodeOp(ops[i]), labels) {
        assert OpMatches(EncodeOps(ops)[i], labels);
      }
    }
  }

  lemma GroupWithConstraints(group: ScheduleAffinity, constraints: seq<LabelOperator>, labels: Labels)
    requires SelectorOf(group) == REQUIRED_RESOURCE
    ensures GroupMatches(WithConstraints(group, constraints), labels)
       <==> GroupMatches(Encode(group), labels) && OpsMatch(constraints, labels)
  {
    WireOpsOfBoth(EncodeOps(group.labelOps), EncodeOps(constraints), labels);
    EncodedOpsMatch(constraints, labels);
  }

  lemma RequiredGroupsMean(required: seq<ScheduleAffinity>, constraints: seq<LabelOperator>, labels: Labels)
    requires required != []
    requires forall i :: 0 <= i < |required| ==> SelectorOf(required[i]) == REQUIRED_RESOURCE
    ensures var with := AllWithConstraints(required, constraints);
            var without := EncodeAll(required);
            && ((exists i :: 0 <= i < |with| && GroupMatches(with[i], labels)) <==>
                (exists i :: 0 <= i < |without| && GroupMatches(without[i], labels)) && OpsMatch(constraints, labels))
            && ((forall i :: 0 <= i < |with| ==> GroupMatches(with[i], labels)) <==>
                (forall i :: 0 <= i < |without| ==> GroupMatches(without[i], labels)) && OpsMatch(constraints, labels))
  {
    var with := AllWithConstraints(required, constraints);
    var without := EncodeAll(required);
    forall i | 0 <= i < |required|
      ensures GroupMatches(with[i], labels) <==> GroupMatches(without[i], labels) && OpsMatch(constraints, labels)
    {
      GroupWithConstraints(required[i], constraints, labels);
    }
    assert GroupMatches(with[0], labels) ==> OpsMatch(constraints, labels);
  }

  lemma AloneMeans(constraints: seq<LabelOperator>, labels: Labels)
    ensures GroupMatches(Encode(Standalone(constraints)), labels) <==> OpsMatch(constraints, labels)
  {
    EncodedOpsMatch(constraints, labels);
  }

  lemma ConstrainedAlternatives(groups: seq<ScheduleAffinity>, constraints: seq<LabelOperator>, labels: Labels)
    requires HasRequired(groups)
    ensures NodeMatches(Build(groups, constraints), labels)
       <==> NodeMatches(EncodeAll(groups), labels) && OpsMatch(constraints, labels)
  {
    var required := RequiredOnes(groups);
    DecidingAreRequired(groups, constraints);
    DecidingAreRequired(groups, []);
    NothingAdded(groups);
    NothingAdded(RequiredOnes(groups));
    RequiredOnesFound(groups);
    assert Build(groups, constraints) == AllWithConstraints(groups, constraints);
    RequiredGroupsMean(required, constraints, labels);
  }

  lemma ConstraintsAlone(groups: seq<ScheduleAffinity>, constraints: seq<LabelOperator>, labels: Labels)
    requires !HasRequired(groups)
    ensures NodeMatches(Build(groups, constraints), labels) <==> OpsMatch(constraints, labels)
    ensures NodeMatches(EncodeAll(groups), labels)
  {
    var alone := Encode(Standalone(constraints));
    DecidingAreRequired(groups, constraints);
    DecidingAreRequired(groups, []);
    NothingAdded(groups);
    NothingAdded(RequiredOnes(groups));
    RequiredOnesFound(groups);
    assert DecidingGroups(AllWithConstraints(groups, constraints)) == [];
    if constraints == [] {
      assert Build(groups, constraints) == AllWithConstraints(groups, constraints);
    } else {
      AloneMeans(constraints, labels);
      DecidingAppend(AllWithConstraints(groups, constraints), alone);
      assert DecidingGroups(Build(groups, constraints)) == [alone];
      assert NodeMatches(Build(groups, constraints), labels) <==> GroupMatches([alone][0], labels);
    }
  }

  lemma BuiltMeansEncoded(groups: seq<ScheduleAffinity>, runtime: Option<string>, nodeId: Option<string>,
                          labels: Labels)
    ensures NodeMatches(Build(groups, Constraints(runtime, nodeId)), labels)
       <==> NodeMatches(EncodeAll(groups), labels)
            && HasLabel(labels, "sandbox.runtime", runtime) && HasLabel(labels, "NODE_ID", nodeId)
  {
    ConstraintsMean(runtime, nodeId, labels);
    if HasRequired(groups) {
      ConstrainedAlternatives(groups, Constraints(runtime, nodeId), labels);
    } else {
      ConstraintsAlone(groups, Constraints(runtime, nodeId), labels);
    }
  }

  // ---- what the caller means, told without the wire

  predicate HasOneOf(labels: Labels, key: string, values: seq<string>) {
    key in labels && exists v :: v in values && v in labels[key]
  }

  predicate OpHolds(op: LabelOperator, labels: Labels) {
    match op.operator
    case In => HasOneOf(labels, op.key, op.values)
    case NotIn => !HasOneOf(labels, op.key, op.values)
    case Exists => op.key in labels
    case NotExists => op.key !in labels
  }

  /** Expressions in a group are ANDed. */
  predicate GroupHolds(group: ScheduleAffinity, labels: Labels) {
    forall i :: 0 <= i < |group.labelOps| ==> OpHolds(group.labelOps[i], labels)
  }

  /** Groups on resources that a node must match: required ones, and preferences made required by priority
      together with "anti other labels". */
  predicate MustMatch(group: ScheduleAffinity) {
    && group.kind == Resource
    && (group.affinity == Required
        || (group.affinity == Preferred && group.preferredPriority && group.preferredAntiOtherLabels))
  }

  function Musts(groups: seq<ScheduleAffinity>): seq<ScheduleAffinity> {
    if groups == [] then [] else (if MustMatch(groups[0]) then [groups[0]] else []) + Musts(groups[1..])
  }

  /** Such groups are ANDed unless priority makes them alternatives. */
  predicate CallerMatches(groups: seq<ScheduleAffinity>, labels: Labels) {
    var musts := Musts(groups);
    if musts != [] && musts[0].preferredPriority
    then exists i :: 0 <= i < |musts| && GroupHolds(musts[i], labels)
    else forall i :: 0 <= i < |musts| ==> GroupHolds(musts[i], labels)
  }

  lemma EncodedOpMeans(op: LabelOperator, labels: Labels)
    ensures OpMatches(EncodeOp(op), labels) <==> OpHolds(op, labels)
  {}

  lemma EncodedGroupMeans(group: ScheduleAffinity, labels: Labels)
    ensures GroupMatches(Encode(group), labels) <==> GroupHolds(group, labels)
    ensures Deciding(Encode(group)) <==> MustMatch(group)
    ensures Encode(group).preferredPriority == group.preferredPriority
  {
    forall i | 0 <= i < |group.labelOps|
      ensures OpMatches(Encode(group).labelOps[i], labels) <==> OpHolds(group.labelOps[i], labels)
    {
      EncodedOpMeans(group.labelOps[i], labels);
    }
  }

  lemma EncodeOneInFront(group: ScheduleAffinity, rest: seq<ScheduleAffinity>)
    ensures EncodeAll([group] + rest) == [Encode(group)] + EncodeAll(rest)
  {}

  lemma {:induction false} DecidingAreMusts(groups: seq<ScheduleAffinity>, labels: Labels)
    ensures DecidingGroups(EncodeAll(groups)) == EncodeAll(Musts(groups))
  {
    if groups != [] {
      var rest := groups[1..];
      assert groups == [groups[0]] + rest;
      EncodeOneInFront(groups[0], rest);
      EncodeOneInFront(groups[0], Musts(rest));
      EncodedGroupMeans(groups[0], labels);
      DecidingAreMusts(rest, labels);
      assert EncodeAll(groups)[1..] == EncodeAll(rest);
      assert [] + Musts(rest) == Musts(rest);
      assert [] + DecidingGroups(EncodeAll(rest)) == DecidingGroups(EncodeAll(rest));
    }
  }

  /** On the wire the caller's groups mean to the scheduler what they mean to the caller. */
  lemma EncodedMeansCaller(groups: seq<ScheduleAffinity>, labels: Labels)
    ensures NodeMatches(EncodeAll(groups), labels) <==> CallerMatches(groups, labels)
  {
    DecidingAreMusts(groups, labels);
    var musts := Musts(groups);
    forall i | 0 <= i < |musts|
      ensures GroupMatches(EncodeAll(musts)[i], labels) <==> GroupHolds(musts[i], labels)
      ensures EncodeAll(musts)[i].preferredPriority == musts[i].preferredPriority
    {
      EncodedGroupMeans(musts[i], labels);
    }
  }

  /** The built groups accept exactly the nodes that the caller's groups, as the caller means them, accept and
      that have the runtime and the node id: AND of groups or alternatives under priority, promoted
      preferences included. */
  lemma PlacementIsPreserved(groups: seq<ScheduleAffinity>, runtime: Option<string>, nodeId: Option<string>,
                             labels: Labels)
    ensures NodeMatches(Build(groups, Constraints(runtime, nodeId)), labels)
       <==> CallerMatches(groups, labels)
            && HasLabel(labels, "sandbox.runtime", runtime) && HasLabel(labels, "NODE_ID", nodeId)
  {
    BuiltMeansEncoded(groups, runtime, nodeId, labels);
    EncodedMeansCaller(groups, labels);
  }

  // ---- the wire's own tables

  const OPERATORS := [In, NotIn, Exists, NotExists]
  const AFFINITIES := [Preferred, PreferredAnti, Required, RequiredAnti]
  const KINDS := [Resource, Instance]

  predicate Readable(group: WireGroup) {
    && group.kind < |KINDS| && group.affinity < |AFFINITIES|
    && forall i :: 0 <= i < |group.labelOps| ==> group.labelOps[i].type_ < |OPERATORS|
  }

  function ReadOp(op: WireOp): LabelOperator
    requires op.type_ < |OPERATORS|
  {
    LabelOperator(op.labelKey, OPERATORS[op.type_], op.labelValues)
  }

  function ReadGroup(group: WireGroup): ScheduleAffinity
    requires Readable(group)
  {
    ScheduleAffinity(seq(|group.labelOps|, i requires 0 <= i < |group.labelOps| => ReadOp(group.labelOps[i])),
                     KINDS[group.kind], AFFINITIES[group.affinity], group.preferredPriority,
                     group.preferredAntiOtherLabels)
  }

  lemma OpReadsBack(op: LabelOperator)
    ensures EncodeOp(op).type_ < |OPERATORS| && ReadOp(EncodeOp(op)) == op
  {}

  /** Read with the wire's tables, the built groups are the caller's, each in its place: those that a node must
      match with the constraints added last, all others as they are, scoring preferences and instance
      affinities included; and one more with the constraints alone exactly when there was none to add them to. */
  lemma BuiltReadsBack(groups: seq<ScheduleAffinity>, constraints: seq<LabelOperator>, i: nat)
    requires i < |Build(groups, constraints)|
    ensures var built := Build(groups, constraints);
            && Readable(built[i])
            && ReadGroup(built[i]) == (if i == |groups|
                                       then ScheduleAffinity(constraints, Resource, Required, false, false)
                                       else if MustMatch(groups[i])
                                       then groups[i].(labelOps := groups[i].labelOps + constraints)
                                       else groups[i])
            && |built| == |groups| + (if constraints != [] && Musts(groups) == [] then 1 else 0)
  {
    MustsAreRequired(groups);
    var group := if i == |groups| then Standalone(constraints) else groups[i];
    var ops := if i < |groups| && MustMatch(group) then group.labelOps + constraints else group.labelOps;
    assert Build(groups, constraints)[i].labelOps == EncodeOps(ops);
    GroupReadsBack(group, ops);
  }

  lemma GroupReadsBack(group: ScheduleAffinity, ops: seq<LabelOperator>)
    ensures var wire := Encode(group).(labelOps := EncodeOps(ops));
            Readable(wire) && ReadGroup(wire) == group.(labelOps := ops)
  {
    var wire := Encode(group).(labelOps := EncodeOps(ops));
    forall j | 0 <= j < |ops| ensures wire.labelOps[j].type_ < |OPERATORS| && ReadOp(wire.labelOps[j]) == ops[j] {
      OpReadsBack(ops[j]);
    }
    assert ReadGroup(wire).labelOps == ops;
  }

  lemma {:induction false} MustsAreRequired(groups: seq<ScheduleAffinity>)
    ensures Musts(groups) == RequiredOnes(groups)
    ensures HasRequired(groups) <==> Musts(groups) != []
  {
    RequiredOnesFound(groups);
    SameOnes(groups);
  }

  lemma {:induction false} SameOnes(groups: seq<ScheduleAffinity>)
    ensures Musts(groups) == RequiredOnes(groups)
  {
    if groups != [] { SameOnes(groups[1..]); }
  }

  /** What a group asks for is asked for outright: by its affinity, or by promotion to it. */
  predicate Outright(group: ScheduleAffinity) {
    || group.affinity in {Required, RequiredAnti}
    || (group.kind == Resource && group.preferredPriority && group.preferredAntiOtherLabels)
  }

  predicate Favours(group: ScheduleAffinity) {
    group.affinity in {Preferred, Required}
  }

  /** A list is refused if and only if it holds two groups of one kind, both for or both against, both outright or
      both not, of which one has priority and the other has not. */
  lemma RefusedIff(groups: seq<ScheduleAffinity>)
    ensures !Consistent(groups) <==>
              exists i, j :: && 0 <= i < j < |groups|
                             && groups[i].kind == groups[j].kind
                             && (Favours(groups[i]) <==> Favours(groups[j]))
                             && (Outright(groups[i]) <==> Outright(groups[j]))
                             && groups[i].preferredPriority != groups[j].preferredPriority
  {
    forall i, j | 0 <= i < j < |groups|
      ensures SelectorOf(groups[i]) == SelectorOf(groups[j])
         <==> && groups[i].kind == groups[j].kind
              && (Favours(groups[i]) <==> Favours(groups[j]))
              && (Outright(groups[i]) <==> Outright(groups[j]))
    {
      SelectorIs(groups[i]);
      SelectorIs(groups[j]);
    }
    if !Consistent(groups) {
      var i, j :| 0 <= i < j < |groups| && Conflict(groups, i, j);
    } else {
      forall i, j | 0 <= i < j < |groups|
        ensures SelectorOf(groups[i]) == SelectorOf(groups[j]) ==>
                  groups[i].preferredPriority == groups[j].preferredPriority
      {
        assert !Conflict(groups, i, j);
      }
    }
  }

  lemma SelectorIs(group: ScheduleAffinity)
    ensures SelectorOf(group)
         == Selector(group.kind, match (Outright(group), Favours(group))
                                 case (true, true) => Required
                                 case (true, false) => RequiredAnti
                                 case (false, true) => Preferred
                                 case (false, false) => PreferredAnti)
  {
    match group.affinity
    case Preferred => case PreferredAnti => case Required => case RequiredAnti =>
  }

  /** In an accepted list all deciding groups agree on priority, so that the meaning does not depend on
      which of them the scheduler asks. */
  lemma DecidingGroupsAgree(groups: seq<ScheduleAffinity>, constraints: seq<LabelOperator>, i: nat, j: nat)
    requires Consistent(groups) && i < |groups| && j < |groups|
    requires Deciding(Build(groups, constraints)[i]) && Deciding(Build(groups, constraints)[j])
    ensures Build(groups, constraints)[i].preferredPriority == Build(groups, constraints)[j].preferredPriority
  {
    SelectorDecides(groups[i], constraints);
    SelectorDecides(groups[j], constraints);
    if i < j { assert !Conflict(groups, i, j); }
    if j < i { assert !Conflict(groups, j, i); }
  }

  /** Why the constraints go into every alternative: as one more group they would be one more
      alternative, and a node without the runtime would be accepted. */
  lemma OneMoreGroupWouldBypass()
    ensures var caller := ScheduleAffinity([LabelOperator("zone", Exists, [])], Resource, Required, true, false);
            var constraints := Constraints(Some("runsc"), None);
            var labels: Labels := map["zone" := {"a"}];
            && NodeMatches(EncodeAll([caller]) + [Encode(Standalone(constraints))], labels)
            && !HasLabel(labels, "sandbox.runtime", Some("runsc"))
            && !NodeMatches(Build([caller], constraints), labels)
  {
    var caller := ScheduleAffinity([LabelOperator("zone", Exists, [])], Resource, Required, true, false);
    var constraints := Constraints(Some("runsc"), None);
    var labels: Labels := map["zone" := {"a"}];
    BuiltMeansEncoded([caller], Some("runsc"), None, labels);
    DecidingAreRequired([caller], []);
    NothingAdded([caller]);
    DecidingAppend(EncodeAll([caller]), Encode(Standalone(constraints)));
    var deciding := DecidingGroups(EncodeAll([caller]) + [Encode(Standalone(constraints))]);
    assert RequiredOnes([caller]) == [caller];
    assert deciding[0] == WithConstraints(caller, []);
    assert deciding[0].labelOps == [EncodeOp(LabelOperator("zone", Exists, []))];
    assert GroupMatches(deciding[0], labels);
  }
}
