/** What the refusal tests say, on the labels, annotations and names themselves. */
module FleetLaws {
  import opened Common
  import opened Fleet

  /** A duration in whole seconds. */
  ghost predicate InSeconds(d: int, seconds: int) { seconds * SECOND <= d < (seconds + 1) * SECOND }

  // ---------------------------------------------------------------- control planes

  ghost predicate ControlPlaneMarked(keys: set<string>) {
    "node-role.kubernetes.io/control-plane" in keys || "node-role.kubernetes.io/master" in keys
  }

  /** `low` is `s` with the ASCII capitals lowered. */
  ghost predicate Lowered(s: string, low: string) {
    && |low| == |s|
    && forall i :: 0 <= i < |s| ==>
         low[i] as int == if 'A' <= s[i] <= 'Z' then s[i] as int - 'A' as int + 'a' as int else s[i] as int
  }

  ghost predicate Splits(s: string, a: string, part: string, b: string) { s == a + part + b }

  ghost predicate Mentions(s: string, part: string) { exists a, b :: Splits(s, a, part, b) }

  /** `part` stands alone between dashes, dots and underscores. */
  ghost predicate StandsAlone(s: string, part: string) {
    exists a, b :: Splits(s, a, part, b)
                   && (a == "" || a[|a| - 1] == '-' || a[|a| - 1] == '.' || a[|a| - 1] == '_')
                   && (b == "" || b[0] == '-' || b[0] == '.' || b[0] == '_')
  }

  /** A deployment that looks like a control plane, by its labels or by its name. */
  ghost predicate LooksControlPlane(md: Deployment) {
    || ControlPlaneMarked(md.labelKeys)
    || exists low :: Lowered(md.name, low)
                     && (|| Mentions(low, "control-plane") || Mentions(low, "controlplane") || Mentions(low, "master")
                         || StandsAlone(low, "cp"))
  }

  lemma OccursSplits(s: string, part: string, i: nat)
    requires i + |part| <= |s|
    ensures OccursAt(s, part, i) <==> Splits(s, s[..i], part, s[i + |part|..])
  {
    assert s == s[..i] + s[i..i + |part|] + s[i + |part|..];
  }

  lemma SplitAt(s: string, a: string, part: string, b: string)
    requires Splits(s, a, part, b)
    ensures |a| + |part| <= |s| && a == s[..|a|] && b == s[|a| + |part|..] && OccursAt(s, part, |a|)
  {
  }

  lemma ContainsMeans(s: string, part: string)
    ensures Contains(s, part) <==> Mentions(s, part)
  {
    if i :| 0 <= i <= |s| && OccursAt(s, part, i) { OccursSplits(s, part, i); }
    if a, b :| Splits(s, a, part, b) { SplitAt(s, a, part, b); }
  }

  lemma SegmentStandsAlone(s: string, part: string, i: nat)
    requires OccursAt(s, part, i) && (i == 0 || IsDelimiter(s[i - 1]))
    requires i + |part| == |s| || IsDelimiter(s[i + |part|])
    ensures StandsAlone(s, part)
  {
    OccursSplits(s, part, i);
  }

  lemma AloneIsSegment(s: string, part: string, a: string, b: string)
    requires Splits(s, a, part, b)
    requires a == "" || a[|a| - 1] == '-' || a[|a| - 1] == '.' || a[|a| - 1] == '_'
    requires b == "" || b[0] == '-' || b[0] == '.' || b[0] == '_'
    ensures HasSegment(s, part)
  {
    SplitAt(s, a, part, b);
    assert b != "" ==> b[0] == s[|a| + |part|];
  }

  lemma SegmentMeans(s: string, part: string)
    ensures HasSegment(s, part) <==> StandsAlone(s, part)
  {
    if HasSegment(s, part) {
      var i :| 0 <= i <= |s| && OccursAt(s, part, i) && (i == 0 || IsDelimiter(s[i - 1]))
               && (i + |part| == |s| || IsDelimiter(s[i + |part|]));
      SegmentStandsAlone(s, part, i);
    }
    hide HasSegment, Splits;
    if StandsAlone(s, part) {
      var a, b :| Splits(s, a, part, b)
                  && (a == "" || a[|a| - 1] == '-' || a[|a| - 1] == '.' || a[|a| - 1] == '_')
                  && (b == "" || b[0] == '-' || b[0] == '.' || b[0] == '_');
      AloneIsSegment(s, part, a, b);
    }
  }

  lemma LoweredIs(s: string, low: string)
    ensures Lowered(s, low) <==> low == Lower(s)
  {
    if Lowered(s, low) { assert forall i :: 0 <= i < |s| ==> low[i] == Lower(s)[i]; }
  }

  /** The heuristic refuses exactly the marked labels and the tell-tale names, in any ASCII case. */
  lemma ControlPlaneIff(md: Deployment)
    ensures IsControlPlane(md) <==> LooksControlPlane(md)
  {
    var name := Lower(md.name);
    LoweredIs(md.name, name);
    ContainsMeans(name, "control-plane");
    ContainsMeans(name, "controlplane");
    ContainsMeans(name, "master");
    SegmentMeans(name, "cp");
    hide Contains, HasSegment, Mentions, StandsAlone, Lower, Lowered;
    if low :| Lowered(md.name, low) && low != name { LoweredIs(md.name, low); }
  }

  // ---------------------------------------------------------------- autoscalers

  ghost predicate AutoscalerAnnotation(key: string) {
    || key == "cluster.k8s.io/cluster-api-autoscaler-node-group-min-size"
    || key == "cluster.k8s.io/cluster-api-autoscaler-node-group-max-size"
    || key == "cluster.x-k8s.io/cluster-api-autoscaler-node-group-min-size"
    || key == "cluster.x-k8s.io/cluster-api-autoscaler-node-group-max-size"
  }

  /** A pool is left to the autoscaler exactly when it carries one of its four annotations, and the
      key reported is one that it carries. */
  lemma AutoscalerIff(md: Deployment)
    ensures AutoscalerKey(md).Some? <==> exists key :: key in md.annotations && AutoscalerAnnotation(key)
    ensures AutoscalerKey(md).Some? ==>
              AutoscalerKey(md).value in md.annotations && AutoscalerAnnotation(AutoscalerKey(md).value)
  {
    if key :| key in md.annotations && AutoscalerAnnotation(key) {
      assert key in AUTOSCALER_KEYS;
    }
  }

  /** The executor may act on a pool that neither looks like a control plane nor has an autoscaler. */
  lemma EligibleIff(md: Deployment)
    ensures Eligible(md) <==>
              !LooksControlPlane(md) && forall key :: key in md.annotations ==> !AutoscalerAnnotation(key)
  {
    hide IsControlPlane, AutoscalerKey, LooksControlPlane, AutoscalerAnnotation;
    ControlPlaneIff(md);
    AutoscalerIff(md);
  }

  // ---------------------------------------------------------------- names

  ghost predicate Lettered(c: char) { 'a' <= c <= 'z' || '0' <= c <= '9' }

  /** One DNS label: lower-case letters and digits, with dashes inside. */
  ghost predicate IsLabel(s: string) {
    && s != "" && Lettered(s[0]) && Lettered(s[|s| - 1])
    && forall i :: 0 <= i < |s| ==> Lettered(s[i]) || s[i] == '-'
  }

  /** Labels joined by dots. */
  ghost predicate Labels(s: string)
    decreases |s|
  {
    IsLabel(s) || exists i :: 0 <= i < |s| && s[i] == '.' && IsLabel(s[..i]) && Labels(s[i + 1..])
  }

  /** The test without its length limit. */
  ghost predicate Dotted(s: string) {
    && s != "" && Alphanumeric(s[0]) && Alphanumeric(s[|s| - 1])
    && (forall i :: 0 <= i < |s| ==> Alphanumeric(s[i]) || s[i] == '-' || s[i] == '.')
    && (forall i :: 0 < i < |s| - 1 && s[i] == '.' ==> Alphanumeric(s[i - 1]) && Alphanumeric(s[i + 1]))
  }

  /** Up to its first dot. */
  lemma FirstDot(s: string) returns (i: nat)
    ensures i <= |s| && (i < |s| ==> s[i] == '.') && forall j :: 0 <= j < i ==> s[j] != '.'
  {
    i := 0;
    while i < |s| && s[i] != '.'
      invariant i <= |s| && forall j :: 0 <= j < i ==> s[j] != '.'
    {
      i := i + 1;
    }
  }

  lemma {:induction false} DottedIsLabels(s: string)
    requires Dotted(s)
    ensures Labels(s)
    decreases |s|
  {
    var i := FirstDot(s);
    if i < |s| {
      var rest := s[i + 1..];
      assert 0 < i < |s| - 1;
      assert forall j :: 0 <= j < |rest| ==> rest[j] == s[i + 1 + j];
      assert IsLabel(s[..i]);
      DottedIsLabels(rest);
    } else {
      assert IsLabel(s);
    }
  }

  /** A character of two parts joined by a dot is one of theirs. */
  lemma JoinedAt(head: string, rest: string, j: nat)
    requires j < |head| + 1 + |rest|
    ensures (head + "." + rest)[j] == if j < |head| then head[j] else if j == |head| then '.' else rest[j - |head| - 1]
  {
  }

  lemma JoinedDotted(head: string, rest: string)
    requires IsLabel(head) && Dotted(rest)
    ensures Dotted(head + "." + rest)
  {
    var s := head + "." + rest;
    JoinedAt(head, rest, 0);
    JoinedAt(head, rest, |s| - 1);
    forall j | 0 <= j < |s| ensures Alphanumeric(s[j]) || s[j] == '-' || s[j] == '.' {
      JoinedAt(head, rest, j);
    }
    forall j | 0 < j < |s| - 1 && s[j] == '.' ensures Alphanumeric(s[j - 1]) && Alphanumeric(s[j + 1]) {
      JoinedAt(head, rest, j - 1);
      JoinedAt(head, rest, j);
      JoinedAt(head, rest, j + 1);
    }
  }

  lemma {:induction false} LabelsAreDotted(s: string)
    requires Labels(s)
    ensures Dotted(s)
    decreases |s|
  {
    hide *;
    if IsLabel(s) {
      LabelDotted(s);
    } else {
      var head, rest := LabelsJoined(s);
      LabelsAreDotted(rest);
      JoinedDotted(head, rest);
    }
  }

  lemma LabelsJoined(s: string) returns (head: string, rest: string)
    requires Labels(s) && !IsLabel(s)
    ensures s == head + "." + rest && |rest| < |s| && IsLabel(head) && Labels(rest)
  {
    hide IsLabel;
    var i :| 0 <= i < |s| && s[i] == '.' && IsLabel(s[..i]) && Labels(s[i + 1..]);
    head, rest := s[..i], s[i + 1..];
    assert s == head + "." + rest;
  }

  lemma LabelDotted(s: string)
    requires IsLabel(s)
    ensures Dotted(s)
  {
  }

  /** A valid name is at most 253 characters of labels joined by dots (section 2.1 of RFC 1123). */
  lemma SubdomainIff(s: string)
    ensures IsDNS1123Subdomain(s) <==> |s| <= 253 && Labels(s)
  {
    if IsDNS1123Subdomain(s) { DottedIsLabels(s); }
    if Labels(s) { LabelsAreDotted(s); }
  }

  // ---------------------------------------------------------------- selectors

  /** A requirement holds of the labels a machine carries. */
  ghost predicate Holds(r: Requirement, labels: map<string, string>) {
    match r
    case In(key, values) => exists value :: value in values && (key, value) in labels.Items
    case NotIn(key, values) => forall value :: value in values ==> (key, value) !in labels.Items
    case Exists(key) => exists value :: (key, value) in labels.Items
    case DoesNotExist(key) => forall value :: (key, value) !in labels.Items
  }

  lemma MatchesIff(r: Requirement, labels: map<string, string>)
    ensures r.Matches(labels) <==> Holds(r, labels)
  {
    match r
    case Exists(key) => if key in labels { assert (key, labels[key]) in labels.Items; }
    case DoesNotExist(key) => if key in labels { assert (key, labels[key]) in labels.Items; }
    case _ =>
  }
}
