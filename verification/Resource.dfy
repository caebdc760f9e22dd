/** The SAMLGroupMapping custom resource: shape, schema, naming and readiness
    (internal/webhook/jsm/cr.go, internal/webhook/wizapi/types.go, deploy/crds/samlgroupmapping.yaml). */
module Resource {
  import opened Basics

  datatype Spec = Spec(
    identityProviderId: string,
    providerGroupId: string,
    description: string,
    roleName: string,
    projectNames: seq<string>)

  datatype Condition = Condition(kind: string, status: string)
  datatype Status = Status(observedGeneration: int, conditions: seq<Condition>)
  datatype Key = Key(namespace: string, name: string)

  datatype CustomResource = CustomResource(
    key: Key,
    labels: map<string, string>,
    annotations: map<string, string>,
    spec: Spec,
    generation: int,
    status: Status)

  /** What a watch event or a read can carry: a value that is no API object at all,
      an object of another kind, or a SAMLGroupMapping. */
  datatype Payload = NotAnObject | OtherKind(name: string) | Mapping(cr: CustomResource)

  const READY := "Ready"
  const TRUE := "True"

  function BuildSpec(providerGroupId: string, role: string, project: string, identityProviderId: string,
                     description: string): Spec
  {
    Spec(identityProviderId, providerGroupId, description, role, [project])
  }

  function BuildDescription(issueKey: string): string {
    "Provisioned from JSM " + issueKey
  }

  function CRName(issueKey: string): string {
    "jsm-" + ToLower(issueKey)
  }

  /** The required / minLength / minItems rules of the CRD schema. */
  predicate FitsSchema(s: Spec) {
    && s.identityProviderId != ""
    && s.providerGroupId != ""
    && s.roleName != ""
    && s.projectNames != []
    && forall p <- s.projectNames :: p != ""
  }

  predicate HasReady(conditions: seq<Condition>) {
    exists i :: 0 <= i < |conditions| && conditions[i].kind == READY && conditions[i].status == TRUE
  }

  /** A resource counts as ready for `applyGen` when the operator has observed at least that generation
      and reports Ready=True. */
  predicate ReadyFor(cr: CustomResource, applyGen: int) {
    cr.status.observedGeneration >= applyGen && HasReady(cr.status.conditions)
  }

  function ScanReady(conditions: seq<Condition>): (r: bool)
    ensures r == HasReady(conditions)
  {
    if conditions == [] then false
    else if conditions[0].kind == READY && conditions[0].status == TRUE then true
    else
      assert forall i :: 1 <= i < |conditions| ==> conditions[i] == conditions[1..][i - 1];
      assert forall i :: 0 <= i < |conditions| - 1 ==> conditions[1..][i] == conditions[i + 1];
      ScanReady(conditions[1..])
  }

  /** `IsReady`: readiness and the generation the operator has observed. */
  function IsReady(obj: Payload, applyGen: int): (r: (bool, int))
    ensures r.0 <==> obj.Mapping? && ReadyFor(obj.cr, applyGen)
    ensures r.0 <==> && obj.Mapping? && obj.cr.status.observedGeneration >= applyGen
                     && exists i :: 0 <= i < |obj.cr.status.conditions|
                                 && obj.cr.status.conditions[i] == Condition("Ready", "True")
    ensures obj.Mapping? ==> r.1 == obj.cr.status.observedGeneration
    ensures r.0 ==> r.1 >= applyGen
  {
    if !obj.Mapping? then (false, 0)
    else if obj.cr.status.observedGeneration < applyGen then (false, obj.cr.status.observedGeneration)
    else (ScanReady(obj.cr.status.conditions), obj.cr.status.observedGeneration)
  }

  // ---- Naming -------------------------------------------------------------

  /** Two characters that `ToLower` identifies. */
  predicate SameLetter(c: char, d: char) {
    c == d || (IsUpper(c) && d as int == c as int + 32) || (IsUpper(d) && c as int == d as int + 32)
  }

  /** Two tickets land on one object exactly when their keys differ in letter case only. */
  lemma NameCollisions(a: string, b: string)
    ensures CRName(a) == CRName(b) <==> |a| == |b| && forall i | 0 <= i < |a| :: SameLetter(a[i], b[i])
  {
    assert CRName(a)[4..] == ToLower(a) && CRName(b)[4..] == ToLower(b);
    if |a| == |b| && forall i | 0 <= i < |a| :: SameLetter(a[i], b[i]) {
      assert ToLower(a) == ToLower(b);
    }
    if CRName(a) == CRName(b) {
      forall i | 0 <= i < |a| ensures SameLetter(a[i], b[i]) {
        assert ToLower(a)[i] == ToLower(b)[i];
      }
    }
  }

  /** A name is "jsm-" and the key with its capital letters lowered. */
  lemma NameReads(k: string, i: nat)
    requires i < |k|
    ensures |CRName(k)| == |k| + 4 && "jsm-" <= CRName(k)
    ensures CRName(k)[i + 4] as int == if 'A' <= k[i] <= 'Z' then k[i] as int + 32 else k[i] as int
  {
  }

  lemma NamesCanCollide()
    ensures "SEC-1" != "sec-1" && CRName("SEC-1") == CRName("sec-1")
  {
    NameCollisions("SEC-1", "sec-1");
  }

  /** The documented shape of a JSM issue key: letters, one dash, digits. */
  ghost predicate IsIssueKey(k: string) {
    exists n :: 0 < n < |k| - 1 && k[n] == '-'
             && (forall i | 0 <= i < n :: IsUpper(k[i])) && (forall i | n < i < |k| :: IsDigit(k[i]))
  }

  /** A label of section 2.1 of RFC 1123 as Kubernetes enforces it. */
  predicate IsDnsLabel(s: string) {
    && 0 < |s| <= 63
    && (forall i | 0 <= i < |s| :: LabelChar(s[i]))
    && s[0] != '-' && s[|s| - 1] != '-'
  }

  predicate LabelChar(c: char) { IsLower(c) || IsDigit(c) || c == '-' }
  predicate KeyChar(c: char) { IsUpper(c) || LabelChar(c) }

  /** A name is made of label characters exactly when its key is made of letters, digits and dashes. */
  lemma NameChars(k: string)
    ensures (forall i | 0 <= i < |CRName(k)| :: LabelChar(CRName(k)[i])) <==> (forall i | 0 <= i < |k| :: KeyChar(k[i]))
  {
    var n := CRName(k);
    assert forall i | 0 <= i < |k| :: LabelChar(LowerChar(k[i])) == KeyChar(k[i]);
    assert forall i | 0 <= i < |k| :: n[4 + i] == LowerChar(k[i]);
    if forall i | 0 <= i < |n| :: LabelChar(n[i]) {
      forall i | 0 <= i < |k| ensures KeyChar(k[i]) { assert LabelChar(n[4 + i]); }
    }
    if forall i | 0 <= i < |k| :: KeyChar(k[i]) {
      forall i | 0 <= i < |n| ensures LabelChar(n[i]) { assert i >= 4 ==> n[i] == LowerChar(k[i - 4]); }
    }
  }

  /** Exactly which issue keys give a usable object name. */
  lemma NameIsDnsLabel(k: string)
    ensures IsDnsLabel(CRName(k)) <==>
            0 < |k| <= 59 && (forall i | 0 <= i < |k| :: KeyChar(k[i])) && k[|k| - 1] != '-'
  {
    NameChars(k);
    var n := CRName(k);
    if 0 < |k| {
      assert n[|n| - 1] == LowerChar(k[|k| - 1]);
    } else {
      assert n[|n| - 1] == '-';
    }
  }

  /** Distinct tickets never share an object, and every ticket of allowed length gets a legal name. */
  lemma IssueKeysNameDistinctObjects(a: string, b: string)
    requires IsIssueKey(a) && IsIssueKey(b)
    ensures CRName(a) == CRName(b) <==> a == b
    ensures IsDnsLabel(CRName(a)) <==> |a| <= 59
  {
    NameCollisions(a, b);
    NameIsDnsLabel(a);
    assert forall c <- a :: !IsLower(c);
    assert forall c <- b :: !IsLower(c);
    if CRName(a) == CRName(b) {
      forall i | 0 <= i < |a| ensures a[i] == b[i] {
        assert a[i] in a && b[i] in b;
      }
    }
  }
}
