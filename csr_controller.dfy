/** Model of the CSR auto-approval controller: an eligibility predicate used as
    the watch filter for CertificateSigningRequest create/update events, and a
    reconciler that appends an Approved condition to a CSR once the
    ManagedCluster named by its cluster-name label can be fetched.

    Store reads and writes are abstracted as total functions over names and
    objects (see `Store`); timestamps are opaque inputs. */
module CsrController {

  datatype Option<+T> = None | Some(value: T)

  // ---------------------------------------------------------------------------
  // Constants of the controller and of the certificates API
  // ---------------------------------------------------------------------------

  /** Label whose value names the requesting cluster. */
  const ClusterLabel: string := "open-cluster-management.io/cluster-name"

  /** Condition types that resolve a CSR. */
  const CertificateApproved: string := "Approved"
  const CertificateDenied: string := "Denied"

  /** Fixed reason and message of the condition the controller appends. */
  const AutoApprovedReason: string := "AutoApprovedByCSRController"
  const AutoApprovedMessage: string :=
    "The managedcluster-import-controller auto approval automatically approved this CSR"

  // ---------------------------------------------------------------------------
  // Data model
  // ---------------------------------------------------------------------------

  /** An opaque point in time (the controller never inspects it). */
  datatype Time = Time(instant: int)

  datatype Condition = Condition(
    conditionType: string,
    reason: string,
    message: string,
    lastUpdateTime: Time)

  /** The parts of a CertificateSigningRequest the controller reads or writes.
      A nil label map is the empty map and a nil condition list the empty
      sequence. */
  datatype CertificateSigningRequest = CertificateSigningRequest(
    name: string,
    labels: map<string, string>,
    deletionTimestamp: Option<Time>,
    username: string,
    conditions: seq<Condition>)

  /** Only the existence of a ManagedCluster is consulted. */
  datatype ManagedCluster = ManagedCluster(name: string)

  datatype NamespacedName = NamespacedName(namespace: string, name: string)

  datatype StoreError = StoreError(message: string)

  /** Outcome of a Get against the API server: the object, a not-found error,
      or any other error. */
  datatype Fetch<T> = Found(value: T) | NotFound | Failed(error: StoreError)

  /** The API server as seen by the reconciler: what a Get of a CSR or of a
      ManagedCluster answers for each name, and what UpdateApproval answers
      for each submitted CSR (None on success). */
  datatype Store = Store(
    getCsr: NamespacedName -> Fetch<CertificateSigningRequest>,
    getCluster: NamespacedName -> Fetch<ManagedCluster>,
    updateApproval: CertificateSigningRequest -> Option<StoreError>)

  datatype ReconcileResult = ReconcileResult(requeue: bool, requeueAfter: nat)

  // ---------------------------------------------------------------------------
  // Cluster name
  // ---------------------------------------------------------------------------

  /** The value stored under the cluster-name label, or "" when it is absent. */
  function ClusterName(labels: map<string, string>): (clusterName: string)
    ensures clusterName != "" ==> ClusterLabel in labels && labels[ClusterLabel] == clusterName
    ensures ClusterLabel !in labels ==> clusterName == ""
  {
    if ClusterLabel in labels then labels[ClusterLabel] else ""
  }

  /** The label scan: visits the labels in an unspecified order and keeps the
      value of the matching key. Map keys are unique, so the order does not
      matter and the scan agrees with the keyed lookup. */
  method GetClusterName(csr: CertificateSigningRequest) returns (clusterName: string)
    ensures ClusterLabel in csr.labels ==> clusterName == csr.labels[ClusterLabel]
    ensures ClusterLabel !in csr.labels ==> clusterName == ""
    ensures clusterName == ClusterName(csr.labels)
  {
    var labels := csr.labels;
    clusterName := "";
    var unvisited := labels.Keys;
    while unvisited != {}
      invariant unvisited <= labels.Keys
      invariant clusterName ==
        if ClusterLabel in labels && ClusterLabel !in unvisited then labels[ClusterLabel] else ""
      decreases unvisited
    {
      var key :| key in unvisited;
      if key == ClusterLabel {
        clusterName := labels[key];
      }
      unvisited := unvisited - {key};
    }
  }

  // ---------------------------------------------------------------------------
  // Approval type
  // ---------------------------------------------------------------------------

  predicate IsVerdict(conditionType: string)
  {
    conditionType == CertificateApproved || conditionType == CertificateDenied
  }

  /** The type of the first Approved or Denied condition, or "" when there is
      none. */
  function ApprovalType(conditions: seq<Condition>): (approvalType: string)
    ensures approvalType == "" || IsVerdict(approvalType)
  {
    if conditions == [] then ""
    else if IsVerdict(conditions[0].conditionType) then conditions[0].conditionType
    else ApprovalType(conditions[1..])
  }

  /** ApprovalType is "" exactly when no condition is a verdict; otherwise it
      is the type of a verdict condition preceded only by non-verdicts. */
  lemma {:induction false} ApprovalTypeIsFirstVerdict(conditions: seq<Condition>)
    ensures ApprovalType(conditions) == "" <==>
      forall i :: 0 <= i < |conditions| ==> !IsVerdict(conditions[i].conditionType)
    ensures ApprovalType(conditions) != "" ==>
      exists k :: 0 <= k < |conditions| && conditions[k].conditionType == ApprovalType(conditions) &&
        forall i :: 0 <= i < k ==> !IsVerdict(conditions[i].conditionType)
  {
    if conditions == [] {
    } else if IsVerdict(conditions[0].conditionType) {
      assert conditions[0].conditionType == ApprovalType(conditions);
    } else {
      var rest := conditions[1..];
      ApprovalTypeIsFirstVerdict(rest);
      assert forall i :: 1 <= i < |conditions| ==> conditions[i] == rest[i - 1];
      if ApprovalType(conditions) != "" {
        var k :| 0 <= k < |rest| && rest[k].conditionType == ApprovalType(rest) &&
          forall i :: 0 <= i < k ==> !IsVerdict(rest[i].conditionType);
        assert conditions[k + 1].conditionType == ApprovalType(conditions);
      }
    }
  }

  /** Appending a condition never changes an existing verdict; on a list
      without one, the appended condition's type decides. */
  lemma {:induction false} ApprovalTypeAppend(conditions: seq<Condition>, c: Condition)
    ensures ApprovalType(conditions + [c]) ==
      if ApprovalType(conditions) != "" then ApprovalType(conditions)
      else if IsVerdict(c.conditionType) then c.conditionType
      else ""
  {
    if conditions == [] {
      assert conditions + [c] == [c];
      assert [c][1..] == [];
    } else {
      assert (conditions + [c])[1..] == conditions[1..] + [c];
      ApprovalTypeAppend(conditions[1..], c);
    }
  }

  /** The condition scan with an early return on the first verdict. */
  method GetApprovalType(csr: CertificateSigningRequest) returns (approvalType: string)
    ensures approvalType == ApprovalType(csr.conditions)
  {
    var conditions := csr.conditions;
    if conditions == [] {
      return "";
    }
    for i := 0 to |conditions|
      invariant ApprovalType(conditions[i..]) == ApprovalType(conditions)
    {
      if conditions[i].conditionType == CertificateApproved || conditions[i].conditionType == CertificateDenied {
        return conditions[i].conditionType;
      }
      assert conditions[i..][1..] == conditions[i + 1..];
    }
    return "";
  }

  // ---------------------------------------------------------------------------
  // User name
  // ---------------------------------------------------------------------------

  /** The user-name template with its two placeholders filled in: the
      service-account namespace and the prefix of the service-account name. */
  function UserNameSignature(namespace: string, account: string): (userName: string)
    ensures |userName| == |namespace| + |account| + 36
    ensures userName[..22] == "system:serviceaccount:"
    ensures userName[|userName| - 13..] == "-bootstrap-sa"
  {
    "system:serviceaccount:" + namespace + ":" + account + "-bootstrap-sa"
  }

  /** The requester must be the bootstrap service account of the cluster:
      namespace and account prefix both equal to the cluster name. */
  function ValidUsername(csr: CertificateSigningRequest, clusterName: string): (valid: bool)
    ensures valid ==> |csr.username| == 2 * |clusterName| + 36
    ensures valid ==> csr.username[22..22 + |clusterName|] == clusterName
    ensures valid ==> csr.username[23 + |clusterName|..23 + 2 * |clusterName|] == clusterName
  {
    csr.username == UserNameSignature(clusterName, clusterName)
  }

  /** Two strings joined by a colon split back uniquely when the first part
      holds no colon. */
  lemma {:induction false} SplitAtFirstColon(a: string, b: string, x: string, y: string)
    requires ':' !in a && ':' !in x
    requires a + ":" + b == x + ":" + y
    ensures a == x && b == y
  {
    var s := a + ":" + b;
    assert s[|a|] == ':' && forall i :: 0 <= i < |a| ==> s[i] != ':';
    assert s[|x|] == ':' && forall i :: 0 <= i < |x| ==> s[i] != ':';
    assert |a| == |x|;
    assert a == s[..|a|];
    assert b == s[|a| + 1..];
  }

  /** With colon-free namespaces, a user name built from the template fixes
      both of its segments. */
  lemma UserNameSignatureInjective(ns1: string, account1: string, ns2: string, account2: string)
    requires ':' !in ns1 && ':' !in ns2
    requires UserNameSignature(ns1, account1) == UserNameSignature(ns2, account2)
    ensures ns1 == ns2 && account1 == account2
  {
    var prefix := "system:serviceaccount:";
    var suffix := "-bootstrap-sa";
    var s := UserNameSignature(ns1, account1);
    var mid1 := ns1 + ":" + account1;
    var mid2 := ns2 + ":" + account2;
    assert s == prefix + mid1 + suffix;
    assert s == prefix + mid2 + suffix;
    assert |mid1| == |mid2|;
    assert mid1 == s[|prefix|..|s| - |suffix|];
    assert mid2 == s[|prefix|..|s| - |suffix|];
    SplitAtFirstColon(ns1, account1, ns2, account2);
  }

  /** A CSR whose user name was built from the template is accepted for a
      colon-free cluster name exactly when both segments are that name. */
  lemma ValidUsernameIff(csr: CertificateSigningRequest, namespace: string, account: string, clusterName: string)
    requires ':' !in namespace && ':' !in clusterName
    requires csr.username == UserNameSignature(namespace, account)
    ensures ValidUsername(csr, clusterName) <==> namespace == clusterName && account == clusterName
  {
    if ValidUsername(csr, clusterName) {
      UserNameSignatureInjective(namespace, account, clusterName, clusterName);
    }
  }

  /** Without any restriction on colons: changing only the namespace segment
      (for instance `beta` for `alpha`) makes the user name invalid. */
  lemma ValidUsernameRejectsOtherNamespace(csr: CertificateSigningRequest, namespace: string, clusterName: string)
    requires csr.username == UserNameSignature(namespace, clusterName)
    ensures ValidUsername(csr, clusterName) <==> namespace == clusterName
  {
    if ValidUsername(csr, clusterName) {
      var s := csr.username;
      assert |namespace| == |clusterName|;
      assert namespace == s[22..22 + |namespace|];
      assert clusterName == s[22..22 + |clusterName|];
    }
  }

  /** Colons in the segments make the template ambiguous: the cluster name
      "x:x" accepts a user name whose namespace segment is "x". */
  lemma ColonsMakeSignatureAmbiguous()
    ensures UserNameSignature("x", "x:x:x") == UserNameSignature("x:x", "x:x")
  {
  }

  // ---------------------------------------------------------------------------
  // Eligibility predicate and the watch filter
  // ---------------------------------------------------------------------------

  /** A CSR is eligible for auto-approval when it names a cluster, carries no
      verdict yet, and was requested by that cluster's bootstrap service
      account. */
  function CsrPredicate(csr: CertificateSigningRequest): (eligible: bool)
    ensures eligible ==> ClusterLabel in csr.labels && csr.labels[ClusterLabel] != ""
    ensures eligible ==>
      forall i :: 0 <= i < |csr.conditions| ==> !IsVerdict(csr.conditions[i].conditionType)
  {
    ApprovalTypeIsFirstVerdict(csr.conditions);
    var clusterName := ClusterName(csr.labels);
    clusterName != "" &&
    ApprovalType(csr.conditions) == "" &&
    ValidUsername(csr, clusterName)
  }

  /** Eligibility stated without the helper functions. */
  lemma CsrPredicateIff(csr: CertificateSigningRequest)
    ensures CsrPredicate(csr) <==>
      ClusterLabel in csr.labels && csr.labels[ClusterLabel] != "" &&
      (forall i :: 0 <= i < |csr.conditions| ==> !IsVerdict(csr.conditions[i].conditionType)) &&
      csr.username == UserNameSignature(csr.labels[ClusterLabel], csr.labels[ClusterLabel])
  {
    ApprovalTypeIsFirstVerdict(csr.conditions);
  }

  /** Watch events the controller filters. */
  datatype Event =
    | CreateEvent(object: CertificateSigningRequest)
    | UpdateEvent(objectOld: CertificateSigningRequest, objectNew: CertificateSigningRequest)
  {
    /** The snapshot the filter looks at and the work queue is keyed by. */
    function Object(): CertificateSigningRequest
    {
      match this
      case CreateEvent(o) => o
      case UpdateEvent(_, n) => n
    }
  }

  /** Create and update events pass the filter when their (new) object is
      eligible. */
  function Admits(e: Event): (admitted: bool)
    ensures admitted ==> ClusterName(e.Object().labels) != ""
    ensures admitted ==> ApprovalType(e.Object().conditions) == ""
  {
    CsrPredicate(e.Object())
  }

  // ---------------------------------------------------------------------------
  // Approval
  // ---------------------------------------------------------------------------

  function ApprovedCondition(now: Time): Condition
  {
    Condition(CertificateApproved, AutoApprovedReason, AutoApprovedMessage, now)
  }

  /** The CSR as submitted for approval: its condition list followed by one
      Approved condition, nothing else changed. */
  function Approve(csr: CertificateSigningRequest, now: Time): (approved: CertificateSigningRequest)
    ensures |approved.conditions| == |csr.conditions| + 1
    ensures approved.conditions[..|csr.conditions|] == csr.conditions
    ensures approved.conditions[|csr.conditions|].conditionType == CertificateApproved
    ensures approved.conditions[|csr.conditions|].reason == AutoApprovedReason
    ensures approved.conditions[|csr.conditions|].lastUpdateTime == now
    ensures approved.(conditions := csr.conditions) == csr
  {
    csr.(conditions := csr.conditions + [ApprovedCondition(now)])
  }

  /** Approval never removes an earlier verdict: on an unresolved CSR the
      verdict becomes Approved, on a resolved one it stays what it was
      (a Denied CSR keeps Denied as its first verdict, with an Approved
      condition behind it). */
  lemma ApproveKeepsFirstVerdict(csr: CertificateSigningRequest, now: Time)
    ensures ApprovalType(Approve(csr, now).conditions) ==
      if ApprovalType(csr.conditions) == "" then CertificateApproved else ApprovalType(csr.conditions)
  {
    ApprovalTypeAppend(csr.conditions, ApprovedCondition(now));
  }

  /** Once approved, a CSR no longer passes the filter, so the update event
      produced by the approval does not trigger another reconcile. */
  lemma ApprovalBlocksRetrigger(csr: CertificateSigningRequest, now: Time)
    ensures ApprovalType(Approve(csr, now).conditions) != ""
    ensures !CsrPredicate(Approve(csr, now))
    ensures !Admits(UpdateEvent(csr, Approve(csr, now)))
  {
    ApproveKeepsFirstVerdict(csr, now);
  }

  /** What filter and reconciler guarantee together, when the reconciler sees
      the snapshot the filter admitted: the submitted CSR names a cluster,
      was requested by that cluster's bootstrap account, and carries exactly
      one verdict, the Approved condition appended last. */
  lemma FilterThenApprove(e: Event, now: Time)
    requires Admits(e)
    ensures var csr := e.Object();
      var approved := Approve(csr, now);
      ClusterName(approved.labels) != "" &&
      approved.username == UserNameSignature(ClusterName(approved.labels), ClusterName(approved.labels)) &&
      ApprovalType(approved.conditions) == CertificateApproved &&
      approved.conditions[|approved.conditions| - 1].conditionType == CertificateApproved &&
      forall i :: 0 <= i < |approved.conditions| - 1 ==> !IsVerdict(approved.conditions[i].conditionType)
  {
    var csr := e.Object();
    var approved := Approve(csr, now);
    ApproveKeepsFirstVerdict(csr, now);
    ApprovalTypeIsFirstVerdict(csr.conditions);
    assert forall i :: 0 <= i < |approved.conditions| - 1 ==> approved.conditions[i] == csr.conditions[i];
  }

  // ---------------------------------------------------------------------------
  // Reconcile
  // ---------------------------------------------------------------------------

  /** One reconciliation of the CSR named by `request`. `submitted` is the CSR
      passed to UpdateApproval, if that call is made; `err` is the error
      returned to the work queue. The eligibility predicate is not re-checked:
      the approval happens whenever the ManagedCluster Get succeeds. */
  method Reconcile(store: Store, request: NamespacedName, now: Time)
    returns (result: ReconcileResult, err: Option<StoreError>, submitted: Option<CertificateSigningRequest>)
    ensures result == ReconcileResult(false, 0)
    ensures store.getCsr(request).NotFound? ==> err == None && submitted == None
    ensures store.getCsr(request).Failed? ==> err == Some(store.getCsr(request).error) && submitted == None
    ensures store.getCsr(request).Found? && store.getCsr(request).value.deletionTimestamp.Some? ==>
      err == None && submitted == None
    ensures store.getCsr(request).Found? && store.getCsr(request).value.deletionTimestamp.None? ==>
      var csr := store.getCsr(request).value;
      if !store.getCluster(NamespacedName("", ClusterName(csr.labels))).Found? then
        err == None && submitted == None
      else
        submitted == Some(Approve(csr, now)) && err == store.updateApproval(Approve(csr, now))
  {
    result := ReconcileResult(false, 0);
    err, submitted := None, None;

    var fetched := store.getCsr(request);
    if fetched.NotFound? {
      return;
    }
    if fetched.Failed? {
      err := Some(fetched.error);
      return;
    }
    var instance := fetched.value;

    if instance.deletionTimestamp.Some? {
      return;
    }

    var clusterName := GetClusterName(instance);
    var cluster := store.getCluster(NamespacedName("", clusterName));
    if !cluster.Found? {
      return;
    }

    // A nil condition list is the empty sequence, so initialising it is the
    // identity here; the append is the in-place update of the instance.
    instance := instance.(conditions := instance.conditions + [ApprovedCondition(now)]);

    submitted := Some(instance);
    err := store.updateApproval(instance);
  }

  /** Filter and reconciler together: when the reconciler reads the snapshot
      the filter admitted, that CSR is not being deleted and its cluster is
      found, the CSR it submits carries exactly one verdict, the Approved
      condition appended last, and the error is UpdateApproval's. */
  method ReconcileAdmitted(store: Store, request: NamespacedName, e: Event, now: Time)
    returns (result: ReconcileResult, err: Option<StoreError>, submitted: Option<CertificateSigningRequest>)
    requires Admits(e)
    requires store.getCsr(request) == Found(e.Object())
    requires e.Object().deletionTimestamp.None?
    requires store.getCluster(NamespacedName("", ClusterName(e.Object().labels))).Found?
    ensures submitted.Some?
    ensures |submitted.value.conditions| == |e.Object().conditions| + 1
    ensures ApprovalType(submitted.value.conditions) == CertificateApproved
    ensures submitted.value.conditions[|submitted.value.conditions| - 1].conditionType == CertificateApproved
    ensures forall i :: 0 <= i < |submitted.value.conditions| - 1 ==>
      !IsVerdict(submitted.value.conditions[i].conditionType)
    ensures err == store.updateApproval(submitted.value)
  {
    result, err, submitted := Reconcile(store, request, now);
    FilterThenApprove(e, now);
  }

  // ---------------------------------------------------------------------------
  // Scenarios
  // ---------------------------------------------------------------------------

  function ScenarioCsr(username: string): CertificateSigningRequest
  {
    CertificateSigningRequest("csr-1", map[ClusterLabel := "alpha"], None, username, [])
  }

  /** The bootstrap account of cluster alpha is eligible; the same request
      from namespace beta is not. */
  lemma AlphaBetaScenario()
    ensures CsrPredicate(ScenarioCsr("system:serviceaccount:alpha:alpha-bootstrap-sa"))
    ensures !CsrPredicate(ScenarioCsr("system:serviceaccount:beta:alpha-bootstrap-sa"))
  {
  }
}
