# CSR auto-approval controller, modelled in Dafny

This project models the decision core of the CSR controller of the managed-cluster
import controller (`pkg/controller/csr/csr_controller.go`). The controller approves
the certificate-signing requests that a joining cluster's bootstrap service account
files. It has two parts:

- the **eligibility predicate** `csrPredicate`, used as the watch filter for CSR
  create and update events. A CSR is eligible when:
  - its `open-cluster-management.io/cluster-name` label is non-empty;
  - it carries no Approved or Denied condition;
  - its user name is `system:serviceaccount:<c>:<c>-bootstrap-sa` for that cluster
    name `<c>`.
- the **reconciler** `Reconcile`. It re-fetches the CSR and stops on not-found,
  on a read error or on a deletion mark. It then fetches the ManagedCluster named
  by the label, and swallows any error from that fetch. If the cluster was found, it
  appends one Approved condition (reason `AutoApprovedByCSRController`) and submits
  the CSR through UpdateApproval.

Everything lives in one module, `CsrController` (`csr_controller.dfy`):

- CSRs, conditions and events are datatypes.
- The two scans of the source (the label loop and the condition loop with an early
  return) are methods with loop invariants. Each is proved equal to a keyed-lookup
  or recursive specification function.
- `Reconcile` is a method over an abstract `Store`. The store holds what a Get
  answers for each name (Found, NotFound or another error) and what UpdateApproval
  answers for each submitted CSR. The current time is an input.

One might expect the reconciler to re-check eligibility before approving, and
reconciling an already-approved CSR to be a no-op. Lines 159-181 do neither: they
approve whenever the ManagedCluster Get succeeds. The model follows the code:

- `Reconcile`'s contract has no eligibility premise on the approval path.
- `ApproveKeepsFirstVerdict` states what approving an already-resolved CSR yields:
  one more condition, with the earlier verdict still first.
- `ApprovalBlocksRetrigger` and `FilterThenApprove` state what the filter adds: the
  approval's own update event is filtered out. When the reconciler sees the snapshot
  the filter admitted, the submitted CSR carries exactly one verdict, Approved.

## Model

| member | source | states |
|---|---|---|
| `CsrController.ClusterName` | pkg/controller/csr/csr_controller.go:57-64 | Definition: the keyed lookup of the cluster-name label, `""` when absent. A non-empty result comes from that label. The loop `GetClusterName` is proved equal to it. |
| `CsrController.GetClusterName` | pkg/controller/csr/csr_controller.go:57-64 | The label scan, whatever order it visits the keys in, returns the value under `open-cluster-management.io/cluster-name` when that key is present and `""` otherwise. |
| `CsrController.ApprovalType` | pkg/controller/csr/csr_controller.go:66-76 | The approval type is either `""` or one of `Approved` and `Denied`. |
| `CsrController.ApprovalTypeIsFirstVerdict` | pkg/controller/csr/csr_controller.go:66-76 | The approval type is `""` exactly when no condition is Approved or Denied. Otherwise it is the type of a verdict condition that only non-verdict conditions precede, i.e. the first match in list order. |
| `CsrController.GetApprovalType` | pkg/controller/csr/csr_controller.go:66-76 | The scan with its nil check and its early return yields the first-verdict approval type. |
| `CsrController.ApprovalTypeAppend` | pkg/controller/csr/csr_controller.go:70-74 | Appending a condition keeps an existing verdict. On a list without a verdict, the appended condition's type decides. |
| `CsrController.UserNameSignature` | pkg/controller/csr/csr_controller.go:31 | Definition: the template filled with a namespace and an account prefix. The result starts with `system:serviceaccount:`, ends with `-bootstrap-sa`, and is 36 characters longer than the two segments together. Characterised by `UserNameSignatureInjective`. |
| `CsrController.ValidUsername` | pkg/controller/csr/csr_controller.go:78-80 | Definition: the user name equals the template filled with the cluster name twice. A valid name is 36 characters longer than twice the cluster name and carries the cluster name in both segments. Characterised by `ValidUsernameIff` and `ValidUsernameRejectsOtherNamespace`. |
| `CsrController.UserNameSignatureInjective` | pkg/controller/csr/csr_controller.go:31 | Two user names filled in from the template are equal only if both segments are equal, provided the namespaces contain no `:`. |
| `CsrController.ValidUsernameIff` | pkg/controller/csr/csr_controller.go:78-80 | For colon-free names, a templated user name is valid for a cluster iff both its namespace and its account segment equal the cluster name. |
| `CsrController.ValidUsernameRejectsOtherNamespace` | pkg/controller/csr/csr_controller.go:78-80 | With no restriction on the names: a user name that differs from the expected one only in its namespace segment (e.g. `beta` for `alpha`) is rejected. One that equals it is accepted. |
| `CsrController.ColonsMakeSignatureAmbiguous` | pkg/controller/csr/csr_controller.go:31 | A cluster name with colons (`x:x`) also accepts a user name whose namespace segment is `x`. This is why `UserNameSignatureInjective` and `ValidUsernameIff` assume colon-free names. |
| `CsrController.CsrPredicate` | pkg/controller/csr/csr_controller.go:82-87 | Definition: the conjunction of a non-empty cluster name, an empty approval type and a valid user name. An eligible CSR carries the label with a non-empty value and no Approved or Denied condition. Characterised by `CsrPredicateIff`. |
| `CsrController.CsrPredicateIff` | pkg/controller/csr/csr_controller.go:82-87 | A CSR is eligible iff all three hold: the cluster-name label is present and non-empty; no condition is Approved or Denied; the user name is the template filled with the label's value twice. So an unlabelled CSR or an already-resolved CSR is never eligible. |
| `CsrController.AlphaBetaScenario` | pkg/controller/csr/csr_controller.go:82-87 | A CSR labelled `alpha` with no conditions and user name `system:serviceaccount:alpha:alpha-bootstrap-sa` is eligible. The same CSR from namespace `beta` is not. |
| `CsrController.Approve` | pkg/controller/csr/csr_controller.go:169-178 | The submitted CSR has one more condition than before. The old conditions are an unchanged prefix. The new last condition has type Approved, reason `AutoApprovedByCSRController` and the given timestamp. No other field changes. |
| `CsrController.ApproveKeepsFirstVerdict` | pkg/controller/csr/csr_controller.go:169-178 | After approval the first verdict is Approved if the CSR had none. Otherwise it is the earlier verdict, e.g. a Denied CSR stays Denied-first with an Approved condition behind it. |
| `CsrController.Admits` | pkg/controller/csr/csr_controller.go:97-104 | Definition: a create event passes when its object is eligible, and an update event when its new object is. An admitted object names a cluster and carries no verdict. Characterised by `ApprovalBlocksRetrigger` and `FilterThenApprove`. |
| `CsrController.ApprovalBlocksRetrigger` | pkg/controller/csr/csr_controller.go:97-104 | Every approved CSR has a non-empty approval type. It therefore fails the predicate, and the update event the approval produces is filtered out. |
| `CsrController.FilterThenApprove` | pkg/controller/csr/csr_controller.go:97-104 | Take a CSR whose create or update event passed the filter, and approve that snapshot. The result names a cluster and carries that cluster's bootstrap user name. Its only verdict is the Approved condition appended last. |
| `CsrController.Reconcile` | pkg/controller/csr/csr_controller.go:137-186 | The result never asks for a requeue. A CSR Get answering NotFound gives no error and no submission. Any other Get error is returned, with no submission. A deletion mark gives no error and no submission. Any failure of the ManagedCluster Get, which uses the label value as the name, gives no error and no submission. Otherwise the appended CSR is submitted, and the error is exactly UpdateApproval's error. Eligibility is not re-checked. |
| `CsrController.ReconcileAdmitted` | pkg/controller/csr/csr_controller.go:159-181 | Take a Reconcile whose CSR Get returns exactly the snapshot the filter admitted, with no deletion mark and a found ManagedCluster. It submits a CSR with one more condition than the snapshot. Its only verdict is the Approved condition appended last, and the error is UpdateApproval's. |

## Left out

- Controller wiring: `Add`, `newReconciler`, `add`, controller creation and the watch
  registration (lines 44-118). Only the create/update filtering of lines 97-104 is
  modelled, as `Admits`. Delete and generic events fall back to the controller
  runtime's defaults, which are not part of this model.
- Client construction and the API calls: `NewDefaultKubeClient`, `client.Get` and
  `UpdateApproval`. These are the fields of `Store`. A nil `kubeClient`, which
  `newReconciler` permits, would make line 180 panic. The model assumes a working
  client.
- Logging has no effect on behaviour and is omitted.
- `metav1.Now()` is the `now` parameter. The clock is not modelled.
- Concurrency, work-queue requeue and rate limiting, and optimistic-concurrency
  conflicts belong to the dispatcher and the API server. A conflict is one more
  error that `updateApproval` may answer.
- Reconcile: the in-place update of `instance.Status.Conditions` is a reassignment of
  a local CSR value. The instance is created inside Reconcile and is seen only as the
  argument of UpdateApproval, so no aliasing is lost. Go's nil and empty slices (and
  nil and empty label maps) are the same value in the model. The nil initialisation
  at lines 169-171 is therefore the identity, and the nil check at lines 67-69 is the
  empty-list branch.
- Reconcile: for an unlabelled CSR the source fetches a ManagedCluster with the empty
  name. Whether that submits anything depends on the store's answer for that name.
  The model leaves that answer open rather than assuming the API server rejects it.
