/** The part of the Kubernetes object model the operator relies on: identities, labels,
    annotations and what the API server keeps beside an object. */
module Objects {

  datatype Option<+T> = None | Some(value: T)

  datatype ApiError = NotFound | AlreadyExists | Conflict | NoMatch | Unavailable

  datatype Result<+T> = Ok(value: T) | Err(error: ApiError)

  datatype Gvk = Gvk(group: string, version: string, kind: string)

  datatype NsName = NsName(namespace: string, name: string)

  datatype Key = Key(gvk: Gvk, nn: NsName)

  /** An annotation's value: a timestamp in RFC 3339 form is represented by the instant it
      denotes, in nanoseconds, and every other text by itself. */
  datatype Annotation = Text(raw: string) | Instant(nanos: int)

  type Labels = map<string, string>

  /** What a manifest or an update carries. `nodeSelector` is the pod template's, `body` stands for
      the rest of the specification, the two secret lists only occur on ServiceAccounts. */
  datatype Object = Object(
    labels: Labels,
    annotations: map<string, Annotation>,
    owner: Option<string>,
    nodeSelector: Labels,
    secrets: Option<seq<string>>,
    imagePullSecrets: Option<seq<string>>,
    body: string)

  datatype Rendered = Rendered(key: Key, obj: Object)

  /** How many nodes a DaemonSet's pods should, do and in their newest form run on. */
  datatype DsStatus = DsStatus(desired: int, available: int, updated: int)

  const NO_STATUS := DsStatus(0, 0, 0)

  /** An object with the server's bookkeeping; every accepted write increments `version`. */
  datatype Stored = Stored(obj: Object, version: nat, terminating: bool, status: DsStatus)

  type Store = map<Key, Stored>

  const STATE_LABEL := "nvidia.network-operator.state"
  const DS_OWNER_LABEL := "ds-owner"
  const REVISION_ANNOTATION := "nvidia.network-operator.revision"
  const STALE_SINCE_ANNOTATION := "network.nvidia.com/stale-since"

  const DAEMON_SET := Gvk("apps", "v1", "DaemonSet")
  const SERVICE_ACCOUNT := Gvk("", "v1", "ServiceAccount")

  /** The kinds the stale cleanup looks at. */
  const SUPPORTED_GVKS: seq<Gvk> := [
    SERVICE_ACCOUNT,
    Gvk("", "v1", "ConfigMap"),
    DAEMON_SET,
    Gvk("apps", "v1", "Deployment"),
    Gvk("", "v1", "Service"),
    Gvk("apiextensions.k8s.io", "v1", "CustomResourceDefinition"),
    Gvk("rbac.authorization.k8s.io", "v1", "ClusterRole"),
    Gvk("rbac.authorization.k8s.io", "v1", "ClusterRoleBinding"),
    Gvk("rbac.authorization.k8s.io", "v1", "Role"),
    Gvk("rbac.authorization.k8s.io", "v1", "RoleBinding"),
    Gvk("admissionregistration.k8s.io", "v1", "ValidatingWebhookConfiguration"),
    Gvk("k8s.cni.cncf.io", "v1", "NetworkAttachmentDefinition"),
    Gvk("batch", "v1", "CronJob"),
    Gvk("cert-manager.io", "v1", "Issuer"),
    Gvk("cert-manager.io", "v1", "Certificate"),
    Gvk("", "v1", "PersistentVolumeClaim")]

  /** Equality-based label selection, as `client.MatchingLabels` does it. */
  predicate Matches(labels: Labels, selector: Labels) {
    forall k :: k in selector ==> k in labels && labels[k] == selector[k]
  }

  function Written(s: Stored, o: Object): Stored {
    s.(obj := o, version := s.version + 1)
  }

  datatype SyncState = Ready | NotReady | Ignore | Reset | Error

  predicate DistinctKeys(rs: seq<Rendered>) {
    forall i, j :: 0 <= i < j < |rs| ==> rs[i].key != rs[j].key
  }

  function KeysOf(rs: seq<Rendered>): set<Key> {
    set i | 0 <= i < |rs| :: rs[i].key
  }
}
