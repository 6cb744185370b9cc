/** The parts of the Kubernetes core/v1 records that the merge package
    touches. Every field is a value; the Go zero value of each field
    ("" for strings, 0 for ports, false for booleans, nil for pointers,
    the empty string for string-backed enums) is written out explicitly,
    because the merge reads a zero field as "not set". */
module CoreV1 {
  import opened Collections

  /** corev1.PullPolicy, a string type in Go; `PullPolicyUnset` is "". */
  datatype PullPolicy = PullPolicyUnset | PullAlways | PullNever | PullIfNotPresent

  /** corev1.Protocol, a string type in Go; `ProtocolUnset` is "". */
  datatype Protocol = ProtocolUnset | ProtocolTCP | ProtocolUDP | ProtocolSCTP

  /** corev1.MountPropagationMode; only ever reached through a pointer. */
  datatype MountPropagationMode =
    | MountPropagationNone
    | MountPropagationHostToContainer
    | MountPropagationBidirectional

  datatype Container = Container(
    name: string,
    command: seq<string>,
    image: string,
    imagePullPolicy: PullPolicy,
    workingDir: string,
    args: seq<string>
  )

  datatype ContainerPort = ContainerPort(
    name: string,
    hostPort: int,
    containerPort: int,
    protocol: Protocol,
    hostIP: string
  )

  datatype VolumeMount = VolumeMount(
    name: string,
    readOnly: bool,
    mountPath: string,
    subPath: string,
    mountPropagation: Option<MountPropagationMode>,
    subPathExpr: string
  )

  /** `corev1.Container{}` */
  const EmptyContainer := Container("", [], "", PullPolicyUnset, "", [])

  /** `corev1.ContainerPort{}` */
  const EmptyContainerPort := ContainerPort("", 0, 0, ProtocolUnset, "")

  /** `corev1.VolumeMount{}` */
  const EmptyVolumeMount := VolumeMount("", false, "", "", None, "")
}
