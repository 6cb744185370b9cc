/** The field-wise record merges: `merge.ContainerPorts`,
    `merge.VolumeMount` and `merge.Container`. Each field of the override
    wins when it is set, that is, when it is not its type's Go zero value;
    otherwise the default's field is kept. String-list fields are merged
    with `StringSlices` instead. */
module MergeRecords {
  import opened Collections
  import opened Lex
  import opened CoreV1
  import opened MergeStrings

  /** The field rule: a set override wins, an unset one (equal to `zero`)
      falls back to the default. Zero cannot be chosen on purpose: an
      override equal to `zero` always means "not set". */
  function Field<T(==)>(default: T, override: T, zero: T): (r: T)
    ensures override != zero ==> r == override
    ensures override == zero ==> r == default
  {
    if override != zero then override else default
  }

  function ContainerPorts(original: ContainerPort, override: ContainerPort): (r: ContainerPort)
    ensures override.name != "" ==> r.name == override.name
    ensures override.name == "" ==> r.name == original.name
    ensures override.hostPort != 0 ==> r.hostPort == override.hostPort
    ensures override.hostPort == 0 ==> r.hostPort == original.hostPort
    ensures override.containerPort != 0 ==> r.containerPort == override.containerPort
    ensures override.containerPort == 0 ==> r.containerPort == original.containerPort
    ensures override.protocol != ProtocolUnset ==> r.protocol == override.protocol
    ensures override.protocol == ProtocolUnset ==> r.protocol == original.protocol
    ensures override.hostIP != "" ==> r.hostIP == override.hostIP
    ensures override.hostIP == "" ==> r.hostIP == original.hostIP
  {
    original.(
      name := Field(original.name, override.name, ""),
      hostPort := Field(original.hostPort, override.hostPort, 0),
      containerPort := Field(original.containerPort, override.containerPort, 0),
      protocol := Field(original.protocol, override.protocol, ProtocolUnset),
      hostIP := Field(original.hostIP, override.hostIP, ""))
  }

  function VolumeMount(original: VolumeMount, override: VolumeMount): (r: VolumeMount)
    ensures override.name != "" ==> r.name == override.name
    ensures override.name == "" ==> r.name == original.name
    ensures r.readOnly <==> original.readOnly || override.readOnly
    ensures override.mountPath != "" ==> r.mountPath == override.mountPath
    ensures override.mountPath == "" ==> r.mountPath == original.mountPath
    ensures override.subPath != "" ==> r.subPath == override.subPath
    ensures override.subPath == "" ==> r.subPath == original.subPath
    ensures override.mountPropagation.Some? ==> r.mountPropagation == override.mountPropagation
    ensures override.mountPropagation.None? ==> r.mountPropagation == original.mountPropagation
    ensures override.subPathExpr != "" ==> r.subPathExpr == override.subPathExpr
    ensures override.subPathExpr == "" ==> r.subPathExpr == original.subPathExpr
  {
    original.(
      name := Field(original.name, override.name, ""),
      readOnly := Field(original.readOnly, override.readOnly, false),
      mountPath := Field(original.mountPath, override.mountPath, ""),
      subPath := Field(original.subPath, override.subPath, ""),
      mountPropagation := Field(original.mountPropagation, override.mountPropagation, None),
      subPathExpr := Field(original.subPathExpr, override.subPathExpr, ""))
  }

  function Container(default: Container, override: Container): (r: Container)
    ensures override.name != "" ==> r.name == override.name
    ensures override.name == "" ==> r.name == default.name
    ensures override.image != "" ==> r.image == override.image
    ensures override.image == "" ==> r.image == default.image
    ensures override.imagePullPolicy != PullPolicyUnset ==> r.imagePullPolicy == override.imagePullPolicy
    ensures override.imagePullPolicy == PullPolicyUnset ==> r.imagePullPolicy == default.imagePullPolicy
    ensures override.workingDir != "" ==> r.workingDir == override.workingDir
    ensures override.workingDir == "" ==> r.workingDir == default.workingDir
    ensures StrictlySorted(r.command)
    ensures forall y :: y in r.command <==> y in default.command || y in override.command
    ensures StrictlySorted(r.args)
    ensures forall y :: y in r.args <==> y in default.args || y in override.args
  {
    default.(
      name := Field(default.name, override.name, ""),
      command := StringSlices(default.command, override.command),
      image := Field(default.image, override.image, ""),
      imagePullPolicy := Field(default.imagePullPolicy, override.imagePullPolicy, PullPolicyUnset),
      workingDir := Field(default.workingDir, override.workingDir, ""),
      args := StringSlices(default.args, override.args))
  }

  /** `Container` merges `Command` and `Args` with the string union and
      nothing else: its lists are exactly `StringSlices` of the inputs'. */
  lemma ContainerUsesStringSlices(default: Container, override: Container)
    ensures Container(default, override).command == StringSlices(default.command, override.command)
    ensures Container(default, override).args == StringSlices(default.args, override.args)
  {
  }

  /** An empty override port leaves the original port as it is. */
  lemma ContainerPortsEmptyOverride(original: ContainerPort)
    ensures ContainerPorts(original, EmptyContainerPort) == original
  {
  }

  /** An empty override mount leaves the original mount as it is. */
  lemma VolumeMountEmptyOverride(original: VolumeMount)
    ensures VolumeMount(original, EmptyVolumeMount) == original
  {
  }

  /** With an empty override container the scalar fields are the
      default's, and each list is the default's exactly when it is
      already sorted without duplicates (otherwise it comes back
      sorted and deduplicated). */
  lemma ContainerEmptyOverride(default: Container)
    ensures Container(default, EmptyContainer).name == default.name
    ensures Container(default, EmptyContainer).image == default.image
    ensures Container(default, EmptyContainer).imagePullPolicy == default.imagePullPolicy
    ensures Container(default, EmptyContainer).workingDir == default.workingDir
    ensures Container(default, EmptyContainer).command == default.command <==> StrictlySorted(default.command)
    ensures Container(default, EmptyContainer).args == default.args <==> StrictlySorted(default.args)
  {
    ContainerUsesStringSlices(default, EmptyContainer);
    StringSlicesFixpoint(default.command);
    StringSlicesFixpoint(default.args);
  }

  /** Merging a record with itself: ports and mounts come back unchanged;
      a container does exactly when its lists are sorted without duplicates. */
  lemma SelfMerge(p: ContainerPort, v: VolumeMount, c: Container)
    ensures ContainerPorts(p, p) == p
    ensures VolumeMount(v, v) == v
    ensures Container(c, c) == c <==> StrictlySorted(c.command) && StrictlySorted(c.args)
  {
    ContainerUsesStringSlices(c, c);
    StringSlicesFixpoint(c.command);
    StringSlicesFixpoint(c.args);
  }

  /** Applying the same override twice gives what applying it once gives. */
  lemma OverrideIdempotent(p: ContainerPort, po: ContainerPort, v: VolumeMount, vo: VolumeMount,
                           c: Container, co: Container)
    ensures ContainerPorts(ContainerPorts(p, po), po) == ContainerPorts(p, po)
    ensures VolumeMount(VolumeMount(v, vo), vo) == VolumeMount(v, vo)
    ensures Container(Container(c, co), co) == Container(c, co)
  {
    var m := Container(c, co);
    ContainerUsesStringSlices(c, co);
    ContainerUsesStringSlices(m, co);
    StringSlicesOverrideIdempotent(c.command, co.command);
    StringSlicesOverrideIdempotent(c.args, co.args);
  }
}
