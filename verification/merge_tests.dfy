/** The scenarios of the package's unit tests, restated as lemmas about
    concrete records. */
module MergeTests {
  import opened Collections
  import opened Lex
  import opened CoreV1
  import opened MergeStrings
  import MergeRecords
  import opened MergePorts

  /** "Does not include duplicate entries" */
  lemma StringSlicesDropsDuplicates()
    ensures StringSlices(["a", "b", "c"], ["a", "c"]) == ["a", "b", "c"]
  {
    StringSlicesIsSortedUnion(["a", "b", "c"], ["a", "c"], ["a", "b", "c"]);
  }

  /** "Adds elements from override" */
  lemma StringSlicesAddsOverride()
    ensures StringSlices(["a", "b", "c"], ["a", "b", "c", "d", "e"]) == ["a", "b", "c", "d", "e"]
  {
    StringSlicesIsSortedUnion(["a", "b", "c"], ["a", "b", "c", "d", "e"], ["a", "b", "c", "d", "e"]);
  }

  /** "Doesn't panic with nil input": two nil lists give the empty list. */
  lemma StringSlicesNilInputs()
    ensures StringSlices([], []) == []
  {
    StringSlicesIsSortedUnion([], [], []);
  }

  const DefaultContainer := Container(
    "default-container", ["a", "b", "c"], "default-image", PullAlways, "default-work-dir", ["arg0", "arg1"])

  const OverrideContainer := Container(
    "override-container", ["d", "f", "e"], "override-image", PullPolicyUnset, "override-work-dir", ["arg3", "arg2"])

  /** "Override Fields": set scalars win, the unset pull policy falls back,
      and both lists come out as the sorted union. */
  lemma ContainerOverrideFields()
    ensures MergeRecords.Container(DefaultContainer, OverrideContainer).name == "override-container"
    ensures MergeRecords.Container(DefaultContainer, OverrideContainer).command == ["a", "b", "c", "d", "e", "f"]
    ensures MergeRecords.Container(DefaultContainer, OverrideContainer).image == "override-image"
    ensures MergeRecords.Container(DefaultContainer, OverrideContainer).imagePullPolicy == PullAlways
    ensures MergeRecords.Container(DefaultContainer, OverrideContainer).workingDir == "override-work-dir"
    ensures MergeRecords.Container(DefaultContainer, OverrideContainer).args == ["arg0", "arg1", "arg2", "arg3"]
  {
    MergeRecords.ContainerUsesStringSlices(DefaultContainer, OverrideContainer);
    var command := ["a", "b", "c", "d", "e", "f"];
    SortedFromNeighbours(command);
    StringSlicesIsSortedUnion(["a", "b", "c"], ["d", "f", "e"], command);
    var args := ["arg0", "arg1", "arg2", "arg3"];
    SortedFromNeighbours(args);
    StringSlicesIsSortedUnion(["arg0", "arg1"], ["arg3", "arg2"], args);
  }

  /** "No Override Fields": an empty override container gives back the default. */
  lemma ContainerNoOverrideFields()
    ensures MergeRecords.Container(DefaultContainer, EmptyContainer) == DefaultContainer
  {
    MergeRecords.ContainerEmptyOverride(DefaultContainer);
    assert StrictlySorted(DefaultContainer.command);
    assert StrictlySorted(DefaultContainer.args);
  }

  const OriginalPort := ContainerPort("original-port", 10, 10, ProtocolTCP, "4.3.2.1")

  /** "Override Fields" for one port: the fields the test checks are the override's. */
  lemma ContainerPortsOverrideFields()
    ensures var override := ContainerPort("override-port", 1, 5, ProtocolUDP, "1.2.3.4");
            var merged := MergeRecords.ContainerPorts(OriginalPort, override);
            && merged.name == override.name
            && merged.hostPort == override.hostPort
            && merged.containerPort == override.containerPort
            && merged.hostIP == override.hostIP
  {
  }

  /** "No Override Fields" for one port. */
  lemma ContainerPortsNoOverrideFields()
    ensures MergeRecords.ContainerPorts(OriginalPort, EmptyContainerPort) == OriginalPort
  {
  }

  const OriginalMount := VolumeMount(
    "override-name", true, "override-mount-path", "override-sub-path",
    Some(MountPropagationHostToContainer), "override-sub-path-expr")

  /** "With Override": the override's propagation replaces the original's,
      every other checked field is the override's. */
  lemma VolumeMountWithOverride()
    ensures var override := OriginalMount.(mountPropagation := Some(MountPropagationBidirectional));
            MergeRecords.VolumeMount(OriginalMount, override) == override
  {
  }

  /** "No Override": an empty mount leaves the original mount unchanged,
      `ReadOnly` included. */
  lemma VolumeMountNoOverride()
    ensures MergeRecords.VolumeMount(OriginalMount, EmptyVolumeMount) == OriginalMount
  {
  }

  const OriginalPorts := [
    ContainerPort("original-port-0", 10, 10, ProtocolTCP, "1.2.3.4"),
    ContainerPort("original-port-1", 20, 20, ProtocolTCP, "1.2.3.5"),
    ContainerPort("original-port-2", 30, 30, ProtocolTCP, "1.2.3.6")]

  const OverridePorts := [
    ContainerPort("original-port-0", 50, 50, ProtocolTCP, "1.2.3.10"),
    ContainerPort("original-port-1", 60, 60, ProtocolTCP, "1.2.3.50"),
    ContainerPort("original-port-3", 40, 40, ProtocolTCP, "1.2.3.6")]

  /** The name facts of the by-name scenario: the override names are
      keys, `original-port-2` is default-only, `original-port-3` is
      override-only. */
  lemma PortSlicesByNameScenarioNames()
    ensures UniqueNames(OverridePorts)
    ensures OriginalPorts[2].name !in Names(OverridePorts)
    ensures OverrideOnly(Names(OriginalPorts), OverridePorts) == [OverridePorts[2]]
  {
    var names, overrideNames := Names(OriginalPorts), Names(OverridePorts);
    assert overrideNames == ["original-port-0", "original-port-1", "original-port-3"];
    assert names == ["original-port-0", "original-port-1", "original-port-2"];
    assert OverrideOnly(names, OverridePorts[2..]) == [OverridePorts[2]];
    assert OverrideOnly(names, OverridePorts[1..]) == [OverridePorts[2]];
  }

  /** The by-name scenario: four distinct names give four ports, the two
      shared ones overridden in place, the default-only one unchanged and
      the override-only one appended. */
  lemma PortSlicesByNameScenario()
    ensures |ContainerPortSlicesByName(OriginalPorts, OverridePorts)| == 4
    ensures ContainerPortSlicesByName(OriginalPorts, OverridePorts)[0]
            == ContainerPort("original-port-0", 50, 50, ProtocolTCP, "1.2.3.10")
    ensures ContainerPortSlicesByName(OriginalPorts, OverridePorts)[1]
            == ContainerPort("original-port-1", 60, 60, ProtocolTCP, "1.2.3.50")
    ensures ContainerPortSlicesByName(OriginalPorts, OverridePorts)[2]
            == ContainerPort("original-port-2", 30, 30, ProtocolTCP, "1.2.3.6")
    ensures ContainerPortSlicesByName(OriginalPorts, OverridePorts)[3]
            == ContainerPort("original-port-3", 40, 40, ProtocolTCP, "1.2.3.6")
  {
    var original, override := OriginalPorts, OverridePorts;
    var r := ContainerPortSlicesByName(original, override);
    PortSlicesByNameScenarioNames();
    ContainerPortSlicesByNameShared(original, override, 0, 0);
    ContainerPortSlicesByNameShared(original, override, 1, 1);
    assert r[3..] == [override[2]];
    assert |r| == 4 && r[3] == override[2];
    assert r[0] == ContainerPort("original-port-0", 50, 50, ProtocolTCP, "1.2.3.10");
    assert r[1] == ContainerPort("original-port-1", 60, 60, ProtocolTCP, "1.2.3.50");
    ContainerPortSlicesByNameInPlace(original, override, 2);
    assert r[2] == original[2];
  }
}
