/** `merge.ContainerPortSlicesByName`: two port lists merged by `Name`.
    Every original port keeps its position; when the override list has a
    port of the same name the two are merged with `ContainerPorts`. Ports
    whose name only the override list has follow, in override order and
    unchanged. */
module MergePorts {
  import opened Collections
  import opened CoreV1
  import opened MergeRecords

  /** The names of a port list, position by position. */
  function Names(ports: seq<ContainerPort>): (r: seq<string>)
    ensures |r| == |ports|
    ensures forall i :: 0 <= i < |ports| ==> r[i] == ports[i].name
  {
    seq(|ports|, i requires 0 <= i < |ports| => ports[i].name)
  }

  /** Names are keys: no two ports of the list share one. */
  predicate UniqueNames(ports: seq<ContainerPort>) {
    Distinct(Names(ports))
  }

  /** The first port called `name`, if any. */
  function Find(ports: seq<ContainerPort>, name: string): (r: Option<ContainerPort>)
    ensures r.None? <==> name !in Names(ports)
    ensures r.Some? ==> r.value.name == name
    ensures forall j :: 0 <= j < |ports| && ports[j].name == name
                        && (forall k :: 0 <= k < j ==> ports[k].name != name)
                        ==> r == Some(ports[j])
    decreases |ports|
  {
    if |ports| == 0 then None
    else if ports[0].name == name then Some(ports[0])
    else
      var r := Find(ports[1..], name);
      assert Names(ports) == [ports[0].name] + Names(ports[1..]);
      assert forall j :: 0 < j < |ports| ==> ports[1..][j - 1] == ports[j];
      r
  }

  /** One original port against the whole override list. */
  function MergeOne(port: ContainerPort, override: seq<ContainerPort>): (r: ContainerPort)
    ensures r.name == port.name
    ensures port.name !in Names(override) ==> r == port
    ensures forall j :: 0 <= j < |override| && override[j].name == port.name
                        && (forall k :: 0 <= k < j ==> override[k].name != port.name)
                        ==> r == ContainerPorts(port, override[j])
  {
    match Find(override, port.name)
    case None => port
    case Some(o) =>
      var r := ContainerPorts(port, o);
      assert r.name == port.name by {
        assert o.name == port.name;
      }
      r
  }

  /** The override ports whose name is not among `names`, in order. */
  function OverrideOnly(names: seq<string>, override: seq<ContainerPort>): (r: seq<ContainerPort>)
    ensures IsSubsequence(r, override)
    ensures forall p :: p in r <==> p in override && p.name !in names
    decreases |override|
  {
    if |override| == 0 then []
    else
      var rest := OverrideOnly(names, override[1..]);
      assert forall p :: p in override <==> p == override[0] || p in override[1..];
      if override[0].name in names then rest
      else [override[0]] + rest
  }

  function ContainerPortSlicesByName(original: seq<ContainerPort>, override: seq<ContainerPort>)
    : (r: seq<ContainerPort>)
    // default positions are kept and names never change there
    ensures |r| >= |original|
    ensures forall i :: 0 <= i < |original| ==> r[i].name == original[i].name
    // after them come exactly the override ports whose name no default has
    ensures forall p :: p in r[|original|..] <==> p in override && p.name !in Names(original)
  {
    var inPlace := seq(|original|, i requires 0 <= i < |original| => MergeOne(original[i], override));
    var tail := OverrideOnly(Names(original), override);
    var r := inPlace + tail;
    assert r[|original|..] == tail;
    r
  }

  /** At a default position: a name the override list lacks leaves the
      default port unchanged; otherwise the port is merged with the first
      override port of that name. */
  lemma ContainerPortSlicesByNameInPlace(original: seq<ContainerPort>, override: seq<ContainerPort>, i: nat)
    requires i < |original|
    ensures original[i].name !in Names(override) ==> ContainerPortSlicesByName(original, override)[i] == original[i]
    ensures forall j :: 0 <= j < |override| && override[j].name == original[i].name
                        && (forall k :: 0 <= k < j ==> override[k].name != override[j].name)
                        ==> ContainerPortSlicesByName(original, override)[i] == ContainerPorts(original[i], override[j])
  {
  }

  /** The appended ports keep the override list's order: they form a
      subsequence of it. */
  lemma ContainerPortSlicesByNameAppended(original: seq<ContainerPort>, override: seq<ContainerPort>)
    ensures IsSubsequence(ContainerPortSlicesByName(original, override)[|original|..], override)
  {
  }

  /** The override-only tail keeps the override list's unique names. */
  lemma {:induction false} OverrideOnlyUnique(names: seq<string>, override: seq<ContainerPort>)
    requires UniqueNames(override)
    ensures UniqueNames(OverrideOnly(names, override))
    decreases |override|
  {
    if |override| > 0 {
      var tail := override[1..];
      assert UniqueNames(tail) by {
        forall i, j | 0 <= i < j < |tail| ensures Names(tail)[i] != Names(tail)[j] {
          assert Names(override)[i + 1] != Names(override)[j + 1];
        }
      }
      OverrideOnlyUnique(names, tail);
      var rest := OverrideOnly(names, tail);
      if override[0].name !in names {
        var r := [override[0]] + rest;
        forall i, j | 0 <= i < j < |r| ensures Names(r)[i] != Names(r)[j] {
          if i == 0 {
            assert r[j] in rest;
            assert r[j] in tail;
            var k :| 0 <= k < |tail| && tail[k] == r[j];
            assert Names(override)[0] != Names(override)[k + 1];
          } else {
            assert Names(rest)[i - 1] != Names(rest)[j - 1];
          }
        }
      }
    }
  }

  /** The override-only ports keep their multiplicity: each port whose
      name is not excluded occurs as often as in the override list, every
      other port not at all. */
  lemma {:induction false} OverrideOnlyCount(names: seq<string>, override: seq<ContainerPort>, p: ContainerPort)
    ensures multiset(OverrideOnly(names, override))[p]
            == if p.name in names then 0 else multiset(override)[p]
    decreases |override|
  {
    if |override| > 0 {
      OverrideOnlyCount(names, override[1..], p);
      assert override == [override[0]] + override[1..];
    }
  }

  /** The ports after the defaults are the override-only ports, each as
      often as the override list holds it. */
  lemma ContainerPortSlicesByNameTail(original: seq<ContainerPort>, override: seq<ContainerPort>, p: ContainerPort)
    ensures multiset(ContainerPortSlicesByName(original, override)[|original|..])[p]
            == if p.name in Names(original) then 0 else multiset(override)[p]
  {
    OverrideOnlyCount(Names(original), override, p);
  }

  /** Merging two lists with unique names gives a list with unique names. */
  lemma ContainerPortSlicesByNameUnique(original: seq<ContainerPort>, override: seq<ContainerPort>)
    requires UniqueNames(original) && UniqueNames(override)
    ensures UniqueNames(ContainerPortSlicesByName(original, override))
  {
    var r := ContainerPortSlicesByName(original, override);
    var n := |original|;
    var tail := r[n..];
    assert tail == OverrideOnly(Names(original), override);
    OverrideOnlyUnique(Names(original), override);
    forall i, j | 0 <= i < j < |r| ensures Names(r)[i] != Names(r)[j] {
      if j < n {
        assert Names(original)[i] != Names(original)[j];
      } else if i < n {
        assert r[j] == tail[j - n];
        assert r[j] in tail;
        assert Names(original)[i] == r[i].name;
      } else {
        assert r[i] == tail[i - n] && r[j] == tail[j - n];
        assert Names(tail)[i - n] != Names(tail)[j - n];
      }
    }
  }

  /** The merged list holds exactly the names of both inputs. */
  lemma ContainerPortSlicesByNameNames(original: seq<ContainerPort>, override: seq<ContainerPort>)
    ensures Elems(Names(ContainerPortSlicesByName(original, override)))
            == Elems(Names(original)) + Elems(Names(override))
  {
  }

  /** With key-unique inputs there is one merged port per distinct name
      across the two lists. */
  lemma ContainerPortSlicesByNameLength(original: seq<ContainerPort>, override: seq<ContainerPort>)
    requires UniqueNames(original) && UniqueNames(override)
    ensures |ContainerPortSlicesByName(original, override)|
            == |Elems(Names(original)) + Elems(Names(override))|
  {
    var r := ContainerPortSlicesByName(original, override);
    ContainerPortSlicesByNameUnique(original, override);
    ContainerPortSlicesByNameNames(original, override);
    DistinctCardinality(Names(r));
  }

  /** With key-unique override ports, a shared name takes the override's
      set fields, whichever override position carries it. */
  lemma ContainerPortSlicesByNameShared(original: seq<ContainerPort>, override: seq<ContainerPort>, i: nat, j: nat)
    requires UniqueNames(override)
    requires i < |original| && j < |override|
    requires override[j].name == original[i].name
    ensures ContainerPortSlicesByName(original, override)[i] == ContainerPorts(original[i], override[j])
  {
  }

  /** An empty side: no overrides leave the defaults as they are; no
      defaults give the overrides as they are. */
  lemma ContainerPortSlicesByNameEmpty(ports: seq<ContainerPort>)
    ensures ContainerPortSlicesByName(ports, []) == ports
    ensures ContainerPortSlicesByName([], ports) == ports
  {
    OverrideOnlyAll(ports);
  }

  /** With no names to exclude every override port is kept. */
  lemma {:induction false} OverrideOnlyAll(override: seq<ContainerPort>)
    ensures OverrideOnly([], override) == override
    decreases |override|
  {
    if |override| > 0 {
      OverrideOnlyAll(override[1..]);
      assert override == [override[0]] + override[1..];
    }
  }

  /** A key-unique list merged with itself comes back unchanged. */
  lemma ContainerPortSlicesByNameSelf(ports: seq<ContainerPort>)
    requires UniqueNames(ports)
    ensures ContainerPortSlicesByName(ports, ports) == ports
  {
    var r := ContainerPortSlicesByName(ports, ports);
    forall i | 0 <= i < |ports| ensures r[i] == ports[i] {
      ContainerPortSlicesByNameShared(ports, ports, i, i);
      SelfMerge(ports[i], EmptyVolumeMount, EmptyContainer);
    }
    var tail := r[|ports|..];
    forall p | p in ports ensures p.name in Names(ports) {
      var k :| 0 <= k < |ports| && ports[k] == p;
      assert Names(ports)[k] == p.name;
    }
    assert r == r[..|ports|] + r[|ports|..];
  }
}
