# Structural merge of Kubernetes container records

This project models the `merge` package of the MongoDB Kubernetes operator
(`pkg/util/merge`). The package combines a "default" Kubernetes object, which
the operator computes, with an "override" object, which the user supplies:

- `StringSlices(original, override)` is the union of two string lists. Each
  distinct value appears once. The model puts the whole result in ascending Go
  string order (see below for why, and for what this choice costs).
- `ContainerPorts`, `VolumeMount` and `Container` merge records field by
  field. An override field wins when it is set, that is, when it is not its
  type's zero value (`""`, `0`, `false`, a nil pointer, an empty enum).
  Otherwise the default's field is kept. `Container` merges its `Command` and
  `Args` lists with `StringSlices`.
- `ContainerPortSlicesByName(original, override)` merges two port lists by
  `Name`. Default ports keep their positions. A default whose name appears in
  the override list is merged with that override port by `ContainerPorts`.
  Override ports with a name no default has are appended, in override order
  and unchanged.

The package's implementation file is not part of this model. The behaviour is
taken from the package's unit tests, `pkg/util/merge/merge_test.go`, and every
test scenario is restated as a lemma in `merge_tests.dfy`.

Files and modules:

| file | module | contents |
|---|---|---|
| `collections.dfy` | `Collections` | `Option` (a Go pointer), element sets, duplicate freedom, subsequences |
| `lex.dfy` | `Lex` | Go's string order as a lexicographic order on `char`s, and its order laws; strictly sorted lists |
| `corev1.dfy` | `CoreV1` | the fields of `Container`, `ContainerPort` and `VolumeMount` that the merge touches, and their empty values |
| `string_slices.dfy` | `MergeStrings` | `StringSlices` |
| `records.dfy` | `MergeRecords` | the field rule and the three record merges |
| `port_slices.dfy` | `MergePorts` | `ContainerPortSlicesByName` |
| `merge_tests.dfy` | `MergeTests` | the unit-test scenarios |

The model sorts the whole string union. The test at `merge_test.go:78` merges
`["a","b","c"]` with `["d","f","e"]` and expects `["a","b","c","d","e","f"]`.
The test at `:82` merges `["arg0","arg1"]` with `["arg3","arg2"]` and expects
`["arg0","arg1","arg2","arg3"]`. A union that keeps the defaults first and then
appends override values in their own order would fail both tests. The tests
do not force a full sort, though. Keeping the defaults in their own order and
sorting only the appended override values meets every string-list expectation
in the file too. The full sort is the model's choice, as the simplest reading
of the data; "## Left out" records what it costs.

Go compares strings byte by byte in UTF-8. UTF-8 preserves code-point order,
so on valid UTF-8 this is the same as the lexicographic order on Dafny's
Unicode `char`s that `Lex.Less` defines. Dafny's built-in `<` on sequences
means "proper prefix" and is not used.

Because the model's union sorts, merging a container with itself is not the
identity in general. `MergeRecords.SelfMerge` proves that
`Container(c, c) == c` holds exactly when `c`'s `Command` and `Args` are already strictly sorted. Ports and
mounts merged with themselves always come back unchanged.

## Model

| member | source | states |
|---|---|---|
| `MergeStrings.StringSlices` | pkg/util/merge/merge_test.go:12-54 | the result is strictly increasing in Go string order and holds a value exactly when one of the inputs does |
| `MergeStrings.StringSlicesIsSortedUnion` | pkg/util/merge/merge_test.go:76-82 | every strictly sorted list holding exactly the values of both inputs equals the result, so the result is the sorted, duplicate-free union |
| `MergeStrings.StringSlicesDistinct` | pkg/util/merge/merge_test.go:22-29 | no value appears twice in the merged list |
| `MergeStrings.StringSlicesLength` | pkg/util/merge/merge_test.go:22-37 | the merged list is as long as the number of distinct values across both inputs |
| `MergeStrings.StringSlicesCommutative` | pkg/util/merge/merge_test.go:12-54 | swapping which list is the default does not change the result |
| `MergeStrings.StringSlicesFixpoint` | pkg/util/merge/merge_test.go:85-93 | merging a list with nothing, or with itself, returns it unchanged exactly when it is already strictly sorted |
| `MergeStrings.StringSlicesOverrideIdempotent` | pkg/util/merge/merge_test.go:12-54 | merging the same override a second time changes nothing |
| `MergeStrings.StringSlicesAssociative` | pkg/util/merge/merge_test.go:12-54 | merging three lists gives the same result however the merges are grouped |
| `Lex.LessIsLessAt` | pkg/util/merge/merge_test.go:78 | the recursive string order agrees with the textbook lexicographic definition: a common prefix followed by the end of the first string or by a smaller character |
| `Lex.SortedUnique` | pkg/util/merge/merge_test.go:78-82 | two strictly sorted lists with the same values are the same list, so the expected test outputs are determined by their value sets |
| `MergeRecords.Field` | pkg/util/merge/merge_test.go:96-131 | the zero-as-unset field rule: an override different from the type's zero value is the result, and an override equal to it yields the default |
| `MergeRecords.ContainerPorts` | pkg/util/merge/merge_test.go:96-131 | for each of `Name`, `HostPort`, `ContainerPort`, `Protocol` and `HostIP`, a set override field is taken and an unset one keeps the original's value |
| `MergeRecords.VolumeMount` | pkg/util/merge/merge_test.go:133-174 | set override strings and a set `MountPropagation` pointer are taken and unset ones keep the original's; `ReadOnly` is true when either side's is |
| `MergeRecords.Container` | pkg/util/merge/merge_test.go:56-94 | set override `Name`, `Image`, `ImagePullPolicy` and `WorkingDir` win and unset ones fall back; `Command` and `Args` come out strictly sorted and hold exactly the values of both sides |
| `MergeRecords.ContainerUsesStringSlices` | pkg/util/merge/merge_test.go:76-82 | the merged `Command` and `Args` are exactly `StringSlices` of the two sides' lists |
| `MergeRecords.ContainerPortsEmptyOverride` | pkg/util/merge/merge_test.go:123-130 | merging an empty override port returns the original port |
| `MergeRecords.VolumeMountEmptyOverride` | pkg/util/merge/merge_test.go:165-173 | merging an empty override mount returns the original mount, `ReadOnly` and `MountPropagation` included |
| `MergeRecords.ContainerEmptyOverride` | pkg/util/merge/merge_test.go:85-93 | an empty override container keeps the default's scalar fields; each list comes back unchanged exactly when it is already strictly sorted |
| `MergeRecords.SelfMerge` | pkg/util/merge/merge_test.go:56-174 | a port or mount merged with itself is unchanged; a container is unchanged exactly when its `Command` and `Args` are strictly sorted |
| `MergeRecords.OverrideIdempotent` | pkg/util/merge/merge_test.go:56-174 | applying the same override twice to a port, a mount or a container gives the same result as applying it once |
| `MergePorts.Find` | pkg/util/merge/merge_test.go:230-243 | the lookup finds nothing exactly when no port has the name; otherwise it returns the first port with that name |
| `MergePorts.MergeOne` | pkg/util/merge/merge_test.go:230-250 | one default port keeps its name; it comes back unchanged when no override port has that name, and otherwise it is `ContainerPorts` of the default and the first override port with that name |
| `MergePorts.OverrideOnly` | pkg/util/merge/merge_test.go:251-256 | the override-only ports are a subsequence of the override list, made of exactly its ports whose name is not excluded |
| `MergePorts.ContainerPortSlicesByName` | pkg/util/merge/merge_test.go:226-257 | the result is at least as long as the defaults; each default position keeps its name; a port occurs after the defaults exactly when it is in the override list and no default has its name (membership; the multiplicity is in `ContainerPortSlicesByNameTail`) |
| `MergePorts.ContainerPortSlicesByNameInPlace` | pkg/util/merge/merge_test.go:230-250 | at a default position, a name the override list lacks leaves the port unchanged; otherwise the port is `ContainerPorts` of the default and the first override port of that name |
| `MergePorts.OverrideOnlyCount` | pkg/util/merge/merge_test.go:251-256 | a port occurs among the override-only ports as often as in the override list when its name is not excluded, and not at all otherwise |
| `MergePorts.ContainerPortSlicesByNameTail` | pkg/util/merge/merge_test.go:251-256 | each port occurs after the defaults as often as in the override list when no default has its name, and not at all otherwise |
| `MergePorts.ContainerPortSlicesByNameAppended` | pkg/util/merge/merge_test.go:251-256 | the appended override-only ports keep the override list's order |
| `MergePorts.ContainerPortSlicesByNameShared` | pkg/util/merge/merge_test.go:230-243 | with key-unique override ports, a shared name at default position `i` takes `ContainerPorts(original[i], override[j])` for the override port `j` of that name |
| `MergePorts.ContainerPortSlicesByNameUnique` | pkg/util/merge/merge_test.go:226-228 | key-unique inputs give a key-unique result |
| `MergePorts.ContainerPortSlicesByNameNames` | pkg/util/merge/merge_test.go:226-257 | the set of names in the result is the union of the two inputs' name sets |
| `MergePorts.ContainerPortSlicesByNameLength` | pkg/util/merge/merge_test.go:228 | with key-unique inputs, the result length is the number of distinct names across both lists |
| `MergePorts.ContainerPortSlicesByNameEmpty` | pkg/util/merge/merge_test.go:176-226 | with no override ports the defaults come back unchanged; with no defaults the override ports come back unchanged |
| `MergePorts.ContainerPortSlicesByNameSelf` | pkg/util/merge/merge_test.go:176-226 | a key-unique port list merged with itself comes back unchanged |
| `MergeTests.StringSlicesDropsDuplicates` | pkg/util/merge/merge_test.go:22-29 | `["a","b","c"]` merged with `["a","c"]` is `["a","b","c"]` |
| `MergeTests.StringSlicesAddsOverride` | pkg/util/merge/merge_test.go:30-37 | `["a","b","c"]` merged with `["a","b","c","d","e"]` is `["a","b","c","d","e"]` |
| `MergeTests.StringSlicesNilInputs` | pkg/util/merge/merge_test.go:38-45 | two nil lists merge to the empty list |
| `MergeTests.ContainerOverrideFields` | pkg/util/merge/merge_test.go:68-83 | the override's name, image and working directory are used; the unset pull policy falls back to `Always`; the command and args are the sorted unions `a…f` and `arg0…arg3` |
| `MergeTests.ContainerNoOverrideFields` | pkg/util/merge/merge_test.go:85-93 | the test's default container merged with an empty container is the default container |
| `MergeTests.ContainerPortsOverrideFields` | pkg/util/merge/merge_test.go:105-121 | the override's name, host port, container port and host IP are used |
| `MergeTests.ContainerPortsNoOverrideFields` | pkg/util/merge/merge_test.go:123-130 | the test's port merged with an empty port is unchanged |
| `MergeTests.VolumeMountWithOverride` | pkg/util/merge/merge_test.go:145-163 | the override's `Bidirectional` propagation replaces `HostToContainer`, and the other checked fields are the override's |
| `MergeTests.VolumeMountNoOverride` | pkg/util/merge/merge_test.go:165-173 | the test's mount merged with an empty mount is unchanged, `ReadOnly` true included |
| `MergeTests.PortSlicesByNameScenarioNames` | pkg/util/merge/merge_test.go:178-224 | in the test's lists the override names are unique, `original-port-2` is default-only and `original-port-3` is the only override-only port |
| `MergeTests.PortSlicesByNameScenario` | pkg/util/merge/merge_test.go:226-257 | the merge has 4 ports: `port-0` and `port-1` with the override's ports and IPs, `port-2` unchanged, `port-3` appended verbatim |

## Left out

- The implementation file of the package (`merge.go`) is not part of this model. The behaviour is reconstructed from its tests.
- The `container` builder package (`container.New`, `WithName`, …) is construction plumbing. The test records are written directly as Dafny values.
- The full `corev1` schemas. Only the fields the tests touch are modelled. `Container` has `Name`, `Command`, `Image`, `ImagePullPolicy`, `WorkingDir` and `Args`. `ContainerPort` has `Name`, `HostPort`, `ContainerPort`, `Protocol` and `HostIP`. `VolumeMount` has `Name`, `ReadOnly`, `MountPath`, `SubPath`, `MountPropagation` and `SubPathExpr`.
- The `int32` width of ports. Ports are unbounded `int`s, and 0 means unset. A user cannot set a port to 0 on purpose, which is the zero-as-unset behaviour itself.
- Pointer identity. `MountPropagation` is an `Option` compared by value, and aliasing is ignored.
- Go's distinction between a nil slice and an empty slice. Dafny sequences have no nil, so "nil input gives a non-nil empty result" reduces to "empty input gives the empty sequence".
- MergeStrings.StringSlices: the tests are equally consistent with keeping the defaults' order and sorting only the appended override values. The model sorts the whole union instead. So an unsorted `Command` or `Args` merged with an empty override comes back reordered (`MergeRecords.ContainerEmptyOverride` proves exactly when). This contradicts the messages at `merge_test.go:88` and `:92`, which say the original list should be used.
- MergeRecords.ContainerPorts: the `Protocol` field follows the same field rule as the others, but the tests never check an overridden protocol, so this clause goes beyond what the tests pin down.
- MergeRecords.VolumeMount: `ReadOnly` follows the zero-as-unset rule, so the result is the OR of both sides. The tests only show the both-true and true/unset cases.
- MergePorts.ContainerPortSlicesByName: the tests do not pin down duplicate names within one list. The model merges a default with the first override port of its name, and appends each override-only port, so duplicates among them are all kept. The count, uniqueness and self-merge lemmas therefore require key-unique inputs.
- MergePorts.ContainerPortSlicesByName: the four-port test is also consistent with a result sorted by name. The model keeps default positions and appends override-only ports; `merge_test.go:226-257` is consistent with this and with a sort by name.
- Strings that are not valid UTF-8. Go strings may hold arbitrary bytes, but the model's strings are sequences of Unicode scalar values, so `Lex.Less` matches Go's byte-wise order only on valid UTF-8.
- `reflect.DeepEqual`, testify assertions and the `testing` harness. Each test case becomes a lemma about concrete values.
