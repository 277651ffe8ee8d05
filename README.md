# operator-preflight decision logic in Dafny

This project models three small pieces of the preflight certification tool
and proves properties about them:

- **Bundle metadata rules** (`bundle.dfy`, module `Bundle`):
  - the OpenShift version-label evaluator `isTarget49OrGreater`. It decides
    from the `com.redhat.openshift.versions` annotation whether an operator
    bundle targets OpenShift 4.9 or later;
  - the label cleaning it relies on;
  - the empty-annotations guard;
  - the rule on how many ClusterServiceVersion (CSV) files the bundle may hold;
  - the supported-install-mode filter;
  - the validation options that `Validate` hands to the external bundle
    validator.
- **Policy-to-checklist registry** (`engine.dfy`, module `Engine`):
  - the four policies and their ordered check lists;
  - the projection from checks to check names;
  - the per-policy name lists;
  - the construction of the check engine, including its error path.
- **Report and URL helpers of the command line** (`cmd_utils.dfy`, module
  `Cmd`):
  - the results file name;
  - the PASSED/FAILED text;
  - the Red Hat Connect URLs, whose environment is taken from the Pyxis host.

Supporting modules:

- `wrappers.dfy`: `Option` and `Result`.
- `strings_util.dfy`: Go's `strings.Split` with a one-character separator,
  plus `strings.Join`.
- `semver.dfy`: a simplified `semver.ParseTolerant` and the version order `GE`.

Where the source works by changing state, the model is imperative too:

- `GetSupportedInstallModes` is a method whose loop fills the
  install-mode map.
- `Validate` is a method that reassigns the options' `OptionalValues`.
- `MakeCheckList` fills a freshly allocated array index by index.

`GetSupportedInstallModes` is proved equal to the function
`SupportedModes`, its loop invariant fixing the map built from the prefix
already processed. `Validate` is proved equal to `ValidateOptionsFor`.
`MakeCheckList`'s invariant states each entry filled so far.

Inputs that come from outside the shown code are parameters:

- file contents and open or read failures;
- YAML decoding outcomes;
- glob results;
- the `Name()` of each check kind (a function `name: CheckKind -> string`);
- the configured `pyxis_host` and `certification.DefaultPyxisHost`.

Behaviour of the code worth knowing:

- The `=` branch tests the *raw* label for a leading `=`, before any
  cleaning (bundle.go:60). A label such as `"=4.9"` with a leading quote
  therefore takes the range/bare path.
- In the `=` branch only the text between the first and the second `=` is
  parsed (`strings.Split(...)[1]`, bundle.go:63). Anything after a second
  `=` is dropped.
- In the range branch, `len(versions) > 1` selects segment index 1 whatever
  the number of segments (bundle.go:91-92). In `4.6-4.7-5.0` the deciding
  part is `4.7`.
- In the bare branch, a version that fails `v >= 4.9` is tested again as
  `4.9 >= v` (bundle.go:84, 111). Because the order is total, every
  parseable bare label longer than one character yields true. `BareLabel`
  states this quirk as it is written.

## Model

| member | source | states |
|---|---|---|
| Bundle.CleanRemovesExactly | certification/internal/bundle/bundle.go:120-127 | the cleaned label contains no single quote, double quote or `v`; every other character keeps its number of occurrences |
| Bundle.CleanConcat | certification/internal/bundle/bundle.go:120-127 | cleaning distributes over concatenation, so the kept characters stay in their order |
| Bundle.CleanChar | certification/internal/bundle/bundle.go:123-125 | a single character is dropped exactly when it is a quote or `v`, and kept otherwise |
| Bundle.CleanIdempotent | certification/internal/bundle/bundle.go:120-127 | cleaning twice gives the same text as cleaning once |
| Bundle.CleanOnlyStripped | certification/internal/bundle/bundle.go:123-125 | a text made only of quotes and `v` cleans to the empty string |
| Bundle.Threshold | certification/internal/bundle/bundle.go:18-18 | the threshold parsed from the constant "4.9" is the version 4.9.0 |
| Semver.ParseFourNine | certification/internal/bundle/bundle.go:58-58 | the tolerant parse of "4.9" succeeds, padding the patch with 0 |
| Semver.ParseFormat | certification/internal/bundle/bundle.go:64-64 | the tolerant parser reads back every version written as `X.Y.Z` |
| Semver.ParseMajorMinor | certification/internal/bundle/bundle.go:64-64 | `X.Y` parses to `X.Y.0` |
| Semver.GeTotal | certification/internal/bundle/bundle.go:84-111 | for any two versions, at least one of `a >= b` and `b >= a` holds; this makes the inverted test on line 111 succeed whenever the one on line 84 fails |
| Semver.GeAntisymmetric | certification/internal/bundle/bundle.go:70-70 | `a >= b` and `b >= a` together mean equal versions |
| Semver.GeTransitive | certification/internal/bundle/bundle.go:70-70 | the version order is transitive |
| Semver.GeIsLexicographic | certification/internal/bundle/bundle.go:70-70 | `GE` compares major, then minor, then patch |
| StringUtil.SplitCount | cmd/utils.go:79-81 | `Split` on a one-character separator returns one more piece than the separator's number of occurrences |
| StringUtil.SplitSecond | certification/internal/bundle/bundle.go:63-63 | piece 1 of a split is the text between the first and the second separator |
| StringUtil.SplitJoin | cmd/utils.go:79-79 | joining the pieces of a split with the separator gives back the original text |
| StringUtil.SplitPiecesAreFree | cmd/utils.go:79-79 | no piece of a split contains the separator |
| Bundle.ExactLabel | certification/internal/bundle/bundle.go:60-74 | a raw label starting with `=` qualifies iff the text between its first and second `=`, once cleaned, parses to a version >= 4.9; a parse failure is false |
| Bundle.RangeLabel | certification/internal/bundle/bundle.go:89-103 | a label without a leading `=` whose cleaned form holds a `-` qualifies iff the text between the first and second `-` parses to >= 4.9; segment 0 and later segments are never consulted |
| Bundle.BareLabel | certification/internal/bundle/bundle.go:75-115 | a label without a leading `=` and without `-` after cleaning qualifies iff the cleaned text is longer than one character and parses at all |
| Bundle.RangeUpper | certification/internal/bundle/bundle.go:89-103 | `lo-hi` with a dash-free `lo` is decided by the cleaned `hi` up to its next `-` |
| Bundle.RangeLowerBoundIgnored | certification/internal/bundle/bundle.go:89-103 | two ranges with the same upper part give the same answer, whatever their lower bounds |
| Bundle.ExactMajorMinor | certification/internal/bundle/bundle.go:60-74 | `=X.Y`, with optional quotes or `v` after the `=`, qualifies iff `X.Y.0 >= 4.9.0` |
| Bundle.RangeMajorMinor | certification/internal/bundle/bundle.go:89-103 | `lo-X.Y` qualifies iff `X.Y.0 >= 4.9.0` |
| Bundle.BareMajorMinor | certification/internal/bundle/bundle.go:75-115 | every bare `X.Y` qualifies, including versions below 4.9 |
| Bundle.ExampleExact49 | certification/internal/bundle/bundle.go:62-72 | `=4.9` qualifies |
| Bundle.ExampleExactV410 | certification/internal/bundle/bundle.go:62-72 | `=v4.10` qualifies |
| Bundle.ExampleExact410 | certification/internal/bundle/bundle.go:62-72 | `=4.10` qualifies |
| Bundle.ExampleExact48 | certification/internal/bundle/bundle.go:70-73 | `=4.8` does not qualify |
| Bundle.ExampleRangeTo49 | certification/internal/bundle/bundle.go:91-100 | `4.6-4.9` qualifies |
| Bundle.ExampleRangeFrom410 | certification/internal/bundle/bundle.go:91-100 | `4.10-4.12` qualifies |
| Bundle.ExampleRangeTo48 | certification/internal/bundle/bundle.go:91-102 | `4.5-4.8` does not qualify |
| Bundle.ExampleOpenRange | certification/internal/bundle/bundle.go:91-96 | `4.6-` does not qualify, because the empty upper part fails to parse |
| Bundle.ExampleBare46 | certification/internal/bundle/bundle.go:105-113 | the bare label `4.6` qualifies through the inverted comparison |
| Bundle.ExampleSingleChar | certification/internal/bundle/bundle.go:76-76 | the one-character label `4` does not qualify |
| Bundle.ExtractAnnotationsBytes | certification/internal/bundle/bundle.go:147-162 | the result for zero bytes is the "the annotations file was empty" error, whatever decoding would give; success iff the input is non-empty and decodes; on success the value is the decoded map; a decoding error is wrapped as malformed |
| Bundle.EmptyAnnotationsIgnoreDecoding | certification/internal/bundle/bundle.go:152-154 | on empty input the result does not depend on the decoding outcome |
| Bundle.GetAnnotations | certification/internal/bundle/bundle.go:131-143 | a read failure gives the "fail to read" error; empty contents give the empty-file error wrapped as malformed; success iff the read succeeds, is non-empty and decodes, and then the value is the decoded map |
| Bundle.SingleAnnotation | certification/internal/bundle/bundle.go:131-143 | a decoded single-key document is returned as exactly that pair |
| Bundle.GetCsvFilePathFromBundle | certification/internal/bundle/bundle.go:164-179 | a glob error is reported as a malformed pattern; 0 matches give the not-exist error; more than 1 give "more than one CSV file detected in bundle"; success iff there is exactly one match, and then the match list is exactly that path |
| Bundle.SupportedModesKeys | certification/internal/bundle/bundle.go:192-198 | a mode type is a key iff some install mode of that type is supported; every stored value is true |
| Bundle.UnsupportedModeAddsNothing | certification/internal/bundle/bundle.go:194-196 | an unsupported mode appended to the list leaves the map unchanged |
| Bundle.InstallModesExample | certification/internal/bundle/bundle.go:192-198 | a supported AllNamespaces mode next to an unsupported OwnNamespace mode gives `{AllNamespaces: true}` |
| Bundle.GetSupportedInstallModes | certification/internal/bundle/bundle.go:181-199 | read and decoding errors are returned with their wrappings; on success the map is the fold of the install modes, its keys are exactly the supported mode types and its values are all true |
| Bundle.ValidateOptionsFixed | certification/internal/bundle/bundle.go:24-30 | the options always have selector [community, operatorhub], verbose set, container engine "none" and output format "json-alpha1" |
| Bundle.ValidateOptionalValues | certification/internal/bundle/bundle.go:45-52 | the optional values are exactly {k8s-version: 1.22} iff the versions key is present and its label qualifies; otherwise they stay unset |
| Bundle.ValidateExample410 | certification/internal/bundle/bundle.go:45-52 | annotations with versions `=4.10` yield the k8s-version option |
| Bundle.ValidateExample48 | certification/internal/bundle/bundle.go:45-52 | annotations with versions `=4.8` leave the optional values unset |
| Bundle.Validate | certification/internal/bundle/bundle.go:23-55 | an open failure or an annotations failure gives the matching error, and the validator is not reached; otherwise the result is the options determined by the decoded annotations |
| Engine.InitializeChecks | certification/engine/engine.go:49-93 | success iff the policy is operator, container, root or scratch; otherwise the error "provided policy <p> is unknown" |
| Engine.OperatorChecks | certification/engine/engine.go:51-57 | the operator policy is ScorecardBasicSpec, ScorecardOlmSuite, DeployableByOlm, ValidateOperatorBundle, in that order |
| Engine.ContainerChecks | certification/engine/engine.go:58-72 | the container policy is the eight container checks, in source order |
| Engine.RootIsContainerWithoutRootAndUbi | certification/engine/engine.go:58-81 | the root policy is the container list with RunAsNonRoot and BasedOnUbi removed, order kept |
| Engine.ScratchIsContainerWithout | certification/engine/engine.go:58-89 | the scratch policy is the container list with HasNoProhibitedPackages, HasModifiedFiles and BasedOnUbi removed, order kept |
| Engine.WithoutIsSubsequence | certification/engine/engine.go:73-89 | removing a set of kinds from a list leaves a subsequence of it |
| Engine.RootAndScratchFollowContainer | certification/engine/engine.go:58-89 | the root and scratch lists are order-preserving subsequences of the container list |
| Engine.PolicyChecksDistinct | certification/engine/engine.go:50-90 | no known policy lists a check twice |
| Engine.UnknownPolicyExample | certification/engine/engine.go:92-92 | the policy "bogus" is refused with "provided policy bogus is unknown" |
| Engine.MakeCheckList | certification/engine/engine.go:96-104 | the names have the same length as the checks, and entry i is the name of check i |
| Engine.DistinctChecksHaveDistinctNames | certification/engine/engine.go:96-104 | with an injective naming, distinct checks give distinct names |
| Engine.CheckNamesFor | certification/engine/engine.go:107-112 | the names of the policy's checks, index by index; an unknown policy gives no names |
| Engine.OperatorPolicy | certification/engine/engine.go:115-117 | the names of the four operator checks, in order |
| Engine.ContainerPolicy | certification/engine/engine.go:120-122 | the names of the eight container checks, in order |
| Engine.ScratchContainerPolicy | certification/engine/engine.go:126-128 | the names of the five scratch checks, in order |
| Engine.RootExceptionContainerPolicy | certification/engine/engine.go:132-134 | the names of the six root-exception checks, in order |
| Engine.NewForConfig | certification/engine/engine.go:31-46 | fails iff the configured policy is unknown, with the initialisation error wrapped; on success the engine's checks are exactly the policy's list, and its config, image and bundle/scratch flags come from the configuration |
| Cmd.ResultsFilenameWithExtension | cmd/utils.go:17-19 | the file name is "results." followed by the extension |
| Cmd.ConvertPassedOverall | cmd/utils.go:97-103 | "PASSED" iff passed, "FAILED" iff not |
| Cmd.ConnectURLProduction | cmd/utils.go:76-86 | the default host, or a host that splits on `.` into at most 3 parts, gives `https://connect.redhat.com/projects/<id>` |
| Cmd.ConnectURLEnvironment | cmd/utils.go:79-84 | a non-default host with more than 3 dot-separated parts gives `https://connect.<env>.redhat.com/projects/<id>`, where env is the text between the first and second dot |
| Cmd.ConnectURLEnds | cmd/utils.go:76-87 | every Connect URL starts with `https://connect.` and ends with `/projects/` followed by the project id |
| Cmd.ProjectPages | cmd/utils.go:89-95 | the overview URL ends with `/projects/<id>/overview` and the scan-results URL with `/projects/<id>/images/<image>/scan-results`; both start with `https://connect.` |
| Cmd.ProductionPages | cmd/utils.go:89-95 | on the production site the two pages are exactly the production project URL with `/overview` or `/images/<image>/scan-results` appended |

## Left out

- `semver.ParseTolerant` and `GE` belong to the blang/semver library, so the
  model uses a simplified parse. It takes one to three dot-separated digit
  strings and pads the missing minor and patch with 0; anything else fails.
  It does not model whitespace trimming, a leading `v`, pre-release or
  build metadata, or the library's handling of leading zeros. The library
  reads each component as a 64-bit unsigned integer and refuses larger
  values; the model's components are unbounded naturals, so a label such as
  `=99999999999999999999.0` qualifies in the model but fails to parse in
  the library. The order is lexicographic on major, minor and patch.
- YAML decoding (`yaml.Unmarshal`) is a foreign library. Its outcome, a
  decoded value or an error text, is an input of `ExtractAnnotationsBytes`,
  `GetAnnotations`, `GetSupportedInstallModes` and `Validate`.
- File and stream I/O (`os.Open`, `io.ReadAll`, `filepath.Glob`,
  `readFileAndGetSize`) is left out for the same reason. Their outcomes are
  inputs: the annotations file (`AnnotationsFile`), the CSV bytes and the
  glob's match list. The path joins that build the file names are not
  modelled.
- The call to the external operator-sdk validator (`engine.BundleValidate`)
  is not modelled. `Validate` returns the options it would hand over,
  instead of the validator's report.
- The `logrus` logging calls do not affect any result, so they are left out.
- The check constructors, their `Name()` strings and their run behaviour
  live in files that are not part of this model. So do the `cfg` getters,
  the Pyxis HTTP client built for the UBI check, and `CraneEngine`'s
  `ExecuteChecks` and `Results`. Checks are therefore modelled as the
  `CheckKind` datatype, and names as an uninterpreted function.
- The policy identifiers are defined in a policy package that is not part
  of this model. They are modelled as the strings "operator", "container",
  "root" and "scratch". Only their distinctness matters to the proofs.
- `initConfig` and `preRunConfig` set viper, cobra and logrus global state
  and open log files, so they are left out. The `pyxis_host` read from
  viper, and the value of `certification.DefaultPyxisHost`, are parameters.
- `certification/certification_suite_test.go` only registers the test
  suite and has no behaviour to model.
- Contexts, concurrency and cancellation are not modelled. None of the
  shown code schedules or cancels work.
- A Go `nil` map for `OptionalValues` is modelled as `None`. Byte contents
  are only tested for emptiness.
- Error values are modelled as their message text. `%v` formatting of an
  error is its message.
