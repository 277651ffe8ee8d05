/**
 * The policy-to-checklist registry and the construction of the check engine.
 * A check is identified by its kind; its `Name()` string lives with the check
 * implementations, so the naming is a parameter `name` of the members that
 * list names.
 */
module Engine {
  import opened Wrappers

  /** A policy identifier, compared as a string. */
  type Policy = string

  const PolicyOperator: Policy := "operator"
  const PolicyContainer: Policy := "container"
  const PolicyRoot: Policy := "root"
  const PolicyScratch: Policy := "scratch"

  datatype CheckKind =
    | ScorecardBasicSpec
    | ScorecardOlmSuite
    | DeployableByOlm
    | ValidateOperatorBundle
    | HasLicense
    | HasUniqueTag
    | MaxLayers
    | HasNoProhibitedPackages
    | HasRequiredLabels
    | RunAsNonRoot
    | HasModifiedFiles
    | BasedOnUbi

  /** The configuration values the engine is built from. */
  datatype Config = Config(policy: Policy, image: string, isBundle: bool, isScratch: bool)

  /** The engine `NewForConfig` returns. */
  datatype CraneEngine = CraneEngine(
    config: Config,
    image: string,
    checks: seq<CheckKind>,
    isBundle: bool,
    isScratch: bool)

  predicate IsKnownPolicy(p: Policy)
  {
    p == PolicyOperator || p == PolicyContainer || p == PolicyRoot || p == PolicyScratch
  }

  /** `initializeChecks`: the ordered checks of a policy, or an error naming an unknown one. */
  function InitializeChecks(p: Policy): (r: Result<seq<CheckKind>, string>)
    ensures r.Success? <==> IsKnownPolicy(p)
    ensures r.Failure? ==> r.error == "provided policy " + p + " is unknown"
  {
    if p == PolicyOperator then
      Success([ScorecardBasicSpec, ScorecardOlmSuite, DeployableByOlm, ValidateOperatorBundle])
    else if p == PolicyContainer then
      Success([HasLicense, HasUniqueTag, MaxLayers, HasNoProhibitedPackages,
               HasRequiredLabels, RunAsNonRoot, HasModifiedFiles, BasedOnUbi])
    else if p == PolicyRoot then
      Success([HasLicense, HasUniqueTag, MaxLayers, HasNoProhibitedPackages,
               HasRequiredLabels, HasModifiedFiles])
    else if p == PolicyScratch then
      Success([HasLicense, HasUniqueTag, MaxLayers, HasRequiredLabels, RunAsNonRoot])
    else
      Failure("provided policy " + p + " is unknown")
  }

  predicate Distinct(s: seq<CheckKind>)
  {
    forall i, j :: 0 <= i < j < |s| ==> s[i] != s[j]
  }

  /** `a` is `b` with some entries left out, the rest in the same order. */
  predicate IsSubsequence(a: seq<CheckKind>, b: seq<CheckKind>)
    decreases |b|
  {
    if |a| == 0 then true
    else if |b| == 0 then false
    else if a[0] == b[0] then IsSubsequence(a[1..], b[1..])
    else IsSubsequence(a, b[1..])
  }

  /** The entries of `s` outside `drop`, in order. */
  function Without(s: seq<CheckKind>, drop: set<CheckKind>): seq<CheckKind>
  {
    if |s| == 0 then []
    else (if s[0] in drop then [] else [s[0]]) + Without(s[1..], drop)
  }

  lemma {:induction false} WithoutAvoids(s: seq<CheckKind>, drop: set<CheckKind>)
    ensures forall x :: x in Without(s, drop) ==> x in s && x !in drop
  {
    if |s| > 0 {
      WithoutAvoids(s[1..], drop);
    }
  }

  lemma {:induction false} WithoutIsSubsequence(s: seq<CheckKind>, drop: set<CheckKind>)
    ensures IsSubsequence(Without(s, drop), s)
  {
    if |s| > 0 {
      var w := Without(s[1..], drop);
      WithoutIsSubsequence(s[1..], drop);
      if s[0] !in drop {
        assert Without(s, drop) == [s[0]] + w;
        assert Without(s, drop)[1..] == w;
      } else if |w| > 0 {
        WithoutAvoids(s[1..], drop);
        assert w[0] in w;
        assert Without(s, drop) == w;
      }
    }
  }

  /** The operator policy's list. */
  lemma OperatorChecks()
    ensures InitializeChecks(PolicyOperator)
         == Success([ScorecardBasicSpec, ScorecardOlmSuite, DeployableByOlm, ValidateOperatorBundle])
  {
  }

  /** The container policy's list. */
  lemma ContainerChecks()
    ensures InitializeChecks(PolicyContainer) == Success([HasLicense, HasUniqueTag, MaxLayers,
      HasNoProhibitedPackages, HasRequiredLabels, RunAsNonRoot, HasModifiedFiles, BasedOnUbi])
  {
  }

  /** The root policy is the container policy without run-as-non-root and based-on-ubi. */
  lemma RootIsContainerWithoutRootAndUbi()
    ensures InitializeChecks(PolicyRoot).value
         == Without(InitializeChecks(PolicyContainer).value, {RunAsNonRoot, BasedOnUbi})
  {
    var c := InitializeChecks(PolicyContainer).value;
    assert c == [HasLicense, HasUniqueTag, MaxLayers, HasNoProhibitedPackages,
                 HasRequiredLabels, RunAsNonRoot, HasModifiedFiles, BasedOnUbi];
    var drop := {RunAsNonRoot, BasedOnUbi};
    assert Without(c[7..], drop) == [] by { assert c[7..][1..] == []; }
    assert Without(c[6..], drop) == [HasModifiedFiles] by { assert c[6..][1..] == c[7..]; }
    assert Without(c[5..], drop) == [HasModifiedFiles] by { assert c[5..][1..] == c[6..]; }
    assert Without(c[4..], drop) == [HasRequiredLabels, HasModifiedFiles] by { assert c[4..][1..] == c[5..]; }
    assert Without(c[3..], drop) == [HasNoProhibitedPackages, HasRequiredLabels, HasModifiedFiles]
      by { assert c[3..][1..] == c[4..]; }
    assert Without(c[2..], drop) == [MaxLayers, HasNoProhibitedPackages, HasRequiredLabels, HasModifiedFiles]
      by { assert c[2..][1..] == c[3..]; }
    assert Without(c[1..], drop)
        == [HasUniqueTag, MaxLayers, HasNoProhibitedPackages, HasRequiredLabels, HasModifiedFiles]
      by { assert c[1..][1..] == c[2..]; }
  }

  /** The scratch policy is the container policy without the package, modified-files and UBI checks. */
  lemma ScratchIsContainerWithout()
    ensures InitializeChecks(PolicyScratch).value
         == Without(InitializeChecks(PolicyContainer).value, {HasNoProhibitedPackages, HasModifiedFiles, BasedOnUbi})
  {
    var c := InitializeChecks(PolicyContainer).value;
    assert c == [HasLicense, HasUniqueTag, MaxLayers, HasNoProhibitedPackages,
                 HasRequiredLabels, RunAsNonRoot, HasModifiedFiles, BasedOnUbi];
    var drop := {HasNoProhibitedPackages, HasModifiedFiles, BasedOnUbi};
    assert Without(c[7..], drop) == [] by { assert c[7..][1..] == []; }
    assert Without(c[6..], drop) == [] by { assert c[6..][1..] == c[7..]; }
    assert Without(c[5..], drop) == [RunAsNonRoot] by { assert c[5..][1..] == c[6..]; }
    assert Without(c[4..], drop) == [HasRequiredLabels, RunAsNonRoot] by { assert c[4..][1..] == c[5..]; }
    assert Without(c[3..], drop) == [HasRequiredLabels, RunAsNonRoot] by { assert c[3..][1..] == c[4..]; }
    assert Without(c[2..], drop) == [MaxLayers, HasRequiredLabels, RunAsNonRoot] by { assert c[2..][1..] == c[3..]; }
    assert Without(c[1..], drop) == [HasUniqueTag, MaxLayers, HasRequiredLabels, RunAsNonRoot]
      by { assert c[1..][1..] == c[2..]; }
  }

  /** Root and scratch keep the container policy's order. */
  lemma RootAndScratchFollowContainer()
    ensures IsSubsequence(InitializeChecks(PolicyRoot).value, InitializeChecks(PolicyContainer).value)
    ensures IsSubsequence(InitializeChecks(PolicyScratch).value, InitializeChecks(PolicyContainer).value)
  {
    var c := InitializeChecks(PolicyContainer).value;
    RootIsContainerWithoutRootAndUbi();
    WithoutIsSubsequence(c, {RunAsNonRoot, BasedOnUbi});
    ScratchIsContainerWithout();
    WithoutIsSubsequence(c, {HasNoProhibitedPackages, HasModifiedFiles, BasedOnUbi});
  }

  /** No policy lists a check twice. */
  lemma PolicyChecksDistinct(p: Policy)
    requires IsKnownPolicy(p)
    ensures Distinct(InitializeChecks(p).value)
  {
  }

  /** An unknown identifier, such as "bogus", is refused. */
  lemma UnknownPolicyExample()
    ensures InitializeChecks("bogus") == Failure("provided policy bogus is unknown")
  {
    assert "provided policy " + "bogus" + " is unknown" == "provided policy bogus is unknown";
  }

  /** `makeCheckList`: the names of the checks, index by index. */
  method MakeCheckList(checks: seq<CheckKind>, name: CheckKind -> string) returns (checkNames: seq<string>)
    ensures |checkNames| == |checks|
    ensures forall i :: 0 <= i < |checks| ==> checkNames[i] == name(checks[i])
  {
    var names := new string[|checks|];
    for i := 0 to |checks|
      invariant forall j :: 0 <= j < i ==> names[j] == name(checks[j])
    {
      names[i] := name(checks[i]);
    }
    checkNames := names[..];
  }

  /** Names of pairwise distinct checks are distinct when the naming is injective. */
  lemma DistinctChecksHaveDistinctNames(checks: seq<CheckKind>, name: CheckKind -> string, names: seq<string>)
    requires Distinct(checks)
    requires forall a, b :: name(a) == name(b) ==> a == b
    requires |names| == |checks| && forall i :: 0 <= i < |checks| ==> names[i] == name(checks[i])
    ensures forall i, j :: 0 <= i < j < |names| ==> names[i] != names[j]
  {
  }

  /** `checkNamesFor`: the names of a policy's checks; none for an unknown policy. */
  method CheckNamesFor(p: Policy, name: CheckKind -> string) returns (names: seq<string>)
    ensures InitializeChecks(p).Failure? ==> names == []
    ensures InitializeChecks(p).Success? ==>
      |names| == |InitializeChecks(p).value|
      && forall i :: 0 <= i < |names| ==> names[i] == name(InitializeChecks(p).value[i])
  {
    var checks := match InitializeChecks(p) case Success(c) => c case Failure(_) => [];
    names := MakeCheckList(checks, name);
  }

  method OperatorPolicy(name: CheckKind -> string) returns (names: seq<string>)
    ensures names == [name(ScorecardBasicSpec), name(ScorecardOlmSuite), name(DeployableByOlm),
                      name(ValidateOperatorBundle)]
  {
    names := CheckNamesFor(PolicyOperator, name);
  }

  method ContainerPolicy(name: CheckKind -> string) returns (names: seq<string>)
    ensures names == [name(HasLicense), name(HasUniqueTag), name(MaxLayers),
                      name(HasNoProhibitedPackages), name(HasRequiredLabels), name(RunAsNonRoot),
                      name(HasModifiedFiles), name(BasedOnUbi)]
  {
    names := CheckNamesFor(PolicyContainer, name);
  }

  method ScratchContainerPolicy(name: CheckKind -> string) returns (names: seq<string>)
    ensures names == [name(HasLicense), name(HasUniqueTag), name(MaxLayers),
                      name(HasRequiredLabels), name(RunAsNonRoot)]
  {
    names := CheckNamesFor(PolicyScratch, name);
  }

  method RootExceptionContainerPolicy(name: CheckKind -> string) returns (names: seq<string>)
    ensures names == [name(HasLicense), name(HasUniqueTag), name(MaxLayers),
                      name(HasNoProhibitedPackages), name(HasRequiredLabels), name(HasModifiedFiles)]
  {
    names := CheckNamesFor(PolicyRoot, name);
  }

  /** `NewForConfig`: fails exactly when the configured policy's checks cannot be initialised. */
  function NewForConfig(cfg: Config): (r: Result<CraneEngine, string>)
    ensures r.Failure? <==> !IsKnownPolicy(cfg.policy)
    ensures r.Failure? ==> r.error == "error initializing checks: provided policy " + cfg.policy + " is unknown"
    ensures r.Success? ==>
      r.value.checks == InitializeChecks(cfg.policy).value
      && r.value.config == cfg && r.value.image == cfg.image
      && r.value.isBundle == cfg.isBundle && r.value.isScratch == cfg.isScratch
  {
    match InitializeChecks(cfg.policy)
    case Failure(err) => Failure("error initializing checks: " + err)
    case Success(checks) => Success(CraneEngine(cfg, cfg.image, checks, cfg.isBundle, cfg.isScratch))
  }
}
