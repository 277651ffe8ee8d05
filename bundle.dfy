/**
 * Operator-bundle metadata rules: the OpenShift version-label evaluator that
 * decides whether a bundle targets OpenShift 4.9 or later, the guards around
 * reading annotations and locating the ClusterServiceVersion (CSV), the
 * supported-install-mode filter, and the options `Validate` hands to the
 * external bundle validator. File reads and YAML decoding are inputs.
 */
module Bundle {
  import opened Wrappers
  import opened StringUtil
  import opened Semver

  type byte = bv8

  /** The OpenShift release from which the stricter validation applies. */
  const OcpVerV1beta1Unsupported: string := "4.9"

  /** Annotation key listing the OpenShift versions an operator allows. */
  const VersionsKey: string := "com.redhat.openshift.versions"

  const EmptyAnnotationsError: string := "the annotations file was empty"
  const MoreThanOneCsvError: string := "more than one CSV file detected in bundle"
  /** The text of Go's `os.ErrNotExist`. */
  const ErrNotExist: string := "file does not exist"

  datatype InstallMode = InstallMode(modeType: string, supported: bool)
  datatype ClusterServiceVersionSpec = ClusterServiceVersionSpec(installModes: seq<InstallMode>)
  datatype ClusterServiceVersion = ClusterServiceVersion(spec: ClusterServiceVersionSpec)

  /** The options handed to the operator-sdk bundle validator. */
  datatype BundleValidateOptions = BundleValidateOptions(
    selector: seq<string>,
    verbose: bool,
    containerEngine: string,
    outputFormat: string,
    optionalValues: Option<map<string, string>>)

  /** What opening and reading `metadata/annotations.yaml` produced. */
  datatype AnnotationsFile =
    | Unopenable(reason: string)
    | Opened(contents: Result<seq<byte>, string>)

  // ---------------------------------------------------------------------
  // Cleaning a version label

  /** `strings.ReplaceAll(s, string(c), "")`. */
  function DeleteAll(s: string, c: char): string
  {
    if |s| == 0 then ""
    else (if s[0] == c then "" else [s[0]]) + DeleteAll(s[1..], c)
  }

  /** Removes every single quote, double quote and `v` from `value`. */
  function CleanStringToGetTheVersionToParse(value: string): string
  {
    var value := DeleteAll(value, '\'');
    var value := DeleteAll(value, '"');
    DeleteAll(value, 'v')
  }

  /** The characters the cleaning removes. */
  predicate IsStripped(c: char)
  {
    c == '\'' || c == '"' || c == 'v'
  }

  lemma {:induction false} DeleteAllConcat(x: string, y: string, c: char)
    ensures DeleteAll(x + y, c) == DeleteAll(x, c) + DeleteAll(y, c)
  {
    if |x| == 0 {
      assert x + y == y;
    } else {
      assert (x + y)[0] == x[0];
      assert (x + y)[1..] == x[1..] + y;
      DeleteAllConcat(x[1..], y, c);
    }
  }

  lemma {:induction false} DeleteAllAbsent(s: string, c: char)
    requires c !in s
    ensures DeleteAll(s, c) == s
  {
    if |s| > 0 {
      assert s == [s[0]] + s[1..];
      DeleteAllAbsent(s[1..], c);
    }
  }

  lemma {:induction false} DeleteAllRemoves(s: string, c: char, d: char)
    ensures c !in DeleteAll(s, c)
    ensures d != c ==> multiset(DeleteAll(s, c))[d] == multiset(s)[d]
  {
    if |s| > 0 {
      assert s == [s[0]] + s[1..];
      DeleteAllRemoves(s[1..], c, d);
    }
  }

  /** Cleaning works character by character and keeps the order. */
  lemma CleanConcat(x: string, y: string)
    ensures CleanStringToGetTheVersionToParse(x + y)
         == CleanStringToGetTheVersionToParse(x) + CleanStringToGetTheVersionToParse(y)
  {
    DeleteAllConcat(x, y, '\'');
    DeleteAllConcat(DeleteAll(x, '\''), DeleteAll(y, '\''), '"');
    DeleteAllConcat(DeleteAll(DeleteAll(x, '\''), '"'), DeleteAll(DeleteAll(y, '\''), '"'), 'v');
  }

  /** A single character is dropped exactly when it is a quote or `v`. */
  lemma CleanChar(c: char)
    ensures CleanStringToGetTheVersionToParse([c]) == if IsStripped(c) then "" else [c]
  {
    assert [c][1..] == "";
    assert forall d :: DeleteAll([c], d) == if c == d then "" else [c];
  }

  /** The cleaned text has no quote and no `v`, and every other character keeps its count. */
  lemma CleanRemovesExactly(s: string)
    ensures forall k :: 0 <= k < |CleanStringToGetTheVersionToParse(s)| ==>
      !IsStripped(CleanStringToGetTheVersionToParse(s)[k])
    ensures forall c :: !IsStripped(c) ==>
      multiset(CleanStringToGetTheVersionToParse(s))[c] == multiset(s)[c]
  {
    var s1 := DeleteAll(s, '\'');
    var s2 := DeleteAll(s1, '"');
    var s3 := DeleteAll(s2, 'v');
    DeleteAllRemoves(s2, 'v', 'v');
    DeleteAllRemoves(s1, '"', '"');
    DeleteAllRemoves(s, '\'', '\'');
    DeleteAllAbsentStays(s1, '\'', '"');
    DeleteAllAbsentStays(s2, '\'', 'v');
    DeleteAllAbsentStays(s2, '"', 'v');
    forall c | !IsStripped(c)
      ensures multiset(s3)[c] == multiset(s)[c]
    {
      DeleteAllRemoves(s, '\'', c);
      DeleteAllRemoves(s1, '"', c);
      DeleteAllRemoves(s2, 'v', c);
    }
  }

  /** Deleting `d` never brings back a character `c` that is already absent. */
  lemma {:induction false} DeleteAllAbsentStays(s: string, c: char, d: char)
    requires c !in s
    ensures c !in DeleteAll(s, d)
  {
    if |s| > 0 {
      assert s == [s[0]] + s[1..];
      DeleteAllAbsentStays(s[1..], c, d);
    }
  }

  /** Cleaning is idempotent. */
  lemma CleanIdempotent(s: string)
    ensures CleanStringToGetTheVersionToParse(CleanStringToGetTheVersionToParse(s))
         == CleanStringToGetTheVersionToParse(s)
  {
    var t := CleanStringToGetTheVersionToParse(s);
    CleanRemovesExactly(s);
    assert '\'' !in t && '"' !in t && 'v' !in t;
    DeleteAllAbsent(t, '\'');
    DeleteAllAbsent(t, '"');
    DeleteAllAbsent(t, 'v');
  }

  // ---------------------------------------------------------------------
  // The version-label evaluator

  /** `semver.ParseTolerant("4.9")`, its error ignored as in the source. */
  function Threshold(): (t: Version)
    ensures t == Version(4, 9, 0)
  {
    ParseFourNine();
    ParseTolerant(OcpVerV1beta1Unsupported).value
  }

  /**
   * Whether the label of `com.redhat.openshift.versions` targets 4.9 or later.
   * The label is an exact `=X.Y`, a bare `X.Y` or a range `X.Y-A.B`; the
   * bare case re-tests the same version in the inverted direction when the
   * forward test fails, as the source does.
   */
  function IsTarget49OrGreater(ocpLabelIndex: string): bool
  {
    var threshold := Threshold();
    if |ocpLabelIndex| > 0 && ocpLabelIndex[0] == '=' then
      assert '=' in ocpLabelIndex;
      var version := CleanStringToGetTheVersionToParse(Split(ocpLabelIndex, '=')[1]);
      match ParseTolerant(version)
      case None => false
      case Some(verParsed) => GE(verParsed, threshold)
    else
      var indexRange := CleanStringToGetTheVersionToParse(ocpLabelIndex);
      if |indexRange| > 1 then
        var bare := ParseTolerant(indexRange);
        if '-' !in indexRange && bare.None? then false
        else if '-' !in indexRange && GE(bare.value, threshold) then true
        else
          var versions := Split(indexRange, '-');
          if |versions| > 1 then
            match ParseTolerant(versions[1])
            case None => false
            case Some(verParsed) => GE(verParsed, threshold)
          else
            match ParseTolerant(versions[0])
            case None => false
            case Some(verParsed) => GE(threshold, verParsed)
      else false
  }

  /** True when `v` parses to a version at or above 4.9. */
  predicate ParsesAtLeast49(v: string)
  {
    ParseTolerant(v).Some? && GE(ParseTolerant(v).value, Version(4, 9, 0))
  }

  /**
   * A raw label starting with `=` qualifies exactly when the text between the
   * first and the second `=` parses, once cleaned, to 4.9 or later.
   */
  lemma ExactLabel(ocpLabel: string)
    requires |ocpLabel| > 0 && ocpLabel[0] == '='
    ensures IsTarget49OrGreater(ocpLabel)
        <==> ParsesAtLeast49(CleanStringToGetTheVersionToParse(TakeUntil(ocpLabel[1..], '=')))
  {
    assert IndexOf(ocpLabel, '=') == 0;
    SplitSecond(ocpLabel, '=');
  }

  lemma ParseEmptyFails()
    ensures ParseTolerant("").None?
  {
    assert Split("", '.') == [""];
  }

  /**
   * A range label (no leading `=`, a `-` after cleaning) qualifies exactly
   * when the text between the first and the second `-` parses to 4.9 or
   * later: the lower bound and any later segments are never consulted.
   */
  lemma RangeLabel(ocpLabel: string)
    requires !(|ocpLabel| > 0 && ocpLabel[0] == '=')
    requires '-' in CleanStringToGetTheVersionToParse(ocpLabel)
    ensures var r := CleanStringToGetTheVersionToParse(ocpLabel);
      IsTarget49OrGreater(ocpLabel) <==> ParsesAtLeast49(TakeUntil(r[IndexOf(r, '-') + 1..], '-'))
  {
    var r := CleanStringToGetTheVersionToParse(ocpLabel);
    SplitSecond(r, '-');
    var upper := TakeUntil(r[IndexOf(r, '-') + 1..], '-');
    if |r| > 1 {
      var versions := Split(r, '-');
      assert |versions| > 1 && versions[1] == upper;
      assert IsTarget49OrGreater(ocpLabel) == ParsesAtLeast49(versions[1]);
    } else {
      assert r[IndexOf(r, '-') + 1..] == "";
      assert upper == "";
      ParseEmptyFails();
    }
  }

  /**
   * A bare label (no leading `=`, no `-` after cleaning) qualifies exactly
   * when it is longer than one character and parses at all: the forward test
   * against 4.9 and the inverted one together cover every version.
   */
  lemma BareLabel(ocpLabel: string)
    requires !(|ocpLabel| > 0 && ocpLabel[0] == '=')
    requires '-' !in CleanStringToGetTheVersionToParse(ocpLabel)
    ensures var r := CleanStringToGetTheVersionToParse(ocpLabel);
      IsTarget49OrGreater(ocpLabel) <==> |r| > 1 && ParseTolerant(r).Some?
  {
    var r := CleanStringToGetTheVersionToParse(ocpLabel);
    if |r| > 1 && ParseTolerant(r).Some? {
      GeTotal(ParseTolerant(r).value, Threshold());
    }
  }

  /** Only the upper bound of a range matters: two ranges with the same upper part agree. */
  lemma RangeLowerBoundIgnored(lo1: string, lo2: string, hi: string)
    requires '-' !in lo1 && '-' !in lo2
    requires !(|lo1| > 0 && lo1[0] == '=') && !(|lo2| > 0 && lo2[0] == '=')
    ensures IsTarget49OrGreater(lo1 + "-" + hi) == IsTarget49OrGreater(lo2 + "-" + hi)
  {
    RangeUpper(lo1, hi);
    RangeUpper(lo2, hi);
  }

  /** Cleaning leaves absent characters absent. */
  lemma CleanKeepsAbsent(s: string, c: char)
    requires c !in s
    ensures c !in CleanStringToGetTheVersionToParse(s)
  {
    DeleteAllAbsentStays(s, c, '\'');
    DeleteAllAbsentStays(DeleteAll(s, '\''), c, '"');
    DeleteAllAbsentStays(DeleteAll(DeleteAll(s, '\''), '"'), c, 'v');
  }

  /** A text free of quotes and `v` is left as it is. */
  lemma CleanFree(s: string)
    requires forall k :: 0 <= k < |s| ==> !IsStripped(s[k])
    ensures CleanStringToGetTheVersionToParse(s) == s
  {
    DeleteAllAbsent(s, '\'');
    DeleteAllAbsent(s, '"');
    DeleteAllAbsent(s, 'v');
  }

  lemma CleanAroundDash(lo: string, hi: string)
    ensures CleanStringToGetTheVersionToParse(lo + "-" + hi)
         == CleanStringToGetTheVersionToParse(lo) + ['-'] + CleanStringToGetTheVersionToParse(hi)
  {
    assert lo + "-" + hi == lo + ("-" + hi);
    CleanConcat(lo, "-" + hi);
    CleanConcat("-", hi);
    CleanChar('-');
  }

  /** A range `lo-hi` with a dash-free lower part is decided by the start of `hi` alone. */
  lemma RangeUpper(lo: string, hi: string)
    requires '-' !in lo && !(|lo| > 0 && lo[0] == '=')
    ensures IsTarget49OrGreater(lo + "-" + hi)
        <==> ParsesAtLeast49(TakeUntil(CleanStringToGetTheVersionToParse(hi), '-'))
  {
    var ocpLabel := lo + "-" + hi;
    assert ocpLabel[0] != '=' by {
      if |lo| == 0 { assert ocpLabel[0] == '-'; } else { assert ocpLabel[0] == lo[0]; }
    }
    var cl, ch := CleanStringToGetTheVersionToParse(lo), CleanStringToGetTheVersionToParse(hi);
    var r := CleanStringToGetTheVersionToParse(ocpLabel);
    CleanAroundDash(lo, hi);
    CleanKeepsAbsent(lo, '-');
    IndexOfCons(cl, '-', ch);
    assert r[|cl| + 1..] == ch;
    RangeLabel(ocpLabel);
  }

  /** A text made only of quotes and `v` cleans to nothing. */
  lemma {:induction false} CleanOnlyStripped(s: string)
    requires forall k :: 0 <= k < |s| ==> IsStripped(s[k])
    ensures CleanStringToGetTheVersionToParse(s) == ""
  {
    if |s| > 0 {
      assert s == [s[0]] + s[1..];
      CleanConcat([s[0]], s[1..]);
      CleanChar(s[0]);
      CleanOnlyStripped(s[1..]);
    }
  }

  /** Version text is left as it is by the cleaning and holds no `=` and no `-`. */
  lemma VersionTextFacts(v: string)
    requires VersionChars(v)
    ensures CleanStringToGetTheVersionToParse(v) == v
    ensures '=' !in v && '-' !in v
  {
    CleanFree(v);
    VersionCharsExclude(v, '=');
    VersionCharsExclude(v, '-');
  }

  /** The text after `=`: quotes and `v` in front of X.Y clean away. */
  lemma ExactText(lead: string, v: string)
    requires forall k :: 0 <= k < |lead| ==> IsStripped(lead[k])
    requires VersionChars(v)
    ensures CleanStringToGetTheVersionToParse(TakeUntil(lead + v, '=')) == v
  {
    VersionTextFacts(v);
    assert '=' !in lead;
    assert '=' !in lead + v;
    TakeUntilIsPrefix(lead + v, '=');
    CleanConcat(lead, v);
    CleanOnlyStripped(lead);
  }

  /**
   * `=X.Y`, possibly with quotes or `v` between the `=` and the version,
   * qualifies exactly when X.Y is at least 4.9.
   */
  lemma ExactMajorMinor(lead: string, major: nat, minor: nat)
    requires forall k :: 0 <= k < |lead| ==> IsStripped(lead[k])
    ensures IsTarget49OrGreater("=" + (lead + MajorMinorText(major, minor)))
        <==> GE(Version(major, minor, 0), Version(4, 9, 0))
  {
    var v := MajorMinorText(major, minor);
    var s := "=" + (lead + v);
    assert s[1..] == lead + v;
    ExactLabel(s);
    ExactText(lead, v);
    ParseMajorMinor(major, minor);
  }

  /** `lo-X.Y` with a dash-free `lo` qualifies exactly when X.Y is at least 4.9. */
  lemma RangeMajorMinor(lo: string, major: nat, minor: nat)
    requires '-' !in lo && !(|lo| > 0 && lo[0] == '=')
    ensures IsTarget49OrGreater(lo + "-" + MajorMinorText(major, minor))
        <==> GE(Version(major, minor, 0), Version(4, 9, 0))
  {
    var hi := MajorMinorText(major, minor);
    RangeUpper(lo, hi);
    VersionTextFacts(hi);
    TakeUntilIsPrefix(hi, '-');
    ParseMajorMinor(major, minor);
  }

  /** A bare `X.Y` qualifies whatever its value. */
  lemma BareMajorMinor(major: nat, minor: nat)
    ensures IsTarget49OrGreater(MajorMinorText(major, minor))
  {
    var v := MajorMinorText(major, minor);
    VersionTextFacts(v);
    assert v[0] in v;
    BareLabel(v);
    ParseMajorMinor(major, minor);
  }

  // Examples of the evaluator on typical labels.

  lemma ExampleExact49()
    ensures IsTarget49OrGreater("=4.9")
  {
    ExactMajorMinor("", 4, 9);
    assert "=" + ("" + MajorMinorText(4, 9)) == "=4.9";
  }

  lemma ExampleExactV410()
    ensures IsTarget49OrGreater("=v4.10")
  {
    ExactMajorMinor("v", 4, 10);
    assert "=" + ("v" + MajorMinorText(4, 10)) == "=v4.10";
  }

  lemma ExampleExact410()
    ensures IsTarget49OrGreater("=4.10")
  {
    ExactMajorMinor("", 4, 10);
    assert "=" + ("" + MajorMinorText(4, 10)) == "=4.10";
  }

  lemma ExampleExact48()
    ensures !IsTarget49OrGreater("=4.8")
  {
    ExactMajorMinor("", 4, 8);
    assert "=" + ("" + MajorMinorText(4, 8)) == "=4.8";
  }

  lemma ExampleRangeTo49()
    ensures IsTarget49OrGreater("4.6-4.9")
  {
    RangeMajorMinor("4.6", 4, 9);
    assert "4.6" + "-" + MajorMinorText(4, 9) == "4.6-4.9";
  }

  lemma ExampleRangeFrom410()
    ensures IsTarget49OrGreater("4.10-4.12")
  {
    RangeMajorMinor("4.10", 4, 12);
    assert "4.10" + "-" + MajorMinorText(4, 12) == "4.10-4.12";
  }

  lemma ExampleRangeTo48()
    ensures !IsTarget49OrGreater("4.5-4.8")
  {
    RangeMajorMinor("4.5", 4, 8);
    assert "4.5" + "-" + MajorMinorText(4, 8) == "4.5-4.8";
  }

  lemma ExampleOpenRange()
    ensures !IsTarget49OrGreater("4.6-")
  {
    assert "4.6-" == "4.6" + "-" + "";
    RangeUpper("4.6", "");
    assert CleanStringToGetTheVersionToParse("") == "";
    ParseEmptyFails();
  }

  lemma ExampleBare46()
    ensures IsTarget49OrGreater("4.6")
  {
    BareMajorMinor(4, 6);
    assert MajorMinorText(4, 6) == "4.6";
  }

  lemma ExampleSingleChar()
    ensures !IsTarget49OrGreater("4")
  {
    CleanFree("4");
    BareLabel("4");
  }

  // ---------------------------------------------------------------------
  // Annotations and the CSV

  /**
   * `ExtractAnnotationsBytes`: zero bytes are refused before any decoding;
   * otherwise `decoded` is what YAML decoding of the bytes produced.
   */
  function ExtractAnnotationsBytes(annotationBytes: seq<byte>, decoded: Result<map<string, string>, string>)
    : (r: Result<map<string, string>, string>)
    ensures |annotationBytes| == 0 ==> r == Failure(EmptyAnnotationsError)
    ensures r.Success? <==> |annotationBytes| > 0 && decoded.Success?
    ensures r.Success? ==> r.value == decoded.value
    ensures |annotationBytes| > 0 && decoded.Failure? ==>
      r == Failure("metadata/annotations.yaml found but is malformed: " + decoded.error)
  {
    if |annotationBytes| == 0 then Failure(EmptyAnnotationsError)
    else match decoded
      case Failure(e) => Failure("metadata/annotations.yaml found but is malformed: " + e)
      case Success(annotations) => Success(annotations)
  }

  /** The emptiness check does not depend on what decoding would have produced. */
  lemma EmptyAnnotationsIgnoreDecoding(d1: Result<map<string, string>, string>, d2: Result<map<string, string>, string>)
    ensures ExtractAnnotationsBytes([], d1) == ExtractAnnotationsBytes([], d2)
  {
  }

  /** `GetAnnotations`: a read failure, then the extraction, each with its own wrapping. */
  function GetAnnotations(contents: Result<seq<byte>, string>, decoded: Result<map<string, string>, string>)
    : (r: Result<map<string, string>, string>)
    ensures contents.Failure? ==>
      r == Failure("fail to read metadata/annotation.yaml file in bundle: " + contents.error)
    ensures contents.Success? && |contents.value| == 0 ==>
      r == Failure("metadata/annotations.yaml found but is malformed: " + EmptyAnnotationsError)
    ensures r.Success? <==> contents.Success? && |contents.value| > 0 && decoded.Success?
    ensures r.Success? ==> r.value == decoded.value
  {
    match contents
    case Failure(e) => Failure("fail to read metadata/annotation.yaml file in bundle: " + e)
    case Success(fileContents) =>
      match ExtractAnnotationsBytes(fileContents, decoded)
      case Failure(e) => Failure("metadata/annotations.yaml found but is malformed: " + e)
      case Success(annotations) => Success(annotations)
  }

  /** A decoded single-key document is returned as exactly that pair. */
  lemma SingleAnnotation(bytes: seq<byte>, key: string, value: string)
    requires |bytes| > 0
    ensures GetAnnotations(Success(bytes), Success(map[key := value])) == Success(map[key := value])
  {
  }

  /**
   * `GetCsvFilePathFromBundle` on the outcome of globbing
   * the bundle's manifests directory for `.clusterserviceversion.yaml` files: exactly one match is the answer.
   */
  function GetCsvFilePathFromBundle(matches: Result<seq<string>, string>): (r: Result<string, string>)
    ensures matches.Failure? ==> r == Failure("glob pattern is malformed: " + matches.error)
    ensures matches.Success? && |matches.value| == 0 ==>
      r == Failure("unable to find clusterserviceversion file in the bundle image: " + ErrNotExist)
    ensures matches.Success? && |matches.value| > 1 ==> r == Failure(MoreThanOneCsvError)
    ensures r.Success? <==> matches.Success? && |matches.value| == 1
    ensures r.Success? ==> matches.value == [r.value]
  {
    match matches
    case Failure(e) => Failure("glob pattern is malformed: " + e)
    case Success(found) =>
      if |found| == 0 then
        Failure("unable to find clusterserviceversion file in the bundle image: " + ErrNotExist)
      else if |found| > 1 then Failure(MoreThanOneCsvError)
      else Success(found[0])
  }

  // ---------------------------------------------------------------------
  // Supported install modes

  /** The map the loop of `GetSupportedInstallModes` builds from `modes`, in order. */
  function SupportedModes(modes: seq<InstallMode>): map<string, bool>
  {
    if |modes| == 0 then map[]
    else
      var installedModes := SupportedModes(modes[..|modes| - 1]);
      var v := modes[|modes| - 1];
      if v.supported then installedModes[v.modeType := true] else installedModes
  }

  /**
   * A type is a key exactly when some mode of that type is supported, and
   * every stored value is true.
   */
  lemma {:induction false} SupportedModesKeys(modes: seq<InstallMode>)
    ensures forall t :: t in SupportedModes(modes) <==>
      exists k :: 0 <= k < |modes| && modes[k].supported && modes[k].modeType == t
    ensures forall t :: t in SupportedModes(modes) ==> SupportedModes(modes)[t]
  {
    if |modes| > 0 {
      var init := modes[..|modes| - 1];
      SupportedModesKeys(init);
      forall t ensures t in SupportedModes(modes) <==>
        exists k :: 0 <= k < |modes| && modes[k].supported && modes[k].modeType == t
      {
        if t in SupportedModes(modes) && t in SupportedModes(init) {
          var k :| 0 <= k < |init| && init[k].supported && init[k].modeType == t;
          assert modes[k] == init[k];
        }
        if exists k :: 0 <= k < |modes| && modes[k].supported && modes[k].modeType == t {
          var k :| 0 <= k < |modes| && modes[k].supported && modes[k].modeType == t;
          if k < |init| { assert init[k] == modes[k]; }
        }
      }
    }
  }

  /** An unsupported mode adds no key. */
  lemma UnsupportedModeAddsNothing(modes: seq<InstallMode>, m: InstallMode)
    requires !m.supported
    ensures SupportedModes(modes + [m]) == SupportedModes(modes)
  {
    assert (modes + [m])[..|modes|] == modes;
  }

  /** Example: only the supported AllNamespaces mode appears. */
  lemma InstallModesExample()
    ensures SupportedModes([InstallMode("AllNamespaces", true), InstallMode("OwnNamespace", false)])
         == map["AllNamespaces" := true]
  {
    var modes := [InstallMode("AllNamespaces", true), InstallMode("OwnNamespace", false)];
    assert modes == [modes[0]] + [modes[1]];
    UnsupportedModeAddsNothing([modes[0]], modes[1]);
    assert [modes[0]][..0] == [];
  }

  /**
   * `GetSupportedInstallModes`: `csvBytes` is what reading the CSV produced,
   * `decoded` what YAML decoding of those bytes produced.
   */
  method GetSupportedInstallModes(csvBytes: Result<seq<byte>, string>, decoded: Result<ClusterServiceVersion, string>)
    returns (r: Result<map<string, bool>, string>)
    ensures csvBytes.Failure? ==> r == Failure("could not get CSV from reader: " + csvBytes.error)
    ensures csvBytes.Success? && decoded.Failure? ==> r == Failure("malformed CSV detected: " + decoded.error)
    ensures r.Success? <==> csvBytes.Success? && decoded.Success?
    ensures r.Success? ==> r.value == SupportedModes(decoded.value.spec.installModes)
    ensures r.Success? ==> forall t :: t in r.value ==> r.value[t]
    ensures r.Success? ==> forall t :: t in r.value <==>
      exists k :: 0 <= k < |decoded.value.spec.installModes|
        && decoded.value.spec.installModes[k].supported
        && decoded.value.spec.installModes[k].modeType == t
  {
    if csvBytes.Failure? {
      return Failure("could not get CSV from reader: " + csvBytes.error);
    }
    if decoded.Failure? {
      return Failure("malformed CSV detected: " + decoded.error);
    }
    var modes := decoded.value.spec.installModes;
    var installedModes: map<string, bool> := map[];
    for i := 0 to |modes|
      invariant installedModes == SupportedModes(modes[..i])
    {
      assert modes[..i + 1][..i] == modes[..i];
      if modes[i].supported {
        installedModes := installedModes[modes[i].modeType := true];
      }
    }
    assert modes[..|modes|] == modes;
    SupportedModesKeys(modes);
    return Success(installedModes);
  }

  // ---------------------------------------------------------------------
  // Validation options

  /** The options `Validate` passes once the annotations are read. */
  function ValidateOptionsFor(annotations: map<string, string>): BundleValidateOptions
  {
    var opts := BundleValidateOptions(["community", "operatorhub"], true, "none", "json-alpha1", None);
    if VersionsKey in annotations && IsTarget49OrGreater(annotations[VersionsKey]) then
      opts.(optionalValues := Some(map["k8s-version" := "1.22"]))
    else opts
  }

  /** The fixed options are always present. */
  lemma ValidateOptionsFixed(annotations: map<string, string>)
    ensures var opts := ValidateOptionsFor(annotations);
      opts.selector == ["community", "operatorhub"] && opts.verbose
      && opts.containerEngine == "none" && opts.outputFormat == "json-alpha1"
  {
  }

  /** `k8s-version=1.22` is set exactly when the versions label targets 4.9 or later; otherwise nothing is. */
  lemma ValidateOptionalValues(annotations: map<string, string>)
    ensures ValidateOptionsFor(annotations).optionalValues == Some(map["k8s-version" := "1.22"])
        <==> VersionsKey in annotations && IsTarget49OrGreater(annotations[VersionsKey])
    ensures ValidateOptionsFor(annotations).optionalValues.None?
        <==> !(VersionsKey in annotations && IsTarget49OrGreater(annotations[VersionsKey]))
  {
  }

  /** End to end: `=4.10` adds the option. */
  lemma ValidateExample410()
    ensures ValidateOptionsFor(map[VersionsKey := "=4.10"]).optionalValues == Some(map["k8s-version" := "1.22"])
  {
    ExampleExact410();
  }

  /** End to end: `=4.8` does not. */
  lemma ValidateExample48()
    ensures ValidateOptionsFor(map[VersionsKey := "=4.8"]).optionalValues.None?
  {
    ExampleExact48();
  }

  /**
   * `Validate`, up to the call of the external validator: either the
   * options handed to it, or the error returned without calling it.
   */
  method Validate(annotationsFile: AnnotationsFile, decoded: Result<map<string, string>, string>)
    returns (r: Result<BundleValidateOptions, string>)
    ensures annotationsFile.Unopenable? ==>
      r == Failure("could not open annotations.yaml: " + annotationsFile.reason)
    ensures annotationsFile.Opened? && GetAnnotations(annotationsFile.contents, decoded).Failure? ==>
      r == Failure("unable to get annotations.yaml from the bundle: "
        + GetAnnotations(annotationsFile.contents, decoded).error)
    ensures r.Success? <==> annotationsFile.Opened? && GetAnnotations(annotationsFile.contents, decoded).Success?
    ensures r.Success? ==> r.value == ValidateOptionsFor(decoded.value)
  {
    var selector := ["community", "operatorhub"];
    var opts := BundleValidateOptions(selector, true, "none", "json-alpha1", None);
    if annotationsFile.Unopenable? {
      return Failure("could not open annotations.yaml: " + annotationsFile.reason);
    }
    var annotations := GetAnnotations(annotationsFile.contents, decoded);
    if annotations.Failure? {
      return Failure("unable to get annotations.yaml from the bundle: " + annotations.error);
    }
    if VersionsKey in annotations.value {
      var versions := annotations.value[VersionsKey];
      if IsTarget49OrGreater(versions) {
        opts := opts.(optionalValues := Some(map[]));
        opts := opts.(optionalValues := Some(opts.optionalValues.value["k8s-version" := "1.22"]));
      }
    }
    return Success(opts);
  }
}
