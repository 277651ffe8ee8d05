/**
 * Report and Red Hat Connect URL helpers of the command-line layer. The
 * configured `pyxis_host` and the default Pyxis host are parameters.
 */
module Cmd {
  import opened StringUtil

  const ConnectPrefix: string := "https://connect."

  /** `s` ends with `suffix`. */
  predicate EndsWith(s: string, suffix: string)
  {
    |suffix| <= |s| && s[|s| - |suffix|..] == suffix
  }

  /** `s` starts with `prefix`. */
  predicate StartsWith(s: string, prefix: string)
  {
    |prefix| <= |s| && s[..|prefix|] == prefix
  }

  /** Appending text keeps a prefix and extends a suffix. */
  lemma AppendKeepsEnds(u: string, prefix: string, suffix: string, tail: string)
    requires StartsWith(u, prefix) && EndsWith(u, suffix)
    ensures StartsWith(u + tail, prefix) && EndsWith(u + tail, suffix + tail)
  {
    assert (u + tail)[..|prefix|] == u[..|prefix|];
    assert (u + tail)[|u + tail| - |suffix + tail|..] == u[|u| - |suffix|..] + tail;
  }

  /** `resultsFilenameWithExtension`: the results file name for an extension. */
  function ResultsFilenameWithExtension(ext: string): (r: string)
    ensures r == "results." + ext
  {
    assert ["results", ext][1..] == [ext];
    assert Join(["results", ext], ".") == "results" + "." + Join([ext], ".");
    assert "results" + "." + ext == "results." + ext;
    Join(["results", ext], ".")
  }

  /** `convertPassedOverall`: the overall verdict as report text. */
  function ConvertPassedOverall(passedOverall: bool): (r: string)
    ensures r == "PASSED" <==> passedOverall
    ensures r == "FAILED" <==> !passedOverall
  {
    if passedOverall then "PASSED" else "FAILED"
  }

  /**
   * `buildConnectURL`: the project page on Red Hat Connect; a non-default
   * Pyxis host with more than three dot-separated parts names the
   * environment in its second part.
   */
  function BuildConnectURL(projectID: string, pyxisHost: string, defaultPyxisHost: string): string
  {
    var connectURL := "https://connect.redhat.com/projects/" + projectID;
    var s := Split(pyxisHost, '.');
    if pyxisHost != defaultPyxisHost && |s| > 3 then
      var env := s[1];
      "https://connect." + env + ".redhat.com/projects/" + projectID
    else
      connectURL
  }

  /**
   * The default host, or a host with at most two dots, links to the
   * production Connect site.
   */
  lemma ConnectURLProduction(projectID: string, pyxisHost: string, defaultPyxisHost: string)
    requires pyxisHost == defaultPyxisHost || multiset(pyxisHost)['.'] <= 2
    ensures BuildConnectURL(projectID, pyxisHost, defaultPyxisHost)
         == "https://connect.redhat.com/projects/" + projectID
  {
    SplitCount(pyxisHost, '.');
  }

  /**
   * Any other host with at least three dots links to the environment named
   * by the text between its first and second dot.
   */
  lemma ConnectURLEnvironment(projectID: string, pyxisHost: string, defaultPyxisHost: string)
    requires pyxisHost != defaultPyxisHost && multiset(pyxisHost)['.'] >= 3
    ensures '.' in pyxisHost
    ensures var env := TakeUntil(pyxisHost[IndexOf(pyxisHost, '.') + 1..], '.');
      BuildConnectURL(projectID, pyxisHost, defaultPyxisHost)
        == "https://connect." + env + ".redhat.com/projects/" + projectID
  {
    assert '.' in multiset(pyxisHost);
    SplitCount(pyxisHost, '.');
    var s := Split(pyxisHost, '.');
    assert |s| > 3;
    assert BuildConnectURL(projectID, pyxisHost, defaultPyxisHost)
        == "https://connect." + s[1] + ".redhat.com/projects/" + projectID;
    SplitSecond(pyxisHost, '.');
  }

  lemma ConcatEnds(a: string, b: string)
    ensures StartsWith(a + b, a) && EndsWith(a + b, b)
  {
    assert (a + b)[..|a|] == a;
    assert (a + b)[|a|..] == b;
  }

  lemma StartsWithTrans(s: string, p: string, q: string)
    requires StartsWith(s, p) && StartsWith(p, q)
    ensures StartsWith(s, q)
  {
    assert s[..|q|] == s[..|p|][..|q|];
  }

  lemma EndsWithTrans(s: string, p: string, q: string)
    requires EndsWith(s, p) && EndsWith(p, q)
    ensures EndsWith(s, q)
  {
    assert s[|s| - |q|..] == s[|s| - |p|..][|p| - |q|..];
  }

  lemma ConnectLiterals()
    ensures StartsWith("https://connect.redhat.com/projects/", ConnectPrefix)
    ensures EndsWith("https://connect.redhat.com/projects/", "/projects/")
    ensures EndsWith(".redhat.com/projects/", "/projects/")
  {
  }

  /** Every Connect URL starts with `https://connect.` and ends with `/projects/` and the project. */
  lemma ConnectURLEnds(projectID: string, pyxisHost: string, defaultPyxisHost: string)
    ensures var r := BuildConnectURL(projectID, pyxisHost, defaultPyxisHost);
      StartsWith(r, ConnectPrefix) && EndsWith(r, "/projects/" + projectID)
  {
    var r := BuildConnectURL(projectID, pyxisHost, defaultPyxisHost);
    ConnectLiterals();
    SplitCount(pyxisHost, '.');
    if pyxisHost == defaultPyxisHost || multiset(pyxisHost)['.'] <= 2 {
      ConnectURLProduction(projectID, pyxisHost, defaultPyxisHost);
      AppendKeepsEnds("https://connect.redhat.com/projects/", ConnectPrefix, "/projects/", projectID);
    } else {
      ConnectURLEnvironment(projectID, pyxisHost, defaultPyxisHost);
      var env := TakeUntil(pyxisHost[IndexOf(pyxisHost, '.') + 1..], '.');
      var middle := ".redhat.com/projects/";
      var head := ConnectPrefix + env + middle;
      ConcatEnds(ConnectPrefix, env);
      AppendKeepsEnds(ConnectPrefix + env, ConnectPrefix, env, middle);
      ConcatEnds(ConnectPrefix + env, middle);
      EndsWithTrans(head, middle, "/projects/");
      AppendKeepsEnds(head, ConnectPrefix, "/projects/", projectID);
      assert r == head + projectID;
    }
  }

  /** `buildOverviewURL`: the project's overview page. */
  function BuildOverviewURL(projectID: string, pyxisHost: string, defaultPyxisHost: string): string
  {
    BuildConnectURL(projectID, pyxisHost, defaultPyxisHost) + "/overview"
  }

  /** `buildScanResultsURL`: the scan results page of one image of the project. */
  function BuildScanResultsURL(projectID: string, imageID: string, pyxisHost: string, defaultPyxisHost: string)
    : string
  {
    BuildConnectURL(projectID, pyxisHost, defaultPyxisHost) + "/images/" + imageID + "/scan-results"
  }

  /** Both pages are Connect URLs below the project's URL. */
  lemma ProjectPages(projectID: string, imageID: string, pyxisHost: string, defaultPyxisHost: string)
    ensures var r := BuildOverviewURL(projectID, pyxisHost, defaultPyxisHost);
      StartsWith(r, ConnectPrefix) && EndsWith(r, "/projects/" + projectID + "/overview")
    ensures var r := BuildScanResultsURL(projectID, imageID, pyxisHost, defaultPyxisHost);
      StartsWith(r, ConnectPrefix)
      && EndsWith(r, "/projects/" + projectID + "/images/" + imageID + "/scan-results")
  {
    var u := BuildConnectURL(projectID, pyxisHost, defaultPyxisHost);
    var tail := "/images/" + imageID + "/scan-results";
    ConnectURLEnds(projectID, pyxisHost, defaultPyxisHost);
    AppendKeepsEnds(u, ConnectPrefix, "/projects/" + projectID, "/overview");
    AppendKeepsEnds(u, ConnectPrefix, "/projects/" + projectID, tail);
    assert u + "/images/" + imageID + "/scan-results" == u + tail;
    assert "/projects/" + projectID + "/images/" + imageID + "/scan-results" == "/projects/" + projectID + tail;
  }

  /** On the production site both pages sit under the production project URL. */
  lemma ProductionPages(projectID: string, imageID: string, pyxisHost: string, defaultPyxisHost: string)
    requires pyxisHost == defaultPyxisHost || multiset(pyxisHost)['.'] <= 2
    ensures BuildOverviewURL(projectID, pyxisHost, defaultPyxisHost)
         == "https://connect.redhat.com/projects/" + projectID + "/overview"
    ensures BuildScanResultsURL(projectID, imageID, pyxisHost, defaultPyxisHost)
         == "https://connect.redhat.com/projects/" + projectID + "/images/" + imageID + "/scan-results"
  {
    ConnectURLProduction(projectID, pyxisHost, defaultPyxisHost);
  }
}
