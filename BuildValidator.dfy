/**
 * The build validator: a checklist over a fixed manifest of files and
 * directories plus substring checks on the HTML, CSS and JavaScript text,
 * ending in exit status 1 when anything failed. The file system is an
 * abstract map from path to entry; console output is the list of verdicts.
 */
module BuildValidator {
  import opened JsSemantics
  import Lists

  /** A path that exists: a regular file whose text can or cannot be read, or a directory. */
  datatype Entry = File(content: Option<string>) | Directory

  /** Paths that are absent are not in the map. */
  type FileSystem = map<string, Entry>

  /** The script's exported `config`: the manifest it checks. */
  datatype Config = Config(requiredFiles: seq<string>, requiredDirectories: seq<string>, imageExtensions: seq<string>)

  const RequiredFiles: seq<string> := [
    "index.html", "news.html", "staff.html", "videos.html", "network.html",
    "style.css", "js/data.js", "js/utils.js"]

  const RequiredDirectories: seq<string> := ["img", "logos", "staff", "staff/avatars", "news"]

  const SiteConfig := Config(RequiredFiles, RequiredDirectories, [".jpg", ".jpeg", ".png", ".gif", ".svg", ".webp"])

  /** `checkFile`: the path exists and is a regular file. */
  function CheckFile(fs: FileSystem, path: string): (ok: bool)
    ensures ok <==> path in fs && fs[path].File?
  {
    if path in fs then
      match fs[path]
      case File(_) => true
      case Directory => false
    else false
  }

  /** `checkDirectory`: the path exists and is a directory. */
  function CheckDirectory(fs: FileSystem, path: string): (ok: bool)
    ensures ok <==> path in fs && fs[path].Directory?
  {
    if path in fs then
      match fs[path]
      case File(_) => false
      case Directory => true
    else false
  }

  /** `fs.readFileSync(path, 'utf8')`: fails on an absent path, a directory or an unreadable file. */
  function ReadFile(fs: FileSystem, path: string): (r: Option<string>)
    ensures r.Some? ==> CheckFile(fs, path)
  {
    if path in fs && fs[path].File? then fs[path].content else None
  }

  /** One content check: it fails unless every needle occurs, or fails when `present` occurs and `absent` does not. */
  datatype Check =
    | AllOf(needles: seq<string>, message: string)
    | Suspicious(present: string, absent: string, message: string)

  predicate Fails(check: Check, content: string) {
    match check
    case AllOf(needles, _) => exists k :: 0 <= k < |needles| && !Includes(content, needles[k])
    case Suspicious(present, absent, _) => Includes(content, present) && !Includes(content, absent)
  }

  /** The issue a single check contributes. */
  function IssueOf(check: Check, content: string): seq<string> {
    if Fails(check, content) then [check.message] else []
  }

  /** The messages of the failed checks, in the order of the checks. */
  function Issues(checks: seq<Check>, content: string): seq<string> {
    if checks == [] then []
    else Issues(checks[..|checks| - 1], content) + IssueOf(checks[|checks| - 1], content)
  }

  /** One issue per failed check, and none exactly when every check passes. */
  lemma {:induction false} IssuesCountFailures(checks: seq<Check>, content: string)
    ensures |Issues(checks, content)| <= |checks|
    ensures Issues(checks, content) == [] <==> forall k :: 0 <= k < |checks| ==> !Fails(checks[k], content)
  {
    if checks != [] {
      var init := checks[..|checks| - 1];
      IssuesCountFailures(init, content);
      assert forall k :: 0 <= k < |init| ==> checks[k] == init[k];
    }
  }

  lemma {:induction false} FailsOne(needle: string, message: string, content: string)
    ensures Fails(AllOf([needle], message), content) <==> !Includes(content, needle)
  {
    if !Includes(content, needle) {
      assert !Includes(content, [needle][0]);
    }
  }

  lemma {:induction false} FailsTwo(first: string, second: string, message: string, content: string)
    ensures Fails(AllOf([first, second], message), content) <==> !Includes(content, first) || !Includes(content, second)
  {
    if !Includes(content, first) {
      assert !Includes(content, [first, second][0]);
    } else if !Includes(content, second) {
      assert !Includes(content, [first, second][1]);
    }
  }

  /** The issue list of a prefix of the checks grows by one check at a time. */
  lemma {:induction false} IssuesStep(checks: seq<Check>, k: nat, content: string)
    requires k < |checks|
    ensures Issues(checks[..k + 1], content) ==
      Issues(checks[..k], content) + IssueOf(checks[k], content)
  {
    assert checks[..k + 1][..k] == checks[..k];
  }

  const HtmlChecks: seq<Check> := [
    AllOf(["<!DOCTYPE html>"], "Missing DOCTYPE declaration"),
    AllOf(["<html"], "Missing <html> tag"),
    AllOf(["<head>"], "Missing <head> tag"),
    AllOf(["<body>"], "Missing <body> tag"),
    AllOf(["viewport"], "Missing viewport meta tag"),
    AllOf(["style.css"], "Missing style.css link"),
    AllOf(["data.js", "utils.js"], "Missing JavaScript includes")]

  const CssChecks: seq<Check> := [
    AllOf([":root"], "Missing CSS variables (--brick, etc.)"),
    AllOf(["@media"], "Missing responsive design rules")]

  const JsChecks: seq<Check> := [
    Suspicious("function", "{", "Potential syntax error in function definition")]

  /** The page has every structural piece and every include the site needs. */
  predicate HtmlWellFormed(content: string) {
    && Includes(content, "<!DOCTYPE html>")
    && Includes(content, "<html")
    && Includes(content, "<head>")
    && Includes(content, "<body>")
    && Includes(content, "viewport")
    && Includes(content, "style.css")
    && Includes(content, "data.js")
    && Includes(content, "utils.js")
  }

  predicate CssWellFormed(content: string) {
    Includes(content, ":root") && Includes(content, "@media")
  }

  /** The crude brace heuristic: text that mentions `function` must contain a `{`. */
  predicate JsWellFormed(content: string) {
    !(Includes(content, "function") && !Includes(content, "{"))
  }

  /** What each HTML check tests. */
  lemma {:induction false} HtmlChecksTest(content: string)
    ensures Fails(HtmlChecks[0], content) <==> !Includes(content, "<!DOCTYPE html>")
    ensures Fails(HtmlChecks[1], content) <==> !Includes(content, "<html")
    ensures Fails(HtmlChecks[2], content) <==> !Includes(content, "<head>")
    ensures Fails(HtmlChecks[3], content) <==> !Includes(content, "<body>")
    ensures Fails(HtmlChecks[4], content) <==> !Includes(content, "viewport")
    ensures Fails(HtmlChecks[5], content) <==> !Includes(content, "style.css")
    ensures Fails(HtmlChecks[6], content) <==> !Includes(content, "data.js") || !Includes(content, "utils.js")
  {
    FailsOne("<!DOCTYPE html>", "Missing DOCTYPE declaration", content);
    FailsOne("<html", "Missing <html> tag", content);
    FailsOne("<head>", "Missing <head> tag", content);
    FailsOne("<body>", "Missing <body> tag", content);
    FailsOne("viewport", "Missing viewport meta tag", content);
    FailsOne("style.css", "Missing style.css link", content);
    FailsTwo("data.js", "utils.js", "Missing JavaScript includes", content);
  }

  /** The issue list of seven checks, one check after the other. */
  lemma {:induction false} IssuesOfSeven(checks: seq<Check>, content: string)
    requires |checks| == 7
    ensures Issues(checks, content) ==
      IssueOf(checks[0], content) + IssueOf(checks[1], content) + IssueOf(checks[2], content)
      + IssueOf(checks[3], content) + IssueOf(checks[4], content) + IssueOf(checks[5], content)
      + IssueOf(checks[6], content)
  {
    var i0, i1, i2, i3 := IssueOf(checks[0], content), IssueOf(checks[1], content), IssueOf(checks[2], content), IssueOf(checks[3], content);
    var i4, i5, i6 := IssueOf(checks[4], content), IssueOf(checks[5], content), IssueOf(checks[6], content);
    assert Issues(checks[..1], content) == i0 by {
      assert checks[..0] == [];
      IssuesStep(checks, 0, content);
    }
    assert Issues(checks[..2], content) == i0 + i1 by { IssuesStep(checks, 1, content); }
    assert Issues(checks[..3], content) == i0 + i1 + i2 by { IssuesStep(checks, 2, content); }
    assert Issues(checks[..4], content) == i0 + i1 + i2 + i3 by { IssuesStep(checks, 3, content); }
    assert Issues(checks[..5], content) == i0 + i1 + i2 + i3 + i4 by { IssuesStep(checks, 4, content); }
    assert Issues(checks[..6], content) == i0 + i1 + i2 + i3 + i4 + i5 by { IssuesStep(checks, 5, content); }
    assert Issues(checks[..7], content) == i0 + i1 + i2 + i3 + i4 + i5 + i6 by { IssuesStep(checks, 6, content); }
    assert checks[..7] == checks;
  }

  /** The HTML checks pass exactly when the page is well formed. */
  lemma {:induction false} HtmlIssuesEmptyIff(content: string)
    ensures Issues(HtmlChecks, content) == [] <==> HtmlWellFormed(content)
  {
    HtmlChecksTest(content);
    IssuesCountFailures(HtmlChecks, content);
  }

  /** The HTML issue list spelled out: one message per failed check, in the order of the checks. */
  lemma {:induction false} HtmlIssuesInOrder(content: string)
    ensures Issues(HtmlChecks, content) ==
      (if !Includes(content, "<!DOCTYPE html>") then ["Missing DOCTYPE declaration"] else [])
      + (if !Includes(content, "<html") then ["Missing <html> tag"] else [])
      + (if !Includes(content, "<head>") then ["Missing <head> tag"] else [])
      + (if !Includes(content, "<body>") then ["Missing <body> tag"] else [])
      + (if !Includes(content, "viewport") then ["Missing viewport meta tag"] else [])
      + (if !Includes(content, "style.css") then ["Missing style.css link"] else [])
      + (if !Includes(content, "data.js") || !Includes(content, "utils.js") then ["Missing JavaScript includes"] else [])
  {
    HtmlChecksTest(content);
    IssuesOfSeven(HtmlChecks, content);
  }

  /** `if (failed) issues.push(message)`. */
  method PushIf(issues: seq<string>, failed: bool, message: string) returns (r: seq<string>)
    ensures r == issues + if failed then [message] else []
    ensures failed <==> |r| == |issues| + 1
  {
    r := issues;
    if failed {
      r := r + [message];
    }
  }

  /** Pushing the verdict of check `k` onto the issues of the checks before it gives the issues of the first `k + 1`. */
  lemma {:induction false} PushStep(checks: seq<Check>, k: nat, content: string, issues: seq<string>, failed: bool, r: seq<string>)
    requires k < |checks| && issues == Issues(checks[..k], content)
    requires failed <==> Fails(checks[k], content)
    requires r == issues + if failed then [checks[k].message] else []
    ensures r == Issues(checks[..k + 1], content)
  {
    IssuesStep(checks, k, content);
  }

  /** `PushStep` for a check on one needle. */
  lemma {:induction false} PushOne(checks: seq<Check>, k: nat, content: string, issues: seq<string>, needle: string, r: seq<string>)
    requires k < |checks| && checks[k].AllOf? && checks[k].needles == [needle]
    requires issues == Issues(checks[..k], content)
    requires r == issues + if !Includes(content, needle) then [checks[k].message] else []
    ensures r == Issues(checks[..k + 1], content)
  {
    FailsOne(needle, checks[k].message, content);
    PushStep(checks, k, content, issues, !Includes(content, needle), r);
  }

  /** `PushStep` for a check on two needles. */
  lemma {:induction false} PushTwo(checks: seq<Check>, k: nat, content: string, issues: seq<string>, first: string, second: string, r: seq<string>)
    requires k < |checks| && checks[k].AllOf? && checks[k].needles == [first, second]
    requires issues == Issues(checks[..k], content)
    requires r == issues + if !Includes(content, first) || !Includes(content, second) then [checks[k].message] else []
    ensures r == Issues(checks[..k + 1], content)
  {
    FailsTwo(first, second, checks[k].message, content);
    PushStep(checks, k, content, issues, !Includes(content, first) || !Includes(content, second), r);
  }

  /** The issues pushed by the first four HTML checks: the document structure. */
  method HtmlStructureIssues(content: string) returns (issues: seq<string>)
    ensures issues == Issues(HtmlChecks[..4], content)
  {
    ghost var prev: seq<string> := [];
    assert HtmlChecks[..0] == [];
    issues := PushIf([], !Includes(content, "<!DOCTYPE html>"), "Missing DOCTYPE declaration");
    PushOne(HtmlChecks, 0, content, prev, "<!DOCTYPE html>", issues);
    prev := issues;
    issues := PushIf(issues, !Includes(content, "<html"), "Missing <html> tag");
    PushOne(HtmlChecks, 1, content, prev, "<html", issues);
    prev := issues;
    issues := PushIf(issues, !Includes(content, "<head>"), "Missing <head> tag");
    PushOne(HtmlChecks, 2, content, prev, "<head>", issues);
    prev := issues;
    issues := PushIf(issues, !Includes(content, "<body>"), "Missing <body> tag");
    PushOne(HtmlChecks, 3, content, prev, "<body>", issues);
  }

  /** The issue list of `validateHTML`, built one check at a time as `validateHTML` builds it. */
  method HtmlIssues(content: string) returns (issues: seq<string>)
    ensures issues == Issues(HtmlChecks, content)
  {
    issues := HtmlStructureIssues(content);
    ghost var prev := issues;
    issues := PushIf(issues, !Includes(content, "viewport"), "Missing viewport meta tag");
    PushOne(HtmlChecks, 4, content, prev, "viewport", issues);
    prev := issues;
    issues := PushIf(issues, !Includes(content, "style.css"), "Missing style.css link");
    PushOne(HtmlChecks, 5, content, prev, "style.css", issues);
    prev := issues;
    issues := PushIf(issues, !Includes(content, "data.js") || !Includes(content, "utils.js"), "Missing JavaScript includes");
    PushTwo(HtmlChecks, 6, content, prev, "data.js", "utils.js", issues);
    assert HtmlChecks[..7] == HtmlChecks;
  }

  /** What each CSS check and the JavaScript check test. */
  lemma {:induction false} CssAndJsChecksTest(content: string)
    ensures Issues(CssChecks, content) ==
      (if !Includes(content, ":root") then ["Missing CSS variables (--brick, etc.)"] else [])
      + (if !Includes(content, "@media") then ["Missing responsive design rules"] else [])
    ensures Issues(JsChecks, content) ==
      if Includes(content, "function") && !Includes(content, "{") then ["Potential syntax error in function definition"] else []
  {
    FailsOne(":root", "Missing CSS variables (--brick, etc.)", content);
    FailsOne("@media", "Missing responsive design rules", content);
    assert CssChecks[..0] == [];
    IssuesStep(CssChecks, 0, content);
    IssuesStep(CssChecks, 1, content);
    assert CssChecks[..2] == CssChecks;
    assert JsChecks[..0] == [];
  }

  /** The issue list of `validateCSS`. */
  method CssIssues(content: string) returns (issues: seq<string>)
    ensures issues == Issues(CssChecks, content)
  {
    CssAndJsChecksTest(content);
    issues := [];
    if !Includes(content, ":root") {
      issues := issues + ["Missing CSS variables (--brick, etc.)"];
    }
    if !Includes(content, "@media") {
      issues := issues + ["Missing responsive design rules"];
    }
  }

  /** The issue list of `validateJavaScript`. */
  method JsIssues(content: string) returns (issues: seq<string>)
    ensures issues == Issues(JsChecks, content)
  {
    CssAndJsChecksTest(content);
    issues := [];
    if Includes(content, "function") && !Includes(content, "{") {
      issues := issues + ["Potential syntax error in function definition"];
    }
  }

  /** The file reads and is a well-formed page. */
  predicate HtmlValid(fs: FileSystem, path: string) {
    ReadFile(fs, path).Some? && HtmlWellFormed(ReadFile(fs, path).value)
  }

  predicate CssValid(fs: FileSystem, path: string) {
    ReadFile(fs, path).Some? && CssWellFormed(ReadFile(fs, path).value)
  }

  predicate JsValid(fs: FileSystem, path: string) {
    ReadFile(fs, path).Some? && JsWellFormed(ReadFile(fs, path).value)
  }

  /** `validateHTML`: true exactly when the file reads and contains every required piece; a read error gives false. */
  method ValidateHTML(fs: FileSystem, path: string) returns (ok: bool)
    ensures ok <==> HtmlValid(fs, path)
    ensures ok ==> CheckFile(fs, path)
  {
    var read := ReadFile(fs, path);
    if read.None? {
      return false;
    }
    var issues := HtmlIssues(read.value);
    HtmlIssuesEmptyIff(read.value);
    ok := |issues| == 0;
  }

  /** `validateCSS`: true exactly when the file reads and has both a `:root` block and a media query. */
  method ValidateCSS(fs: FileSystem, path: string) returns (ok: bool)
    ensures ok <==> CssValid(fs, path)
    ensures ok ==> CheckFile(fs, path)
  {
    var read := ReadFile(fs, path);
    if read.None? {
      return false;
    }
    var issues := CssIssues(read.value);
    CssAndJsChecksTest(read.value);
    ok := |issues| == 0;
  }

  /** `validateJavaScript`: false exactly when the file does not read, or mentions `function` without any `{`. */
  method ValidateJavaScript(fs: FileSystem, path: string) returns (ok: bool)
    ensures ok <==> JsValid(fs, path)
    ensures ok ==> CheckFile(fs, path)
  {
    var read := ReadFile(fs, path);
    if read.None? {
      return false;
    }
    var issues := JsIssues(read.value);
    CssAndJsChecksTest(read.value);
    ok := |issues| == 0;
  }

  /** `file.endsWith('.html')` */
  predicate IsHtmlFile(path: string) {
    EndsWith(path, ".html")
  }

  /** `file.endsWith('.js')` */
  predicate IsJsFile(path: string) {
    EndsWith(path, ".js")
  }

  /** The pages the validator checks: the manifest's entries ending in `.html`. */
  function HtmlFiles(config: Config): seq<string> {
    Lists.Filter(config.requiredFiles, IsHtmlFile)
  }

  /** The scripts the validator checks: the manifest's entries ending in `.js`. */
  function JsFiles(config: Config): seq<string> {
    Lists.Filter(config.requiredFiles, IsJsFile)
  }

  /** The first five manifest entries are the pages. */
  lemma PagesEndInHtml()
    ensures forall i :: 0 <= i < 5 ==> IsHtmlFile(RequiredFiles[i])
    ensures forall i :: 5 <= i < |RequiredFiles| ==> !IsHtmlFile(RequiredFiles[i])
  {
    forall i | 0 <= i < |RequiredFiles|
      ensures IsHtmlFile(RequiredFiles[i]) <==> i < 5
    {
      assert i == 0 || i == 1 || i == 2 || i == 3 || i == 4 || i == 5 || i == 6 || i == 7;
    }
  }

  /** The last two manifest entries are the scripts. */
  lemma ScriptsEndInJs()
    ensures forall i :: 0 <= i < 6 ==> !IsJsFile(RequiredFiles[i])
    ensures forall i :: 6 <= i < |RequiredFiles| ==> IsJsFile(RequiredFiles[i])
  {
    forall i | 0 <= i < |RequiredFiles|
      ensures IsJsFile(RequiredFiles[i]) <==> 6 <= i
    {
      assert i == 0 || i == 1 || i == 2 || i == 3 || i == 4 || i == 5 || i == 6 || i == 7;
    }
  }

  /** The `.html` filter keeps the five pages, in manifest order. */
  lemma HtmlFilesAre()
    ensures HtmlFiles(SiteConfig) == RequiredFiles[..5]
  {
    PagesEndInHtml();
    Lists.FilterKeepsPrefix(RequiredFiles, 5, IsHtmlFile);
  }

  /** The `.js` filter keeps the two scripts, in manifest order. */
  lemma JsFilesAre()
    ensures JsFiles(SiteConfig) == RequiredFiles[6..]
  {
    ScriptsEndInJs();
    Lists.FilterKeepsSuffix(RequiredFiles, 6, IsJsFile);
  }

  /** The stages of `main`, in the order it runs them. */
  datatype Stage = RequiredFile | RequiredDirectory | Page | Stylesheet | Script

  /** One line of the console report: what was checked, and whether it passed. */
  datatype Verdict = Verdict(stage: Stage, path: string, passed: bool)

  /** What each stage demands of a path. */
  predicate Passes(fs: FileSystem, stage: Stage, path: string) {
    match stage
    case RequiredFile => CheckFile(fs, path)
    case RequiredDirectory => CheckDirectory(fs, path)
    case Page => HtmlValid(fs, path)
    case Stylesheet => CssValid(fs, path)
    case Script => JsValid(fs, path)
  }

  /** The verdicts of one stage over its paths, in order. */
  function StageReport(fs: FileSystem, stage: Stage, paths: seq<string>): seq<Verdict> {
    seq(|paths|, i requires 0 <= i < |paths| => Verdict(stage, paths[i], Passes(fs, stage, paths[i])))
  }

  /** Everything `main` prints a verdict for, in the order it prints them. */
  function Report(fs: FileSystem, config: Config): seq<Verdict> {
    StageReport(fs, RequiredFile, config.requiredFiles)
    + StageReport(fs, RequiredDirectory, config.requiredDirectories)
    + StageReport(fs, Page, HtmlFiles(config))
    + StageReport(fs, Stylesheet, ["style.css"])
    + StageReport(fs, Script, JsFiles(config))
  }

  predicate AllPassed(report: seq<Verdict>) {
    forall i :: 0 <= i < |report| ==> report[i].passed
  }

  /** Every path of the list passes the stage's check. */
  predicate StagePasses(fs: FileSystem, stage: Stage, paths: seq<string>) {
    forall i :: 0 <= i < |paths| ==> Passes(fs, stage, paths[i])
  }

  /** The site is ready: every required file and directory exists and every page, the stylesheet and every script passes. */
  predicate ReadyForDeployment(fs: FileSystem, config: Config) {
    && StagePasses(fs, RequiredFile, config.requiredFiles)
    && StagePasses(fs, RequiredDirectory, config.requiredDirectories)
    && StagePasses(fs, Page, HtmlFiles(config))
    && CssValid(fs, "style.css")
    && StagePasses(fs, Script, JsFiles(config))
  }

  /** Runs the check of one stage on one path, as the matching function of the build script does. */
  method RunCheck(fs: FileSystem, stage: Stage, path: string) returns (ok: bool)
    ensures ok == Passes(fs, stage, path)
  {
    match stage
    case RequiredFile => ok := CheckFile(fs, path);
    case RequiredDirectory => ok := CheckDirectory(fs, path);
    case Page => ok := ValidateHTML(fs, path);
    case Stylesheet => ok := ValidateCSS(fs, path);
    case Script => ok := ValidateJavaScript(fs, path);
  }

  /** One `forEach` of `main`: checks every path in order and clears the flag on any failure. */
  method RunStage(fs: FileSystem, stage: Stage, paths: seq<string>, allPassed: bool)
    returns (verdicts: seq<Verdict>, stillPassed: bool)
    ensures verdicts == StageReport(fs, stage, paths)
    ensures stillPassed <==> allPassed && StagePasses(fs, stage, paths)
  {
    verdicts, stillPassed := [], allPassed;
    for i := 0 to |paths|
      invariant |verdicts| == i
      invariant forall k :: 0 <= k < i ==> verdicts[k] == Verdict(stage, paths[k], Passes(fs, stage, paths[k]))
      invariant stillPassed <==> allPassed && forall k :: 0 <= k < i ==> Passes(fs, stage, paths[k])
    {
      var ok := RunCheck(fs, stage, paths[i]);
      if !ok {
        stillPassed := false;
      }
      verdicts := verdicts + [Verdict(stage, paths[i], ok)];
    }
  }

  /**
   * `main`: every stage runs whatever the earlier ones found, and the exit
   * status is 1 exactly when some check failed (0, the normal exit, otherwise).
   */
  method RunValidation(fs: FileSystem, config: Config) returns (report: seq<Verdict>, exitCode: int)
    ensures report == Report(fs, config)
    ensures exitCode == if ReadyForDeployment(fs, config) then 0 else 1
  {
    var allPassed := true;
    var files, dirs, pages, css, scripts;
    files, allPassed := RunStage(fs, RequiredFile, config.requiredFiles, allPassed);
    dirs, allPassed := RunStage(fs, RequiredDirectory, config.requiredDirectories, allPassed);
    pages, allPassed := RunStage(fs, Page, HtmlFiles(config), allPassed);
    var cssOk := ValidateCSS(fs, "style.css");
    if !cssOk {
      allPassed := false;
    }
    css := [Verdict(Stylesheet, "style.css", cssOk)];
    scripts, allPassed := RunStage(fs, Script, JsFiles(config), allPassed);
    report := files + dirs + pages + css + scripts;
    exitCode := if allPassed then 0 else 1;
  }

  lemma {:induction false} AllPassedConcat(a: seq<Verdict>, b: seq<Verdict>)
    ensures AllPassed(a + b) <==> AllPassed(a) && AllPassed(b)
  {
    if AllPassed(a) && AllPassed(b) {
      forall i | 0 <= i < |a + b| ensures (a + b)[i].passed {
        if i >= |a| {
          assert (a + b)[i] == b[i - |a|];
        }
      }
    }
    if AllPassed(a + b) {
      forall i | 0 <= i < |a| ensures a[i].passed {
        assert (a + b)[i] == a[i];
      }
      forall i | 0 <= i < |b| ensures b[i].passed {
        assert (a + b)[|a| + i] == b[i];
      }
    }
  }

  /** A stage's verdicts all pass exactly when every path passes. */
  lemma {:induction false} StageReportPasses(fs: FileSystem, stage: Stage, paths: seq<string>)
    ensures AllPassed(StageReport(fs, stage, paths)) <==> StagePasses(fs, stage, paths)
  {
    var r := StageReport(fs, stage, paths);
    assert forall i :: 0 <= i < |r| ==> r[i].passed == Passes(fs, stage, paths[i]);
  }

  /** The exit status and the report agree: the site is ready exactly when every verdict passed. */
  lemma {:induction false} ReadyIffAllPassed(fs: FileSystem, config: Config)
    ensures ReadyForDeployment(fs, config) <==> AllPassed(Report(fs, config))
  {
    var a := StageReport(fs, RequiredFile, config.requiredFiles);
    var b := StageReport(fs, RequiredDirectory, config.requiredDirectories);
    var c := StageReport(fs, Page, HtmlFiles(config));
    var d := StageReport(fs, Stylesheet, ["style.css"]);
    var e := StageReport(fs, Script, JsFiles(config));
    assert Report(fs, config) == a + b + c + d + e;
    assert StagePasses(fs, Stylesheet, ["style.css"]) <==> CssValid(fs, "style.css") by {
      assert ["style.css"][0] == "style.css";
    }
    AllPassedConcat(a, b);
    AllPassedConcat(a + b, c);
    AllPassedConcat(a + b + c, d);
    AllPassedConcat(a + b + c + d, e);
    StageReportPasses(fs, RequiredFile, config.requiredFiles);
    StageReportPasses(fs, RequiredDirectory, config.requiredDirectories);
    StageReportPasses(fs, Page, HtmlFiles(config));
    StageReportPasses(fs, Stylesheet, ["style.css"]);
    StageReportPasses(fs, Script, JsFiles(config));
  }

  /** For the site's manifest every check runs: eight files, five directories, five pages, the stylesheet and two scripts. */
  lemma {:induction false} SiteReportCoversManifest(fs: FileSystem)
    ensures |Report(fs, SiteConfig)| == 21
  {
    HtmlFilesAre();
    JsFilesAre();
  }

  /** A required file that is missing, or is a directory, shows as a failed verdict and fails the build. */
  lemma {:induction false} MissingFileFailsBuild(fs: FileSystem, config: Config, i: nat)
    requires i < |config.requiredFiles|
    requires !CheckFile(fs, config.requiredFiles[i])
    ensures Report(fs, config)[i] == Verdict(RequiredFile, config.requiredFiles[i], false)
    ensures !ReadyForDeployment(fs, config)
  {
  }
}
