/** The HTML half of `generateAuditPDF`: a pure function from the audit id and the
    findings to the page handed to the headless browser, and the path of the PDF it writes
    and returns. Rendering the PDF is not modelled. */
module PdfHelper {
  import opened Strings

  /** A JavaScript number as it arrives from the parsed model reply. */
  type Number = real

  datatype Vulnerability = Vulnerability(severity: string, line: Number, issue: string, recommendation: string)
  datatype Suggestion = Suggestion(line: Number, description: string, estimatedSavings: Number)
  datatype GasOptimizations = GasOptimizations(estimatedGas: Number, suggestions: seq<Suggestion>)
  datatype AuditData = AuditData(vulnerabilities: seq<Vulnerability>, gasOptimizations: GasOptimizations)

  /** How the template turns numbers into text: `${n}` and `n.toLocaleString()`; both
      depend on the JavaScript engine and its locale, so they are parameters. */
  datatype NumberFormat = NumberFormat(interpolate: Number -> string, localeString: Number -> string)

  // ---------------------------------------------------------------- case mapping

  /** `toLowerCase` on one character; only ASCII letters are modelled. */
  function LowerChar(c: char): char
  {
    if 'A' <= c <= 'Z' then (c as int + 32) as char else c
  }

  /** `toUpperCase` on one character; only ASCII letters are modelled. */
  function UpperChar(c: char): char
  {
    if 'a' <= c <= 'z' then (c as int - 32) as char else c
  }

  /** `toLowerCase`: no upper-case letter is left, every other character stays, and each
      changed character is its upper-case letter moved to the lower-case range. */
  function LowerCase(s: string): (r: string)
    ensures |r| == |s|
    ensures forall i :: 0 <= i < |r| ==> !('A' <= r[i] <= 'Z')
    ensures forall i :: 0 <= i < |s| && !('A' <= s[i] <= 'Z') ==> r[i] == s[i]
    ensures forall i :: 0 <= i < |s| && r[i] != s[i] ==> 'A' <= s[i] <= 'Z' && r[i] as int == s[i] as int + 32
  {
    seq(|s|, i requires 0 <= i < |s| => LowerChar(s[i]))
  }

  /** `toUpperCase`: no lower-case letter is left, every other character stays, and each
      changed character is its lower-case letter moved to the upper-case range. */
  function UpperCase(s: string): (r: string)
    ensures |r| == |s|
    ensures forall i :: 0 <= i < |r| ==> !('a' <= r[i] <= 'z')
    ensures forall i :: 0 <= i < |s| && !('a' <= s[i] <= 'z') ==> r[i] == s[i]
    ensures forall i :: 0 <= i < |s| && r[i] != s[i] ==> 'a' <= s[i] <= 'z' && r[i] as int == s[i] as int - 32
  {
    seq(|s|, i requires 0 <= i < |s| => UpperChar(s[i]))
  }

  /** Lower-casing twice is lower-casing once, and the same for upper-casing. */
  lemma CaseMappingIdempotent(s: string)
    ensures LowerCase(LowerCase(s)) == LowerCase(s)
    ensures UpperCase(UpperCase(s)) == UpperCase(s)
  {
  }

  /** The label does not depend on how the severity was cased. */
  lemma UpperCaseIgnoresCase(s: string, t: string)
    requires LowerCase(s) == LowerCase(t)
    ensures UpperCase(s) == UpperCase(t)
  {
    forall i | 0 <= i < |s| ensures UpperChar(s[i]) == UpperChar(t[i]) {
      assert LowerChar(s[i]) == LowerChar(t[i]);
    }
  }

  /** The CSS class and the label name the same severity: lowering the label gives the class. */
  lemma ClassMatchesLabel(s: string)
    ensures LowerCase(UpperCase(s)) == LowerCase(s)
  {
  }

  // ---------------------------------------------------------------- the page

  const Opening := "\n    <html>\n    <head>\n      " + StyleSheet + "\n    </head>\n    <body>\n      "

  /** The style element, as the template has it. */
  const StyleSheet := @"<style>
        body { 
          font-family: Arial, sans-serif; 
          padding: 30px; 
          color: #2d3748;
          line-height: 1.6;
        }
        h1 { 
          color: #1a202c; 
          text-align: center;
          margin-bottom: 30px;
        }
        h2 { 
          color: #2b6cb0; 
          margin-top: 40px;
          margin-bottom: 20px;
          border-bottom: 2px solid #e2e8f0;
          padding-bottom: 5px;
        }
        .item { 
          margin-bottom: 20px; 
          padding: 15px; 
          border: 1px solid #e2e8f0; 
          border-radius: 8px; 
          background-color: #f7fafc;
        }
        .severity { 
          font-weight: bold; 
          padding: 4px 8px; 
          border-radius: 4px;
          display: inline-block;
        }
        .severity-critical { background-color: #fed7d7; color: #c53030; }
        .severity-high { background-color: #feebc8; color: #c05621; }
        .severity-medium { background-color: #fefcbf; color: #b7791f; }
        .severity-low { background-color: #bee3f8; color: #2b6cb0; }
        .label { 
          font-weight: bold; 
          color: #4a5568;
          margin-right: 5px;
        }
        .gas-info { 
          margin-bottom: 20px; 
          padding: 10px; 
          background-color: #e6fffa; 
          border-radius: 8px;
        }
      </style>"

  function Heading(auditId: string): string
  {
    "<h1>Audit Report - " + auditId + "</h1>"
  }

  const VulnerabilitiesHeader := "\n\n      <h2>Vulnerabilities</h2>\n      "
  const GasHeader := "\n\n      <h2>Gas Optimizations</h2>\n      "
  const Closing := "\n    </body>\n    </html>\n  "

  const NoVulnerabilities := "<p>No vulnerabilities found.</p>"
  const NoSuggestions := "<p>No gas optimization suggestions found.</p>"

  /** One vulnerability: the severity lower-cased in the CSS class and upper-cased in the
      label, then line, issue and recommendation, none of them escaped. */
  function VulnerabilityBlock(v: Vulnerability, f: NumberFormat): string
  {
    "\n        <div class=\"item\">\n          <p><span class=\"severity severity-" + LowerCase(v.severity) + "\">" + UpperCase(v.severity)
    + "</span> - Line " + f.interpolate(v.line)
    + "</p>\n          <p><span class=\"label\">Issue:</span> " + v.issue
    + "</p>\n          <p><span class=\"label\">Recommendation:</span> " + v.recommendation
    + "</p>\n        </div>\n      "
  }

  function SuggestionBlock(g: Suggestion, f: NumberFormat): string
  {
    "\n        <div class=\"item\">\n          <p><span class=\"label\">Line " + f.interpolate(g.line)
    + ":</span> " + g.description
    + "</p>\n          <p><span class=\"label\">Estimated Savings:</span> " + f.localeString(g.estimatedSavings)
    + " gas</p>\n        </div>\n      "
  }

  /** The estimated-gas block. */
  function GasBlock(estimatedGas: Number, f: NumberFormat): string
  {
    "<div class=\"gas-info\">\n        <p><span class=\"label\">Estimated Gas Usage:</span> "
    + f.localeString(estimatedGas) + " gas</p>\n      </div>"
  }

  /** `vulnerabilities.map(render)`. */
  function VulnerabilityBlocks(vs: seq<Vulnerability>, f: NumberFormat): seq<string>
  {
    seq(|vs|, i requires 0 <= i < |vs| => VulnerabilityBlock(vs[i], f))
  }

  /** `suggestions.map(render)`. */
  function SuggestionBlocks(gs: seq<Suggestion>, f: NumberFormat): seq<string>
  {
    seq(|gs|, i requires 0 <= i < |gs| => SuggestionBlock(gs[i], f))
  }

  /** `list.length > 0 ? list.map(render).join('') : placeholder`. */
  function Section(blocks: seq<string>, placeholder: string): string
  {
    if |blocks| > 0 then Concat(blocks) else placeholder
  }

  function VulnerabilitiesSection(vs: seq<Vulnerability>, f: NumberFormat): (r: string)
    ensures r == NoVulnerabilities <==> |vs| == 0
  {
    var bs := VulnerabilityBlocks(vs, f);
    Section(bs, NoVulnerabilities)
  }

  function SuggestionsSection(gs: seq<Suggestion>, f: NumberFormat): (r: string)
    ensures r == NoSuggestions <==> |gs| == 0
  {
    var bs := SuggestionBlocks(gs, f);
    Section(bs, NoSuggestions)
  }

  /** The whole page. */
  function ReportHtml(auditId: string, data: AuditData, f: NumberFormat): string
  {
    Opening + Heading(auditId)
    + VulnerabilitiesHeader + VulnerabilitiesSection(data.vulnerabilities, f)
    + GasHeader + GasBlock(data.gasOptimizations.estimatedGas, f)
    + "\n      " + SuggestionsSection(data.gasOptimizations.suggestions, f)
    + Closing
  }

  /** The blocks of a concatenated list are the blocks of each part, in order. */
  lemma VulnerabilityBlocksAppend(a: seq<Vulnerability>, b: seq<Vulnerability>, f: NumberFormat)
    ensures VulnerabilityBlocks(a + b, f) == VulnerabilityBlocks(a, f) + VulnerabilityBlocks(b, f)
  {
  }

  lemma SuggestionBlocksAppend(a: seq<Suggestion>, b: seq<Suggestion>, f: NumberFormat)
    ensures SuggestionBlocks(a + b, f) == SuggestionBlocks(a, f) + SuggestionBlocks(b, f)
  {
  }

  /** One block per vulnerability, in input order: the section for a list made of two
      non-empty parts is the first part's section followed by the second's. */
  lemma VulnerabilitiesInOrder(a: seq<Vulnerability>, b: seq<Vulnerability>, f: NumberFormat)
    requires |a| > 0 && |b| > 0
    ensures VulnerabilitiesSection(a + b, f) == VulnerabilitiesSection(a, f) + VulnerabilitiesSection(b, f)
  {
    VulnerabilityBlocksAppend(a, b, f);
    ConcatAppend(VulnerabilityBlocks(a, f), VulnerabilityBlocks(b, f));
  }

  /** A single vulnerability is rendered as exactly its block. */
  lemma SingleVulnerability(v: Vulnerability, f: NumberFormat)
    ensures VulnerabilitiesSection([v], f) == VulnerabilityBlock(v, f)
  {
    var b := VulnerabilityBlock(v, f);
    assert VulnerabilityBlocks([v], f) == [b];
    assert Concat([b]) == b + Concat([b][1..]);
    assert [b][1..] == [];
  }

  /** One block per suggestion, in input order. */
  lemma SuggestionsInOrder(a: seq<Suggestion>, b: seq<Suggestion>, f: NumberFormat)
    requires |a| > 0 && |b| > 0
    ensures SuggestionsSection(a + b, f) == SuggestionsSection(a, f) + SuggestionsSection(b, f)
  {
    SuggestionBlocksAppend(a, b, f);
    ConcatAppend(SuggestionBlocks(a, f), SuggestionBlocks(b, f));
  }

  lemma SingleSuggestion(g: Suggestion, f: NumberFormat)
    ensures SuggestionsSection([g], f) == SuggestionBlock(g, f)
  {
    var b := SuggestionBlock(g, f);
    assert SuggestionBlocks([g], f) == [b];
    assert Concat([b]) == b + Concat([b][1..]);
    assert [b][1..] == [];
  }

  /** Rendering depends on the severity only up to case: two findings whose severities
      differ in case alone get the same block. */
  lemma SeverityCaseInsensitive(v: Vulnerability, w: Vulnerability, f: NumberFormat)
    requires v.line == w.line && v.issue == w.issue && v.recommendation == w.recommendation
    requires LowerCase(v.severity) == LowerCase(w.severity)
    ensures VulnerabilityBlock(v, f) == VulnerabilityBlock(w, f)
  {
    UpperCaseIgnoresCase(v.severity, w.severity);
  }

  /** Four of the nine parts of a page-shaped concatenation occur in it. */
  lemma NinePartInfixes(a: string, b: string, c: string, d: string, e: string, g: string, h: string, i: string, j: string)
    ensures IsInfix(b, a + b + c + d + e + g + h + i + j)
    ensures IsInfix(d, a + b + c + d + e + g + h + i + j)
    ensures IsInfix(g, a + b + c + d + e + g + h + i + j)
    ensures IsInfix(i, a + b + c + d + e + g + h + i + j)
  {
    InfixOfConcatenation(a, b, c + d + e + g + h + i + j);
    assert a + b + c + d + e + g + h + i + j == a + b + (c + d + e + g + h + i + j);
    InfixOfConcatenation(a + b + c, d, e + g + h + i + j);
    assert a + b + c + d + e + g + h + i + j == a + b + c + d + (e + g + h + i + j);
    InfixOfConcatenation(a + b + c + d + e, g, h + i + j);
    assert a + b + c + d + e + g + h + i + j == a + b + c + d + e + g + (h + i + j);
    InfixOfConcatenation(a + b + c + d + e + g + h, i, j);
  }

  /** The even-numbered parts of an eleven-part concatenation occur in it. */
  lemma ElevenPartInfixes(a: string, b: string, c: string, d: string, e: string, g: string,
                          h: string, i: string, j: string, k: string, l: string)
    ensures IsInfix(b, a + b + c + d + e + g + h + i + j + k + l)
    ensures IsInfix(d, a + b + c + d + e + g + h + i + j + k + l)
    ensures IsInfix(g, a + b + c + d + e + g + h + i + j + k + l)
    ensures IsInfix(i, a + b + c + d + e + g + h + i + j + k + l)
    ensures IsInfix(k, a + b + c + d + e + g + h + i + j + k + l)
  {
    NinePartInfixes(a, b, c, d, e, g, h, i, j + k + l);
    Regroup(a + b + c + d + e + g + h + i, j, k, l);
    InfixOfConcatenation(a + b + c + d + e + g + h + i + j, k, l);
  }

  lemma Regroup(p: string, x: string, y: string, z: string)
    ensures p + x + y + z == p + (x + y + z)
  {
  }

  /** The block shows the severity lower-cased (the CSS class) and upper-cased (the label),
      the formatted line number, and the issue and the recommendation verbatim. */
  lemma VulnerabilityBlockShowsFields(v: Vulnerability, f: NumberFormat)
    ensures IsInfix(LowerCase(v.severity), VulnerabilityBlock(v, f))
    ensures IsInfix(UpperCase(v.severity), VulnerabilityBlock(v, f))
    ensures IsInfix(f.interpolate(v.line), VulnerabilityBlock(v, f))
    ensures IsInfix(v.issue, VulnerabilityBlock(v, f))
    ensures IsInfix(v.recommendation, VulnerabilityBlock(v, f))
  {
    ElevenPartInfixes("\n        <div class=\"item\">\n          <p><span class=\"severity severity-", LowerCase(v.severity),
      "\">", UpperCase(v.severity), "</span> - Line ", f.interpolate(v.line),
      "</p>\n          <p><span class=\"label\">Issue:</span> ", v.issue,
      "</p>\n          <p><span class=\"label\">Recommendation:</span> ", v.recommendation,
      "</p>\n        </div>\n      ");
  }

  /** The block shows the formatted line number, the description verbatim and the
      locale-formatted estimated savings. */
  lemma SuggestionBlockShowsFields(g: Suggestion, f: NumberFormat)
    ensures IsInfix(f.interpolate(g.line), SuggestionBlock(g, f))
    ensures IsInfix(g.description, SuggestionBlock(g, f))
    ensures IsInfix(f.localeString(g.estimatedSavings), SuggestionBlock(g, f))
  {
    var a := "\n        <div class=\"item\">\n          <p><span class=\"label\">Line ";
    var e := "</p>\n          <p><span class=\"label\">Estimated Savings:</span> ";
    var h := " gas</p>\n        </div>\n      ";
    NinePartInfixes(a, f.interpolate(g.line), ":</span> ", g.description, e, f.localeString(g.estimatedSavings), h, "", "");
    assert a + f.interpolate(g.line) + ":</span> " + g.description + e + f.localeString(g.estimatedSavings) + h + "" + ""
      == SuggestionBlock(g, f);
  }

  /** The `<h1>` heading carries the audit id. */
  lemma HeadingShowsAuditId(auditId: string, data: AuditData, f: NumberFormat)
    ensures IsInfix(Heading(auditId), ReportHtml(auditId, data, f))
  {
    NinePartInfixes(Opening, Heading(auditId), VulnerabilitiesHeader, VulnerabilitiesSection(data.vulnerabilities, f),
      GasHeader, GasBlock(data.gasOptimizations.estimatedGas, f), "\n      ",
      SuggestionsSection(data.gasOptimizations.suggestions, f), Closing);
  }

  /** The estimated-gas block is on every page, whether or not there are suggestions. */
  lemma GasBlockAlwaysPresent(auditId: string, data: AuditData, f: NumberFormat)
    ensures IsInfix(GasBlock(data.gasOptimizations.estimatedGas, f), ReportHtml(auditId, data, f))
  {
    NinePartInfixes(Opening, Heading(auditId), VulnerabilitiesHeader, VulnerabilitiesSection(data.vulnerabilities, f),
      GasHeader, GasBlock(data.gasOptimizations.estimatedGas, f), "\n      ",
      SuggestionsSection(data.gasOptimizations.suggestions, f), Closing);
  }

  /** The i-th vulnerability's block is part of the vulnerabilities section. */
  lemma VulnerabilityInSection(vs: seq<Vulnerability>, f: NumberFormat, i: nat)
    requires i < |vs|
    ensures IsInfix(VulnerabilityBlock(vs[i], f), VulnerabilitiesSection(vs, f))
  {
    var bs := VulnerabilityBlocks(vs, f);
    assert bs[i] == VulnerabilityBlock(vs[i], f);
    ConcatContainsPiece(bs, i);
  }

  /** The i-th suggestion's block is part of the suggestions section. */
  lemma SuggestionInSection(gs: seq<Suggestion>, f: NumberFormat, i: nat)
    requires i < |gs|
    ensures IsInfix(SuggestionBlock(gs[i], f), SuggestionsSection(gs, f))
  {
    var bs := SuggestionBlocks(gs, f);
    assert bs[i] == SuggestionBlock(gs[i], f);
    ConcatContainsPiece(bs, i);
  }

  /** Every vulnerability's block appears on the page. */
  lemma EveryVulnerabilityRendered(auditId: string, data: AuditData, f: NumberFormat, i: nat)
    requires i < |data.vulnerabilities|
    ensures IsInfix(VulnerabilityBlock(data.vulnerabilities[i], f), ReportHtml(auditId, data, f))
  {
    var section := VulnerabilitiesSection(data.vulnerabilities, f);
    VulnerabilityInSection(data.vulnerabilities, f, i);
    NinePartInfixes(Opening, Heading(auditId), VulnerabilitiesHeader, section,
      GasHeader, GasBlock(data.gasOptimizations.estimatedGas, f), "\n      ",
      SuggestionsSection(data.gasOptimizations.suggestions, f), Closing);
    InfixTransitive(VulnerabilityBlock(data.vulnerabilities[i], f), section, ReportHtml(auditId, data, f));
  }

  /** Every suggestion's block appears on the page. */
  lemma EverySuggestionRendered(auditId: string, data: AuditData, f: NumberFormat, i: nat)
    requires i < |data.gasOptimizations.suggestions|
    ensures IsInfix(SuggestionBlock(data.gasOptimizations.suggestions[i], f), ReportHtml(auditId, data, f))
  {
    var section := SuggestionsSection(data.gasOptimizations.suggestions, f);
    SuggestionInSection(data.gasOptimizations.suggestions, f, i);
    NinePartInfixes(Opening, Heading(auditId), VulnerabilitiesHeader, VulnerabilitiesSection(data.vulnerabilities, f),
      GasHeader, GasBlock(data.gasOptimizations.estimatedGas, f), "\n      ", section, Closing);
    InfixTransitive(SuggestionBlock(data.gasOptimizations.suggestions[i], f), section, ReportHtml(auditId, data, f));
  }

  // ---------------------------------------------------------------- the output path

  function ReportFileName(auditId: string): string
  {
    "audit-" + auditId + ".pdf"
  }

  /** POSIX `path.resolve` of relative segments against a directory given by its segments:
      empty and "." segments are dropped, ".." goes up (never above the root), any other
      segment goes down. */
  function ResolveSegments(dir: seq<string>, segs: seq<string>): seq<string>
    decreases |segs|
  {
    if segs == [] then dir
    else
      var s := segs[0];
      var next :=
        if s == "" || s == "." then dir
        else if s == ".." then (if dir == [] then [] else dir[..|dir| - 1])
        else dir + [s];
      ResolveSegments(next, segs[1..])
  }

  /** An absolute path from its segments. */
  function RenderPath(segs: seq<string>): string
  {
    "/" + Join(segs, '/')
  }

  /** `path.resolve(`./audit-${auditId}.pdf`)` run in the directory `cwd`. */
  function ReportPath(cwd: seq<string>, auditId: string): string
  {
    RenderPath(ResolveSegments(cwd, Split("./" + ReportFileName(auditId), '/')))
  }

  /** An id without '/' puts the report directly in the working directory, under the name
      `audit-<auditId>.pdf`. */
  lemma ReportPathInWorkingDirectory(cwd: seq<string>, auditId: string)
    requires '/' !in auditId
    ensures ReportPath(cwd, auditId) == RenderPath(cwd + [ReportFileName(auditId)])
    ensures EndsWith(ReportPath(cwd, auditId), "/" + ReportFileName(auditId))
  {
    var name := ReportFileName(auditId);
    FileNameIsOneSegment(auditId);
    SplitDotSlash(name);
    ResolveDotThenName(cwd, name);
    RenderedPathEndsWithLast(cwd, name);
  }

  lemma FileNameIsOneSegment(auditId: string)
    requires '/' !in auditId
    ensures '/' !in ReportFileName(auditId)
    ensures ReportFileName(auditId)[0] == 'a'
  {
    var name := ReportFileName(auditId);
    assert name == "audit-" + auditId + ".pdf";
    forall k | 0 <= k < |name| ensures name[k] != '/' {
      if k < 6 {
      } else if k < 6 + |auditId| {
        assert name[k] == auditId[k - 6];
      } else {
        assert name[k] == ".pdf"[k - 6 - |auditId|];
      }
    }
  }

  lemma SplitDotSlash(name: string)
    requires '/' !in name
    ensures Split("./" + name, '/') == [".", name]
  {
    assert "./" + name == "." + ['/'] + name;
    SplitAfterPiece(".", name, '/');
    SplitJoin([name], '/');
  }

  lemma ResolveDotThenName(dir: seq<string>, name: string)
    requires |name| > 0 && name[0] == 'a'
    ensures ResolveSegments(dir, [".", name]) == dir + [name]
  {
    assert name != "" && name != "." && name != "..";
    assert [".", name][1..] == [name];
    assert ResolveSegments(dir, [".", name]) == ResolveSegments(dir, [name]);
    assert [name][1..] == [];
    assert ResolveSegments(dir, [name]) == ResolveSegments(dir + [name], []);
  }

  lemma RenderedPathEndsWithLast(dir: seq<string>, name: string)
    ensures EndsWith(RenderPath(dir + [name]), "/" + name)
  {
    JoinAppend(dir, name, '/');
    var p := RenderPath(dir + [name]);
    if dir == [] {
      assert p == "/" + name;
    } else {
      assert p == ("/" + Join(dir, '/') + "/") + name;
    }
  }

  /** The id is not sanitised: `..` segments inside it move the file out of the working
      directory; "x/../../y" lands one level above it, as `audit-x/../../y.pdf`
      resolves to `../y.pdf`. */
  lemma ReportPathFollowsDotDot(parent: seq<string>, dir: string)
    ensures ReportPath(parent + [dir], "x/../../y") == RenderPath(parent + ["y.pdf"])
  {
    var segs := [".", "audit-x", "..", "..", "y.pdf"];
    DotDotSegments(segs);
    DotDotResolution(parent, dir, segs);
  }

  lemma DotDotSegments(segs: seq<string>)
    requires segs == [".", "audit-x", "..", "..", "y.pdf"]
    ensures Split("./" + ReportFileName("x/../../y"), '/') == segs
  {
    SplitJoin(segs, '/');
    JoinOfDotDot(segs);
  }

  lemma JoinOfDotDot(segs: seq<string>)
    requires segs == [".", "audit-x", "..", "..", "y.pdf"]
    ensures Join(segs, '/') == "./" + ReportFileName("x/../../y")
  {
    assert segs[1..] == ["audit-x", "..", "..", "y.pdf"];
    assert segs[1..][1..] == ["..", "..", "y.pdf"];
    assert segs[1..][1..][1..] == ["..", "y.pdf"];
    assert segs[1..][1..][1..][1..] == ["y.pdf"];
    assert Join(segs[1..][1..][1..], '/') == "../y.pdf";
    assert Join(segs[1..][1..], '/') == "../../y.pdf";
    assert Join(segs[1..], '/') == "audit-x/../../y.pdf";
  }

  lemma DotDotResolution(parent: seq<string>, dir: string, segs: seq<string>)
    requires segs == [".", "audit-x", "..", "..", "y.pdf"]
    ensures ResolveSegments(parent + [dir], segs) == parent + ["y.pdf"]
  {
    var cwd := parent + [dir];
    assert segs[1..] == ["audit-x", "..", "..", "y.pdf"];
    assert segs[1..][1..] == ["..", "..", "y.pdf"];
    assert segs[1..][1..][1..] == ["..", "y.pdf"];
    assert segs[1..][1..][1..][1..] == ["y.pdf"];
    assert ResolveSegments(cwd, segs) == ResolveSegments(cwd, segs[1..]);
    assert "audit-x" != "" && "audit-x" != "." && "audit-x" != "..";
    assert ResolveSegments(cwd, segs[1..]) == ResolveSegments(cwd + ["audit-x"], segs[1..][1..]);
    assert (cwd + ["audit-x"])[..|cwd|] == cwd;
    assert ResolveSegments(cwd + ["audit-x"], segs[1..][1..]) == ResolveSegments(cwd, segs[1..][1..][1..]);
    assert cwd[..|parent|] == parent;
    assert ResolveSegments(cwd, segs[1..][1..][1..]) == ResolveSegments(parent, ["y.pdf"]);
    assert "y.pdf" != "" && "y.pdf" != "." && "y.pdf" != "..";
    assert ["y.pdf"][1..] == [];
  }

  /** The page and the path of the PDF written; the path is also what the function returns. */
  datatype PdfJob = PdfJob(html: string, path: string)

  /** `generateAuditPDF(auditId, auditData)` up to the browser calls. */
  function GenerateAuditPdf(cwd: seq<string>, auditId: string, data: AuditData, f: NumberFormat): (job: PdfJob)
    ensures IsInfix(Heading(auditId), job.html)
    ensures IsInfix(GasBlock(data.gasOptimizations.estimatedGas, f), job.html)
    ensures '/' !in auditId ==> EndsWith(job.path, "/" + ReportFileName(auditId))
  {
    HeadingShowsAuditId(auditId, data, f);
    GasBlockAlwaysPresent(auditId, data, f);
    assert '/' !in auditId ==> EndsWith(ReportPath(cwd, auditId), "/" + ReportFileName(auditId)) by {
      if '/' !in auditId { ReportPathInWorkingDirectory(cwd, auditId); }
    }
    PdfJob(ReportHtml(auditId, data, f), ReportPath(cwd, auditId))
  }
}
