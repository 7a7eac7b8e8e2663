/** The export: from the finished wizard state to the single HTML document
    offered for download and its file name, or nothing when a multi-page
    bundle has no `index.html`. */
module Packager {
  import opened Wrappers
  import opened JsText
  import opened AppState

  /** The document to download and the name to save it under. */
  datatype Artifact = Artifact(html: string, fileName: string)

  /** The tag in front of which the ad script goes. */
  const HeadClose := "</head>"

  const DocumentStart := "\n<!DOCTYPE html>"

  /** The wrapper page for the URL source, in pieces: everything before the
      title, the style sheet after it, then the body around the iframe. */
  const UrlMeta := "\n<html lang=\"en\">\n<head>\n    <meta charset=\"UTF-8\">\n"
    + "    <meta name=\"viewport\" content=\"width=device-width, initial-scale=1.0\">\n    "
  const UrlPrelude := DocumentStart + UrlMeta
  const UrlStyle := "\n    <style>\n"
    + "        body, html { margin: 0; padding: 0; height: 100%; overflow: hidden; }\n"
    + "        iframe { width: 100%; height: 100%; border: none; }\n"
    + "    </style>\n"
  const UrlBodyOpen := "\n<body>\n    "
  const UrlEnd := "\n</body>\n</html>"

  function TitleElement(name: string): string {
    "<title>" + name + "</title>"
  }

  function IframeElement(url: string): string {
    "<iframe src=\"" + url + "\"></iframe>"
  }

  /** The head of the URL wrapper up to its `</head>`. */
  function UrlHead(appName: string): string {
    UrlPrelude + TitleElement(appName) + UrlStyle
  }

  /** The rest of the URL wrapper after its `</head>`. */
  function UrlBody(url: string): string {
    UrlBodyOpen + IframeElement(url) + UrlEnd
  }

  /** `generateUrlRedirectHtml`: see `UrlRedirectLayout`. */
  function UrlRedirectHtml(appName: string, url: string): string {
    UrlHead(appName) + HeadClose + UrlBody(url)
  }

  /** Where the pieces of a page built as `start + meta + title + style +
      close + open + frame + end` sit. */
  lemma PageLayout(start: string, meta: string, title: string, style: string,
                   close: string, open: string, frame: string, end: string)
    ensures var doc := (start + meta + title + style) + close + (open + frame + end);
      OccursAt(doc, start, 0) &&
      OccursAt(doc, title, |start + meta|) &&
      OccursAt(doc, close, |start + meta + title + style|) &&
      OccursAt(doc, frame, |start + meta + title + style| + |close| + |open|)
  {
    var head := start + meta + title + style;
    var body := open + frame + end;
    var doc := head + close + body;
    assert doc[..|start|] == start;
    assert doc[|start + meta|..|start + meta| + |title|] == title;
    OccursInMiddle(head, close, body);
    OccursInMiddle(open, frame, end);
    OccursAtExtendLeft(head + close, body, frame, |open|);
  }

  /** The URL wrapper begins with a newline and the HTML5 doctype, holds the
      app name as its title, closes its head right after the style sheet and
      then holds one iframe on the URL. */
  lemma UrlRedirectLayout(appName: string, url: string)
    ensures OccursAt(UrlRedirectHtml(appName, url), DocumentStart, 0)
    ensures OccursAt(UrlRedirectHtml(appName, url), TitleElement(appName), |UrlPrelude|)
    ensures OccursAt(UrlRedirectHtml(appName, url), HeadClose, |UrlHead(appName)|)
    ensures OccursAt(UrlRedirectHtml(appName, url), IframeElement(url),
                     |UrlHead(appName)| + |HeadClose| + |UrlBodyOpen|)
  {
    PageLayout(DocumentStart, UrlMeta, TitleElement(appName), UrlStyle,
               HeadClose, UrlBodyOpen, IframeElement(url), UrlEnd);
  }

  /** The file name test of the bundle search: `name.toLowerCase() === 'index.html'`. */
  predicate IsIndexFileName(name: string) {
    ToLower(name) == "index.html"
  }

  /** `multiPageFiles.find(...)`: the position of the first file named
      `index.html` in any letter case, from position `from` on. */
  function FindIndexFileFrom(files: seq<File>, from: nat): (k: Option<nat>)
    requires from <= |files|
    ensures k.Some? ==> from <= k.value < |files| && IsIndexFileName(files[k.value].name)
    ensures k.Some? ==> forall j :: from <= j < k.value ==> !IsIndexFileName(files[j].name)
    ensures k.None? ==> forall j :: from <= j < |files| ==> !IsIndexFileName(files[j].name)
    decreases |files| - from
  {
    if from == |files| then None
    else if IsIndexFileName(files[from].name) then Some(from)
    else FindIndexFileFrom(files, from + 1)
  }

  function FindIndexFile(files: seq<File>): (k: Option<nat>)
    ensures k.Some? ==> k.value < |files| && IsIndexFileName(files[k.value].name)
    ensures k.Some? ==> forall j :: 0 <= j < k.value ==> !IsIndexFileName(files[j].name)
    ensures k.None? ==> forall j :: 0 <= j < |files| ==> !IsIndexFileName(files[j].name)
  {
    FindIndexFileFrom(files, 0)
  }

  /** The document before any ad is added: the URL wrapper, the HTML exactly
      as typed, or the text of the bundle's first `index.html`; `None` is the
      export abort for a bundle without one. */
  function BaseDocument(st: WizardState): (doc: Option<string>)
    ensures doc.None? <==> st.sourceType == Multipage && FindIndexFile(st.multiPageFiles).None?
  {
    match st.sourceType
    case Url => Some(UrlRedirectHtml(st.appName, st.appUrl))
    case Html => Some(st.htmlContent)
    case Multipage =>
      match FindIndexFile(st.multiPageFiles)
      case None => None
      case Some(k) => Some(st.multiPageFiles[k].content)
  }

  /** The replacement string handed to `replace`. */
  function AdTemplate(script: string): string {
    "\n" + script + "\n" + HeadClose
  }

  /** The page built around a document that has no `</head>`. */
  function AdShell(appName: string, script: string, doc: string): string {
    "<html><head>" + TitleElement(appName) + script + "</head><body>" + doc + "</body></html>"
  }

  /** The optional ad step of `downloadApp`. */
  function InjectAdScript(doc: string, enableAds: bool, adScript: string, appName: string): string {
    if enableAds && |Trim(adScript)| > 0 then
      var script := Trim(adScript);
      if Includes(doc, HeadClose) then ReplaceFirst(doc, HeadClose, AdTemplate(script))
      else AdShell(appName, script, doc)
    else doc
  }

  /** `${appName.replace(/\s+/g, '-') || 'my-app'}.html` */
  function DownloadFileName(appName: string): (name: string)
    ensures |name| > 5 && name[|name| - 5..] == ".html"
    ensures NoWhitespace(name)
    ensures |appName| == 0 ==> name == "my-app.html"
    ensures |appName| > 0 ==> name == CollapseWhitespace(appName) + ".html"
  {
    var stem := CollapseWhitespace(appName);
    var base := if |stem| == 0 then "my-app" else stem;
    assert NoWhitespace(base) by {
      if |stem| == 0 {
        assert NoWhitespace("my-app");
      }
    }
    NoWhitespaceAppend(base, ".html");
    base + ".html"
  }

  /** The export of `downloadApp` up to the point where the file is handed to
      the browser. */
  function Export(st: WizardState): (artifact: Option<Artifact>)
    ensures artifact.None? <==> BaseDocument(st).None?
    ensures artifact.Some? ==> artifact.value.fileName == DownloadFileName(st.appName)
  {
    match BaseDocument(st)
    case None => None
    case Some(doc) =>
      Some(Artifact(InjectAdScript(doc, st.enableAds, st.adScript, st.appName), DownloadFileName(st.appName)))
  }

  // ---------------------------------------------------------------------
  // Properties of the export
  // ---------------------------------------------------------------------

  /** Export gives up exactly for a bundle in which no file is called
      `index.html` in any letter case, and then there is no file name either. */
  lemma ExportAbortsExactlyWithoutIndex(st: WizardState)
    ensures Export(st).None? <==>
      st.sourceType == Multipage &&
      forall j :: 0 <= j < |st.multiPageFiles| ==> !IsIndexFileName(st.multiPageFiles[j].name)
  {
  }

  /** A bundle is exported with the text of its first `index.html`, untouched. */
  lemma MultipageUsesFirstIndex(st: WizardState, k: nat)
    requires st.sourceType == Multipage
    requires k < |st.multiPageFiles| && IsIndexFileName(st.multiPageFiles[k].name)
    requires forall j :: 0 <= j < k ==> !IsIndexFileName(st.multiPageFiles[j].name)
    ensures BaseDocument(st) == Some(st.multiPageFiles[k].content)
  {
  }

  /** HTML typed by the user is the base document character for character:
      it is not sanitized on the way out. */
  lemma HtmlIsPassedThrough(st: WizardState)
    requires st.sourceType == Html
    ensures BaseDocument(st) == Some(st.htmlContent)
    ensures !st.enableAds || |Trim(st.adScript)| == 0 ==>
      Export(st) == Some(Artifact(st.htmlContent, DownloadFileName(st.appName)))
  {
  }

  /** The preview shows the sanitized HTML while the export carries it raw. */
  lemma SanitizedOnlyInPreview(st: WizardState, parsesAsUrl: string -> bool, sanitize: string -> Option<string>)
    requires st.sourceType == Html
    ensures Preview(st, parsesAsUrl, sanitize) == sanitize(st.htmlContent)
    ensures BaseDocument(st) == Some(st.htmlContent)
  {
  }

  /** With ads off, or with a script that trims to nothing, the document is
      left alone. */
  lemma AdsOffLeaveDocument(doc: string, enableAds: bool, adScript: string, appName: string)
    requires !enableAds || AllWhitespace(adScript)
    ensures InjectAdScript(doc, enableAds, adScript, appName) == doc
  {
  }

  /** The splice: the text before the first `</head>`, a newline, the trimmed
      script, a newline, then the document from that `</head>` on.  Later
      `</head>` tags are not touched.  A script with `$` in it is excluded
      here; see `DollarPatternsExpand`. */
  lemma AdSplicedBeforeFirstHeadClose(doc: string, adScript: string, appName: string, i: nat)
    requires |Trim(adScript)| > 0 && '$' !in Trim(adScript)
    requires OccursAt(doc, HeadClose, i)
    requires forall j :: 0 <= j < i ==> !OccursAt(doc, HeadClose, j)
    ensures InjectAdScript(doc, true, adScript, appName) == doc[..i] + "\n" + Trim(adScript) + "\n" + doc[i..]
  {
    var script := Trim(adScript);
    InjectAtFirstHeadClose(doc, adScript, appName, i);
    AdTemplateIsLiteral(script);
    SubstituteLiteral(AdTemplate(script), HeadClose, doc[..i], doc[i + |HeadClose|..]);
    SpliceRegroup(doc, i, script);
  }

  lemma AdTemplateIsLiteral(script: string)
    requires '$' !in script
    ensures '$' !in AdTemplate(script)
  {
  }

  lemma SpliceRegroup(doc: string, i: nat, script: string)
    requires OccursAt(doc, HeadClose, i)
    ensures doc[..i] + AdTemplate(script) + doc[i + |HeadClose|..] == doc[..i] + "\n" + script + "\n" + doc[i..]
  {
    assert doc[i..] == HeadClose + doc[i + |HeadClose|..];
  }

  /** Without a `</head>` the document is wrapped in a new page whose head
      holds the title and the script and whose body is the document verbatim. */
  lemma AdShellWithoutHead(doc: string, adScript: string, appName: string)
    requires |Trim(adScript)| > 0
    requires forall j :: !OccursAt(doc, HeadClose, j)
    ensures InjectAdScript(doc, true, adScript, appName)
         == "<html><head><title>" + appName + "</title>" + Trim(adScript) + "</head><body>" + doc + "</body></html>"
    ensures Includes(InjectAdScript(doc, true, adScript, appName), doc)
  {
    IncludesIff(doc, HeadClose);
    var pre := "<html><head>" + TitleElement(appName) + Trim(adScript) + "</head><body>";
    assert AdShell(appName, Trim(adScript), doc) == pre + doc + "</body></html>";
    IncludesMiddle(pre, doc, "</body></html>");
  }

  /** JavaScript expands `$` patterns in a replacement string, and the script
      is part of one: a `$$` in the script is inserted as a single `$`. */
  lemma AdScriptDollarsCollapse(doc: string, adScript: string, appName: string, i: nat, x: string, y: string)
    requires Trim(adScript) == x + "$$" + y && '$' !in x && '$' !in y
    requires OccursAt(doc, HeadClose, i)
    requires forall j :: 0 <= j < i ==> !OccursAt(doc, HeadClose, j)
    ensures InjectAdScript(doc, true, adScript, appName) == doc[..i] + "\n" + x + "$" + y + "\n" + doc[i..]
  {
    InjectAtFirstHeadClose(doc, adScript, appName, i);
    DollarTemplateExpands(x, y, HeadClose, doc[..i], doc[i + |HeadClose|..]);
    DollarSpliceRegroup(doc, i, x, y);
  }

  /** With a `</head>` the ad goes in by `replace` at its first occurrence. */
  lemma InjectAtFirstHeadClose(doc: string, adScript: string, appName: string, i: nat)
    requires |Trim(adScript)| > 0
    requires OccursAt(doc, HeadClose, i)
    requires forall j :: 0 <= j < i ==> !OccursAt(doc, HeadClose, j)
    ensures InjectAdScript(doc, true, adScript, appName)
         == doc[..i] + Substitute(AdTemplate(Trim(adScript)), HeadClose, doc[..i], doc[i + |HeadClose|..]) + doc[i + |HeadClose|..]
  {
    IncludesIff(doc, HeadClose);
    ReplaceFirstAt(doc, HeadClose, AdTemplate(Trim(adScript)), i);
  }

  lemma DollarTemplateExpands(x: string, y: string, matched: string, before: string, after: string)
    requires '$' !in x && '$' !in y
    ensures Substitute(AdTemplate(x + "$$" + y), matched, before, after) == "\n" + x + "$" + y + "\n" + HeadClose
  {
    var rest := y + "\n" + HeadClose;
    TemplateRegroup(x, "$$", y);
    assert '$' !in rest;
    SubstituteLiteralPrefix("\n" + x, "$$" + rest, matched, before, after);
    SubstituteDoubleDollar(rest, matched, before, after);
    SubstituteLiteral(rest, matched, before, after);
  }

  lemma TemplateRegroup(x: string, d: string, y: string)
    ensures AdTemplate(x + d + y) == ("\n" + x) + (d + (y + "\n" + HeadClose))
  {
  }

  lemma DollarSpliceRegroup(doc: string, i: nat, x: string, y: string)
    requires OccursAt(doc, HeadClose, i)
    ensures doc[..i] + ("\n" + x + "$" + y + "\n" + HeadClose) + doc[i + |HeadClose|..]
         == doc[..i] + "\n" + x + "$" + y + "\n" + doc[i..]
  {
    assert doc[i..] == HeadClose + doc[i + |HeadClose|..];
  }

  /** The smallest case: the script `$$` in an empty head. */
  lemma DollarPatternsExpand(doc: string, adScript: string, appName: string)
    requires doc == "<head></head>" && adScript == "$$"
    ensures InjectAdScript(doc, true, adScript, appName) == "<head>\n$\n</head>"
  {
    TrimOfDollars(adScript);
    FirstHeadCloseOfEmptyHead(doc);
    AdScriptDollarsCollapse(doc, adScript, appName, 6, "", "");
    assert doc[..6] == "<head>" && doc[6..] == HeadClose;
  }

  lemma TrimOfDollars(s: string)
    requires s == "$$"
    ensures Trim(s) == "" + "$$" + ""
  {
    assert !IsWhitespace('$');
  }

  lemma FirstHeadCloseOfEmptyHead(doc: string)
    requires doc == "<head></head>"
    ensures OccursAt(doc, HeadClose, 6)
    ensures forall j :: 0 <= j < 6 ==> !OccursAt(doc, HeadClose, j)
  {
    assert doc[6..13] == HeadClose;
    forall j | 0 <= j < 6 ensures !OccursAt(doc, HeadClose, j) {
      assert doc[j + 1] != HeadClose[1];
    }
  }

  /** Splicing at the first occurrence keeps everything that starts after the
      replaced tag. */
  lemma ReplaceFirstKeepsLater(s: string, pattern: string, template: string, w: string, i: nat, q: nat)
    requires OccursAt(s, pattern, i)
    requires forall j :: 0 <= j < i ==> !OccursAt(s, pattern, j)
    requires OccursAt(s, w, q) && q >= i + |pattern|
    ensures OccursAt(ReplaceFirst(s, pattern, template), w, |ReplaceFirst(s, pattern, template)| - (|s| - q))
  {
    ReplaceFirstAt(s, pattern, template, i);
    var tail := s[i + |pattern|..];
    var head := s[..i] + Substitute(template, pattern, s[..i], tail);
    var at := q - (i + |pattern|);
    assert tail[at..at + |w|] == s[q..q + |w|];
    OccursAtExtendLeft(head, tail, w, at);
  }

  /** Whatever the ad settings, a URL export succeeds and its page still holds
      the iframe on the URL: the first `</head>` never comes after it. */
  lemma UrlExportKeepsIframe(st: WizardState)
    requires st.sourceType == Url
    ensures Export(st).Some?
    ensures Includes(Export(st).value.html, IframeElement(st.appUrl))
  {
    var doc := UrlRedirectHtml(st.appName, st.appUrl);
    UrlRedirectLayout(st.appName, st.appUrl);
    var q := |UrlHead(st.appName)| + |HeadClose| + |UrlBodyOpen|;
    var html := Export(st).value.html;
    if st.enableAds && |Trim(st.adScript)| > 0 {
      var i := IndexOf(doc, HeadClose).value;
      ReplaceFirstKeepsLater(doc, HeadClose, AdTemplate(Trim(st.adScript)), IframeElement(st.appUrl), i, q);
      IncludesIff(html, IframeElement(st.appUrl));
    } else {
      IncludesIff(html, IframeElement(st.appUrl));
    }
  }

  /** The wizard's own examples of file names. */
  lemma FileNameOfWords(name: string)
    requires name == "My Cool App"
    ensures DownloadFileName(name) == "My-Cool-App.html"
  {
    var my, cool, app := "My", "Cool", "App";
    assert NoWhitespace(my) && NoWhitespace(cool) && NoWhitespace(app);
    FileNameOfThreeWords(my, cool, app);
    assert my + " " + cool + " " + app == name;
  }

  /** Three words separated by single spaces are joined by `-`. */
  lemma FileNameOfThreeWords(a: string, b: string, c: string)
    requires |a| > 0 && |b| > 0 && |c| > 0 && NoWhitespace(a) && NoWhitespace(b) && NoWhitespace(c)
    ensures DownloadFileName(a + " " + b + " " + c) == a + "-" + b + "-" + c + ".html"
  {
    CollapseNoWhitespace(c);
    CollapseWordSpace(b, c);
    CollapseWordSpace(a, b + " " + c);
    assert a + " " + b + " " + c == a + " " + (b + " " + c);
    assert a + "-" + b + "-" + c == a + "-" + (b + "-" + c);
  }

  lemma FileNameOfEmpty(name: string)
    requires |name| == 0
    ensures DownloadFileName(name) == "my-app.html"
  {
  }

  lemma FileNameOfBlank(name: string)
    requires name == "   "
    ensures DownloadFileName(name) == "-.html"
  {
    CollapseRun(name);
  }

  /** A name collapses word by word: the name `a + " " + b` of two whitespace-free
      parts is saved as `a-b.html`. */
  lemma FileNameJoinsWords(a: string, b: string)
    requires |a| > 0 && |b| > 0 && NoWhitespace(a) && NoWhitespace(b)
    ensures DownloadFileName(a + " " + b) == a + "-" + b + ".html"
  {
    CollapseWordSpace(a, b);
    CollapseNoWhitespace(b);
  }

  /** A bundle holding only a style sheet has nothing to export. */
  lemma BundleWithoutIndex(st: WizardState)
    requires st.sourceType == Multipage && st.multiPageFiles == [File("style.css", "body {}")]
    ensures Export(st).None?
  {
    assert |ToLower(st.multiPageFiles[0].name)| == 9;
  }

  /** A bundle whose page is `index.html` is exported as that page's text. */
  lemma BundleWithIndex(st: WizardState)
    requires st.sourceType == Multipage && st.multiPageFiles == [File("index.html", "<html>X</html>")]
    requires !st.enableAds
    ensures Export(st) == Some(Artifact("<html>X</html>", DownloadFileName(st.appName)))
  {
    var s := st.multiPageFiles[0].name;
    forall i | 0 <= i < |s| ensures LowerChar(s[i]) == s[i] { }
    assert ToLower(s) == s;
  }
}
