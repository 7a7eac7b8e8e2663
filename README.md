# App wizard packager, modelled in Dafny

The modelled program is a three-step web wizard, an Angular component, that
turns a web app into one downloadable HTML file. Step 1 names the app and
optionally gives it a logo. Step 2 picks the content source: a URL, a block
of HTML, or a bundle of files that must hold an `index.html`. Step 3 can
inject an ad script and then exports.

The model has four modules:

- `JsText` (`jstext.dfy`): the JavaScript string behaviour the component
  relies on.
  - `trim` and the regular-expression class `\s`, over the ECMAScript
    whitespace and line-terminator code points.
  - `toLowerCase` as far as comparing a name with `index.html`.
  - `indexOf` and `includes`.
  - `replace` with a string pattern, including the `$` patterns of its
    replacement string (`$$`, `$&`, `` $` ``, `$'`).
  - `replace(/\s+/g, '-')`.
- `AppState` (`appstate.dfy`):
  - the component's fields as a value;
  - the step arithmetic of the Back and Next buttons;
  - the two step-validity checks;
  - the preview the component keeps up to date.
- `Packager` (`packager.dfy`): the export.
  - the base document: the URL wrapper page, the raw HTML, or the bundle's
    first `index.html`;
  - the optional ad-script injection;
  - the download file name.
- `Wizard` (`wizard.dfy`): the component as a class. Its fields are the
  component's signals. Its methods are the button and input handlers, each
  specified by the new state it leaves. `DownloadApp` builds the page step by
  step and is proved equal to `Packager.Export`.

Three things the component gets from the browser or the framework are
parameters:

- the URL parser: `parsesAsUrl`, which holds when `new URL(...)` does not
  throw;
- the HTML sanitizer: `sanitize`;
- the text of selected files: each file is a (name, content) pair that has
  already been read.

## Model

| member | source | states |
|---|---|---|
| JsText.Trim | src/app.component.ts:29-40 | the trimmed text is empty exactly when the input is all whitespace; otherwise it starts and ends with a non-whitespace character; it is never longer than the input |
| JsText.TrimIsBlock | src/app.component.ts:29-40 | trimming keeps one contiguous block of the input and removes only whitespace on each side of it |
| JsText.ToLower | src/app.component.ts:138 | lower-casing keeps the length and maps each character on its own |
| JsText.IndexOf | src/app.component.ts:149-150 | the reported position is an occurrence and no earlier position is one; no position is reported only when the pattern occurs nowhere |
| JsText.IncludesIff | src/app.component.ts:149 | `includes` holds exactly when the pattern occurs at some position |
| JsText.Includes | src/app.component.ts:149 | `includes`, defined by `IndexOf`; its meaning is stated in `JsText.IncludesIff` |
| JsText.IndexOfIsFirst | src/app.component.ts:150 | an occurrence with no occurrence before it is the one `indexOf` reports |
| JsText.ReplaceFirstAt | src/app.component.ts:150 | `replace` with a string pattern rewrites only the first occurrence and keeps the text before and after it |
| JsText.ReplaceFirstAbsent | src/app.component.ts:150 | with no occurrence of the pattern, `replace` returns the text unchanged |
| JsText.SubstituteLiteral | src/app.component.ts:150 | a replacement string without `$` is inserted as it is |
| JsText.SubstituteLiteralPrefix | src/app.component.ts:150 | a `$`-free start of a replacement string is copied unchanged, and the rest is expanded after it |
| JsText.SubstituteDoubleDollar | src/app.component.ts:150 | `$$` in a replacement string stands for a single `$` |
| JsText.Substitute | src/app.component.ts:150 | ECMAScript GetSubstitution for a match without capture groups: `$$`, `$&`, `` $` `` and `$'` are expanded and any other `$` is kept; its behaviour is stated in `JsText.SubstituteLiteral`, `JsText.SubstituteLiteralPrefix` and `JsText.SubstituteDoubleDollar` |
| JsText.ReplaceFirst | src/app.component.ts:150 | `replace` with a string pattern; `JsText.ReplaceFirstAt` states that it rewrites only the first occurrence, and `JsText.ReplaceFirstAbsent` that with no occurrence it returns the text unchanged |
| JsText.CollapseWhitespace | src/app.component.ts:161 | the result holds no whitespace, is no longer than the input, and is empty exactly when the input is |
| JsText.CollapseAppend | src/app.component.ts:161 | two pieces that do not meet inside a whitespace run are collapsed independently |
| JsText.CollapseRun | src/app.component.ts:161 | a non-empty run made only of whitespace becomes a single `-` |
| JsText.CollapseNoWhitespace | src/app.component.ts:161 | text without whitespace is left unchanged |
| JsText.CollapseWordSpace | src/app.component.ts:161 | a word, one space, then text that starts with a non-whitespace character: the space becomes `-` and the word is kept |
| AppState.Advance | src/app.component.ts:69-73 | Next moves forward by one below step 3 and stays on step 3; the step stays in 1..3 |
| AppState.Retreat | src/app.component.ts:75-79 | Back moves back by one above step 1 and stays on step 1; the step stays in 1..3 |
| AppState.StepRoundTrips | src/app.component.ts:69-79 | away from the ends, Back undoes Next and Next undoes Back |
| AppState.StepsSaturate | src/app.component.ts:69-79 | two Nexts from any step reach step 3 and two Backs reach step 1 |
| AppState.IsStep1Valid | src/app.component.ts:29 | step 1 is valid exactly when the name holds a non-whitespace character |
| AppState.InitialNameIsValid | src/app.component.ts:16-29 | the default name `My App` already passes step 1 |
| AppState.IsStep2Valid | src/app.component.ts:30-46 | for a URL: valid exactly when it parses and holds a non-whitespace character; for HTML: exactly when it holds a non-whitespace character; for a bundle: exactly when at least one file is selected |
| AppState.Preview | src/app.component.ts:55-66 | for a URL: a preview exactly when step 2 accepts it, and then the URL itself; for HTML: the sanitizer's output; for a bundle: none |
| Packager.UrlRedirectLayout | src/app.component.ts:168-185 | the URL page starts with a newline and the doctype, has the app name as its title, closes its head right after the style sheet and then holds one iframe on the URL |
| Packager.UrlRedirectHtml | src/app.component.ts:168-185 | the wrapper page of a URL, built from the template's pieces; its layout is stated in `Packager.UrlRedirectLayout` and `Packager.UrlExportKeepsIframe` |
| Packager.IsIndexFileName | src/app.component.ts:138 | a name lower-cased to `index.html`; `Packager.FindIndexFile`, `Packager.BundleWithIndex` and `Packager.BundleWithoutIndex` state how it selects and rejects files |
| Packager.FindIndexFile | src/app.component.ts:138 | the position found is that of a file named `index.html` in any letter case with no such file before it; nothing is found only when no file has that name |
| Packager.BaseDocument | src/app.component.ts:130-145 | there is no base document exactly for a bundle in which no file is named `index.html` |
| Packager.DownloadFileName | src/app.component.ts:161 | the name ends in `.html` and holds no whitespace; an empty app name gives `my-app.html`; otherwise the name is the app name with each whitespace run turned into `-`, plus `.html` |
| Packager.Export | src/app.component.ts:129-161 | the export produces a page exactly when there is a base document, and the page is saved under the download file name |
| Packager.InjectAdScript | src/app.component.ts:147-155 | the ad step; its three branches are stated in `Packager.AdsOffLeaveDocument` (ads off or blank script), `Packager.InjectAtFirstHeadClose` and `Packager.AdSplicedBeforeFirstHeadClose` (a `</head>` present) and `Packager.AdShellWithoutHead` (no `</head>`) |
| Packager.ExportAbortsExactlyWithoutIndex | src/app.component.ts:137-144 | export gives up exactly for a bundle in which no file is named `index.html` in any letter case |
| Packager.MultipageUsesFirstIndex | src/app.component.ts:138-140 | a bundle is exported with the text of its first `index.html`, unchanged |
| Packager.HtmlIsPassedThrough | src/app.component.ts:135-136 | typed HTML is the base document character for character; without ads it is exactly the exported page |
| Packager.SanitizedOnlyInPreview | src/app.component.ts:59-62 | in HTML mode the preview is the sanitizer's output while the exported base document is the raw HTML |
| Packager.AdsOffLeaveDocument | src/app.component.ts:147 | with ads off, or with a script that is only whitespace, the document is left unchanged |
| Packager.InjectAtFirstHeadClose | src/app.component.ts:147-150 | with ads on and a `</head>` present, the document is cut at its first `</head>` and the expanded template goes in its place |
| Packager.AdSplicedBeforeFirstHeadClose | src/app.component.ts:147-150 | for a `$`-free script, the new page is: the text before the first `</head>`, a newline, the trimmed script, a newline, then the document from that tag on |
| Packager.AdScriptDollarsCollapse | src/app.component.ts:150 | a `$$` in the trimmed script comes out as a single `$` in the page |
| Packager.DollarPatternsExpand | src/app.component.ts:150 | the script `$$` in `<head></head>` gives `<head>\n$\n</head>` |
| Packager.ReplaceFirstKeepsLater | src/app.component.ts:150 | text that starts after the first `</head>` is still in the page after the splice |
| Packager.AdShellWithoutHead | src/app.component.ts:151-153 | without any `</head>`, the page is a new shell holding the title and the script in its head and the document verbatim in its body |
| Packager.AdShell | src/app.component.ts:153 | the fallback page for a document without `</head>`; `Packager.AdShellWithoutHead` states its exact text and that it holds the document verbatim |
| Packager.UrlExportKeepsIframe | src/app.component.ts:133-150 | a URL export always produces a page, and that page holds the iframe on the URL whatever the ad settings |
| Packager.FileNameOfWords | src/app.component.ts:161 | `My Cool App` is saved as `My-Cool-App.html` |
| Packager.FileNameOfThreeWords | src/app.component.ts:161 | three words separated by single spaces are joined by `-` in the file name |
| Packager.FileNameJoinsWords | src/app.component.ts:161 | two words separated by one space are saved as `a-b.html` |
| Packager.FileNameOfEmpty | src/app.component.ts:161 | an empty name is saved as `my-app.html` |
| Packager.FileNameOfBlank | src/app.component.ts:161 | a name of three spaces is saved as `-.html`; the `my-app` fallback does not apply |
| Packager.BundleWithoutIndex | src/app.component.ts:137-144 | a bundle holding only `style.css` exports nothing |
| Packager.BundleWithIndex | src/app.component.ts:137-140 | a bundle holding `index.html` with `<html>X</html>` exports exactly that text |
| Wizard.AppComponent.constructor | src/app.component.ts:15-24 | a new component starts on step 1 with the name `My App`, no logo, the URL source, empty inputs, no files and ads off |
| Wizard.AppComponent.NextStep | src/app.component.ts:69-73 | the step advances as `Advance` says, stays in 1..3, and nothing else changes |
| Wizard.AppComponent.PrevStep | src/app.component.ts:75-79 | the step goes back as `Retreat` says, stays in 1..3, and nothing else changes |
| Wizard.AppComponent.HandleAppNameInput | src/app.component.ts:82-85 | the name is replaced by the typed value, untrimmed; nothing else changes |
| Wizard.AppComponent.HandleLogoUpload | src/app.component.ts:87-97 | a read data URL becomes the logo; without a selected file nothing changes |
| Wizard.AppComponent.SelectSourceType | src/app.component.ts:99-101 | only the source type changes |
| Wizard.AppComponent.HandleUrlInput | src/app.component.ts:103-106 | only the URL changes |
| Wizard.AppComponent.HandleHtmlInput | src/app.component.ts:108-111 | only the HTML changes |
| Wizard.AppComponent.HandleMultiPageFiles | src/app.component.ts:113-118 | a present file list, even an empty one, replaces the files; a missing list changes nothing |
| Wizard.AppComponent.ToggleEnableAds | src/app.component.ts:120-122 | the ads flag flips and nothing else changes |
| Wizard.AppComponent.HandleAdScriptInput | src/app.component.ts:124-127 | the script is replaced by the typed value, untrimmed; nothing else changes |
| Wizard.AppComponent.DownloadApp | src/app.component.ts:129-166 | the downloaded page and its name are exactly `Packager.Export` of the current state; there is none exactly for a bundle without `index.html` |
| Wizard.NavigationSession | src/app.component.ts:69-79 | three Nexts from a new component stop on step 3 and one Back lands on step 2; the typed name survives |

## Left out

- The download plumbing of `downloadApp` is left out: the `Blob`, the object
  URL, the temporary link, the click and the URL revocation. The model ends
  with the page and the file name that would be handed over.
- The missing-`index.html` `alert` is the `None` result; the message text is
  not modelled.
- File reading is left out. `FileReader` for the logo and `File.text()` for
  the bundle are asynchronous browser I/O. The logo handler takes the data
  URL as read, and each bundle file is a (name, content) pair. Nothing is
  modelled of what may change while `downloadApp` waits on `await`, or of a
  logo read that finishes after a later one.
- Browser and framework calls are parameters: `new URL(...)` is `parsesAsUrl`
  and the DOM sanitizer is `sanitize`. No property of either is assumed.
- Angular signals, `computed`, `effect`, `inject` and change detection are
  left out. The derived values are functions of the state: `IsStep1Valid`,
  `IsStep2Valid` and `Preview`.
- `multiPageFileNames` is left out. It is display text only and plays no part
  in validation or export.
- Strings are sequences of Unicode scalar values, not UTF-16 code units. No
  whitespace character lies outside the Basic Multilingual Plane, so `trim`
  and `\s` behave the same either way.
- `JsText.ToLower` lowers only `A` to `Z`. Two non-ASCII characters have a
  full lower-case mapping that contains an ASCII character. U+212A, the
  Kelvin sign, maps to `k`. U+0130 maps to `i` followed by U+0307. Neither
  can take part in matching `index.html`, so `IsIndexFileName` decides the
  same as the full mapping. Other uses of `toLowerCase` are not modelled.
- Unknown source types are not modelled. These are the `default` branch
  of `isStep2Valid`, which returns `false`, and the case in `downloadApp`
  that matches no branch. The closed `SourceType` datatype rules both out.
- `AdSplicedBeforeFirstHeadClose` requires a script without `$`, because
  `replace` expands `$` patterns in its replacement string. The `$$` case is
  stated in `AdScriptDollarsCollapse`. The expansions of `$&`, `` $` `` and
  `$'` are defined in `JsText.Substitute` but have no export lemma of their
  own.
- The model does not claim that the injected script occurs exactly once in
  the output. The count depends on occurrences already in the document, and
  on occurrences that can form across the inserted newlines and the
  surrounding text. The model states the exact spliced text instead, with a
  newline on each side of the script, as line 150 builds it.
