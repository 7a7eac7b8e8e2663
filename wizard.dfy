/** The wizard component itself: the fields it updates, the step buttons, the
    input handlers and the download. */
module Wizard {
  import opened Wrappers
  import opened JsText
  import opened AppState
  import opened Packager

  class AppComponent {
    var currentStep: int
    var appName: string
    var appLogo: Option<string>
    var sourceType: SourceType
    var appUrl: string
    var htmlContent: string
    var multiPageFiles: seq<File>
    var enableAds: bool
    var adScript: string

    /** The step counter never leaves the three steps of the wizard. */
    predicate Valid()
      reads this
    {
      StepInRange(currentStep)
    }

    /** The fields as one value. */
    function State(): WizardState
      reads this
    {
      WizardState(currentStep, appName, appLogo, sourceType, appUrl, htmlContent,
                  multiPageFiles, enableAds, adScript)
    }

    constructor ()
      ensures Valid()
      ensures State() == Initial
    {
      currentStep := FirstStep;
      appName := "My App";
      appLogo := None;
      sourceType := Url;
      appUrl := "";
      htmlContent := "";
      multiPageFiles := [];
      enableAds := false;
      adScript := "";
    }

    /** `nextStep`: forward by one unless already on the last step. */
    method NextStep()
      requires Valid()
      modifies this
      ensures Valid()
      ensures State() == old(State()).(step := Advance(old(currentStep)))
    {
      if currentStep < LastStep {
        currentStep := currentStep + 1;
      }
    }

    /** `prevStep`: back by one unless already on the first step. */
    method PrevStep()
      requires Valid()
      modifies this
      ensures Valid()
      ensures State() == old(State()).(step := Retreat(old(currentStep)))
    {
      if currentStep > FirstStep {
        currentStep := currentStep - 1;
      }
    }

    /** `handleAppNameInput`: the name is stored as typed, untrimmed. */
    method HandleAppNameInput(value: string)
      modifies this
      ensures Valid() <==> old(Valid())
      ensures State() == old(State()).(appName := value)
    {
      appName := value;
    }

    /** `handleLogoUpload`: `dataUrl` is what reading the first selected file
        as a data URL produced, `None` when no file was selected. */
    method HandleLogoUpload(dataUrl: Option<string>)
      modifies this
      ensures Valid() <==> old(Valid())
      ensures dataUrl.Some? ==> State() == old(State()).(appLogo := dataUrl)
      ensures dataUrl.None? ==> State() == old(State())
    {
      if dataUrl.Some? {
        appLogo := dataUrl;
      }
    }

    /** `selectSourceType` */
    method SelectSourceType(kind: SourceType)
      modifies this
      ensures Valid() <==> old(Valid())
      ensures State() == old(State()).(sourceType := kind)
    {
      sourceType := kind;
    }

    /** `handleUrlInput` */
    method HandleUrlInput(value: string)
      modifies this
      ensures Valid() <==> old(Valid())
      ensures State() == old(State()).(appUrl := value)
    {
      appUrl := value;
    }

    /** `handleHtmlInput` */
    method HandleHtmlInput(value: string)
      modifies this
      ensures Valid() <==> old(Valid())
      ensures State() == old(State()).(htmlContent := value)
    {
      htmlContent := value;
    }

    /** `handleMultiPageFiles`: `selection` is the input's file list, `None`
        when the input has none.  A list that is present replaces the stored
        files even when it is empty. */
    method HandleMultiPageFiles(selection: Option<seq<File>>)
      modifies this
      ensures Valid() <==> old(Valid())
      ensures selection.Some? ==> State() == old(State()).(multiPageFiles := selection.value)
      ensures selection.None? ==> State() == old(State())
    {
      if selection.Some? {
        multiPageFiles := selection.value;
      }
    }

    /** `toggleEnableAds` */
    method ToggleEnableAds()
      modifies this
      ensures Valid() <==> old(Valid())
      ensures State() == old(State()).(enableAds := !old(enableAds))
    {
      enableAds := !enableAds;
    }

    /** `handleAdScriptInput`: the script is stored as typed; it is trimmed
        only when the page is exported. */
    method HandleAdScriptInput(value: string)
      modifies this
      ensures Valid() <==> old(Valid())
      ensures State() == old(State()).(adScript := value)
    {
      adScript := value;
    }

    /** `downloadApp`: the page and the name it is saved under, or `None` where
        the component shows its missing `index.html` alert and stops. */
    method DownloadApp() returns (artifact: Option<Artifact>)
      ensures artifact == Export(State())
      ensures artifact.None? <==>
        (sourceType == Multipage &&
         forall j :: 0 <= j < |multiPageFiles| ==> !IsIndexFileName(multiPageFiles[j].name))
    {
      ExportAbortsExactlyWithoutIndex(State());
      var finalHtml := "";
      if sourceType == Url {
        finalHtml := UrlRedirectHtml(appName, appUrl);
      } else if sourceType == Html {
        finalHtml := htmlContent;
      } else {
        var indexFile := FindIndexFile(multiPageFiles);
        if indexFile.None? {
          return None;
        }
        finalHtml := multiPageFiles[indexFile.value].content;
      }
      if enableAds && |Trim(adScript)| > 0 {
        var script := Trim(adScript);
        if Includes(finalHtml, HeadClose) {
          finalHtml := ReplaceFirst(finalHtml, HeadClose, AdTemplate(script));
        } else {
          finalHtml := AdShell(appName, script, finalHtml);
        }
      }
      artifact := Some(Artifact(finalHtml, DownloadFileName(appName)));
    }
  }

  /** A session at the step buttons' bounds: from the start, forward three
      times stops on the last step, and back once from there lands on the
      middle one; the entered name survives the navigation. */
  method NavigationSession(name: string) returns (c: AppComponent)
    ensures fresh(c) && c.Valid()
    ensures c.currentStep == LastStep - 1
    ensures c.appName == name
  {
    c := new AppComponent();
    c.HandleAppNameInput(name);
    c.NextStep();
    c.NextStep();
    c.NextStep();
    assert c.currentStep == LastStep;
    c.PrevStep();
  }
}
