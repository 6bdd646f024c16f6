/** The home page (frontend/src/pages/Home.tsx): sends the selected image to the
    prediction endpoint and opens the returned Lichess link in a new tab, with a
    busy flag around the request. */
module Home {
  import opened Common
  import Browser
  import PredictRouter

  const AnalyzeFailedMessage: string := "Failed to analyze the board. Ensure the backend is running."

  class Page {
    var isAnalyzing: bool

    constructor ()
      ensures !isAnalyzing
    {
      isAnalyzing := false;
    }

    /** The part of `handleAnalyzeBoard` before the request: the page is busy. */
    method StartAnalyze()
      modifies this
      ensures isAnalyzing
    {
      isAnalyzing := true;
    }

    /** The part after `predictBoard` settles with the server's answer or fails; the
        busy flag is cleared whatever the outcome. */
    method SettleAnalyze(outcome: Option<PredictRouter.Prediction>, window: Browser.Window)
      modifies this, window
      ensures !isAnalyzing
      ensures outcome.Some? ==>
        window.tabs == old(window.tabs) + [outcome.value.lichessUrl] && window.alerts == old(window.alerts)
      ensures outcome.None? ==>
        window.alerts == old(window.alerts) + [AnalyzeFailedMessage] && window.tabs == old(window.tabs)
      ensures window.storage == old(window.storage) && window.navigations == old(window.navigations)
    {
      if outcome.Some? {
        window.Open(outcome.value.lichessUrl);
      } else {
        window.Alert(AnalyzeFailedMessage);
      }
      isAnalyzing := false;
    }

    /** `handleAnalyzeBoard` run to completion: exactly one tab or one alert, no
        navigation and no change to storage. */
    method HandleAnalyzeBoard(outcome: Option<PredictRouter.Prediction>, window: Browser.Window)
      modifies this, window
      ensures !isAnalyzing
      ensures outcome.Some? ==>
        window.tabs == old(window.tabs) + [outcome.value.lichessUrl] && window.alerts == old(window.alerts)
      ensures outcome.None? ==>
        window.alerts == old(window.alerts) + [AnalyzeFailedMessage] && window.tabs == old(window.tabs)
      ensures window.storage == old(window.storage) && window.navigations == old(window.navigations)
    {
      StartAnalyze();
      SettleAnalyze(outcome, window);
    }
  }
}
