/**
 * The page reading the analysis route's replies: how a failure inside the
 * analyser surfaces on screen. The page ignores the HTTP status and reads
 * only the JSON body.
 */
module EndToEnd {
  import opened Wrappers
  import opened Json
  import opened Types
  import Ai
  import AnalyzeRoute
  import HomePage

  /** The page after an image whose request got `reply` from the route. */
  function PageAfter(p: HomePage.Page<Ai.Analysis>, thumb: string, reply: AnalyzeRoute.HttpReply)
    : (r: HomePage.Page<Ai.Analysis>)
    ensures r.appState == HomePage.ShowingResult <==> reply.body.success && reply.body.data.Some?
    ensures r.appState == HomePage.ShowingResult ==> r.result == reply.body.data
  {
    HomePage.HandleImageSelected(p, HomePage.Answered(thumb, reply.body))
  }

  /** A request carrying a non-empty `image` string. */
  function ImageRequest(image: string): AnalyzeRoute.Body {
    AnalyzeRoute.Parsed(JObject(map["image" := JString(image)]))
  }

  /** The page shows a result exactly when the route admitted the image and the analyser succeeded. */
  lemma ResultIffAnalysisSucceeded(p: HomePage.Page<Ai.Analysis>, thumb: string, body: AnalyzeRoute.Body,
                                   analyze: string -> Result<Ai.Analysis, Ai.Failure>)
    ensures var r := PageAfter(p, thumb, AnalyzeRoute.Handle(body, analyze));
            r.appState == HomePage.ShowingResult <==>
              AnalyzeRoute.Admit(body).Accepted? && analyze(AnalyzeRoute.Admit(body).image).Success?
  {
  }

  /** Every error the route sends has an entry in the page's message table. */
  lemma RouteErrorsHaveMessages(p: HomePage.Page<Ai.Analysis>, thumb: string, body: AnalyzeRoute.Body,
                                analyze: string -> Result<Ai.Analysis, Ai.Failure>)
    ensures var r := PageAfter(p, thumb, AnalyzeRoute.Handle(body, analyze));
            r.appState == HomePage.ShowingError ==>
              r.error.Some? && HomePage.KnownKind(r.error.value.kind)
              && r.error.value.message != HomePage.FallbackMessage
  {
  }

  /**
   * A rate-limited or refused provider call reaches the user as the generic
   * communication error: the route folds both into API_ERROR.
   */
  lemma ProviderRefusalLooksLikeNetworkError(p: HomePage.Page<Ai.Analysis>, thumb: string, image: string,
                                             analyze: string -> Result<Ai.Analysis, Ai.Failure>)
    requires image != ""
    requires analyze(image) == Failure(Ai.RateLimited) || analyze(image) == Failure(Ai.ServiceUnavailable)
    ensures HomePage.Render(PageAfter(p, thumb, AnalyzeRoute.Handle(ImageRequest(image), analyze)))
            == HomePage.ErrorScreen(HomePage.ApiErrorMessage, false)
  {
    AnalyzeRoute.ClassifiedFailuresCollapse(image, analyze);
  }

  /** A photo without English text shows its own message and the hint to retake it. */
  lemma NoTextShowsHint(p: HomePage.Page<Ai.Analysis>, thumb: string, image: string,
                        analyze: string -> Result<Ai.Analysis, Ai.Failure>)
    requires image != ""
    requires analyze(image) == Failure(Ai.NoTextFound)
    ensures HomePage.Render(PageAfter(p, thumb, AnalyzeRoute.Handle(ImageRequest(image), analyze)))
            == HomePage.ErrorScreen(HomePage.NoTextFoundMessage, true)
  {
  }
}
