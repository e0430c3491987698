/** `RecipeListViewModel`: loads the recipe feed, parses it, and publishes
    either the recipes or a user-facing error message. The network session
    and the parser are injected; here their outcomes are parameters. */
module RecipeList {
  import opened Wrappers
  import opened Platform
  import opened Networking

  /** `Recipe`: one entry of the feed. */
  datatype Recipe = Recipe(
    id: string,
    cuisine: string,
    name: string,
    photoURLLarge: string,
    photoURLSmall: string,
    sourceURL: Option<string>,
    youtubeURL: Option<string>)

  /** `RecipeResponse`: the decoded feed. */
  datatype RecipeResponse = RecipeResponse(recipes: seq<Recipe>)

  /** The view model's published properties. */
  datatype ListState = ListState(recipes: seq<Recipe>, isLoading: bool, errorMessage: Option<string>)

  const InvalidURLMessage: string := "Invalid URL provided."
  const NetworkMessage: string := "Network error occurred. Please check your connection."
  const DecodingMessage: string := "Failed to decode the response. Please try again later."
  const UnexpectedMessage: string := "An unexpected error occurred."

  /** `handleError(_:)`: the message shown for an error. Any error that is
      not one of the three named `APIError` cases gets the generic message. */
  function HandleError(e: Thrown): (message: string)
    ensures e == API(InvalidURL) ==> message == InvalidURLMessage
    ensures e.API? && e.error.NetworkError? ==> message == NetworkMessage
    ensures e.API? && e.error.DecodingError? ==> message == DecodingMessage
    ensures !(e.API? && (e.error.InvalidURL? || e.error.NetworkError? || e.error.DecodingError?)) ==> message == UnexpectedMessage
  {
    match e
    case API(InvalidURL) => InvalidURLMessage
    case API(NetworkError(_)) => NetworkMessage
    case API(DecodingError(_)) => DecodingMessage
    case _ => UnexpectedMessage
  }

  /** The four messages are distinct, so the message identifies the case. */
  lemma MessagesDistinct()
    ensures InvalidURLMessage != NetworkMessage && InvalidURLMessage != DecodingMessage
    ensures InvalidURLMessage != UnexpectedMessage && NetworkMessage != DecodingMessage
    ensures NetworkMessage != UnexpectedMessage && DecodingMessage != UnexpectedMessage
  {
  }

  /** `fetchRecipeData()`: an unparseable feed URL throws `invalidURL`;
      whatever the session throws, even an `APIError`, is re-wrapped as
      `networkError`. `fetched` is what `urlSessionManager.fetchData` did. */
  function FetchRecipeData(urlValid: bool, fetched: Result<Bytes, Thrown>): (r: Result<Bytes, APIError>)
    ensures !urlValid ==> r == Failure(InvalidURL)
    ensures urlValid && fetched.Failure? ==> r == Failure(NetworkError(fetched.error))
    ensures urlValid && fetched.Success? ==> r == Success(fetched.value)
  {
    if !urlValid then Failure(InvalidURL)
    else
      match fetched
      case Success(data) => Success(data)
      case Failure(e) => Failure(NetworkError(e))
  }

  /** `parseRecipeData(_:)`: a parser failure is re-thrown as
      `decodingError` wrapping it. */
  function ParseRecipeData(parsed: Result<RecipeResponse, APIError>): (r: Result<RecipeResponse, APIError>)
    ensures parsed.Success? ==> r == parsed
    ensures parsed.Failure? ==> r == Failure(DecodingError(API(parsed.error)))
  {
    match parsed
    case Success(response) => Success(response)
    case Failure(e) => Failure(DecodingError(API(e)))
  }

  /** `fetchRecipes()`: fetch, then parse what was fetched. `parse` is the
      injected `RecipeParser.parseRecipes(from:)`; it is consulted only after
      a successful fetch. */
  function FetchRecipes(urlValid: bool, fetched: Result<Bytes, Thrown>,
                        parse: Bytes -> Result<RecipeResponse, APIError>): (r: Result<seq<Recipe>, APIError>)
    ensures FetchRecipeData(urlValid, fetched).Failure? ==> r == Failure(FetchRecipeData(urlValid, fetched).error)
    ensures r.Success? <==> urlValid && fetched.Success? && parse(fetched.value).Success?
    ensures r.Success? ==> r.value == parse(fetched.value).value.recipes
  {
    match FetchRecipeData(urlValid, fetched)
    case Failure(e) => Failure(e)
    case Success(data) =>
      match ParseRecipeData(parse(data))
      case Failure(e) => Failure(e)
      case Success(response) => Success(response.recipes)
  }

  /** `loadRecipes()`: `isLoading` is set for the duration and reset on
      every path by the `defer`; success replaces `recipes`, failure sets
      `errorMessage`, and each leaves the other property alone. */
  function LoadRecipes(st: ListState, urlValid: bool, fetched: Result<Bytes, Thrown>,
                       parse: Bytes -> Result<RecipeResponse, APIError>): (r: ListState)
    ensures !r.isLoading
    ensures FetchRecipes(urlValid, fetched, parse).Success? ==>
              r.recipes == FetchRecipes(urlValid, fetched, parse).value && r.errorMessage == st.errorMessage
    ensures FetchRecipes(urlValid, fetched, parse).Failure? ==>
              r.recipes == st.recipes && r.errorMessage == Some(HandleError(API(FetchRecipes(urlValid, fetched, parse).error)))
  {
    var loading := st.(isLoading := true);
    var done :=
      match FetchRecipes(urlValid, fetched, parse)
      case Success(recipes) => loading.(recipes := recipes)
      case Failure(e) => loading.(errorMessage := Some(HandleError(API(e))));
    done.(isLoading := false)
  }

  /** Every failed fetch shows the network message, whatever the session
      threw, including an `invalidResponse`. */
  lemma FetchFailureShowsNetworkMessage(st: ListState, fetched: Result<Bytes, Thrown>,
                                        parse: Bytes -> Result<RecipeResponse, APIError>)
    requires fetched.Failure?
    ensures LoadRecipes(st, true, fetched, parse).errorMessage == Some(NetworkMessage)
    ensures LoadRecipes(st, true, fetched, parse).recipes == st.recipes
  {
  }

  /** A fetch that succeeds followed by a parse that fails shows the decoding
      message and keeps the previous recipes. */
  lemma ParseFailureShowsDecodingMessage(st: ListState, data: Bytes,
                                         parse: Bytes -> Result<RecipeResponse, APIError>)
    requires parse(data).Failure?
    ensures LoadRecipes(st, true, Success(data), parse).errorMessage == Some(DecodingMessage)
    ensures LoadRecipes(st, true, Success(data), parse).recipes == st.recipes
  {
  }

  /** A load never ends with the generic message: every error `fetchRecipes`
      throws is one of the three named cases. */
  lemma LoadNeverShowsUnexpectedMessage(st: ListState, urlValid: bool, fetched: Result<Bytes, Thrown>,
                                        parse: Bytes -> Result<RecipeResponse, APIError>)
    ensures LoadRecipes(st, urlValid, fetched, parse).errorMessage != Some(UnexpectedMessage)
            || st.errorMessage == Some(UnexpectedMessage)
  {
    var r := FetchRecipes(urlValid, fetched, parse);
    if r.Failure? {
      assert r.error.InvalidURL? || r.error.NetworkError? || r.error.DecodingError?;
      MessagesDistinct();
    }
  }

  /** The recipes change only when both fetch and parse succeed, and then
      become exactly the parsed list. */
  lemma RecipesOnlyFromSuccessfulParse(st: ListState, urlValid: bool, fetched: Result<Bytes, Thrown>,
                                       parse: Bytes -> Result<RecipeResponse, APIError>)
    ensures var r := LoadRecipes(st, urlValid, fetched, parse);
            r.recipes == st.recipes
            || (urlValid && fetched.Success? && parse(fetched.value).Success?
                && r.recipes == parse(fetched.value).value.recipes)
  {
  }
}
