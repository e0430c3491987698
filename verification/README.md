# Recipe image cache and fetch-error model

A Dafny model of the caching and error-handling core of the Recipe iOS app.
The app fetches a JSON recipe feed and shows a thumbnail for each recipe.
Images go through a two-tier cache: a memory tier, then a disk tier, then the network.

The model covers:

- `ImageDiskCache` (module `DiskCache`). This is the disk tier. It writes JPEG files named by cache key into one directory and bounds that directory's total size by a byte quota (100 MiB unless the caller gives another; the model takes the quota as a parameter). By default the directory is the app's whole Caches directory (ImageDiskCache.swift:21), and the app uses that default. Its entries therefore need not be cache images: the listing, the total and the eviction see every file and subdirectory kept there, and deleting a subdirectory deletes its contents.
  - `store` encodes the image, writes or overwrites the key's file, then enforces the quota.
  - `retrieve` turns a missing, unreadable or undecodable file into `nil`.
  - `totalCacheSize` sums the file sizes, counting an unreadable size as 0.
  - `enforceStorageLimit` sorts the listing oldest access first, with an unreadable date counted as `Date.distantPast`. It then deletes files in that order until the running total is within the quota.
- `CachedAsyncImageViewModel` (module `ImageLoader`).
  - `createKey` derives the cache key.
  - `loadImage` tries memory, then disk (a disk error counts as a miss), then the network by the original URL string. On a network hit it caches the decoded image in memory and attempts a disk store whose failure is ignored.
- `RecipeURLSessionManager` and `URLSessionManager` (module `Networking`). Each fetcher is a pure classifier that maps what the transport did to data or an `APIError`.
- `RecipeListViewModel` (module `RecipeList`).
  - `loadRecipes` always resets `isLoading`. It replaces `recipes` on success and sets `errorMessage` on failure.
  - Fetch and parse errors are re-wrapped.
  - `handleError` maps an error to its message.

Model choices:

- **Directory.** The cache directory is a `map` from entry name to `Entry`. An entry holds the bytes, an optional size and an optional access date. A missing size or date means the file system could not report it. A subdirectory is one entry, sized by what the file system reports for the entry itself.
- **Dates.** A `Date` is a `TimeInterval`, a `Double` of seconds. Every finite `Double` is an integer multiple of 2^-1074 seconds, so the model keeps a date as that integer. Dates keep their sub-second order and never tie unless they are equal. `Date.distantPast` is -63114076800 seconds in the same unit.
- **Listing.** A directory listing is a `seq<File>` that holds each file once, with the resource values read at listing time. The listing order is an input, and it only decides ties between equal access dates. Swift's `sort` is stable, so ties follow the listing order, and `contentsOfDirectory` does not specify that order. Every eviction property is therefore proved for *any* listing sorted oldest first (`EvictionProperties`). The concrete insertion sort is stable and is one such order.
- **Total size.** `MapTotal` is the directory's total size, defined on the map itself. `ListingTotal` proves that the sum over any listing equals it.
- **File-system failures.** Each failing call is a parameter (`FsFaults`): listing, writing, reading, or deleting a particular file. An operation returns the directory afterwards together with the error it threw (`Outcome`). A delete that throws mid-eviction therefore keeps the deletions already made.
- **Opaque collaborators.** JPEG encoding, `UIImage(data:)`, `URL(string:)`, the network session and the recipe parser are function parameters. Images are opaque handles (`Platform.Image`).
- **Image loading.** The memory tier is a `map`. The disk tier and the network are functions of the key or URL. `loadImage` returns the new published state and the sequence of calls it made on its collaborators.

Behaviour of the code worth knowing:

- **Backslash.** The `invalidCharacters` literal (CachedAsyncImageViewModel.swift:77) contains a backslash, but it does not reach the pattern as a character to replace. The string `"/\\:*?\"<>|."` becomes the regex class `[/\:*?"<>|.]`, where the backslash escapes the colon. The class therefore matches `/ : * ? " < > | .` and keeps backslashes (`BackslashIsKept`).
- **Disk hits.** A disk hit is not copied into the memory tier (`DiskHitSkipsNetwork`).
- **Bad status in the async fetcher.** `RecipeURLSessionManager` never reports `invalidResponse` for a non-2xx status. The `invalidResponse` it throws is caught by its own `catch` and becomes `unknownError` (`InvalidResponseNeverEscapes`). The completion-handler `URLSessionManager` does report `invalidResponse` (`FetchersAgreeExceptOnErrors`).
- **Access dates.** A `retrieve` does not update any access date in the code.
- **Quota.** The quota is guaranteed only when `enforceStorageLimit` returns normally (`WithinQuota`). A throw from `removeItem` can leave the total above the quota. On a normal return the total is within the quota, unless `storageLimit` is negative; then every entry has been deleted.
- **Generic error message.** After a load, `errorMessage` is never "An unexpected error occurred." (`LoadNeverShowsUnexpectedMessage`). Every failure is re-wrapped as `invalidURL`, `networkError` or `decodingError`. The expectation at RecipeTests/RecipeListViewModelTests.swift:99 disagrees with this.

## Model

| member | source | states |
|---|---|---|
| DiskCache.MapTotalRemove | Recipe/Utilities/Cache/ImageDiskCache.swift:83-85 | removing one file lowers the directory total by exactly that file's size (0 if unreadable) |
| DiskCache.ListingTotal | Recipe/Utilities/Cache/ImageDiskCache.swift:60-66 | the sum of sizes over any listing of the directory equals the directory's total, whatever the listing order |
| DiskCache.TotalCacheSize | Recipe/Utilities/Cache/ImageDiskCache.swift:60-66 | `totalCacheSize` is the directory total with unreadable sizes as 0, and 0 when the directory cannot be listed |
| DiskCache.ListDirectory | Recipe/Utilities/Cache/ImageDiskCache.swift:69 | listing the directory in any name order yields every file exactly once with its current resource values |
| DiskCache.SortByAccess | Recipe/Utilities/Cache/ImageDiskCache.swift:74-79 | the sorted listing is a permutation of the listing, in ascending access date with a missing date as `distantPast` |
| DiskCache.StopIndex | Recipe/Utilities/Cache/ImageDiskCache.swift:81-82 | the loop's guard fails first at the least prefix after which the running total is within the limit, or never |
| DiskCache.FirstBlocked | Recipe/Utilities/Cache/ImageDiskCache.swift:81-84 | the first file, among those the loop reaches, whose `removeItem` throws |
| DiskCache.Evict | Recipe/Utilities/Cache/ImageDiskCache.swift:81-86 | the loop keeps a sub-directory of what it started with, changes nothing once the running total fits, and throws only a `removeItem` error for an undeletable file; its closed form is `EvictDeletesPrefix` |
| DiskCache.EvictDeletesPrefix | Recipe/Utilities/Cache/ImageDiskCache.swift:81-86 | the eviction loop deletes exactly a prefix of the sorted order, ending where the total fits or at the first delete that throws, and throws only in the latter case |
| DiskCache.PrefixDeletionTotals | Recipe/Utilities/Cache/ImageDiskCache.swift:83-85 | deleting a prefix lowers the total by exactly the sum of the deleted sizes |
| DiskCache.PrefixDeletionOldestFirst | Recipe/Utilities/Cache/ImageDiskCache.swift:74-86 | after deleting a prefix of the sorted order, no deleted file was accessed later than any surviving file |
| DiskCache.PrefixDeletionStopsAtFirstFit | Recipe/Utilities/Cache/ImageDiskCache.swift:81-86 | the last file deleted is a latest-accessed deleted one, and the total exceeded the limit just before it was deleted |
| DiskCache.EvictionProperties | Recipe/Utilities/Cache/ImageDiskCache.swift:74-86 | for any oldest-first order: survivors unchanged, deleted files no newer than survivors, totals accounted, quota met on normal return (for a negative limit, directory emptied), deletion stops at the first fit, a throw names an undeletable file still present while over the limit |
| DiskCache.EnforceStorageLimit | Recipe/Utilities/Cache/ImageDiskCache.swift:68-87 | throws and deletes nothing when the listing fails; deletes nothing when the total is within the limit; otherwise has every eviction property above |
| DiskCache.WriteCountsKeyOnce | Recipe/Utilities/Cache/ImageDiskCache.swift:38-39 | writing an existing key replaces its file, so the total counts the key once, with the new size |
| DiskCache.Written | Recipe/Utilities/Cache/ImageDiskCache.swift:38-39 | the write adds or replaces exactly the key's file, with the written bytes as its contents and size, and leaves every other file unchanged; `WriteCountsKeyOnce` states its effect on the total |
| DiskCache.Store | Recipe/Utilities/Cache/ImageDiskCache.swift:33-42 | an encoding failure throws `failedToEncodeImage` and writes nothing; a write failure throws and changes nothing; otherwise, relative to the written directory: a failing listing throws and deletes nothing, a total within the quota keeps the written file and deletes nothing, and otherwise eviction has every property of `EnforceStorageLimit` |
| DiskCache.Retrieve | Recipe/Utilities/Cache/ImageDiskCache.swift:44-52 | returns `None`, never an error, for a missing or unreadable file, and otherwise the decoding of the stored bytes |
| DiskCache.NewestEntrySurvives | Recipe/Utilities/Cache/ImageDiskCache.swift:68-86 | a file accessed strictly later than all others and no larger than the quota is not evicted, and eviction returns normally |
| DiskCache.NewestStoreSurvives | Recipe/Utilities/Cache/ImageDiskCache.swift:33-52 | storing an image whose bytes fit the quota, with a recorded access date later than every other file's, returns normally, and retrieving it then gives the decoding of its encoded bytes |
| DiskCache.TwoImagesOverQuota | Recipe/Utilities/Cache/ImageDiskCache.swift:33-86 | with a 1024-byte quota, an older 600-byte file and a newly stored 600-byte image, only the new image remains |
| ImageLoader.CreateKey | Recipe/ViewModels/CachedAsyncImageViewModel.swift:76-79 | the key has the URL's length; each of `/ : * ? " < > \| .` becomes `#`, every other character is kept in place |
| ImageLoader.KeyIsFileNameSafe | Recipe/ViewModels/CachedAsyncImageViewModel.swift:77-78 | a derived key contains none of the matched characters |
| ImageLoader.BackslashIsKept | Recipe/ViewModels/CachedAsyncImageViewModel.swift:77-78 | a backslash is not in the matched class and survives into the key |
| ImageLoader.CreateKeyIdempotent | Recipe/ViewModels/CachedAsyncImageViewModel.swift:77-78 | deriving a key from a key returns it unchanged |
| ImageLoader.KeysCollide | Recipe/ViewModels/CachedAsyncImageViewModel.swift:76-79 | distinct URLs can share a key (`a.b` and `a/b` both give `a#b`) |
| ImageLoader.GetImageFromCache | Recipe/ViewModels/CachedAsyncImageViewModel.swift:37-47 | a memory hit is returned without asking the disk; on a miss the disk is asked with the same key and only a disk hit yields an image; neither tier is written |
| ImageLoader.CacheImage | Recipe/ViewModels/CachedAsyncImageViewModel.swift:67-74 | the memory tier holds the image under the key, other keys unchanged, and a disk store under the same key follows |
| ImageLoader.FetchImage | Recipe/ViewModels/CachedAsyncImageViewModel.swift:49-65 | an invalid URL fetches nothing; otherwise the original URL string is fetched; an image results exactly when fetch and decode succeed, and is then cached under the derived key; otherwise nothing is cached |
| ImageLoader.LoadImage | Recipe/ViewModels/CachedAsyncImageViewModel.swift:24-35 | the first call is the memory lookup by the derived key; every tier call uses that key and every fetch the URL; `image` is unchanged or set to an image |
| ImageLoader.MemoryHitShortCircuits | Recipe/ViewModels/CachedAsyncImageViewModel.swift:24-40 | a memory hit publishes the cached image and makes no disk or network call |
| ImageLoader.DiskHitSkipsNetwork | Recipe/ViewModels/CachedAsyncImageViewModel.swift:37-47 | after a memory miss, a disk hit is published without fetching and without writing the memory tier |
| ImageLoader.DiskErrorIsMiss | Recipe/ViewModels/CachedAsyncImageViewModel.swift:41-46 | a throwing disk read behaves exactly like a disk miss |
| ImageLoader.FetchOnlyOnDoubleMiss | Recipe/ViewModels/CachedAsyncImageViewModel.swift:24-56 | the network is called iff both tiers miss and the URL parses, and at most once |
| ImageLoader.DoubleMissOutcome | Recipe/ViewModels/CachedAsyncImageViewModel.swift:49-74 | after a double miss, a decodable fetch is published and cached in memory and stored to disk under the derived key; otherwise the state is unchanged and nothing is cached |
| ImageLoader.ReloadIsStable | Recipe/ViewModels/CachedAsyncImageViewModel.swift:24-74 | loading the same URL twice leaves the same state, and after a successful fetch the second load is served from memory alone |
| Networking.DoBlock | Recipe/Networking/RecipeURLSessionManager.swift:22-30 | the `do` block returns the received data exactly for an HTTP 2xx response, rethrows a transport error, and otherwise throws |
| Networking.CatchBlock | Recipe/Networking/RecipeURLSessionManager.swift:31-37 | a `URLError` becomes `networkError` wrapping it; any other error becomes `unknownError` |
| Networking.FetchDataAsync | Recipe/Networking/RecipeURLSessionManager.swift:17-38 | invalid URL gives `invalidURL` without a request; 2xx gives the data unchanged; a bad status or non-URL error gives `unknownError`; a `URLError` gives `networkError` |
| Networking.InvalidResponseNeverEscapes | Recipe/Networking/RecipeURLSessionManager.swift:26-37 | the async fetcher never reports `invalidResponse`; a bad status surfaces as `unknownError` |
| Networking.AsyncNetworkErrorIffURLError | Recipe/Networking/RecipeURLSessionManager.swift:31-35 | `networkError(e)` is reported iff the URL is valid and the transport threw the `URLError` `e` |
| Networking.ClassifyReply | Recipe/Networking/NetworkingManager.swift:23-44 | a transport error wins over response and data; success iff no error, an HTTP 2xx response and data present, with the received bytes |
| Networking.FetchDataWithCompletion | Recipe/Networking/NetworkingManager.swift:17-45 | completion is called exactly once on every path; a task starts iff the URL parses; an invalid URL completes with `invalidURL`; a valid one completes with the `ClassifyReply` result for the task's reply |
| Networking.CompletionResponseChecks | Recipe/Networking/NetworkingManager.swift:30-40 | with no transport error, a missing or non-2xx response gives `invalidResponse` and a 2xx response without data gives `unknownError` |
| Networking.FetchersAgreeExceptOnErrors | Recipe/Networking/NetworkingManager.swift:17-45 | the completion fetcher agrees with the async one except for a bad status (`invalidResponse` vs `unknownError`) and a non-URL transport error (`networkError` vs `unknownError`) |
| RecipeList.HandleError | Recipe/ViewModels/RecipeListViewModel.swift:94-106 | `invalidURL`, `networkError` and `decodingError` get their own messages; every other error gets the generic one |
| RecipeList.MessagesDistinct | Recipe/ViewModels/RecipeListViewModel.swift:94-106 | the four messages are pairwise distinct |
| RecipeList.FetchRecipeData | Recipe/ViewModels/RecipeListViewModel.swift:57-66 | an invalid feed URL throws `invalidURL`; any session error is re-wrapped as `networkError`; data passes through unchanged |
| RecipeList.ParseRecipeData | Recipe/ViewModels/RecipeListViewModel.swift:68-77 | a parser failure is re-thrown as `decodingError`; a parsed response passes through |
| RecipeList.FetchRecipes | Recipe/ViewModels/RecipeListViewModel.swift:47-55 | a fetch failure is returned without parsing; success iff fetch and parse both succeed, yielding the parsed recipes |
| RecipeList.LoadRecipes | Recipe/ViewModels/RecipeListViewModel.swift:31-45 | `isLoading` is false afterwards; success replaces `recipes` and keeps `errorMessage`; failure keeps `recipes` and sets the handled message |
| RecipeList.FetchFailureShowsNetworkMessage | Recipe/ViewModels/RecipeListViewModel.swift:61-65 | any session failure, including `invalidResponse`, shows the network message and keeps the recipes |
| RecipeList.ParseFailureShowsDecodingMessage | Recipe/ViewModels/RecipeListViewModel.swift:68-77 | a parse failure after a successful fetch shows the decoding message and keeps the recipes |
| RecipeList.LoadNeverShowsUnexpectedMessage | Recipe/ViewModels/RecipeListViewModel.swift:94-106 | a load never sets the generic message, since every error it handles is one of the three named cases |
| RecipeList.RecipesOnlyFromSuccessfulParse | Recipe/ViewModels/RecipeListViewModel.swift:38-55 | `recipes` changes only when fetch and parse both succeed, and then becomes exactly the parsed list |

## Left out

- `RecipeImageCacheManager` is a wrapper over SDWebImage's caches, whose storage and eviction belong to that library.
- `ImageMemoryCache` is an `NSCache` whose count and cost limits give callers no eviction guarantee. The memory tier is a plain map here, so "the memory tier holds the image" means: until the cache evicts it.
- JSON decoding (`DataDecoder`, `RecipeDecoder`, `RecipeParser`, the `CodingKeys` of `Recipe`) is `JSONDecoder`. The parser is a function parameter returning a `Result`.
- Real I/O is not modelled: URLSession transport, FileManager calls, JPEG encoding at `compressionQuality` (a `CGFloat`), and `UIImage(data:)` decoding. They are parameters. `URL(string:)` validity is a predicate parameter, and `URL.absoluteString` is taken to be the string the URL was parsed from.
- `setupCacheDirectory` is not modelled: the directory is taken to exist.
- The file system's own access-time updates on read are not modelled: they belong to the file system, not to the code.
- A written file is modelled with a readable size equal to its byte count and with the access date the file system records for it, a parameter. For a new file that is the write time. When an existing key is overwritten, a non-atomic `Data.write` on a POSIX file system may leave the file's earlier access date in place, and that date is then the parameter's value. A failed write leaves the directory unchanged; a partially written file is not modelled.
- `enforceStorageLimit` lists the directory twice, once directly and once through `totalCacheSize`. The model assumes both listings see the same directory and fail together.
- Swift's `Int` traps on overflow; the model's sizes and totals are unbounded integers.
- Concurrency is not modelled: `cacheImagesForRecipes` and its task group, `@MainActor`, async suspension, and races on the shared directory. `FetchRecipes` leaves out the image prefetch, which cannot throw and returns nothing.
- `print` logging of swallowed errors is not modelled.
- Views, app wiring, URL constants and the protocol declarations are not modelled. The protocols only shape the collaborator parameters.
- LoadRecipes: states only the state when `loadRecipes` returns. The intermediate publication of `isLoading = true` is not observable in the model.
- DiskCache.SortByAccess: breaks ties in listing order, as Swift's stable sort does. The listing order that `contentsOfDirectory` produces is unspecified, so the eviction properties are proved for every oldest-first order (`EvictionProperties`).
- Error bridging is not modelled: `Thrown` records each error as `as? URLError` classifies it. An `NSError` of `NSURLErrorDomain` is a `URLError` there, and `Foreign` stands only for errors that do not bridge.
