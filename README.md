# Pexels photo search: retrying repository and selection view model

A Dafny model of the two stateful pieces of a small Android client that
searches the Pexels stock-photo catalogue:

- `PhotosRepository.getPhotos` (`repository.dfy`, module `Repository`): calls
  the provider's search endpoint in a `while` loop over `ok`, `res` and
  `errors`. A response is mapped record by record onto `Photo` values and
  ends the loop. An `IOException` is counted, followed by a one-second wait,
  and the call is retried. After three I/O failures the initial empty list is
  returned. Any other exception escapes. The endpoint is a script
  `seq<Outcome>`: the i-th call does what `script[i]` says (`Ok(records)`,
  `IOErr` or `OtherErr`). `GetPhotos` is the loop itself, proved equal to
  the specification function `GetPhotosSpec` (that is, `RetryFrom`). The
  lemmas characterise that function completely: the three ways a run can end,
  the converse, the waits, and independence from outcomes never requested.
- `PhotosViewModel` (`viewmodel.dfy`, module `Presentation`): a class holding
  the private `selectedElement`, the values of the two state flows and a
  ghost log of every `emit`. Its invariant `Valid()` says each flow holds the
  last value emitted on it, the published selection is the private one, and
  every result list is emitted right after a selection reset.
- `domain.dfy` holds the `Photo` value; `api.dfy` holds the provider's photo
  record (with its nested image sources) and the per-call `Outcome`.

Three behaviours of the code that are easy to miss:

- The selection is reset to -1 when the fetch completes
  (`PhotosViewModel.kt:16-18`), not when a search is submitted.
  `SearchSession` shows the old selection surviving until the new results
  arrive.
- Clicking the same index twice clears the selection only when it started on
  another index. Starting on that index, it ends on it again (`ToggleTwice`).
- A selection is not always -1 or a valid index: `onImageClick` accepts any
  integer (`Toggle`).

## Model

| member | source | states |
|---|---|---|
| `Repository.ToPhotoForgetsOnlyOtherSizes` | app/src/main/java/com/eati/pexels/data/PhotosRepository.kt:19-31 | two provider records map to the same Photo iff they differ only in the image-size variants other than medium |
| `Repository.ToPhotos` | app/src/main/java/com/eati/pexels/data/PhotosRepository.kt:18-32 | the mapped list has the response's length and its i-th photo is the projection of the i-th record (order kept) |
| `Repository.ToPhotosCopiesFields` | app/src/main/java/com/eati/pexels/data/PhotosRepository.kt:19-31 | each mapped photo copies id, width, height, url, photographer, photographerUrl, photographerId, avgColor, liked and alt, and takes sourceURL from src.medium |
| `Repository.ToPhotosAppend` | app/src/main/java/com/eati/pexels/data/PhotosRepository.kt:18 | mapping a concatenated response is the concatenation of the mapped parts: nothing dropped, duplicated or reordered |
| `Repository.RetryFrom` | app/src/main/java/com/eati/pexels/data/PhotosRepository.kt:16-38 | from any number of prior I/O failures, the loop makes at most 3 calls, waits at least as often as it had failed, and makes at most one call more than it waits |
| `Repository.GetPhotos` | app/src/main/java/com/eati/pexels/data/PhotosRepository.kt:12-41 | the loop over ok, res and errors returns exactly the result, call count and wait count of the specification `GetPhotosSpec` |
| `Repository.SkipIOFailures` | app/src/main/java/com/eati/pexels/data/PhotosRepository.kt:34-38 | a stretch of I/O failures only advances the error counter: the run ends as if the loop had started after them |
| `Repository.SuccessAfterIOFailures` | app/src/main/java/com/eati/pexels/data/PhotosRepository.kt:16-38 | k < 3 I/O failures then a response (possibly empty) return that response mapped, after exactly k+1 calls and k waits, with no retry of the success |
| `Repository.OtherErrorPropagates` | app/src/main/java/com/eati/pexels/data/PhotosRepository.kt:17-34 | k < 3 I/O failures then another exception: it escapes on call k+1 and no further call is made |
| `Repository.ThreeIOFailuresGiveEmpty` | app/src/main/java/com/eati/pexels/data/PhotosRepository.kt:14-40 | three I/O failures return the initial empty list after 3 calls and 3 waits, including a wait after the last failure |
| `Repository.RetryFromShape` | app/src/main/java/com/eati/pexels/data/PhotosRepository.kt:16-40 | conversely every run is one of those: all calls before the last one failed with I/O, and the loop stopped on the first other outcome (settling it) or after the third failure with the empty list |
| `Repository.PropagatesIff` | app/src/main/java/com/eati/pexels/data/PhotosRepository.kt:17-34 | a failure escapes iff one of the first three calls throws a non-I/O exception after nothing but I/O failures |
| `Repository.NonEmptyOnlyFromResponse` | app/src/main/java/com/eati/pexels/data/PhotosRepository.kt:14-33 | a nonempty list is returned only as the mapped response of the last call made; otherwise the initial empty res is returned |
| `Repository.WaitsCountIOFailures` | app/src/main/java/com/eati/pexels/data/PhotosRepository.kt:34-37 | the number of backoff waits equals the number of I/O failures among the calls actually made |
| `Repository.OnlyCallsMadeMatter` | app/src/main/java/com/eati/pexels/data/PhotosRepository.kt:16-33 | the run depends only on the outcomes of the calls it made: no call is issued after a success or an escaping exception |
| `Presentation.Toggle` | app/src/main/java/com/eati/pexels/presentation/PhotosViewModel.kt:23-27 | the new selection is -1 iff the clicked index was the selected one (or -1 itself), and otherwise is the clicked index, with no range check |
| `Presentation.ToggleTwice` | app/src/main/java/com/eati/pexels/presentation/PhotosViewModel.kt:22-27 | two clicks on the same index end at -1 from another selection and back at that index when starting on it |
| `Presentation.LatestAfterEmit` | app/src/main/java/com/eati/pexels/presentation/PhotosViewModel.kt:12-13 | an emit sets the value of the flow it targets and leaves the other flow's value alone |
| `Presentation.ResultsArriveUnselected` | app/src/main/java/com/eati/pexels/presentation/PhotosViewModel.kt:17-19 | in any log where results follow a reset, after a results emission the selection flow holds -1 |
| `Presentation.PhotosViewModel.constructor` | app/src/main/java/com/eati/pexels/presentation/PhotosViewModel.kt:11-13 | initially nothing is selected, the photo list is empty and nothing has been emitted |
| `Presentation.PhotosViewModel.OnImageClick` | app/src/main/java/com/eati/pexels/presentation/PhotosViewModel.kt:22-31 | the selection becomes the toggle of the old one, the published selection equals it, the photo list is unchanged, one selection emission is logged |
| `Presentation.PhotosViewModel.CompleteUpdate` | app/src/main/java/com/eati/pexels/presentation/PhotosViewModel.kt:16-19 | after a fetch returns, whatever the prior state, the selection is -1 and the photos are the result, emitted in the order reset then results; an escaping exception changes nothing |
| `Presentation.PhotosViewModel.UpdateResults` | app/src/main/java/com/eati/pexels/presentation/PhotosViewModel.kt:14-21 | a completed update leaves the state that CompleteUpdate gives for the repository's result on the scripted API |

## Left out

- The search query: the script stands for the endpoint's answers to it, and every call uses the same query.
- `Repository.GetPhotos` requires a script with an outcome for each of the three calls the loop may make. This is a bound on the modelled environment, not a demand on callers.
- `Log.e` and `delay(1000)`: logging and real time are side effects. The model only counts the waits.
- The Retrofit client `PexelsApi` and its DTOs are not part of this model. The record type copies the fields the mapping reads. The image sources are the medium URL plus a map of the other size variants.
- Integer widths: ids, sizes and the selection index are Kotlin `Int`/`Long` values, modelled as unbounded integers. No operation here does arithmetic on them.
- `viewModelScope.launch`, suspension and the last-write-wins race between overlapping `updateResults` calls are concurrency. `UpdateResults` runs one update to completion, and `CompleteUpdate` is the part after the fetch. Interleavings come from calling these in any order, as `SearchSession` does.
- `onImageClick` emits from a launched coroutine. It is modelled as emitting at once, which is what the immediate main dispatcher does when emitting never suspends.
- `MutableStateFlow` observer semantics: a state flow does not notify collectors of a value equal to the current one. The log records every `emit` call, and each flow is a plain field.
- An exception escaping `getPhotos` inside `updateResults` ends the coroutine, and with it the app. The model records only that the view model's state is untouched (`CompleteUpdate` on `Propagated`).
- `PhotosScreen.kt`: Compose layout, image loading, colour parsing and link opening are platform UI.
