/** PhotosRepository: fetches one page of search results from the provider,
    retrying I/O failures a fixed number of times, and maps the provider's
    records onto the application's Photo values. */
module Repository {
  import opened Domain
  import opened Api

  /** The loop gives up once this many I/O failures have occurred. */
  const MaxAttempts: nat := 3

  /** What getPhotos hands to its caller: a photo list (possibly the initial
      empty one), or the non-I/O exception escaping from it. */
  datatype Fetch = Returned(photos: seq<Photo>) | Propagated

  /** One call of getPhotos seen from outside: its result, the number of API
      calls it made and the number of one-second backoff waits it slept. */
  datatype Run = Run(result: Fetch, attempts: nat, waits: nat)

  /** The mapping lambda: a field-by-field projection of one provider record,
      with the displayable image taken from the medium-size variant. */
  function ToPhoto(r: PhotoRecord): (p: Photo)
  {
    Photo(
      id := r.id,
      width := r.width,
      height := r.height,
      url := r.url,
      photographer := r.photographer,
      photographerUrl := r.photographerUrl,
      photographerId := r.photographerId,
      avgColor := r.avgColor,
      liked := r.liked,
      alt := r.alt,
      sourceURL := r.src.medium
    )
  }

  /** Two records agree on everything the application could ever see of them:
      every field, and the medium variant of the image sources. */
  predicate SameButOtherSizes(a: PhotoRecord, b: PhotoRecord)
  {
    a == b.(src := b.src.(otherSizes := a.src.otherSizes))
  }

  /** The projection keeps exactly the information it claims to: two records
      map to the same Photo if and only if they differ at most in the size
      variants other than medium. */
  lemma ToPhotoForgetsOnlyOtherSizes(a: PhotoRecord, b: PhotoRecord)
    ensures ToPhoto(a) == ToPhoto(b) <==> SameButOtherSizes(a, b)
  {
  }

  /** `photos.map { ... }`: the records mapped one by one, in response order. */
  function ToPhotos(records: seq<PhotoRecord>): (photos: seq<Photo>)
    ensures |photos| == |records|
    ensures forall i :: 0 <= i < |records| ==> photos[i] == ToPhoto(records[i])
  {
    if records == [] then [] else [ToPhoto(records[0])] + ToPhotos(records[1..])
  }

  /** Every photo in a mapped response carries the fields of the record at
      the same position, and its image is that record's medium variant. */
  lemma ToPhotosCopiesFields(records: seq<PhotoRecord>, i: nat)
    requires i < |records|
    ensures var p, r := ToPhotos(records)[i], records[i];
      p.id == r.id && p.width == r.width && p.height == r.height &&
      p.url == r.url && p.photographer == r.photographer &&
      p.photographerUrl == r.photographerUrl && p.photographerId == r.photographerId &&
      p.avgColor == r.avgColor && p.liked == r.liked && p.alt == r.alt &&
      p.sourceURL == r.src.medium
  {
  }

  /** Mapping commutes with concatenation: responses are mapped piecewise,
      so no record is dropped, duplicated or reordered. */
  lemma ToPhotosAppend(a: seq<PhotoRecord>, b: seq<PhotoRecord>)
    ensures ToPhotos(a + b) == ToPhotos(a) + ToPhotos(b)
  {
  }

  /** How an attempt that did not throw an I/O exception ends the loop. */
  function Settle(o: Outcome): (f: Fetch)
    requires !o.IOErr?
  {
    match o
    case Ok(records) => Returned(ToPhotos(records))
    case OtherErr => Propagated
  }

  /** The first `n` API calls all threw an I/O exception. */
  ghost predicate AllIOFailures(script: seq<Outcome>, n: nat)
    requires n <= |script|
  {
    forall j :: 0 <= j < n ==> script[j].IOErr?
  }

  /** The number of I/O failures among some API outcomes. */
  function CountIOFailures(outcomes: seq<Outcome>): (n: nat)
  {
    if outcomes == [] then 0
    else CountIOFailures(outcomes[..|outcomes| - 1])
         + (if outcomes[|outcomes| - 1].IOErr? then 1 else 0)
  }

  /** The rest of getPhotos' loop, entered with `errors` I/O failures so far
      and no success yet: `script[i]` is what the i-th API call does. */
  function RetryFrom(script: seq<Outcome>, errors: nat): (r: Run)
    requires |script| >= MaxAttempts && errors <= MaxAttempts
    ensures errors <= r.waits <= r.attempts <= MaxAttempts
    ensures r.attempts <= r.waits + 1
    decreases MaxAttempts - errors
  {
    if errors == MaxAttempts then Run(Returned([]), errors, errors)
    else if script[errors].IOErr? then RetryFrom(script, errors + 1)
    else Run(Settle(script[errors]), errors + 1, errors)
  }

  /** getPhotos as a whole, against the scripted API. */
  function GetPhotosSpec(script: seq<Outcome>): (r: Run)
    requires |script| >= MaxAttempts
  {
    RetryFrom(script, 0)
  }

  /** `getPhotos`: the retry loop over `ok`, `res` and `errors`. The i-th
      call to the API does what `script[i]` says. */
  method GetPhotos(script: seq<Outcome>) returns (result: Fetch, attempts: nat, waits: nat)
    requires |script| >= MaxAttempts
    ensures Run(result, attempts, waits) == GetPhotosSpec(script)
  {
    var ok := false;
    var res: seq<Photo> := [];
    var errors := 0;
    attempts, waits := 0, 0;
    while !ok && errors < MaxAttempts
      invariant errors <= MaxAttempts && waits == errors
      invariant attempts == errors + (if ok then 1 else 0)
      invariant !ok ==> res == [] && RetryFrom(script, errors) == GetPhotosSpec(script)
      invariant ok ==> GetPhotosSpec(script) == Run(Returned(res), attempts, waits)
      decreases MaxAttempts - errors, if ok then 0 else 1
    {
      var outcome := script[attempts];
      attempts := attempts + 1;
      match outcome {
        case Ok(records) =>
          res := ToPhotos(records);
          ok := true;
        case IOErr =>
          errors := errors + 1;
          waits := waits + 1;
        case OtherErr =>
          result := Propagated;
          return;
      }
    }
    result := Returned(res);
  }

  /** A run of I/O failures is skipped over: starting the loop at `from` ends
      the same way as starting it after those failures, at `k`. */
  lemma {:induction false} SkipIOFailures(script: seq<Outcome>, from: nat, k: nat)
    requires |script| >= MaxAttempts && from <= k <= MaxAttempts
    requires forall j :: from <= j < k ==> script[j].IOErr?
    ensures RetryFrom(script, from) == RetryFrom(script, k)
    decreases k - from
  {
    if from < k {
      SkipIOFailures(script, from + 1, k);
    }
  }

  /** k I/O failures (k < 3) followed by a response: the mapped response is
      returned after exactly k + 1 calls and k waits. With k = 0 and an empty
      response this is the zero-result success, which is not retried. */
  lemma SuccessAfterIOFailures(script: seq<Outcome>, k: nat)
    requires |script| >= MaxAttempts && k < MaxAttempts
    requires AllIOFailures(script, k) && script[k].Ok?
    ensures GetPhotosSpec(script) == Run(Returned(ToPhotos(script[k].records)), k + 1, k)
  {
    SkipIOFailures(script, 0, k);
  }

  /** k I/O failures (k < 3) followed by any other exception: it escapes on
      call k + 1, with no further call. */
  lemma OtherErrorPropagates(script: seq<Outcome>, k: nat)
    requires |script| >= MaxAttempts && k < MaxAttempts
    requires AllIOFailures(script, k) && script[k].OtherErr?
    ensures GetPhotosSpec(script) == Run(Propagated, k + 1, k)
  {
    SkipIOFailures(script, 0, k);
  }

  /** Three I/O failures in a row: the initial empty list comes back, after
      three calls and three waits (one of them after the last failure). */
  lemma ThreeIOFailuresGiveEmpty(script: seq<Outcome>)
    requires |script| >= MaxAttempts && AllIOFailures(script, MaxAttempts)
    ensures GetPhotosSpec(script) == Run(Returned([]), MaxAttempts, MaxAttempts)
  {
    SkipIOFailures(script, 0, MaxAttempts);
  }

  /** The converse: every run is one of the three cases above. The calls made
      before the last one all failed with an I/O exception; the loop stops
      either on the first other outcome or after the third failure. */
  lemma {:induction false} RetryFromShape(script: seq<Outcome>, from: nat)
    requires |script| >= MaxAttempts && from <= MaxAttempts
    ensures var r := RetryFrom(script, from);
      (forall j :: from <= j < r.waits ==> script[j].IOErr?) &&
      (r.waits == MaxAttempts ==> r.attempts == MaxAttempts && r.result == Returned([])) &&
      (r.waits < MaxAttempts ==>
         r.attempts == r.waits + 1 && !script[r.waits].IOErr? &&
         r.result == Settle(script[r.waits]))
    decreases MaxAttempts - from
  {
    if from < MaxAttempts && script[from].IOErr? {
      RetryFromShape(script, from + 1);
    }
  }

  /** The non-I/O exception escapes exactly when some call among the first
      three throws it after nothing but I/O failures. */
  lemma PropagatesIff(script: seq<Outcome>)
    requires |script| >= MaxAttempts
    ensures GetPhotosSpec(script).result.Propagated? <==>
      exists k :: 0 <= k < MaxAttempts && script[k].OtherErr? && AllIOFailures(script, k)
  {
    var r := GetPhotosSpec(script);
    RetryFromShape(script, 0);
    if r.result.Propagated? {
      assert r.waits < MaxAttempts && script[r.waits].OtherErr? && AllIOFailures(script, r.waits);
    }
    if k :| 0 <= k < MaxAttempts && script[k].OtherErr? && AllIOFailures(script, k) {
      OtherErrorPropagates(script, k);
    }
  }

  /** A nonempty list is returned only when some call succeeded, and it is
      that call's mapped response: the initial `res` is never overwritten
      otherwise. */
  lemma NonEmptyOnlyFromResponse(script: seq<Outcome>)
    requires |script| >= MaxAttempts
    ensures var r := GetPhotosSpec(script);
      r.result.Returned? && r.result.photos != [] ==>
        r.attempts == r.waits + 1 && script[r.waits].Ok? &&
        r.result.photos == ToPhotos(script[r.waits].records)
  {
    RetryFromShape(script, 0);
  }

  /** A prefix made only of I/O failures counts each of them. */
  lemma {:induction false} CountIOFailuresAllIO(outcomes: seq<Outcome>, n: nat)
    requires n <= |outcomes|
    requires forall j :: 0 <= j < n ==> outcomes[j].IOErr?
    ensures CountIOFailures(outcomes[..n]) == n
  {
    if n > 0 {
      assert outcomes[..n][..n - 1] == outcomes[..n - 1];
      CountIOFailuresAllIO(outcomes, n - 1);
    }
  }

  /** One backoff wait per I/O failure, and no other waits: the waits equal
      the I/O failures among the outcomes of the calls actually made. */
  lemma WaitsCountIOFailures(script: seq<Outcome>)
    requires |script| >= MaxAttempts
    ensures var r := GetPhotosSpec(script);
      r.waits == CountIOFailures(script[..r.attempts])
  {
    var r := GetPhotosSpec(script);
    RetryFromShape(script, 0);
    CountIOFailuresAllIO(script, r.waits);
    if r.attempts == r.waits + 1 {
      assert script[..r.attempts][..r.waits] == script[..r.waits];
    }
  }

  /** Nothing after the stopping call is ever requested: two scripts that
      agree on the calls one run made produce the same run. */
  lemma {:induction false} OnlyCallsMadeMatter(s1: seq<Outcome>, s2: seq<Outcome>, from: nat)
    requires |s1| >= MaxAttempts && |s2| >= MaxAttempts && from <= MaxAttempts
    requires forall j :: from <= j < RetryFrom(s1, from).attempts ==> s1[j] == s2[j]
    ensures RetryFrom(s2, from) == RetryFrom(s1, from)
    decreases MaxAttempts - from
  {
    if from < MaxAttempts && s1[from].IOErr? {
      OnlyCallsMadeMatter(s1, s2, from + 1);
    }
  }
}
