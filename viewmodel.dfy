/** PhotosViewModel: the selected photo index and the current result list,
    each published through a state flow to the screen. */
module Presentation {
  import opened Domain
  import opened Api
  import Repository

  /** The selection value that means "no photo is expanded". */
  const NoSelection: int := -1

  /** One `emit` on one of the two state flows, in the order they happen. */
  datatype Emission = SelectedEmitted(index: int) | PhotosEmitted(photos: seq<Photo>)

  /** The click rule: clicking the selected photo clears the selection,
      clicking any other index selects it. No index is checked against the
      number of photos, so negative and out-of-range indices are selected too. */
  function Toggle(selected: int, element: int): (r: int)
    ensures r == NoSelection <==> element == selected || element == NoSelection
    ensures r != NoSelection ==> r == element
  {
    if element == selected then NoSelection else element
  }

  /** Clicking the same index twice does not always clear the selection: from
      another selection it ends cleared, from that index it ends on it again. */
  lemma ToggleTwice(selected: int, element: int)
    ensures Toggle(Toggle(selected, element), element) ==
      if selected == element then element else NoSelection
  {
  }

  /** The value the selection flow holds after some emissions: the last
      emitted index, or its initial value when none was emitted. */
  function LatestSelection(log: seq<Emission>): (selected: int)
  {
    if log == [] then NoSelection
    else if log[|log| - 1].SelectedEmitted? then log[|log| - 1].index
    else LatestSelection(log[..|log| - 1])
  }

  /** The value the photos flow holds after some emissions: the last emitted
      list, or the initial empty list. */
  function LatestPhotos(log: seq<Emission>): (photos: seq<Photo>)
  {
    if log == [] then []
    else if log[|log| - 1].PhotosEmitted? then log[|log| - 1].photos
    else LatestPhotos(log[..|log| - 1])
  }

  /** Every emission of a new result list comes right after an emission of the
      cleared selection. */
  ghost predicate ResetPrecedesResults(log: seq<Emission>)
  {
    forall i :: 0 <= i < |log| && log[i].PhotosEmitted? ==>
      0 < i && log[i - 1] == SelectedEmitted(NoSelection)
  }

  /** Whenever the last thing published is a result list, an observer of the
      selection flow sees no selection. */
  lemma {:induction false} ResultsArriveUnselected(log: seq<Emission>)
    requires ResetPrecedesResults(log)
    requires log != [] && log[|log| - 1].PhotosEmitted?
    ensures LatestSelection(log) == NoSelection
  {
    var n := |log|;
    assert log[n - 2] == SelectedEmitted(NoSelection);
    assert log[..n - 1][..n - 2] == log[..n - 2];
    assert LatestSelection(log) == LatestSelection(log[..n - 1]);
  }

  /** Appending one emission: the flow it targets now holds its value, the
      other flow keeps the value it had. */
  lemma LatestAfterEmit(log: seq<Emission>, e: Emission)
    ensures LatestSelection(log + [e]) ==
      if e.SelectedEmitted? then e.index else LatestSelection(log)
    ensures LatestPhotos(log + [e]) ==
      if e.PhotosEmitted? then e.photos else LatestPhotos(log)
  {
    assert (log + [e])[..|log|] == log;
  }

  class PhotosViewModel {
    /** The private `selectedElement`; -1 when nothing is selected. */
    var selectedElement: int
    /** The current value of `photosFlow`. */
    var photosFlow: seq<Photo>
    /** The current value of `selectedFlow`. */
    var selectedFlow: int
    /** Every emit on either flow since construction, oldest first. */
    ghost var emissions: seq<Emission>

    /** The flows hold the last values emitted on them, the published
        selection is the private one, and results are only ever published
        right after a reset of the selection. */
    ghost predicate Valid()
      reads this
    {
      selectedFlow == selectedElement &&
      selectedFlow == LatestSelection(emissions) &&
      photosFlow == LatestPhotos(emissions) &&
      ResetPrecedesResults(emissions)
    }

    /** A new view model: nothing selected, no photos, nothing emitted yet
        (the flows' initial values are not emissions). */
    constructor ()
      ensures Valid()
      ensures selectedElement == NoSelection && photosFlow == [] && emissions == []
    {
      selectedElement := NoSelection;
      photosFlow := [];
      selectedFlow := NoSelection;
      emissions := [];
    }

    /** `onImageClick`: apply the click rule, then publish the new selection.
        The photo list is left alone. */
    method OnImageClick(element: int)
      requires Valid()
      modifies this
      ensures Valid()
      ensures selectedElement == Toggle(old(selectedElement), element)
      ensures selectedFlow == selectedElement
      ensures photosFlow == old(photosFlow)
      ensures emissions == old(emissions) + [SelectedEmitted(selectedElement)]
    {
      selectedElement := Toggle(selectedElement, element);
      selectedFlow := selectedElement;
      LatestAfterEmit(emissions, SelectedEmitted(selectedElement));
      emissions := emissions + [SelectedEmitted(selectedElement)];
    }

    /** The body of the coroutine `updateResults` launches, from the moment
        `getPhotos` has come back with `results`: reset the selection, publish
        the reset, then publish the results. When `getPhotos` threw, the
        exception leaves the coroutine before any of this, and nothing changes. */
    method CompleteUpdate(results: Repository.Fetch)
      requires Valid()
      modifies this
      ensures Valid()
      ensures results.Returned? ==>
        selectedElement == NoSelection && selectedFlow == NoSelection &&
        photosFlow == results.photos &&
        emissions == old(emissions) + [SelectedEmitted(NoSelection), PhotosEmitted(results.photos)]
      ensures results.Propagated? ==> unchanged(this)
    {
      if results.Returned? {
        var log := emissions + [SelectedEmitted(NoSelection)];
        LatestAfterEmit(emissions, SelectedEmitted(NoSelection));
        LatestAfterEmit(log, PhotosEmitted(results.photos));
        selectedElement := NoSelection;
        selectedFlow := selectedElement;
        photosFlow := results.photos;
        emissions := log + [PhotosEmitted(results.photos)];
      }
    }

    /** `updateResults`, run to completion: fetch with retries against the
        scripted API, then complete the update with what came back. */
    method UpdateResults(script: seq<Outcome>)
      requires Valid() && |script| >= Repository.MaxAttempts
      modifies this
      ensures Valid()
      ensures var fetched := Repository.GetPhotosSpec(script).result;
        (fetched.Returned? ==>
           selectedElement == NoSelection && photosFlow == fetched.photos &&
           emissions == old(emissions) + [SelectedEmitted(NoSelection), PhotosEmitted(fetched.photos)]) &&
        (fetched.Propagated? ==> unchanged(this))
    {
      var results, _, _ := Repository.GetPhotos(script);
      CompleteUpdate(results);
    }
  }

  /** A session: search, expand the second photo, search again. The second
      search clears the selection only once its results are in. */
  method SearchSession(cat10: PhotoRecord, cat20: PhotoRecord, dog30: PhotoRecord)
  {
    var vm := new PhotosViewModel();
    var cats := [Ok([cat10, cat20]), IOErr, IOErr];
    vm.UpdateResults(cats);
    assert vm.photosFlow == [Repository.ToPhoto(cat10), Repository.ToPhoto(cat20)];
    assert vm.selectedFlow == NoSelection;
    vm.OnImageClick(1);
    assert vm.selectedFlow == 1;
    var dogs := [IOErr, Ok([dog30]), IOErr];
    var results, attempts, _ := Repository.GetPhotos(dogs);
    assert attempts == 2;
    assert vm.selectedFlow == 1;
    vm.CompleteUpdate(results);
    assert vm.selectedFlow == NoSelection && vm.photosFlow == [Repository.ToPhoto(dog30)];
  }
}
