/** The application's own value type for one search result. */
module Domain {

  /** A normalized photo, built only by the repository's mapping step.
      `url` is the provider's post page; `sourceURL` is the displayable image. */
  datatype Photo = Photo(
    id: int,
    width: int,
    height: int,
    url: string,
    photographer: string,
    photographerUrl: string,
    photographerId: int,
    avgColor: string,
    liked: bool,
    alt: string,
    sourceURL: string
  )
}
