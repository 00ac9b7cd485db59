/** The remote search endpoint, seen only through what one call can return. */
module Api {

  /** The image-size variants the provider offers for one photo. Only the
      medium one is consumed; the others are kept by size name. */
  datatype Src = Src(medium: string, otherSizes: map<string, string>)

  /** One photo record as the provider returns it. */
  datatype PhotoRecord = PhotoRecord(
    id: int,
    width: int,
    height: int,
    url: string,
    photographer: string,
    photographerUrl: string,
    photographerId: int,
    avgColor: string,
    liked: bool,
    alt: string,
    src: Src
  )

  /** What a single call to the search endpoint does: return the response's
      photo records, throw an I/O exception, or throw anything else. */
  datatype Outcome = Ok(records: seq<PhotoRecord>) | IOErr | OtherErr
}
