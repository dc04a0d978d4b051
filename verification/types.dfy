/** The per-photo record shared by the resolver and the repository (src/types_.py). */
module Types {
  import opened Options

  /** A file path: its directory prefix (empty, or ending in a separator) and its final
      component. `str(path)` is the two concatenated. */
  datatype FilePath = FilePath(dir: string, name: string)

  function PathText(p: FilePath): string {
    p.dir + p.name
  }

  /** `PhotoMeta`: coordinates in decimal degrees, raw datetime, camera make and model,
      and auxiliary string fields. Nothing ties `lat` and `lon` together: either may be
      present without the other. */
  datatype PhotoMeta = PhotoMeta(
    path: FilePath,
    lat: Option<real>,
    lon: Option<real>,
    datetime: Option<string>,
    make: Option<string>,
    model: Option<string>,
    extra: map<string, string>)

  /** Both coordinates present: what every consumer of the record calls "has GPS". */
  predicate HasCoords(m: PhotoMeta) {
    m.lat.Some? && m.lon.Some?
  }
}
