/** The runtime services the wrapper calls but does not implement: the
    JavaScript `ToNumber` coercion of non-number values, `JSON.parse`, and the
    `path` module. Each is a parameter of the model. */
module HostServices {
  import opened Results
  import opened JsonValues

  datatype Host = Host(
    toNumber: Json -> Option<real>,   // ToNumber(ToPrimitive(v)); None is NaN
    parse: string -> Option<Json>,    // JSON.parse; None when it throws
    isAbsolute: string -> bool,       // path.isAbsolute
    normalize: string -> string,      // path.normalize
    basename: string -> string,       // path.basename
    dirname: string -> string,        // path.dirname
    root: string -> string            // path.parse(p).root
  )

  /** The number JavaScript arithmetic sees for a value read from JSON
      (`undefined` becomes NaN). */
  function NumberOf(host: Host, v: Option<Json>): Option<real>
  {
    match v
    case None => None
    case Some(JNum(n)) => Some(n)
    case Some(other) => host.toNumber(other)
  }

  /** What running the compiler produced: a spawn error, or its stdout (the
      exit status is ignored, index.js:149). */
  datatype Launch = SpawnFailed(reason: string) | Exited(stdout: string)
}
