/** The values that cross the core's only I/O boundary: manifest entries, the
    outcome of loading the manifest, and the outcome of reading one file.
    Reading and JSON parsing themselves are not modelled; they are parameters. */
module Resources {

  datatype Option<T> = None | Some(value: T)

  /** A read or a parse that either produced a value or failed with a message
      (the text of the Python exception). */
  datatype Result<T> = Ok(value: T) | Err(msg: string)

  /** One manifest entry `{ "path": ..., "when": [...] }`. */
  datatype Descriptor = Descriptor(path: string, when: seq<string>)

  /** The manifest file as loaded: its `docs` list, or a failure (file missing
      or unreadable, JSON invalid, or a JSON object without a `docs` key). */
  datatype ManifestLoad = Loaded(docs: seq<Descriptor>) | Unavailable(reason: string)

  /** A file reader: relative path to contents or an error message. */
  type Reader = string -> Result<string>

  const BasePath := "context/base.md"
}
