/** Value types shared by the whole model of the chunked downloader. */
module Types {

  /** One byte of file or response content. */
  type byte = b: int | 0 <= b < 256

  datatype Option<+T> = None | Some(value: T)

  /**
   * The errors the downloader can return. The source wraps every error
   * with a stack trace; here only the operation that failed is kept.
   */
  datatype Error =
    | GetFailed                 // the initial http.Get did not produce a response
    | OpenFailed(path: string)  // os.OpenFile(path, O_APPEND|O_CREATE|O_RDWR) failed
    | TransportFailed(index: int) // request or body copy of a chunk (index >= 1) or of the single stream (index 0)
}
