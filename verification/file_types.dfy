/**
 * The values the synchronizer works on: top-level directories as finite maps
 * from an entry name to the bytes of the file stored under it.
 */
module FileTypes {

  /** One byte of file content. */
  newtype byte = x: int | 0 <= x < 256

  /** The whole content of one regular file. */
  type Bytes = seq<byte>

  /** A top-level entry name, as `os.listdir` reports it. */
  type Name = string

  /** A flat directory: every top-level file name with its content. */
  type Directory = map<Name, Bytes>

  /** Digest text, as `hexdigest()` returns it. */
  type Digest = string

  /** What a line of the synchronizer's log reports. */
  datatype Action = Copied | Removed | Updated | CopyValidationFailed

  /**
   * One line of the synchronizer's log: the three `logging.info` lines and
   * the `logging.warning` of a failed copy validation, each about one name.
   */
  datatype Event = Event(action: Action, name: Name)
}
