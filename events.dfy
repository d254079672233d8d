/** The events the watcher emits, one channel per path and kind. */
module Events {
  import Reader

  datatype EventKind = Create | Delete | Write | Append | Truncate | Error

  datatype Payload =
    | NoPayload
      /** the content stream of a write or append: the requested range and the bytes it yields */
    | Content(start: nat, end: nat, bytes: seq<Reader.byte>)
      /** the size and modification time reported with a truncation */
    | Truncated(size: nat, mtime: int)
      /** the failure a stat reported */
    | Cause(code: string)

  datatype Event = Event(path: string, kind: EventKind, payload: Payload)
}
