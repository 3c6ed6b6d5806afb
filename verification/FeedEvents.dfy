/** Feed events as every consumer sees them after decoding. */
module FeedEvents {
  import opened MachineInts

  /** Any type byte other than the four known ones decodes to `Unknown` here:
      every consumer treats them alike. */
  datatype EventType = Unknown | Add | Modify | Cancel | Trade

  datatype Event = Event(
    kind: EventType,
    isBid: bool,
    orderId: uint64,
    price: real,
    qty: uint32,
    symbol: uint16)

  /** An event with the clock value it is processed at. */
  datatype Timed = Timed(event: Event, now: uint64)
}
