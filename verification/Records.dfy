/** What the journal adds to an event when it stores it. */
module Records {
  import opened Events

  type Digest = string

  /** The id and time of an event; both are generated and never compared. */
  datatype Stamp = Stamp(eventId: Id, time: string)

  datatype Sealed = Sealed(seqNo: int, event: Event, stamp: Stamp, prevHash: Digest, hash: Digest)
}
