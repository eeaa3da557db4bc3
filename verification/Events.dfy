/** The values the proxy's timer engine passes around. */
module Events {

  /** Wall-clock seconds; `time_t` is signed. */
  type Time = int

  /** The three self re-arming timers of the proxy, and any other event. */
  datatype Kind = Probe | Save | Update | Other

  /** A scheduled callback.  `id` stands for the identity of the heap object. */
  datatype Event = Event(id: nat, ts: Time, kind: Kind)
}
