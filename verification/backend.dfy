/** The grain storage capability the proxy sits in front of, over an abstract
    key/value store.

    A backend holds at most one record per grain, each with the backend's own
    concurrency tag. What the real backend (Azure blob storage, say) decides on a
    write or a clear is not modelled: the environment supplies the reply, and the
    functions here fix what each reply does to the store and to the caller's
    grain state. */
module Backend {
  import opened Wrappers

  /** A grain's identity in storage: the name of its state type and its reference. */
  datatype GrainKey = GrainKey(grainType: string, grainId: string)

  /** A stored record: the grain's state and the tag the backend gave it. */
  datatype Record<S> = Record(state: S, etag: string)

  type Store<S> = map<GrainKey, Record<S>>

  /** The caller-owned grain state object that every storage call reads and updates. */
  datatype GrainState<S> = GrainState(state: S, etag: Option<string>, recordExists: bool)

  /** Why a backend call threw. */
  datatype Fault = Conflict | Unavailable | Other(message: string)

  /** A backend's answer to a write: stored under a fresh tag, or thrown. */
  datatype WriteReply = Accepted(newEtag: string) | WriteRejected(writeFault: Fault)

  /** A backend's answer to a clear: removed, or thrown. */
  datatype ClearReply = Cleared | ClearRejected(clearFault: Fault)

  /** A backend call's effect: the store after it, the caller's grain state after
      it, and the fault it threw, if any. */
  datatype Answer<S> = Answer(store: Store<S>, grain: GrainState<S>, fault: Option<Fault>)

  /** A read fills the grain state from the stored record when there is one; on a
      miss it reports no record and leaves the state and tag as they were. */
  function ReadRecord<S>(store: Store<S>, key: GrainKey, grain: GrainState<S>): GrainState<S> {
    if key in store then GrainState(store[key].state, Some(store[key].etag), true)
    else grain.(recordExists := false)
  }

  /** A write stores the grain's state under the backend's fresh tag and hands the
      tag back, or throws and changes nothing. The tag in `grain` is the expected
      tag the backend is asked to check. */
  function WriteRecord<S>(store: Store<S>, key: GrainKey, grain: GrainState<S>, reply: WriteReply): Answer<S> {
    match reply
    case Accepted(tag) =>
      Answer(store[key := Record(grain.state, tag)], grain.(etag := Some(tag), recordExists := true), None)
    case WriteRejected(f) => Answer(store, grain, Some(f))
  }

  /** A clear removes the record and resets the grain's tag, or throws and changes nothing. */
  function ClearRecord<S>(store: Store<S>, key: GrainKey, grain: GrainState<S>, reply: ClearReply): Answer<S> {
    match reply
    case Cleared => Answer(store - {key}, grain.(etag := None, recordExists := false), None)
    case ClearRejected(f) => Answer(store, grain, Some(f))
  }
}
