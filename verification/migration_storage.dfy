/** The migration grain storage proxy: Read, Write and Clear of one grain's state,
    routed between a source and a destination backend through the compound tag.

    Each operation is one sequential step over the two stores. It returns both
    stores afterwards, the caller's grain state afterwards, the backend calls it
    made in order (with the expected tag each was handed), and the error it
    raised, if any. Replies of the backends to writes and clears are parameters. */
module MigrationStorage {
  import opened Wrappers
  import opened EtagCodec
  import opened Backend

  datatype Side = Source | Destination

  /** One call of the proxy on a backend; `expected` is the tag in the grain state
      at the moment of the call. */
  datatype Call =
    | ReadCall(side: Side)
    | WriteCall(side: Side, expected: Option<string>)
    | ClearCall(side: Side, expected: Option<string>)

  /** What a proxy operation throws: an undecodable caller tag, or a backend's fault, unchanged. */
  datatype Error = MalformedTag | BackendFault(fault: Fault)

  datatype Step<S> = Step(
    source: Store<S>,
    destination: Store<S>,
    grain: GrainState<S>,
    calls: seq<Call>,
    error: Option<Error>)

  /** Parses the caller's tag string; a null tag fails like a malformed one. */
  function ParseTag(etag: Option<string>): Result<MigrationEtag, Error> {
    match etag
    case None => Failure(MalformedTag)
    case Some(s) =>
      match Decode(s)
      case None => Failure(MalformedTag)
      case Some(t) => Success(t)
  }

  function Raised(fault: Option<Fault>): Option<Error> {
    match fault
    case None => None
    case Some(f) => Some(BackendFault(f))
  }

  /** Read: the destination first; only when it has no record, the source. The
      caller's tag becomes the compound tag naming the side that answered. */
  function ReadState<S>(source: Store<S>, destination: Store<S>, key: GrainKey, grain: GrainState<S>): (r: Step<S>)
    ensures r.source == source && r.destination == destination && r.error == None
    ensures key in destination ==>
              && r.calls == [ReadCall(Destination)]
              && r.grain == GrainState(destination[key].state, Some(Encode(MigrationEtag(None, Some(destination[key].etag)))), true)
    ensures key !in destination ==> r.calls == [ReadCall(Destination), ReadCall(Source)]
    ensures key !in destination && key in source ==>
              r.grain == GrainState(source[key].state, Some(Encode(MigrationEtag(Some(source[key].etag), None))), true)
    ensures key !in destination && key !in source ==>
              r.grain == GrainState(grain.state, Some(Encode(MigrationEtag(grain.etag, None))), false)
  {
    var fromDestination := ReadRecord(destination, key, grain);
    if fromDestination.recordExists then
      var tag := Encode(MigrationEtag(None, fromDestination.etag));
      Step(source, destination, fromDestination.(etag := Some(tag)), [ReadCall(Destination)], None)
    else
      var fromSource := ReadRecord(source, key, fromDestination);
      var tag := Encode(MigrationEtag(fromSource.etag, None));
      Step(source, destination, fromSource.(etag := Some(tag)), [ReadCall(Destination), ReadCall(Source)], None)
  }

  /** Write: always to the destination, never to the source. The caller's tag is
      rewritten to a destination-only compound tag whether the write succeeds or
      throws; only a malformed caller tag, which throws before the write is tried,
      leaves it alone. */
  function WriteState<S>(source: Store<S>, destination: Store<S>, key: GrainKey, grain: GrainState<S>, reply: WriteReply): (r: Step<S>)
    ensures r.source == source
    ensures grain.recordExists && ParseTag(grain.etag).Failure? ==>
              r == Step(source, destination, grain, [], Some(MalformedTag))
    ensures grain.recordExists && ParseTag(grain.etag).Success? ==>
              r.calls == [WriteCall(Destination, ParseTag(grain.etag).value.destinationEtag)]
    ensures !grain.recordExists ==> r.calls == [WriteCall(Destination, grain.etag)]
    ensures r.calls != [] && reply.Accepted? ==>
              && r.error == None
              && r.destination == destination[key := Record(grain.state, reply.newEtag)]
              && r.grain == GrainState(grain.state, Some(Encode(MigrationEtag(None, Some(reply.newEtag)))), true)
    ensures r.calls != [] && reply.WriteRejected? ==>
              && r.error == Some(BackendFault(reply.writeFault))
              && r.destination == destination
              && r.grain == grain.(etag := Some(Encode(MigrationEtag(None, None))))
  {
    var prepared: Result<GrainState<S>, Error> :=
      if grain.recordExists then
        match ParseTag(grain.etag)
        case Failure(e) => Failure(e)
        case Success(t) => Success(grain.(etag := t.destinationEtag))
      else Success(grain);
    match prepared
    case Failure(e) => Step(source, destination, grain, [], Some(e))
    case Success(toWrite) =>
      var answer := WriteRecord(destination, key, toWrite, reply);
      var compound := if answer.fault.None? then MigrationEtag(None, answer.grain.etag) else MigrationEtag(None, None);
      Step(source, answer.store, answer.grain.(etag := Some(Encode(compound))),
           [WriteCall(Destination, toWrite.etag)], Raised(answer.fault))
  }

  /** Clear: the source with the source component of the tag, then the destination
      with the destination component. A throwing source clear ends the operation:
      the destination is not cleared, and the caller's tag is left holding the raw
      source component. */
  function ClearState<S>(source: Store<S>, destination: Store<S>, key: GrainKey, grain: GrainState<S>,
                         sourceReply: ClearReply, destinationReply: ClearReply): (r: Step<S>)
    ensures ParseTag(grain.etag).Failure? ==>
              r == Step(source, destination, grain, [], Some(MalformedTag))
    ensures ParseTag(grain.etag).Success? && sourceReply.ClearRejected? ==>
              var t := ParseTag(grain.etag).value;
              r == Step(source, destination, grain.(etag := t.sourceEtag), [ClearCall(Source, t.sourceEtag)],
                        Some(BackendFault(sourceReply.clearFault)))
    ensures ParseTag(grain.etag).Success? && sourceReply.Cleared? ==>
              var t := ParseTag(grain.etag).value;
              && r.source == source - {key}
              && r.calls == [ClearCall(Source, t.sourceEtag), ClearCall(Destination, t.destinationEtag)]
    ensures ParseTag(grain.etag).Success? && sourceReply.Cleared? && destinationReply.Cleared? ==>
              && r.destination == destination - {key}
              && r.grain == grain.(etag := None, recordExists := false)
              && r.error == None
    ensures ParseTag(grain.etag).Success? && sourceReply.Cleared? && destinationReply.ClearRejected? ==>
              && r.destination == destination
              && r.grain == grain.(etag := ParseTag(grain.etag).value.destinationEtag, recordExists := false)
              && r.error == Some(BackendFault(destinationReply.clearFault))
  {
    match ParseTag(grain.etag)
    case Failure(e) => Step(source, destination, grain, [], Some(e))
    case Success(t) =>
      var forSource := grain.(etag := t.sourceEtag);
      var sourceCall := ClearCall(Source, forSource.etag);
      var fromSource := ClearRecord(source, key, forSource, sourceReply);
      if fromSource.fault.Some? then
        Step(source, destination, fromSource.grain, [sourceCall], Raised(fromSource.fault))
      else
        var forDestination := fromSource.grain.(etag := t.destinationEtag);
        var fromDestination := ClearRecord(destination, key, forDestination, destinationReply);
        Step(fromSource.store, fromDestination.store, fromDestination.grain,
             [sourceCall, ClearCall(Destination, forDestination.etag)], Raised(fromDestination.fault))
  }
}
