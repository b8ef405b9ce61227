/** Properties relating the proxy's operations to each other and to the tag codec:
    the shape of the tags it hands out, the expected tags it hands the backends,
    promotion of a grain to the destination, and what Clear leaves behind. */
module MigrationProperties {
  import opened Wrappers
  import opened EtagCodec
  import opened Backend
  import opened MigrationStorage

  /** Parsing a caller tag succeeds with `t` exactly when the tag is the encoding of `t`. */
  lemma ParseTagIff(etag: Option<string>, t: MigrationEtag)
    ensures ParseTag(etag) == Success(t) <==> etag == Some(Encode(t))
  {
    if etag.Some? {
      DecodeIffEncode(etag.value, t);
    }
  }

  /** The compound tag Read hands out: the destination's tag when the destination
      holds the grain, else the tag the source read left, which is the incoming
      tag when the source has no record either. */
  function ReadTag<S>(source: Store<S>, destination: Store<S>, key: GrainKey, grain: GrainState<S>): MigrationEtag {
    if key in destination then MigrationEtag(None, Some(destination[key].etag))
    else if key in source then MigrationEtag(Some(source[key].etag), None)
    else MigrationEtag(grain.etag, None)
  }

  /** A condition on the caller's grain state alone: Write gets past decoding the
      tag and reaches the destination. */
  predicate WriteReachesDestination<S>(grain: GrainState<S>) {
    !grain.recordExists || ParseTag(grain.etag).Success?
  }

  /** Every tag Read hands out decodes to ReadTag, names at most one backend, and
      names the destination exactly when the destination holds the grain. */
  lemma ReadTagNamesOneSide<S>(source: Store<S>, destination: Store<S>, key: GrainKey, grain: GrainState<S>)
    ensures var r := ReadState(source, destination, key, grain);
            && ParseTag(r.grain.etag) == Success(ReadTag(source, destination, key, grain))
            && AtMostOneSide(ParseTag(r.grain.etag).value)
            && (ParseTag(r.grain.etag).value.destinationEtag.Some? <==> key in destination)
  {
    ParseTagIff(ReadState(source, destination, key, grain).grain.etag, ReadTag(source, destination, key, grain));
  }

  /** Every tag an attempted Write hands out decodes to a destination-only tag,
      which carries the new destination tag exactly when the write succeeded. */
  lemma WriteTagIsDestinationOnly<S>(source: Store<S>, destination: Store<S>, key: GrainKey,
                                     grain: GrainState<S>, reply: WriteReply)
    requires WriteReachesDestination(grain)
    ensures var w := WriteState(source, destination, key, grain, reply);
            && (w.error.None? <==> reply.Accepted?)
            && ParseTag(w.grain.etag) == Success(MigrationEtag(None, if reply.Accepted? then Some(reply.newEtag) else None))
  {
    var w := WriteState(source, destination, key, grain, reply);
    var t := if reply.Accepted? then MigrationEtag(None, Some(reply.newEtag)) else MigrationEtag(None, None);
    ParseTagIff(w.grain.etag, t);
  }

  /** When the caller says a record exists, the destination write is handed the
      destination component of the caller's compound tag as its expected tag. */
  lemma WriteExpectsDestinationComponent<S>(source: Store<S>, destination: Store<S>, key: GrainKey,
                                            grain: GrainState<S>, reply: WriteReply, t: MigrationEtag)
    requires grain.recordExists && grain.etag == Some(Encode(t))
    ensures WriteState(source, destination, key, grain, reply).calls == [WriteCall(Destination, t.destinationEtag)]
  {
    ParseTagIff(grain.etag, t);
  }

  /** A Write following a Read checks the destination's own tag when the
      destination served the read, is a blind insert when the source served it,
      and passes the whole compound tag string through when neither had a record. */
  lemma ReadThenWriteExpectedTag<S>(source: Store<S>, destination: Store<S>, key: GrainKey,
                                    grain: GrainState<S>, newState: S, reply: WriteReply)
    ensures var g := ReadState(source, destination, key, grain).grain;
            WriteState(source, destination, key, g.(state := newState), reply).calls ==
              [WriteCall(Destination,
                 if key in destination then Some(destination[key].etag)
                 else if key in source then None
                 else Some(Encode(MigrationEtag(grain.etag, None))))]
  {
    var g := ReadState(source, destination, key, grain).grain;
    if key in destination {
      ParseTagIff(g.etag, MigrationEtag(None, Some(destination[key].etag)));
    } else if key in source {
      ParseTagIff(g.etag, MigrationEtag(Some(source[key].etag), None));
    }
  }

  /** Promotion: after a successful Write, Read answers from the destination with
      the written state and the very tag the Write handed back, whatever the
      source holds. */
  lemma Promotion<S>(source: Store<S>, destination: Store<S>, key: GrainKey, grain: GrainState<S>,
                     newEtag: string, later: GrainState<S>)
    requires WriteReachesDestination(grain)
    ensures var w := WriteState(source, destination, key, grain, Accepted(newEtag));
            var r := ReadState(w.source, w.destination, key, later);
            && r.calls == [ReadCall(Destination)]
            && r.grain.state == grain.state
            && r.grain.etag == w.grain.etag
            && ParseTag(r.grain.etag) == Success(MigrationEtag(None, Some(newEtag)))
  {
    var w := WriteState(source, destination, key, grain, Accepted(newEtag));
    ParseTagIff(w.grain.etag, MigrationEtag(None, Some(newEtag)));
  }

  /** A failed Write does not remember the destination tag. Retrying with the grain
      state it leaves behind is a blind write when a record exists; otherwise the
      encoded both-null tag string is passed through as the expected tag. */
  lemma FailedWriteForgetsDestinationTag<S>(source: Store<S>, destination: Store<S>, key: GrainKey,
                                            grain: GrainState<S>, fault: Fault, retry: WriteReply)
    requires WriteReachesDestination(grain)
    ensures var w := WriteState(source, destination, key, grain, WriteRejected(fault));
            WriteState(w.source, w.destination, key, w.grain, retry).calls ==
              [WriteCall(Destination, if grain.recordExists then None else Some(Encode(MigrationEtag(None, None))))]
  {
    var w := WriteState(source, destination, key, grain, WriteRejected(fault));
    ParseTagIff(w.grain.etag, MigrationEtag(None, None));
  }

  /** A Clear following a Read hands each backend the tag that backend reported:
      the side that did not serve the read is cleared without an expected tag.
      After a read that found nothing, the source is handed the incoming tag. */
  lemma ReadThenClearExpectedTags<S>(source: Store<S>, destination: Store<S>, key: GrainKey,
                                     grain: GrainState<S>, sourceReply: ClearReply, destinationReply: ClearReply)
    ensures var g := ReadState(source, destination, key, grain).grain;
            var c := ClearState(source, destination, key, g, sourceReply, destinationReply);
            var sourceExpected := ReadTag(source, destination, key, grain).sourceEtag;
            var destinationExpected := ReadTag(source, destination, key, grain).destinationEtag;
            && (sourceReply.Cleared? ==>
                  c.calls == [ClearCall(Source, sourceExpected), ClearCall(Destination, destinationExpected)])
            && (sourceReply.ClearRejected? ==>
                  c.calls == [ClearCall(Source, sourceExpected)] && c.destination == destination)
  {
    var g := ReadState(source, destination, key, grain).grain;
    ParseTagIff(g.etag, ReadTag(source, destination, key, grain));
  }

  /** After a Clear whose two backend clears both succeed, neither store holds the
      grain and a Read finds nothing. */
  lemma ClearThenReadFindsNothing<S>(source: Store<S>, destination: Store<S>, key: GrainKey,
                                     grain: GrainState<S>, later: GrainState<S>)
    requires ParseTag(grain.etag).Success?
    ensures var c := ClearState(source, destination, key, grain, Cleared, Cleared);
            var r := ReadState(c.source, c.destination, key, later);
            && key !in c.source && key !in c.destination
            && !r.grain.recordExists
            && r.calls == [ReadCall(Destination), ReadCall(Source)]
  {
  }

  /** Both backends hold the grain; reading through the proxy and then clearing
      through it, with both backend clears succeeding, empties both. */
  lemma ClearAllScenario<S>(source: Store<S>, destination: Store<S>, key: GrainKey, grain: GrainState<S>)
    requires key in source && key in destination
    ensures var g := ReadState(source, destination, key, grain).grain;
            var c := ClearState(source, destination, key, g, Cleared, Cleared);
            && c.error == None
            && key !in c.source && key !in c.destination
  {
    var g := ReadState(source, destination, key, grain).grain;
    ParseTagIff(g.etag, MigrationEtag(None, Some(destination[key].etag)));
  }

  /** Only the source holds the grain: Read serves the source's state, a Write of a
      new state is a blind insert that lands in the destination alone, and the next
      Read serves the new state from the destination. */
  lemma ReadFromSourceThenWriteScenario<S>(source: Store<S>, destination: Store<S>, key: GrainKey,
                                           grain: GrainState<S>, newState: S, newEtag: string, later: GrainState<S>)
    requires key in source && key !in destination
    ensures var g := ReadState(source, destination, key, grain).grain;
            var w := WriteState(source, destination, key, g.(state := newState), Accepted(newEtag));
            var r := ReadState(w.source, w.destination, key, later);
            && g.state == source[key].state
            && w.calls == [WriteCall(Destination, None)]
            && w.source == source
            && key in w.destination && w.destination[key] == Record(newState, newEtag)
            && r.grain.state == newState
  {
    var g := ReadState(source, destination, key, grain).grain;
    ParseTagIff(g.etag, MigrationEtag(Some(source[key].etag), None));
  }
}
