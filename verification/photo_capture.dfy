/**
 * Manual photo capture: the app writes `PHOTO`, the rover answers with a `META:` line,
 * binary chunk frames and a `DONE` line (or `BUSY`), and the app reassembles the image in
 * a slot array and hands it to the gallery. Timers are explicit: `Expire` is the pending
 * five-second timeout firing.
 */
module PhotoCapture {
  import opened Wrappers
  import opened JsRuntime
  import opened WireCodec
  import opened Reassembly

  datatype CaptureState = Idle | Requesting | Receiving | Saving | Done | Error

  /** The progress counters; the rounded percentage is not modelled. */
  datatype Progress = Progress(received: nat, total: nat)

  /** What the gallery receives: the image bytes and the header they came with. */
  datatype SavedPhoto = SavedPhoto(bytes: Chunk, meta: Meta)

  const NoDeviceMessage := "No device connected"
  const InvalidMetaMessage := "Invalid META format"
  const IncompleteMessage := "Image incomplete"
  const BusyMessage := "Device busy. Try again."
  const NoResponseMessage := "Timeout: no response from device"
  const NoDataMessage := "Timeout: no data received"
  const CaptureFailedPrefix := "Capture failed: "

  /** The three text prefixes the handler tests, in its order: a line matches at most one of them. */
  predicate IsMetaLine(t: string) {
    StartsWith(t, "META:")
  }

  predicate IsDoneLine(t: string) {
    !IsMetaLine(t) && StartsWith(t, "DONE")
  }

  predicate IsBusyLine(t: string) {
    !IsMetaLine(t) && !IsDoneLine(t) && StartsWith(t, "BUSY")
  }

  /** A header line as the firmware writes it takes the `META:` branch and is accepted with its fields. */
  lemma MetaLineOfRender(m: Meta, rest: string)
    requires HeaderTrailer(rest)
    ensures IsMetaLine(RenderMeta(m, None) + rest)
    ensures ParseMetaNoSeq(RenderMeta(m, None) + rest) == Some(m)
  {
    var s := RenderMeta(m, None) + rest;
    assert s[..5] == "META:" by {
      forall k | 0 <= k < 5 ensures s[k] == "META:size="[k] { }
    }
    ParseMetaNoSeqOfRender(m, None, rest);
  }

  /** An encoded chunk frame passes all three text tests and reaches the chunk branch as that frame. */
  lemma FrameTakesChunkBranch(f: ChunkFrame)
    requires f.seqNo < 65536
    ensures var t := BytesToText(EncodeChunk(f));
            !IsMetaLine(t) && !IsDoneLine(t) && !IsBusyLine(t)
    ensures DecodeChunk(EncodeChunk(f)) == Some(f)
  {
    DecodeEncodeChunk(f);
    ChunkIsNoTextLine(EncodeChunk(f));
  }

  class Capture {
    var state: CaptureState
    var error: Option<string>
    var meta: Option<Meta>
    var slots: Slots
    var progress: Progress
    /** The message of the pending timeout, `None` when no timeout is armed. */
    var timer: Option<string>
    /** Whether the notification handler is registered with the transport. */
    var listening: bool
    var currentPhoto: Option<SavedPhoto>
    /** Photos handed to the gallery, oldest first. */
    var saved: seq<SavedPhoto>
    /** Commands written to the rover. */
    var sent: seq<string>

    /**
     * The transfer bookkeeping stays consistent: no slots without a header, one slot per
     * announced chunk, and the received counter is the number of stored chunks.
     */
    ghost predicate Valid()
      reads this
    {
      (meta.None? ==> slots == []) &&
      (meta.Some? && meta.value.chunks <= MaxArrayLength ==> |slots| == meta.value.chunks) &&
      progress.received == Filled(slots)
    }

    /** What `clearState` leaves behind. */
    ghost predicate Cleared()
      reads this
    {
      meta.None? && slots == [] && progress == Progress(0, 0) && timer.None?
    }

    constructor ()
      ensures Valid() && Cleared()
      ensures state == Idle && error.None? && !listening
      ensures currentPhoto.None? && saved == [] && sent == []
    {
      state := Idle;
      error := None;
      meta := None;
      slots := [];
      progress := Progress(0, 0);
      timer := None;
      listening := false;
      currentPhoto := None;
      saved := [];
      sent := [];
    }

    /** `clearState`: forgets the header and the slots, zeroes the progress and cancels the timeout. */
    method ClearState()
      modifies this
      ensures Valid() && Cleared()
      ensures state == old(state) && error == old(error) && listening == old(listening)
      ensures currentPhoto == old(currentPhoto) && saved == old(saved) && sent == old(sent)
    {
      meta := None;
      slots := [];
      progress := Progress(0, 0);
      timer := None;
    }

    /**
     * `capturePhoto`: without a device only the error is set. Otherwise the state becomes
     * `requesting`, the handler is registered, `PHOTO` is written with no terminator and
     * the first timeout is armed; a failure of either transport call ends in the error
     * state with the failure's text.
     */
    method StartCapture(deviceKnown: bool, notifyOk: bool, writeOk: bool, reason: string)
      requires Valid()
      modifies this
      ensures Valid()
      ensures !deviceKnown ==> error == Some(NoDeviceMessage) && state == old(state) && meta == old(meta) &&
                               slots == old(slots) && timer == old(timer) && sent == old(sent) &&
                               listening == old(listening)
      ensures deviceKnown ==> meta.None? && slots == [] && progress == Progress(0, 0)
      ensures deviceKnown && notifyOk && writeOk ==>
                state == Requesting && error.None? && listening && sent == old(sent) + ["PHOTO"] &&
                timer == Some(NoResponseMessage)
      ensures deviceKnown && !(notifyOk && writeOk) ==>
                state == Error && error == Some(CaptureFailedPrefix + reason) && timer.None? &&
                sent == old(sent) && listening == (old(listening) || notifyOk)
      ensures currentPhoto == old(currentPhoto) && saved == old(saved)
    {
      if !deviceKnown {
        error := Some(NoDeviceMessage);
        return;
      }
      state := Requesting;
      error := None;
      ClearState();
      if !notifyOk {
        error := Some(CaptureFailedPrefix + reason);
        state := Error;
        ClearState();
        return;
      }
      listening := true;
      if !writeOk {
        error := Some(CaptureFailedPrefix + reason);
        state := Error;
        ClearState();
        return;
      }
      sent := sent + ["PHOTO"];
      timer := Some(NoResponseMessage);
    }

    /**
     * `handleNotification`: re-arms the inactivity timeout, runs the text branches in
     * their order (`META:`, `DONE`, `BUSY`) and, when none of them returned, the binary
     * chunk branch. An exception inside a text branch is caught and also leads to the
     * chunk branch, where a text line is never a frame.
     */
    method Notify(b: seq<byte>, saveOk: bool)
      requires Valid()
      modifies this
      ensures Valid()
      ensures !old(listening) ==> unchanged(this)
      ensures listening == old(listening) && sent == old(sent)
      // Only a completed and saved photo becomes the current one.
      ensures !(old(listening) && IsDoneLine(BytesToText(b)) && old(meta).Some? && AllFilled(old(slots)) && saveOk) ==>
                currentPhoto == old(currentPhoto)
      // A `META:` line: rejected by the pattern, an error; else the header and one hole per chunk.
      ensures var t := BytesToText(b);
              old(listening) && IsMetaLine(t) && ParseMetaNoSeq(t).None? ==>
                error == Some(InvalidMetaMessage) && state == Error && meta == old(meta) &&
                slots == old(slots) && progress == old(progress) && timer == Some(NoDataMessage) &&
                saved == old(saved)
      ensures var t := BytesToText(b);
              old(listening) && IsMetaLine(t) && ParseMetaNoSeq(t).Some? ==>
                meta == ParseMetaNoSeq(t) && timer == Some(NoDataMessage) && error == old(error) &&
                saved == old(saved) &&
                (ParseMetaNoSeq(t).value.chunks <= MaxArrayLength ==>
                   slots == Holes(ParseMetaNoSeq(t).value.chunks) && state == Receiving &&
                   progress == Progress(0, ParseMetaNoSeq(t).value.chunks)) &&
                // `new Array` throws: the header stays recorded and the line falls through to the chunk branch,
                // where it is no frame.
                (ParseMetaNoSeq(t).value.chunks > MaxArrayLength ==>
                   slots == old(slots) && state == old(state) && progress == old(progress))
      // A `DONE` line: without a header an error; complete and saved, done; otherwise still saving.
      ensures var t := BytesToText(b);
              old(listening) && IsDoneLine(t) && old(meta).None? ==>
                error == Some(IncompleteMessage) && state == Error && Cleared() && saved == old(saved)
      ensures var t := BytesToText(b);
              old(listening) && IsDoneLine(t) && old(meta).Some? && AllFilled(old(slots)) && saveOk ==>
                state == Done && Cleared() && error == old(error) &&
                currentPhoto == Some(SavedPhoto(Concat(old(slots)), old(meta).value)) &&
                saved == old(saved) + [currentPhoto.value]
      ensures var t := BytesToText(b);
              old(listening) && IsDoneLine(t) && old(meta).Some? && !(AllFilled(old(slots)) && saveOk) ==>
                state == Saving && meta == old(meta) && slots == old(slots) && progress == old(progress) &&
                timer == Some(NoDataMessage) && error == old(error) && saved == old(saved)
      // A `BUSY` line: an error, and the transfer is cleared.
      ensures var t := BytesToText(b);
              old(listening) && IsBusyLine(t) ==>
                error == Some(BusyMessage) && state == Error && Cleared() && saved == old(saved)
      // Anything else goes to the chunk branch: a frame lands first-wins in its slot.
      ensures var t := BytesToText(b);
              var f := DecodeChunk(b);
              old(listening) && !IsMetaLine(t) && !IsDoneLine(t) && !IsBusyLine(t) ==>
                timer == Some(NoDataMessage) && state == old(state) && meta == old(meta) &&
                error == old(error) && saved == old(saved) &&
                if f.Some? && old(meta).Some? && f.value.seqNo < old(meta).value.chunks &&
                   SlotEmpty(old(slots), f.value.seqNo)
                then slots == StoreFirst(old(slots), f.value.seqNo, f.value.payload) &&
                     progress == Progress(old(progress.received) + 1, old(meta).value.chunks)
                else slots == old(slots) && progress == old(progress)
    {
      if !listening {
        return;
      }
      timer := Some(NoDataMessage);
      var text := BytesToText(b);
      if DecodeChunk(b).Some? {
        ChunkIsNoTextLine(b);
      }
      var handled := false;
      if IsMetaLine(text) {
        handled := HandleMeta(ParseMetaNoSeq(text));
      } else if IsDoneLine(text) {
        handled := HandleDone(saveOk);
      } else if IsBusyLine(text) {
        HandleBusy();
        handled := true;
      }
      if !handled {
        HandleChunk(b);
      }
    }

    /**
     * The `META:` branch, given what `parseMeta` made of the line. A header the pattern
     * rejects is an error, with the transfer state kept. A header allocates one hole per
     * chunk and starts receiving, unless `new Array` throws a `RangeError` after the
     * header is recorded; `handled` is then false.
     */
    method HandleMeta(parsed: Option<Meta>) returns (handled: bool)
      requires Valid()
      modifies this
      ensures Valid()
      ensures parsed.None? ==>
                handled && error == Some(InvalidMetaMessage) && state == Error &&
                meta == old(meta) && slots == old(slots) && progress == old(progress)
      ensures parsed.Some? ==> meta == parsed
      ensures parsed.Some? && parsed.value.chunks <= MaxArrayLength ==>
                handled && slots == Holes(parsed.value.chunks) &&
                progress == Progress(0, parsed.value.chunks) && state == Receiving &&
                error == old(error)
      ensures parsed.Some? && parsed.value.chunks > MaxArrayLength ==>
                !handled && slots == old(slots) && progress == old(progress) &&
                state == old(state) && error == old(error)
      ensures timer == old(timer) && listening == old(listening) && currentPhoto == old(currentPhoto)
      ensures saved == old(saved) && sent == old(sent)
    {
      if parsed.None? {
        error := Some(InvalidMetaMessage);
        state := Error;
        return true;
      }
      var m := parsed.value;
      meta := Some(m);
      if m.chunks > MaxArrayLength {
        return false;
      }
      slots := Holes(m.chunks);
      FilledHoles([], m.chunks);
      assert [] + Holes(m.chunks) == slots;
      progress := Progress(0, m.chunks);
      state := Receiving;
      return true;
    }

    /**
     * The `DONE` branch. Without a header it is an error and the transfer is cleared;
     * the "some slot is empty" test never holds. Otherwise the state becomes `saving`
     * and the slots are concatenated: with every slot filled and the gallery accepting
     * the photo, the capture is done and cleared. A hole makes the copy loop throw and a
     * failing save rejects; both leave the capture in `saving` with `handled` false.
     */
    method HandleDone(saveOk: bool) returns (handled: bool)
      requires Valid()
      modifies this
      ensures Valid()
      ensures old(meta).None? ==>
                handled && error == Some(IncompleteMessage) && state == Error && Cleared() &&
                saved == old(saved) && currentPhoto == old(currentPhoto)
      ensures old(meta).Some? && AllFilled(old(slots)) && saveOk ==>
                handled && state == Done && Cleared() && error == old(error) &&
                currentPhoto == Some(SavedPhoto(Concat(old(slots)), old(meta).value)) &&
                saved == old(saved) + [currentPhoto.value]
      ensures old(meta).Some? && !(AllFilled(old(slots)) && saveOk) ==>
                !handled && state == Saving && meta == old(meta) && slots == old(slots) &&
                progress == old(progress) && timer == old(timer) && error == old(error) &&
                saved == old(saved) && currentPhoto == old(currentPhoto)
      ensures listening == old(listening) && sent == old(sent)
    {
      if meta.None? || SomeFalsyChunk(slots) {
        error := Some(IncompleteMessage);
        state := Error;
        ClearState();
        return true;
      }
      state := Saving;
      var total := PresentLength(slots);
      var jpeg := Assemble(slots, total);
      if jpeg.None? || !saveOk {
        return false;
      }
      var photo := SavedPhoto(jpeg.value, meta.value);
      saved := saved + [photo];
      currentPhoto := Some(photo);
      state := Done;
      ClearState();
      return true;
    }

    /** The `BUSY` branch: an error, and the transfer is cleared. */
    method HandleBusy()
      requires Valid()
      modifies this
      ensures Valid() && Cleared()
      ensures error == Some(BusyMessage) && state == Error
      ensures listening == old(listening) && currentPhoto == old(currentPhoto)
      ensures saved == old(saved) && sent == old(sent)
    {
      error := Some(BusyMessage);
      state := Error;
      ClearState();
    }

    /**
     * The binary branch: a decoded frame is stored only while a header is known, only
     * for a sequence number below the chunk count and only into an empty slot; the
     * received counter then goes up by one.
     */
    method HandleChunk(b: seq<byte>)
      requires Valid()
      modifies this
      ensures Valid()
      ensures var f := DecodeChunk(b);
              if f.Some? && old(meta).Some? && f.value.seqNo < old(meta).value.chunks &&
                 SlotEmpty(old(slots), f.value.seqNo)
              then slots == StoreFirst(old(slots), f.value.seqNo, f.value.payload) &&
                   progress == Progress(old(progress.received) + 1, old(meta).value.chunks)
              else slots == old(slots) && progress == old(progress)
      ensures meta == old(meta) && state == old(state) && error == old(error) && timer == old(timer)
      ensures listening == old(listening) && currentPhoto == old(currentPhoto)
      ensures saved == old(saved) && sent == old(sent)
    {
      var decoded := DecodeChunk(b);
      if decoded.Some? && meta.Some? {
        var f := decoded.value;
        if f.seqNo < meta.value.chunks && SlotEmpty(slots, f.seqNo) {
          FilledStoreFirst(slots, f.seqNo, f.payload);
          slots := StoreFirst(slots, f.seqNo, f.payload);
          progress := Progress(Filled(slots), meta.value.chunks);
        }
      }
    }

    /** The pending timeout fires: its message becomes the error and the transfer is cleared. */
    method Expire()
      requires Valid()
      modifies this
      ensures Valid()
      ensures old(timer).Some? ==> error == old(timer) && state == Error && Cleared()
      ensures old(timer).None? ==> unchanged(this)
      ensures saved == old(saved) && sent == old(sent) && listening == old(listening)
    {
      if timer.Some? {
        error := timer;
        state := Error;
        ClearState();
      }
    }

    /** `cancelCapture`: clears the transfer, goes back to idle and forgets the error; the handler stays registered. */
    method Cancel()
      requires Valid()
      modifies this
      ensures Valid() && Cleared()
      ensures state == Idle && error.None?
      ensures listening == old(listening) && saved == old(saved) && sent == old(sent)
      ensures currentPhoto == old(currentPhoto)
    {
      ClearState();
      state := Idle;
      error := None;
    }
  }
}
