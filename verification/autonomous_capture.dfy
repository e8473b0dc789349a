/**
 * Photo reception during an autonomous mission. The rover brackets each photo with
 * `PHOTO:BEGIN:<seq>` (or `PHOTO:START`) and `PHOTO:END:<seq>` (or a bare `DONE` /
 * `PHOTO:DONE`); the link layer turns those lines and the chunk frames into calls of
 * the handlers below. A six-second timeout, re-armed by every accepted step, abandons
 * a transfer; `Expire` is that timeout firing.
 *
 * Sequence numbers are compared with `!==`, and the `NaN` that `PHOTO:START` and
 * `PHOTO:DONE` carry is unequal to everything, itself included.
 */
module AutonomousCapture {
  import opened Wrappers
  import opened JsRuntime
  import opened WireCodec
  import opened Reassembly

  datatype MissionState = Idle | Starting | Running | Paused | Stopped

  /** `currentPhotoSeqRef`: no open photo (`null`), or the sequence it was opened with; `None` inside is `NaN`. */
  datatype OpenSeq = Closed | Open(arg: Option<int>)

  datatype PhotoProgress = PhotoProgress(received: nat, total: nat)

  /** What `saveMissionPhoto` receives: the bytes, the header, the obstacle session and the photo's number within it. */
  datatype MissionPhoto = MissionPhoto(bytes: Chunk, meta: Meta, session: Option<nat>, index: nat)

  const MaxPhotosPerObstacle: nat := 1

  /** `a === b` on numbers where `None` is `NaN`. */
  predicate StrictEq(a: Option<int>, b: Option<int>) {
    a.Some? && b.Some? && a.value == b.value
  }

  /** `onBegin` goes ahead when no photo is open or the open one has the same sequence. */
  predicate BeginAccepted(open: OpenSeq, beginSeq: Option<int>) {
    open.Closed? || StrictEq(open.arg, beginSeq)
  }

  /** `onEnd` goes ahead only when a photo is open with the same sequence. */
  predicate EndAccepted(open: OpenSeq, endSeq: Option<int>) {
    open.Open? && StrictEq(open.arg, endSeq)
  }

  /** A photo opened by `PHOTO:START` refuses every later begin, numbered or not, until it is closed. */
  lemma NaNOpenRejectsBegin(beginSeq: Option<int>)
    ensures !BeginAccepted(Open(None), beginSeq)
    ensures BeginAccepted(Closed, beginSeq)
  {
  }

  /** `PHOTO:DONE` never completes a photo, and a photo opened by `PHOTO:START` is never completed by an end. */
  lemma NaNNeverEnds(open: OpenSeq, endSeq: Option<int>)
    ensures !EndAccepted(open, None)
    ensures !EndAccepted(Open(None), endSeq)
    ensures open.Open? && open.arg.Some? ==> EndAccepted(open, open.arg)
  {
  }

  /**
   * `onChunk`'s slot choice for frame number `frame` of a `chunks`-slot photo: the frame's own
   * slot when it is in range, else the slot before it when that one is.
   */
  function ChunkIndex(frame: nat, chunks: nat): (r: Option<nat>)
    ensures r.Some? <==> frame < chunks || (frame == chunks && frame >= 1)
    ensures r.Some? ==> r.value < chunks && (r.value == frame || r.value == frame - 1)
  {
    var idx := if frame >= chunks && frame - 1 >= 0 && frame - 1 < chunks then frame - 1 else frame;
    if idx < chunks then Some(idx) else None
  }

  /**
   * With frames numbered from one, frame `n` of an `n`-chunk photo falls into the slot of
   * frame `n - 1`, and nothing ever reaches slot 0.
   */
  lemma OneBasedFramesMissSlotZero(chunks: nat, frame: nat)
    requires 1 <= frame <= chunks
    ensures ChunkIndex(frame, chunks) != Some(0) || chunks == 1
    ensures frame == chunks && chunks >= 2 ==> ChunkIndex(frame, chunks) == ChunkIndex(frame - 1, chunks)
  {
  }

  /** The text callback's prefixes, in its order: a line takes the first branch it matches. */
  predicate IsObstacleLine(msg: string) {
    StartsWith(msg, "MISSION:OBSTACLE")
  }

  predicate IsAckTurnLine(msg: string) {
    !IsObstacleLine(msg) && StartsWith(msg, "ACK:TURN")
  }

  predicate IsMissionEndLine(msg: string) {
    !IsObstacleLine(msg) && !IsAckTurnLine(msg) &&
    (StartsWith(msg, "MISSION:END") || StartsWith(msg, "MISSION:DONE") ||
     StartsWith(msg, "MISSION:FINISHED") || StartsWith(msg, "MISSION:STOP"))
  }

  /** The page's whole state, field for field: what each handler's contract is stated over. */
  datatype Page = Page(
    missionState: MissionState,
    meta: Option<Meta>,
    slots: Slots,
    openSeq: OpenSeq,
    bytesReceived: nat,
    photoDone: bool,
    timerArmed: bool,
    receiving: bool,
    progress: Option<PhotoProgress>,
    obstacleSession: Option<nat>,
    sessionsOpened: nat,
    obstaclePhotoCount: nat,
    photoCount: nat,
    startTime: Option<int>,
    settling: bool,
    saved: seq<MissionPhoto>)

  class Receiver {
    var missionState: MissionState
    var meta: Option<Meta>
    var slots: Slots
    var openSeq: OpenSeq
    var bytesReceived: nat
    var photoDone: bool
    /** Whether the six-second photo timeout is armed. */
    var timerArmed: bool
    var receiving: bool
    var progress: Option<PhotoProgress>
    var obstacleSession: Option<nat>
    /** Obstacle sessions opened so far; the next session's id. */
    var sessionsOpened: nat
    var obstaclePhotoCount: nat
    var photoCount: nat
    /** When the mission was started; the elapsed-time display reads it. */
    var startTime: Option<int>
    /** Whether the two-second return to idle after a mission end or a stop is pending. */
    var settling: bool
    /** Photos handed to storage, oldest first. */
    var saved: seq<MissionPhoto>

    /** No slots without a header, a header only for an open photo, one slot per announced chunk. */
    ghost predicate Valid()
      reads this
    {
      (meta.None? ==> slots == []) &&
      (meta.Some? ==> openSeq.Open?) &&
      (meta.Some? && meta.value.chunks <= MaxArrayLength ==> |slots| == meta.value.chunks) &&
      (obstacleSession.Some? ==> obstacleSession.value < sessionsOpened)
    }

    ghost function Snapshot(): Page
      reads this
    {
      Page(missionState, meta, slots, openSeq, bytesReceived, photoDone, timerArmed, receiving, progress,
           obstacleSession, sessionsOpened, obstaclePhotoCount, photoCount, startTime, settling, saved)
    }

    /** No photo in progress: what a completed photo and an expired timeout leave behind. */
    ghost predicate NoPhoto()
      reads this
    {
      meta.None? && slots == [] && openSeq.Closed? && !receiving && progress.None?
    }

    constructor ()
      ensures Valid() && NoPhoto()
      ensures missionState == Idle && !timerArmed && !photoDone && bytesReceived == 0
      ensures obstacleSession.None? && sessionsOpened == 0 && obstaclePhotoCount == 0
      ensures photoCount == 0 && startTime.None? && !settling && saved == []
    {
      missionState := Idle;
      meta := None;
      slots := [];
      openSeq := Closed;
      bytesReceived := 0;
      photoDone := false;
      timerArmed := false;
      receiving := false;
      progress := None;
      obstacleSession := None;
      sessionsOpened := 0;
      obstaclePhotoCount := 0;
      photoCount := 0;
      startTime := None;
      settling := false;
      saved := [];
    }

    /**
     * The start button: without a connection nothing happens. The start command is
     * written; once it is out the mission runs from `now` with its photo counter at zero,
     * and when the write throws the mission is back to idle.
     */
    method StartMission(connected: bool, writeOk: bool, now: int)
      requires Valid()
      modifies this
      ensures Valid()
      ensures !connected ==> unchanged(this)
      ensures connected && writeOk ==> missionState == Running && startTime == Some(now) && photoCount == 0
      ensures connected && !writeOk ==>
                missionState == Idle && startTime == old(startTime) && photoCount == old(photoCount)
      ensures meta == old(meta) && slots == old(slots) && openSeq == old(openSeq) && receiving == old(receiving)
      ensures obstacleSession == old(obstacleSession) && obstaclePhotoCount == old(obstaclePhotoCount)
      ensures timerArmed == old(timerArmed) && settling == old(settling) && saved == old(saved)
      ensures progress == old(progress) && bytesReceived == old(bytesReceived) && photoDone == old(photoDone)
      ensures sessionsOpened == old(sessionsOpened)
    {
      if !connected {
        return;
      }
      missionState := Starting;
      if writeOk {
        missionState := Running;
        startTime := Some(now);
        photoCount := 0;
      } else {
        missionState := Idle;
      }
    }

    /** The pause button: once `MISSION:PAUSE` is out the mission is paused; a failed write changes nothing. */
    method PauseMission(writeOk: bool)
      requires Valid()
      modifies this
      ensures Valid()
      ensures writeOk ==> missionState == Paused && Snapshot() == old(Snapshot()).(missionState := Paused)
      ensures !writeOk ==> unchanged(this)
    {
      if writeOk {
        missionState := Paused;
      }
    }

    /** The resume button: once `RESUME` is out the mission runs again; a failed write changes nothing. */
    method ResumeMission(writeOk: bool)
      requires Valid()
      modifies this
      ensures Valid()
      ensures writeOk ==> missionState == Running && Snapshot() == old(Snapshot()).(missionState := Running)
      ensures !writeOk ==> unchanged(this)
    {
      if writeOk {
        missionState := Running;
      }
    }

    /**
     * The stop button: once `MISSION:PAUSE` is out (the `MISSION:STOP` and `S` writes that
     * follow have their failures ignored) the mission is stopped and the two-second return
     * to idle is pending; when the first write throws nothing changes.
     */
    method StopMission(pauseWriteOk: bool)
      requires Valid()
      modifies this
      ensures Valid()
      ensures pauseWriteOk ==> missionState == Stopped && settling &&
                               Snapshot() == old(Snapshot()).(missionState := Stopped, settling := true)
      ensures !pauseWriteOk ==> unchanged(this)
    {
      if pauseWriteOk {
        missionState := Stopped;
        settling := true;
      }
    }

    /** Opens a fresh obstacle session with no photo taken yet. */
    method NewObstacleSession()
      requires Valid()
      modifies this
      ensures Valid()
      ensures obstacleSession == Some(old(sessionsOpened)) && sessionsOpened == old(sessionsOpened) + 1
      ensures obstaclePhotoCount == 0
      ensures Snapshot() == old(Snapshot()).(obstacleSession := Some(old(sessionsOpened)),
                                             sessionsOpened := old(sessionsOpened) + 1, obstaclePhotoCount := 0)
    {
      obstacleSession := Some(sessionsOpened);
      sessionsOpened := sessionsOpened + 1;
      obstaclePhotoCount := 0;
    }

    /**
     * `onBegin`: outside a running mission, or while a photo with another sequence is
     * open, nothing happens. Otherwise the photo is (re)opened under `seq`, an obstacle
     * session is opened if there is none, the header, slots and byte counter are reset
     * and the timeout is re-armed.
     */
    method OnBegin(beginSeq: Option<int>)
      requires Valid()
      modifies this
      ensures Valid()
      ensures !(missionState == Running && BeginAccepted(old(openSeq), beginSeq)) ==> unchanged(this)
      ensures missionState == Running && BeginAccepted(old(openSeq), beginSeq) ==>
                openSeq == Open(beginSeq) && meta.None? && slots == [] && bytesReceived == 0 &&
                !photoDone && timerArmed && receiving && progress.None? &&
                obstacleSession.Some? &&
                (old(obstacleSession).Some? ==> obstacleSession == old(obstacleSession) &&
                                                obstaclePhotoCount == old(obstaclePhotoCount)) &&
                (old(obstacleSession).None? ==> obstacleSession == Some(old(sessionsOpened)) &&
                                                sessionsOpened == old(sessionsOpened) + 1 && obstaclePhotoCount == 0) &&
                saved == old(saved) && photoCount == old(photoCount)
      ensures missionState == Running && BeginAccepted(old(openSeq), beginSeq) ==>
                var newSession := old(obstacleSession).None?;
                Snapshot() == old(Snapshot()).(openSeq := Open(beginSeq), meta := None, slots := [], bytesReceived := 0,
                                               photoDone := false, timerArmed := true, receiving := true, progress := None,
                                               obstacleSession := if newSession then Some(old(sessionsOpened)) else old(obstacleSession),
                                               sessionsOpened := if newSession then old(sessionsOpened) + 1 else old(sessionsOpened),
                                               obstaclePhotoCount := if newSession then 0 else old(obstaclePhotoCount))
      ensures missionState == old(missionState)
    {
      if missionState != Running {
        return;
      }
      if openSeq.Open? && !StrictEq(openSeq.arg, beginSeq) {
        return;
      }
      if obstacleSession.None? {
        NewObstacleSession();
      }
      OpenPhoto(beginSeq);
    }

    /** Opens the photo under `beginSeq` with no header, no slots and no bytes yet, and arms the timeout. */
    method OpenPhoto(beginSeq: Option<int>)
      requires Valid()
      modifies this
      ensures openSeq == Open(beginSeq) && meta.None? && slots == [] && bytesReceived == 0
      ensures !photoDone && timerArmed && receiving && progress.None?
      ensures Snapshot() == old(Snapshot()).(openSeq := Open(beginSeq), meta := None, slots := [], bytesReceived := 0,
                                             photoDone := false, timerArmed := true, receiving := true, progress := None)
      ensures Valid()
    {
      openSeq := Open(beginSeq);
      meta := None;
      slots := [];
      bytesReceived := 0;
      photoDone := false;
      timerArmed := true;
      receiving := true;
      progress := None;
    }

    /**
     * `onMeta`: only in a running mission with a photo open. The header is recorded,
     * then `new Array(chunks)` either gives one hole per chunk, with the progress at
     * zero and the timeout re-armed, or throws a `RangeError` that ends the handler.
     */
    method OnMeta(m: Meta)
      requires Valid()
      modifies this
      ensures Valid()
      ensures !(missionState == Running && openSeq.Open?) ==> unchanged(this)
      ensures missionState == Running && openSeq.Open? ==> meta == Some(m)
      ensures missionState == Running && openSeq.Open? && m.chunks <= MaxArrayLength ==>
                slots == Holes(m.chunks) && receiving && progress == Some(PhotoProgress(0, m.chunks)) &&
                bytesReceived == 0 && timerArmed
      ensures m.chunks > MaxArrayLength ==>
                slots == old(slots) && receiving == old(receiving) && progress == old(progress) &&
                timerArmed == old(timerArmed) && bytesReceived == old(bytesReceived)
      ensures missionState == Running && openSeq.Open? ==>
                Snapshot() == if m.chunks <= MaxArrayLength
                              then old(Snapshot()).(meta := Some(m), slots := Holes(m.chunks), receiving := true,
                                                    progress := Some(PhotoProgress(0, m.chunks)), bytesReceived := 0,
                                                    timerArmed := true)
                              else old(Snapshot()).(meta := Some(m))
      ensures missionState == old(missionState) && openSeq == old(openSeq) && saved == old(saved)
      ensures photoCount == old(photoCount) && obstacleSession == old(obstacleSession)
    {
      if missionState != Running || openSeq.Closed? {
        return;
      }
      meta := Some(m);
      if m.chunks > MaxArrayLength {
        return;
      }
      slots := Holes(m.chunks);
      receiving := true;
      progress := Some(PhotoProgress(0, m.chunks));
      bytesReceived := 0;
      timerArmed := true;
    }

    /**
     * `onChunk`: in a running mission with a header, a frame is stored into the slot
     * `ChunkIndex` picks when that slot is empty; the progress becomes the number of
     * stored chunks, the byte counter grows by the payload and the timeout is re-armed.
     * A frame for an occupied or out-of-range slot changes nothing.
     */
    method OnChunk(seqNo: nat, payload: Chunk)
      requires Valid()
      modifies this
      ensures Valid()
      ensures var idx := if old(meta).Some? then ChunkIndex(seqNo, old(meta).value.chunks) else None;
              if missionState == Running && idx.Some? && SlotEmpty(old(slots), idx.value)
              then slots == StoreFirst(old(slots), idx.value, payload) &&
                   progress == Some(PhotoProgress(Filled(slots), old(meta).value.chunks)) &&
                   bytesReceived == old(bytesReceived) + |payload| && timerArmed &&
                   Snapshot() == old(Snapshot()).(slots := StoreFirst(old(slots), idx.value, payload),
                                                  progress := Some(PhotoProgress(Filled(StoreFirst(old(slots), idx.value, payload)),
                                                                                 old(meta).value.chunks)),
                                                  bytesReceived := old(bytesReceived) + |payload|,
                                                  timerArmed := true)
              else unchanged(this)
      ensures missionState == old(missionState)
    {
      if missionState != Running || meta.None? {
        return;
      }
      var idx := ChunkIndex(seqNo, meta.value.chunks);
      if idx.Some? && SlotEmpty(slots, idx.value) {
        slots := StoreFirst(slots, idx.value, payload);
        progress := Some(PhotoProgress(Filled(slots), meta.value.chunks));
        bytesReceived := bytesReceived + |payload|;
        timerArmed := true;
      }
    }

    /** Closes the finished photo: no header, no slots, no open sequence, no timeout, not receiving. */
    method Finish()
      requires Valid()
      modifies this
      ensures Valid() && NoPhoto() && !timerArmed
      ensures missionState == old(missionState) && photoDone == old(photoDone)
      ensures bytesReceived == old(bytesReceived) && obstacleSession == old(obstacleSession)
      ensures sessionsOpened == old(sessionsOpened) && obstaclePhotoCount == old(obstaclePhotoCount)
      ensures photoCount == old(photoCount) && settling == old(settling) && saved == old(saved)
      ensures startTime == old(startTime)
    {
      meta := None;
      slots := [];
      openSeq := Closed;
      timerArmed := false;
      receiving := false;
      progress := None;
    }

    /**
     * Hands a finished photo to storage; when the save resolves, the mission and the
     * obstacle photo counters go up by one. A rejected save is lost.
     */
    method Save(bytes: Chunk, m: Meta, saveOk: bool)
      requires Valid()
      modifies this
      ensures Valid()
      ensures saveOk ==> saved == old(saved) + [MissionPhoto(bytes, m, old(obstacleSession), old(obstaclePhotoCount) + 1)] &&
                         photoCount == old(photoCount) + 1 && obstaclePhotoCount == old(obstaclePhotoCount) + 1
      ensures !saveOk ==> unchanged(this)
      ensures missionState == old(missionState) && meta == old(meta) && slots == old(slots)
      ensures openSeq == old(openSeq) && receiving == old(receiving) && progress == old(progress)
      ensures timerArmed == old(timerArmed) && obstacleSession == old(obstacleSession)
      ensures photoDone == old(photoDone) && bytesReceived == old(bytesReceived) && sessionsOpened == old(sessionsOpened)
      ensures startTime == old(startTime) && settling == old(settling)
    {
      if saveOk {
        saved := saved + [MissionPhoto(bytes, m, obstacleSession, obstaclePhotoCount + 1)];
        photoCount := photoCount + 1;
        obstaclePhotoCount := obstaclePhotoCount + 1;
      }
    }

    /**
     * `onDone`: in a running mission it marks the end as seen. With a header whose
     * non-zero size differs from the stored bytes it stops there, keeping the transfer.
     * With every slot filled and the size agreeing (or zero) the photo is assembled,
     * the transfer closed and the photo saved. With a hole left the copy loop throws,
     * and nothing beyond the mark changes either.
     */
    method OnDone(saveOk: bool)
      requires Valid()
      modifies this
      ensures Valid()
      ensures missionState != Running ==> unchanged(this)
      ensures missionState == Running ==> photoDone
      ensures var complete := old(meta).Some? && AllFilled(old(slots)) &&
                              (old(meta).value.size == 0 || PresentLength(old(slots)) == old(meta).value.size);
              missionState == Running && complete ==>
                NoPhoto() && !timerArmed &&
                saved == old(saved) + (if saveOk then [MissionPhoto(Concat(old(slots)), old(meta).value,
                                                                     old(obstacleSession), old(obstaclePhotoCount) + 1)]
                                       else []) &&
                photoCount == old(photoCount) + (if saveOk then 1 else 0) &&
                obstaclePhotoCount == old(obstaclePhotoCount) + (if saveOk then 1 else 0)
      ensures var complete := old(meta).Some? && AllFilled(old(slots)) &&
                              (old(meta).value.size == 0 || PresentLength(old(slots)) == old(meta).value.size);
              !complete ==>
                meta == old(meta) && slots == old(slots) && openSeq == old(openSeq) &&
                receiving == old(receiving) && progress == old(progress) && timerArmed == old(timerArmed) &&
                saved == old(saved) && photoCount == old(photoCount) && obstaclePhotoCount == old(obstaclePhotoCount)
      ensures missionState == old(missionState) && obstacleSession == old(obstacleSession)
      ensures bytesReceived == old(bytesReceived) && sessionsOpened == old(sessionsOpened)
      ensures startTime == old(startTime) && settling == old(settling)
    {
      if missionState != Running {
        return;
      }
      photoDone := true;
      if meta.None? || SomeFalsyChunk(slots) {
        return;
      }
      var m := meta.value;
      var total := PresentLength(slots);
      if m.size != 0 && total != m.size {
        return;
      }
      var jpeg := Assemble(slots, total);
      if jpeg.None? {
        return;
      }
      Finish();
      Save(jpeg.value, m, saveOk);
    }

    /**
     * `onEnd`: only in a running mission and for the open sequence. With every slot
     * filled the photo is assembled in slot order whatever its size, the transfer closed
     * and the photo saved; a size mismatch is only reported. A hole makes the copy loop
     * throw and nothing changes.
     */
    method OnEnd(endSeq: Option<int>, saveOk: bool)
      requires Valid()
      modifies this
      ensures Valid()
      ensures var complete := missionState == Running && EndAccepted(old(openSeq), endSeq) &&
                              old(meta).Some? && AllFilled(old(slots));
              if complete then
                NoPhoto() && !timerArmed &&
                saved == old(saved) + (if saveOk then [MissionPhoto(Concat(old(slots)), old(meta).value,
                                                                     old(obstacleSession), old(obstaclePhotoCount) + 1)]
                                       else []) &&
                photoCount == old(photoCount) + (if saveOk then 1 else 0) &&
                obstaclePhotoCount == old(obstaclePhotoCount) + (if saveOk then 1 else 0) &&
                photoDone == old(photoDone) && bytesReceived == old(bytesReceived) &&
                sessionsOpened == old(sessionsOpened) && startTime == old(startTime) && settling == old(settling)
              else unchanged(this)
      ensures missionState == old(missionState) && obstacleSession == old(obstacleSession)
    {
      if missionState != Running {
        return;
      }
      if openSeq.Closed? || !StrictEq(openSeq.arg, endSeq) {
        return;
      }
      if meta.None? || SomeFalsyChunk(slots) {
        return;
      }
      var m := meta.value;
      var total := PresentLength(slots);
      var jpeg := Assemble(slots, total);
      if jpeg.None? {
        return;
      }
      Finish();
      Save(jpeg.value, m, saveOk);
    }

    /** The photo timeout fires: the transfer is abandoned and the sequence closed. */
    method Expire()
      requires Valid()
      modifies this
      ensures Valid()
      ensures old(timerArmed) ==> NoPhoto() && !timerArmed
      ensures old(timerArmed) ==>
                Snapshot() == old(Snapshot()).(meta := None, slots := [], openSeq := Closed, timerArmed := false,
                                               receiving := false, progress := None)
      ensures !old(timerArmed) ==> unchanged(this)
    {
      if timerArmed {
        Finish();
      }
    }

    /**
     * `MISSION:OBSTACLE`: a new obstacle session with no photo yet. A photo is requested
     * when the mission is running, the previous session's photo count (the value before
     * the reset) is below the limit, no photo is being received and none is open.
     */
    method OnObstacle() returns (photoRequested: bool)
      requires Valid()
      modifies this
      ensures Valid()
      ensures photoRequested <==> missionState == Running && old(obstaclePhotoCount) < MaxPhotosPerObstacle &&
                                  !receiving && openSeq.Closed?
      ensures obstacleSession == Some(old(sessionsOpened)) && obstaclePhotoCount == 0
      ensures Snapshot() == old(Snapshot()).(obstacleSession := Some(old(sessionsOpened)),
                                             sessionsOpened := old(sessionsOpened) + 1, obstaclePhotoCount := 0)
    {
      photoRequested := missionState == Running && obstaclePhotoCount < MaxPhotosPerObstacle &&
                        !receiving && openSeq.Closed?;
      NewObstacleSession();
    }

    /** `ACK:TURN`: the rover has turned away; the obstacle session ends. */
    method OnAckTurn()
      requires Valid()
      modifies this
      ensures Valid()
      ensures obstacleSession.None? && obstaclePhotoCount == 0
      ensures Snapshot() == old(Snapshot()).(obstacleSession := None, obstaclePhotoCount := 0)
    {
      obstacleSession := None;
      obstaclePhotoCount := 0;
    }

    /**
     * `MISSION:END` and its synonyms: the mission stops, the obstacle session ends and
     * the header and slots are dropped; the open sequence, the timeout and the
     * receiving flag are left as they were. The return to idle follows later.
     */
    method OnMissionEnd()
      requires Valid()
      modifies this
      ensures Valid()
      ensures missionState == Stopped && settling
      ensures obstacleSession.None? && obstaclePhotoCount == 0 && meta.None? && slots == []
      ensures Snapshot() == old(Snapshot()).(missionState := Stopped, obstacleSession := None, obstaclePhotoCount := 0,
                                             meta := None, slots := [], settling := true)
    {
      missionState := Stopped;
      obstacleSession := None;
      obstaclePhotoCount := 0;
      meta := None;
      slots := [];
      settling := true;
    }

    /** The two-second timer after a mission end or a stop: back to idle, with no start time. */
    method Settle()
      requires Valid()
      modifies this
      ensures Valid()
      ensures old(settling) ==> missionState == Idle && startTime.None? && !settling
      ensures old(settling) ==> Snapshot() == old(Snapshot()).(missionState := Idle, startTime := None, settling := false)
      ensures !old(settling) ==> unchanged(this)
    {
      if settling {
        missionState := Idle;
        startTime := None;
        settling := false;
      }
    }

    /**
     * The text callback: dispatches on the line's prefix. Other lines, including the
     * `DHT:` readings, change nothing here.
     */
    method OnText(msg: string) returns (photoRequested: bool)
      requires Valid()
      modifies this
      ensures Valid()
      ensures photoRequested ==> missionState == Running && openSeq.Closed? && !receiving
      ensures meta.Some? ==> meta == old(meta)
      ensures saved == old(saved) && photoCount == old(photoCount)
      ensures IsObstacleLine(msg) ==>
                (photoRequested <==> old(missionState) == Running && old(obstaclePhotoCount) < MaxPhotosPerObstacle &&
                                     !old(receiving) && old(openSeq).Closed?) &&
                Snapshot() == old(Snapshot()).(obstacleSession := Some(old(sessionsOpened)),
                                               sessionsOpened := old(sessionsOpened) + 1, obstaclePhotoCount := 0)
      ensures IsAckTurnLine(msg) ==>
                !photoRequested && Snapshot() == old(Snapshot()).(obstacleSession := None, obstaclePhotoCount := 0)
      ensures IsMissionEndLine(msg) ==>
                !photoRequested &&
                Snapshot() == old(Snapshot()).(missionState := Stopped, obstacleSession := None, obstaclePhotoCount := 0,
                                               meta := None, slots := [], settling := true)
      ensures !IsObstacleLine(msg) && !IsAckTurnLine(msg) && !IsMissionEndLine(msg) ==>
                !photoRequested && unchanged(this)
    {
      photoRequested := false;
      if IsObstacleLine(msg) {
        photoRequested := OnObstacle();
      } else if IsAckTurnLine(msg) {
        OnAckTurn();
      } else if IsMissionEndLine(msg) {
        OnMissionEnd();
      }
    }
  }
}
