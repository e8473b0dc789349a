/**
 * The pan/tilt camera mount: angles clamped to 0..180, `SV1:`/`SV2:` commands, at most
 * one command per 100 ms, one debounce slot shared by both servos, and the status shown
 * to the user (idle, sending, success, error) with its message.
 *
 * Time is an integer number of milliseconds supplied with each event. The write to the
 * link is an outcome supplied with the event (written, or thrown with or without an
 * `Error` message); the timers (debounce, echo timeout, success hold) are events of their
 * own.
 */
module ServoControl {
  import opened Wrappers
  import opened JsRuntime
  import opened WireCodec

  const MaxCommandsPerSecond: int := 10
  /** `1000 / MAX_COMMANDS_PER_SECOND`: the least spacing between two commands written. */
  const MinIntervalMs: int := 1000 / MaxCommandsPerSecond
  const DebounceMs: int := 120
  const EchoTimeoutMs: int := 500
  const SuccessHoldMs: int := 1000
  const CenterAngle: int := 90

  const NotConnectedMessage: string := "Não conectado"
  const NoEchoMessage: string := "Comando enviado (sem eco)"
  const WriteFailedMessage: string := "Erro ao enviar comando"

  datatype Status = Idle | Sending | Success | Error

  datatype Servo = Pan | Tilt

  /** What the write did: it completed, or it threw; `Threw(None)` is a thrown value that is not an `Error`. */
  datatype WriteResult = Written | Threw(message: Option<string>)

  /** The inputs of one send: whether the link is connected, the time, and how the write ends. */
  datatype Env = Env(connected: bool, now: int, result: WriteResult)

  /** A servo command: which servo, and the angle; its text is `ServoCommand(servo, angle)`. */
  datatype Move = Move(servo: Servo, angle: int)

  /** A command handed to the link, with the time it was sent. */
  datatype Write = Write(move: Move, at: int)

  /** The debounced send: the command, and the angles stored once it is sent. */
  datatype PendingSend = PendingSend(move: Move, pan: int, tilt: int)

  /**
   * Everything the hook keeps: the shown state, the last-sent time, the timers (the debounce
   * slot, whether the echo timeout is armed, how many success holds are pending), the
   * commands written so far and the angles last saved. The last command is `None` while
   * it is still the empty string.
   */
  datatype View = View(
    pan: int,
    tilt: int,
    lastCommand: Option<Move>,
    status: Status,
    error: Option<string>,
    lastCommandTime: int,
    debounce: Option<PendingSend>,
    echoArmed: bool,
    holds: nat,
    writes: seq<Write>,
    saved: Option<(int, int)>)

  /** `clamp`: rounding is the identity on the integer angles modelled here; the result is bounded to 0..180. */
  function Clamp(value: int): (r: int)
    ensures 0 <= r <= 180
    ensures 0 <= value <= 180 ==> r == value
    ensures value < 0 ==> r == 0
    ensures value > 180 ==> r == 180
  {
    if value < 0 then 0 else if value > 180 then 180 else value
  }

  /** Clamping twice is clamping once, and clamping keeps the order of angles. */
  lemma ClampIdempotentMonotone(a: int, b: int)
    ensures Clamp(Clamp(a)) == Clamp(a)
    ensures a <= b ==> Clamp(a) <= Clamp(b)
  {
  }

  function ServoPrefix(servo: Servo): string {
    if servo == Pan then "SV1:" else "SV2:"
  }

  /** `SV1:<angle>` for the pan servo, `SV2:<angle>` for the tilt servo. */
  function ServoCommand(servo: Servo, angle: int): (c: string)
    ensures |c| >= 5 && c[..4] == ServoPrefix(servo)
  {
    ServoPrefix(servo) + IntToString(angle)
  }

  /** How the mount reads a servo command: the prefix names the servo and `parseInt` reads the angle. */
  function ParseServoCommand(c: string): Option<(Servo, int)> {
    if |c| < 4 || (c[..4] != "SV1:" && c[..4] != "SV2:") then None
    else
      match ParseInt(c[4..])
      case None => None
      case Some(a) => Some((if c[..4] == "SV1:" then Pan else Tilt, a))
  }

  /** The angle field reads back with `parseInt`, whatever line ending follows it. */
  lemma ParseServoCommandOf(servo: Servo, angle: int, rest: string)
    requires rest == [] || IsJsSpace(rest[0])
    ensures ParseServoCommand(ServoCommand(servo, angle) + rest) == Some((servo, angle))
  {
    var c := ServoCommand(servo, angle) + rest;
    assert c[..4] == ServoPrefix(servo);
    assert c[4..] == IntToString(angle) + rest;
    ParseIntOfIntToString(angle, rest);
  }

  /** A servo command reads back as its servo and angle, also after the link appends its line terminator. */
  lemma ServoCommandRoundTrip(servo: Servo, angle: int)
    ensures ParseServoCommand(ServoCommand(servo, angle)) == Some((servo, angle))
    ensures FrameCommand(ServoCommand(servo, angle)) == ServoCommand(servo, angle) + "\n"
    ensures ParseServoCommand(FrameCommand(ServoCommand(servo, angle))) == Some((servo, angle))
  {
    var c := ServoCommand(servo, angle);
    ParseServoCommandOf(servo, angle, []);
    assert c + [] == c;
    assert c[|c| - 1] == IntToString(angle)[|IntToString(angle)| - 1];
    assert !EndsWith(c, "\n");
    ParseServoCommandOf(servo, angle, "\n");
  }

  /** The message a failed write leaves: the `Error`'s message, or a fixed text. */
  function ThrownMessage(message: Option<string>): string {
    message.GetOr(WriteFailedMessage)
  }

  /** `sendCommand`: refused when not connected, dropped within 100 ms of the last accepted one, else written. */
  function Send(v: View, command: Move, env: Env): View {
    if !env.connected then v.(status := Error, error := Some(NotConnectedMessage))
    else if env.now - v.lastCommandTime < MinIntervalMs then v
    else
      var sent := v.(lastCommandTime := env.now, status := Sending, lastCommand := Some(command), error := None,
                     echoArmed := true, writes := v.writes + [Write(command, env.now)]);
      match env.result
      case Written => sent
      case Threw(m) => sent.(echoArmed := false, status := Error, error := Some(ThrownMessage(m)))
  }

  /** `setPan`/`setTilt`: the clamped angle is shown at once and any pending debounced send is dropped; the command goes out now or is debounced. */
  function SetAngle(v: View, servo: Servo, angle: int, immediate: bool, env: Env): View {
    var c := Clamp(angle);
    var angles := if servo == Pan then (c, v.tilt) else (v.pan, c);
    var shown := (if servo == Pan then v.(pan := c) else v.(tilt := c)).(debounce := None);
    if immediate then Send(shown, Move(servo, c), env).(saved := Some(angles))
    else shown.(debounce := Some(PendingSend(Move(servo, c), angles.0, angles.1)))
  }

  /** The debounce timer fires: the pending command is sent and its angles saved. */
  function DebounceFire(v: View, env: Env): View {
    match v.debounce
    case None => v
    case Some(p) => Send(v.(debounce := None), p.move, env).(saved := Some((p.pan, p.tilt)))
  }

  /** `reset`: both angles back to 90, then `SV1:90` and `SV2:90` each through the send rules. */
  function Reset(v: View, env1: Env, env2: Env): View {
    var centered := v.(pan := CenterAngle, tilt := CenterAngle);
    Send(Send(centered, Move(Pan, CenterAngle), env1), Move(Tilt, CenterAngle), env2)
      .(saved := Some((CenterAngle, CenterAngle)))
  }

  /** No echo within the timeout: back to idle, with a note that the command went out unconfirmed. */
  function EchoTimeout(v: View): View {
    if v.echoArmed then v.(echoArmed := false, status := Idle, error := Some(NoEchoMessage)) else v
  }

  /** `handleOkResponse`: success, no error, and a hold timer that later returns to idle. */
  function HandleOk(v: View): View {
    v.(echoArmed := false, status := Success, error := None, holds := v.holds + 1)
  }

  /** A success hold timer fires: back to idle, the message kept. */
  function HoldExpired(v: View): View {
    if v.holds == 0 then v else v.(holds := v.holds - 1, status := Idle)
  }

  /** `handleErrorResponse`: error status with the device's message. */
  function HandleError(v: View, message: string): View {
    v.(echoArmed := false, status := Error, error := Some(message))
  }

  /** `clearError`: idle, no message. */
  function ClearError(v: View): View {
    v.(error := None, status := Idle)
  }

  /** The unmount cleanup: the debounce and echo timers are cancelled. */
  function Unmount(v: View): View {
    v.(debounce := None, echoArmed := false)
  }

  /** Written commands are at least 100 ms apart. */
  predicate Spaced(writes: seq<Write>) {
    forall i :: 0 < i < |writes| ==> writes[i].at - writes[i - 1].at >= MinIntervalMs
  }

  predicate InRange(a: int) { 0 <= a <= 180 }

  /**
   * What every event keeps: angles within 0..180 (also those waiting to be sent and those
   * saved), a status that agrees with its message (sending and success carry none, error
   * carries one), and written commands spaced by the rate limit, the last one at the
   * last-sent time.
   */
  predicate Coherent(v: View) {
    && InRange(v.pan) && InRange(v.tilt)
    && (v.debounce.Some? ==> InRange(v.debounce.value.pan) && InRange(v.debounce.value.tilt))
    && (v.saved.Some? ==> InRange(v.saved.value.0) && InRange(v.saved.value.1))
    && (v.status == Sending || v.status == Success ==> v.error.None?)
    && (v.status == Error ==> v.error.Some?)
    && Spaced(v.writes)
    && (v.writes != [] ==> v.writes[|v.writes| - 1].at == v.lastCommandTime)
  }

  /** The hook's initial state. */
  const Initial: View := View(CenterAngle, CenterAngle, None, Idle, None, 0, None, false, 0, [], None)

  /** A send writes at most one command, after the ones written before. */
  lemma SendWritesAtMostOne(v: View, command: Move, env: Env)
    ensures var r := Send(v, command, env);
            r.writes == v.writes ||
            (r.writes == v.writes + [Write(command, env.now)] && r.lastCommand == Some(command) && r.lastCommandTime == env.now)
    ensures Send(v, command, env).writes != v.writes <==>
            env.connected && env.now - v.lastCommandTime >= MinIntervalMs
  {
  }

  /** Without a connection nothing is written and the error says so. */
  lemma SendNotConnected(v: View, command: Move, env: Env)
    requires !env.connected
    ensures Send(v, command, env).writes == v.writes
    ensures Send(v, command, env).status == Error && Send(v, command, env).error == Some(NotConnectedMessage)
  {
  }

  /** Within 100 ms of the last accepted command a send changes nothing at all. */
  lemma SendRateLimited(v: View, command: Move, env: Env)
    requires env.connected && env.now - v.lastCommandTime < MinIntervalMs
    ensures Send(v, command, env) == v
  {
  }

  /** An accepted command leaves the status sending with the echo timer armed, or error with the write's message. */
  lemma SendAccepted(v: View, command: Move, env: Env)
    requires env.connected && env.now - v.lastCommandTime >= MinIntervalMs
    ensures env.result.Written? ==> Send(v, command, env).status == Sending && Send(v, command, env).echoArmed
    ensures env.result.Threw? ==> Send(v, command, env).status == Error && !Send(v, command, env).echoArmed &&
                                  Send(v, command, env).error == Some(ThrownMessage(env.result.message))
    ensures Send(v, command, env).pan == v.pan && Send(v, command, env).tilt == v.tilt
  {
  }

  /** A servo move keeps the state coherent: the shown and pending angles are clamped. */
  lemma SetAngleKeepsCoherent(v: View, servo: Servo, angle: int, immediate: bool, env: Env)
    requires Coherent(v)
    ensures Coherent(SetAngle(v, servo, angle, immediate, env))
  {
    var c := Clamp(angle);
    var angles := if servo == Pan then (c, v.tilt) else (v.pan, c);
    var shown := (if servo == Pan then v.(pan := c) else v.(tilt := c)).(debounce := None);
    assert Coherent(shown);
    if immediate {
      var sent := Send(shown, Move(servo, c), env);
      SendKeepsCoherent(shown, Move(servo, c), env);
      SavedKeepsCoherent(sent, angles);
    }
  }

  /** Saving in-range angles keeps the state coherent. */
  lemma SavedKeepsCoherent(v: View, angles: (int, int))
    requires Coherent(v) && InRange(angles.0) && InRange(angles.1)
    ensures Coherent(v.(saved := Some(angles)))
  {
  }

  /** The debounced send keeps the state coherent. */
  lemma DebounceFireKeepsCoherent(v: View, env: Env)
    requires Coherent(v)
    ensures Coherent(DebounceFire(v, env))
  {
    if v.debounce.Some? {
      SendKeepsCoherent(v.(debounce := None), v.debounce.value.move, env);
    }
  }

  /** `reset` keeps the state coherent. */
  lemma ResetKeepsCoherent(v: View, env1: Env, env2: Env)
    requires Coherent(v)
    ensures Coherent(Reset(v, env1, env2))
  {
    var centered := v.(pan := CenterAngle, tilt := CenterAngle);
    SendKeepsCoherent(centered, Move(Pan, CenterAngle), env1);
    SendKeepsCoherent(Send(centered, Move(Pan, CenterAngle), env1), Move(Tilt, CenterAngle), env2);
  }

  /** The timer and response events keep the state coherent. */
  lemma HandlersKeepCoherent(v: View, message: string)
    requires Coherent(v)
    ensures Coherent(EchoTimeout(v)) && Coherent(HandleOk(v)) && Coherent(HoldExpired(v))
    ensures Coherent(HandleError(v, message)) && Coherent(ClearError(v)) && Coherent(Unmount(v))
  {
  }

  /** A send keeps the state coherent: a command is only written 100 ms or more after the previous one. */
  lemma SendKeepsCoherent(v: View, command: Move, env: Env)
    requires Coherent(v)
    ensures Coherent(Send(v, command, env))
  {
    var r := Send(v, command, env);
    if r.writes != v.writes {
      var n := |v.writes|;
      assert r.writes == v.writes + [Write(command, env.now)];
      forall i | 0 < i < |r.writes| ensures r.writes[i].at - r.writes[i - 1].at >= MinIntervalMs {
        if i < n {
          assert r.writes[i] == v.writes[i] && r.writes[i - 1] == v.writes[i - 1];
        }
      }
    }
  }

  /** A second servo move within the debounce window replaces the first: only the later command is ever sent. */
  lemma DebounceSlotShared(v: View, s1: Servo, a1: int, s2: Servo, a2: int, e1: Env, e2: Env, e3: Env)
    ensures var r := SetAngle(SetAngle(v, s1, a1, false, e1), s2, a2, false, e2);
            r.debounce.Some? && r.debounce.value.move == Move(s2, Clamp(a2)) && r.writes == v.writes
    ensures var r := DebounceFire(SetAngle(SetAngle(v, s1, a1, false, e1), s2, a2, false, e2), e3);
            r.writes == v.writes || r.writes == v.writes + [Write(Move(s2, Clamp(a2)), e3.now)]
  {
  }

  /**
   * A move with `immediate` set shows the clamped angle, drops any pending debounced send,
   * stores the new angles, and writes that one command exactly when the link is connected
   * and 100 ms have passed since the last accepted command.
   */
  lemma SetAngleWritesOnce(v: View, servo: Servo, angle: int, env: Env)
    ensures var r := SetAngle(v, servo, angle, true, env);
            r.debounce.None? &&
            (if servo == Pan then r.pan == Clamp(angle) && r.tilt == v.tilt
             else r.tilt == Clamp(angle) && r.pan == v.pan) &&
            r.saved == Some((r.pan, r.tilt))
    ensures var r := SetAngle(v, servo, angle, true, env);
            if env.connected && env.now - v.lastCommandTime >= MinIntervalMs
            then r.writes == v.writes + [Write(Move(servo, Clamp(angle)), env.now)]
            else r.writes == v.writes
  {
  }

  /** `reset` writes its second command only when it comes 100 ms or more after the first one it wrote. */
  lemma ResetRateLimitsSecond(v: View, env1: Env, env2: Env)
    requires env1.connected && env1.now - v.lastCommandTime >= MinIntervalMs
    requires env2.now - env1.now < MinIntervalMs
    ensures Reset(v, env1, env2).writes == v.writes + [Write(Move(Pan, 90), env1.now)]
    ensures Reset(v, env1, env2).pan == 90 && Reset(v, env1, env2).tilt == 90
    ensures Reset(v, env1, env2).saved == Some((90, 90))
  {
  }

  /** The status handlers: a device OK is success without a message; an error keeps the device's message; clearing leaves idle without one. */
  lemma StatusHandlers(v: View, message: string)
    ensures HandleOk(v).status == Success && HandleOk(v).error.None? && !HandleOk(v).echoArmed
    ensures HandleError(v, message).status == Error && HandleError(v, message).error == Some(message)
    ensures ClearError(v).status == Idle && ClearError(v).error.None?
    ensures HandleOk(v).writes == HandleError(v, message).writes == ClearError(v).writes == v.writes
  {
  }

  /** The hook: its fields mirror `View`, and each event method performs one transition. */
  class Controller {
    var pan: int
    var tilt: int
    var lastCommand: Option<Move>
    var status: Status
    var error: Option<string>
    var lastCommandTime: int
    var debounce: Option<PendingSend>
    var echoArmed: bool
    var holds: nat
    var writes: seq<Write>
    var saved: Option<(int, int)>

    function Snapshot(): View
      reads this
    {
      View(pan, tilt, lastCommand, status, error, lastCommandTime, debounce, echoArmed, holds, writes, saved)
    }

    ghost predicate Valid()
      reads this
    {
      Coherent(Snapshot())
    }

    constructor()
      ensures Snapshot() == Initial
      ensures Valid()
    {
      pan, tilt := CenterAngle, CenterAngle;
      lastCommand := None;
      status := Idle;
      error := None;
      lastCommandTime := 0;
      debounce := None;
      echoArmed := false;
      holds := 0;
      writes := [];
      saved := None;
    }

    method SendCommand(command: Move, env: Env)
      requires Valid()
      modifies this
      ensures Snapshot() == Send(old(Snapshot()), command, env)
      ensures Valid()
    {
      ghost var before := Snapshot();
      if !env.connected {
        error := Some(NotConnectedMessage);
        status := Error;
        assert Snapshot() == before.(status := Error, error := Some(NotConnectedMessage));
      } else if env.now - lastCommandTime >= MinIntervalMs {
        lastCommandTime := env.now;
        status := Sending;
        lastCommand := Some(command);
        error := None;
        echoArmed := true;
        writes := writes + [Write(command, env.now)];
        ghost var sent := Snapshot();
        if env.result.Threw? {
          echoArmed := false;
          status := Error;
          error := Some(ThrownMessage(env.result.message));
          assert Snapshot() == sent.(echoArmed := false, status := Error, error := Some(ThrownMessage(env.result.message)));
        }
      }
      assert Snapshot() == Send(before, command, env);
      SendKeepsCoherent(before, command, env);
    }

    method SetPan(angle: int, immediate: bool, env: Env)
      requires Valid()
      modifies this
      ensures Snapshot() == SetAngle(old(Snapshot()), Pan, angle, immediate, env)
      ensures Valid()
    {
      ghost var before := Snapshot();
      SetAngleKeepsCoherent(before, Pan, angle, immediate, env);
      var c := Clamp(angle);
      pan := c;
      debounce := None;
      var t := tilt;
      assert Snapshot() == before.(pan := c).(debounce := None);
      ghost var shown := Snapshot();
      if immediate {
        SendCommand(Move(Pan, c), env);
        saved := Some((c, t));
        assert Snapshot() == Send(shown, Move(Pan, c), env).(saved := Some((c, t)));
      } else {
        debounce := Some(PendingSend(Move(Pan, c), c, t));
        assert Snapshot() == shown.(debounce := Some(PendingSend(Move(Pan, c), c, t)));
      }
      assert Snapshot() == SetAngle(before, Pan, angle, immediate, env);
    }

    method SetTilt(angle: int, immediate: bool, env: Env)
      requires Valid()
      modifies this
      ensures Snapshot() == SetAngle(old(Snapshot()), Tilt, angle, immediate, env)
      ensures Valid()
    {
      ghost var before := Snapshot();
      SetAngleKeepsCoherent(before, Tilt, angle, immediate, env);
      var c := Clamp(angle);
      tilt := c;
      debounce := None;
      var p := pan;
      assert Snapshot() == before.(tilt := c).(debounce := None);
      ghost var shown := Snapshot();
      if immediate {
        SendCommand(Move(Tilt, c), env);
        saved := Some((p, c));
        assert Snapshot() == Send(shown, Move(Tilt, c), env).(saved := Some((p, c)));
      } else {
        debounce := Some(PendingSend(Move(Tilt, c), p, c));
        assert Snapshot() == shown.(debounce := Some(PendingSend(Move(Tilt, c), p, c)));
      }
      assert Snapshot() == SetAngle(before, Tilt, angle, immediate, env);
    }

    method FireDebounce(env: Env)
      requires Valid()
      modifies this
      ensures Snapshot() == DebounceFire(old(Snapshot()), env)
      ensures Valid()
    {
      ghost var before := Snapshot();
      DebounceFireKeepsCoherent(before, env);
      if debounce.Some? {
        var p := debounce.value;
        debounce := None;
        SendCommand(p.move, env);
        saved := Some((p.pan, p.tilt));
      }
    }

    method ResetAngles(env1: Env, env2: Env)
      requires Valid()
      modifies this
      ensures Snapshot() == Reset(old(Snapshot()), env1, env2)
      ensures Valid()
    {
      ghost var before := Snapshot();
      ResetKeepsCoherent(before, env1, env2);
      pan, tilt := CenterAngle, CenterAngle;
      ghost var centered := Snapshot();
      assert centered == before.(pan := CenterAngle, tilt := CenterAngle);
      SendCommand(Move(Pan, CenterAngle), env1);
      SendCommand(Move(Tilt, CenterAngle), env2);
      ghost var sent := Snapshot();
      assert sent == Send(Send(centered, Move(Pan, CenterAngle), env1), Move(Tilt, CenterAngle), env2);
      saved := Some((CenterAngle, CenterAngle));
      assert Snapshot() == sent.(saved := Some((CenterAngle, CenterAngle)));
    }

    method OnEchoTimeout()
      requires Valid()
      modifies this
      ensures Snapshot() == EchoTimeout(old(Snapshot()))
      ensures Valid()
    {
      if echoArmed {
        echoArmed := false;
        status := Idle;
        error := Some(NoEchoMessage);
      }
    }

    method OnOk()
      requires Valid()
      modifies this
      ensures Snapshot() == HandleOk(old(Snapshot()))
      ensures Valid()
    {
      echoArmed := false;
      status := Success;
      error := None;
      holds := holds + 1;
    }

    method OnHoldExpired()
      requires Valid()
      modifies this
      ensures Snapshot() == HoldExpired(old(Snapshot()))
      ensures Valid()
    {
      if holds > 0 {
        holds := holds - 1;
        status := Idle;
      }
    }

    method OnError(message: string)
      requires Valid()
      modifies this
      ensures Snapshot() == HandleError(old(Snapshot()), message)
      ensures Valid()
    {
      echoArmed := false;
      status := Error;
      error := Some(message);
    }

    method Clear()
      requires Valid()
      modifies this
      ensures Snapshot() == ClearError(old(Snapshot()))
      ensures Valid()
    {
      error := None;
      status := Idle;
    }

    method Dispose()
      requires Valid()
      modifies this
      ensures Snapshot() == Unmount(old(Snapshot()))
      ensures Valid()
    {
      debounce := None;
      echoArmed := false;
    }
  }
}
