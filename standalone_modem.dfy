/**
 * The standalone ARDOP modem client: the command and data connections to
 * the TNC and an optional connection to rigctld for keying the radio. There
 * is no ready flag: commands are always sent. Everything the object does to
 * the outside world is recorded, in order, in one trace.
 */
module StandaloneModem {
  import opened Wrappers
  import opened Utf8
  import opened Framing
  import opened Commands

  /** The largest text frame this client accepts, in bytes of `'FEC' + message`. */
  const TextCap: nat := 2000

  /** One observable action, in the order it happens. */
  datatype Event =
    | Tx(effect: Effect)       // a rigctld command or a plugin-manager call
    | CmdLine(line: string)    // a line sent on the command socket
    | StopRequested
    | ListenerJoined
    | CommandClosed | DataClosed | RigctldClosed

  function Txs(fx: seq<Effect>): (r: seq<Event>)
    ensures |r| == |fx| && forall k :: 0 <= k < |fx| ==> r[k] == Tx(fx[k])
  {
    if fx == [] then [] else [Tx(fx[0])] + Txs(fx[1..])
  }

  function CmdLines(commands: seq<string>): (r: seq<Event>)
    ensures |r| == |commands|
  {
    if commands == [] then [] else [CmdLine(Line(commands[0]))] + CmdLines(commands[1..])
  }

  lemma {:induction false} CmdLinesAppend(xs: seq<string>, ys: seq<string>)
    ensures CmdLines(xs + ys) == CmdLines(xs) + CmdLines(ys)
  {
    if xs != [] {
      assert (xs + ys)[1..] == xs[1..] + ys;
      CmdLinesAppend(xs[1..], ys);
    } else {
      assert xs + ys == ys;
    }
  }

  /** What keying does: with rigctld connected, `T 1` to rigctld and then the plugins' hook. */
  function KeyEffects(rig: bool): seq<Effect> {
    if rig then [RigctldSend("T 1\n"), KeyHook] else []
  }

  function UnkeyEffects(rig: bool): seq<Effect> {
    if rig then [RigctldSend("T 0\n"), UnkeyHook] else []
  }

  /** The listener keys and unkeys exactly as the transmitter methods do. */
  lemma ListenerKeysLikeTransmitter(rig: bool, e: string)
    ensures Effects(RigctldAndPlugins(rig), Key, e) == KeyEffects(rig)
    ensures Effects(RigctldAndPlugins(rig), Unkey, e) == UnkeyEffects(rig)
  {
  }

  /** `close_all`: unkey, request the stop, nudge the listener, join it, then close the sockets. */
  function ShutdownTrace(rig: bool): seq<Event> {
    Txs(UnkeyEffects(rig)) + [StopRequested, CmdLine(Line("STATE")), ListenerJoined, CommandClosed, DataClosed]
      + (if rig then [RigctldClosed] else [])
  }

  predicate IsClose(e: Event) {
    e in {CommandClosed, DataClosed, RigctldClosed}
  }

  /** In the shutdown trace the radio is unkeyed before the stop is requested, and no socket is closed before the listener has been joined. */
  lemma ShutdownOrder(rig: bool)
    ensures var t := ShutdownTrace(rig);
      && (forall i, j :: 0 <= i < |t| && 0 <= j < |t| && t[i].Tx? && t[j] == StopRequested ==> i < j)
      && (forall i, j :: 0 <= i < |t| && 0 <= j < |t| && IsClose(t[i]) && t[j] == ListenerJoined ==> j < i)
      && (rig ==> Tx(RigctldSend("T 0\n")) in t)
  {
    var t := ShutdownTrace(rig);
    var n := |Txs(UnkeyEffects(rig))|;
    assert t[n] == StopRequested && t[n + 2] == ListenerJoined;
    forall i | 0 <= i < |t| ensures t[i].Tx? <==> i < n {
      if i >= n { assert t[i] == ([StopRequested, CmdLine(Line("STATE")), ListenerJoined, CommandClosed, DataClosed] + (if rig then [RigctldClosed] else []))[i - n]; }
    }
    forall i | 0 <= i < |t| ensures (t[i] == StopRequested <==> i == n) && (t[i] == ListenerJoined <==> i == n + 2) && (IsClose(t[i]) <==> i > n + 2) {
      if i >= n { assert t[i] == ([StopRequested, CmdLine(Line("STATE")), ListenerJoined, CommandClosed, DataClosed] + (if rig then [RigctldClosed] else []))[i - n]; }
    }
    if rig {
      assert t[0] == Tx(RigctldSend("T 0\n"));
    }
  }

  class Modem {
    /** `sock_rigctld` is a socket, not None. */
    const rig: bool
    var callsign: string
    var gridsquare: string
    var fecMode: string
    var fecRepeats: Value
    var state: TncState
    var history: seq<Option<string>>
    var trace: seq<Event>
    /** Bytes passed to the data socket's `sendall`, one entry per call. */
    var dataOut: seq<seq<byte>>
    var stopped: bool
    var listening: bool

    /** Construction: defaults, provisioning, then the listener starts. */
    constructor (rig: bool)
      ensures this.rig == rig && state == InitialState && history == [] && dataOut == []
      ensures callsign == "N0CALL" && gridsquare == "AA00AA" && fecMode == "4FSK.200.50S" && fecRepeats == Int(0)
      ensures trace == CmdLines(InitTncCommands(callsign, gridsquare, fecMode, fecRepeats))
      ensures listening && !stopped
    {
      this.rig := rig;
      callsign, gridsquare, fecMode, fecRepeats := "N0CALL", "AA00AA", "4FSK.200.50S", Int(0);
      state := InitialState;
      history, trace, dataOut := [], [], [];
      stopped, listening := false, false;
      new;
      InitTnc();
      listening := true;
    }

    /** `cmd_response(command, wait=False)` through `__send_cmd`: a non-empty command is sent, an empty one is not. */
    method CmdResponse(command: string)
      modifies this`trace
      ensures trace == old(trace) + (if command != "" then [CmdLine(Line(command))] else [])
    {
      if command != "" {
        trace := trace + [CmdLine(Line(command))];
      }
    }

    /** `init_tnc`: the ten provisioning commands, built from the station fields, in order. */
    method InitTnc()
      modifies this`trace
      ensures trace == old(trace) + CmdLines(InitTncCommands(callsign, gridsquare, fecMode, fecRepeats))
    {
      CmdResponseTen(InitTncCommands(callsign, gridsquare, fecMode, fecRepeats));
    }

    /** Ten `cmd_response` calls, one per command of `cmds`, in order. */
    method CmdResponseTen(cmds: seq<string>)
      requires |cmds| == 10 && forall k :: 0 <= k < |cmds| ==> cmds[k] != ""
      modifies this`trace
      ensures trace == old(trace) + CmdLines(cmds)
    {
      ghost var t0, p := trace, trace;
      assert cmds[..0] == [];
      p := trace; CmdResponse(cmds[0]); Extend(t0, p, trace, cmds, 0);
      p := trace; CmdResponse(cmds[1]); Extend(t0, p, trace, cmds, 1);
      p := trace; CmdResponse(cmds[2]); Extend(t0, p, trace, cmds, 2);
      p := trace; CmdResponse(cmds[3]); Extend(t0, p, trace, cmds, 3);
      p := trace; CmdResponse(cmds[4]); Extend(t0, p, trace, cmds, 4);
      p := trace; CmdResponse(cmds[5]); Extend(t0, p, trace, cmds, 5);
      p := trace; CmdResponse(cmds[6]); Extend(t0, p, trace, cmds, 6);
      p := trace; CmdResponse(cmds[7]); Extend(t0, p, trace, cmds, 7);
      p := trace; CmdResponse(cmds[8]); Extend(t0, p, trace, cmds, 8);
      p := trace; CmdResponse(cmds[9]); Extend(t0, p, trace, cmds, 9);
      assert cmds[..10] == cmds;
    }

    /** `key_transmitter`: only with rigctld connected, `T 1` to rigctld and then the plugins' key hook. */
    method KeyTransmitter()
      modifies this`trace
      ensures trace == old(trace) + Txs(KeyEffects(rig))
    {
      if rig {
        trace := trace + [Tx(RigctldSend("T 1\n")), Tx(KeyHook)];
      }
    }

    /** `unkey_transmitter`: only with rigctld connected, `T 0` to rigctld and then the plugins' unkey hook. */
    method UnkeyTransmitter()
      modifies this`trace
      ensures trace == old(trace) + Txs(UnkeyEffects(rig))
    {
      if rig {
        trace := trace + [Tx(RigctldSend("T 0\n")), Tx(UnkeyHook)];
      }
    }

    /** `send_text_to_buffer`: False and nothing sent when the frame is refused; otherwise one text frame and True. */
    method SendTextToBuffer(message: string) returns (sent: bool)
      modifies this`dataOut
      ensures sent == TextFrame(message, TextCap).Success?
      ensures dataOut == old(dataOut) + (if sent then [TextFrame(message, TextCap).value] else [])
    {
      var frame := TextFrame(message, TextCap);
      if frame.Failure? {
        return false;
      }
      dataOut := dataOut + [frame.value];
      return true;
    }

    /** `append_bytes_to_buffer`: one frame for the whole payload, or the OverflowError Python raises above 65532 bytes. */
    method AppendBytesToBuffer(data: seq<byte>) returns (err: Option<SendError>)
      modifies this`dataOut
      ensures err.None? <==> |data| <= 65532
      ensures dataOut == old(dataOut) + (if err.None? then [Frame(data)] else [])
    {
      var frame := SingleFrame(data);
      if frame.Failure? {
        return Some(frame.error);
      }
      dataOut := dataOut + [frame.value];
      return None;
    }

    /** `transmit_buffer`: `FECSEND TRUE`, twice. */
    method TransmitBuffer()
      modifies this`trace
      ensures trace == old(trace) + [CmdLine(Line("FECSEND TRUE")), CmdLine(Line("FECSEND TRUE"))]
    {
      CmdResponse("FECSEND TRUE");
      CmdResponse("FECSEND TRUE");
    }

    /** `clear_buffer`: `PURGEBUFFER`. */
    method ClearBuffer()
      modifies this`trace
      ensures trace == old(trace) + [CmdLine(Line("PURGEBUFFER"))]
    {
      CmdResponse("PURGEBUFFER");
    }

    /** One turn of `listen_for_command_responses`: append the reply, then one pass over the history. */
    method ListenOnce(reply: Option<string>)
      requires listening && !stopped
      modifies this`history, this`state, this`trace, this`listening
      ensures var res := Pass(RigctldAndPlugins(rig), old(state), old(history) + [reply], 0, []);
        state == res.st && history == res.history && trace == old(trace) + Txs(res.effects) && listening == !res.crashed
    {
      history := history + [reply];
      var res := RunPass(RigctldAndPlugins(rig), state, history, []);
      state, history := res.st, res.history;
      trace := trace + Txs(res.effects);
      if res.crashed {
        listening := false;
      }
    }

    /** `close_all`: the shutdown trace, after which the listener is gone. */
    method CloseAll()
      modifies this`trace, this`stopped, this`listening
      ensures trace == old(trace) + ShutdownTrace(rig)
      ensures stopped && !listening
    {
      UnkeyTransmitter();
      stopped := true;
      trace := trace + [StopRequested];
      CmdResponse("STATE");
      listening := false;
      trace := trace + [ListenerJoined, CommandClosed, DataClosed];
      if rig {
        trace := trace + [RigctldClosed];
      }
    }
  }

  /** A trace that held `t0` and the lines of the first `k` commands, after the line of the command at `k` was appended. */
  lemma Extend(t0: seq<Event>, prev: seq<Event>, now: seq<Event>, cmds: seq<string>, k: nat)
    requires k < |cmds|
    requires prev == t0 + CmdLines(cmds[..k])
    requires cmds[k] != "" && now == prev + (if cmds[k] != "" then [CmdLine(Line(cmds[k]))] else [])
    ensures now == t0 + CmdLines(cmds[..k + 1])
  {
    CmdLinesAppend(cmds[..k], [cmds[k]]);
    assert cmds[..k] + [cmds[k]] == cmds[..k + 1];
  }
}
