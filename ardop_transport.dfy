/**
 * The ARDOP transport plugin: the object that owns the command and data
 * connections to the ARDOP TNC. Socket traffic is modelled as logs of the
 * bytes handed to `sendall`, one entry per call; replies and received
 * chunks are parameters.
 */
module ArdopTransport {
  import opened Wrappers
  import opened Seqs
  import opened Utf8
  import opened Framing
  import opened Commands

  /** The largest text frame this plugin accepts, in bytes of `'FEC' + message`. */
  const TextCap: nat := 1000

  class Transport {
    /** `ready.get() == "Ready"` */
    var ready: bool
    var state: TncState
    var host: string
    var port: int
    /** The listener's reply list. */
    var history: seq<Option<string>>
    /** Bytes passed to the data socket's `sendall`, one entry per call. */
    var dataOut: seq<seq<byte>>
    /** Lines sent on the command socket, one entry per `sendall` (each sent as its UTF-8 bytes, `CmdBytes`). */
    var cmdOut: seq<string>
    /** Plugin-manager calls made by the listener. */
    var effects: seq<Effect>
    /** The listener thread is alive. */
    var listening: bool
    var stopped: bool
    var closed: bool

    /** The provisioning commands for the current state record. */
    function Provisioning(): (r: seq<string>)
      reads this
      ensures |r| == 10
    {
      InitTncCommands(state.mycall, state.gridsquare, state.fecMode, state.fecRepeats)
    }

    /** Construction: default state, connect (which provisions the TNC), start the listener. */
    constructor (host: string, port: int)
      ensures this.host == host && this.port == port
      ensures state == InitialState && history == [] && dataOut == [] && effects == []
      ensures ready && listening && !stopped && !closed
      ensures cmdOut == CmdStream(Provisioning())
    {
      this.host, this.port := host, port;
      state := InitialState;
      history, dataOut, cmdOut, effects := [], [], [], [];
      ready, stopped, closed := false, false, false;
      listening := false;
      new;
      Connect();
      listening := true;
    }

    /** `__send_cmd`: the command and one carriage return, only when ready. */
    method SendCmd(command: string)
      modifies this`cmdOut
      ensures cmdOut == old(cmdOut) + (if ready then [Line(command)] else [])
    {
      if !ready {
        return;
      }
      cmdOut := cmdOut + [Line(command)];
    }

    /** `cmd_response(command, wait=False)`: nothing happens unless ready, and an empty command is not sent. */
    method CmdResponse(command: string)
      modifies this`cmdOut
      ensures cmdOut == old(cmdOut) + (if ready && command != "" then [Line(command)] else [])
    {
      if !ready {
        return;
      }
      if command != "" {
        SendCmd(command);
      }
    }

    /** `cmd_response(wait=True)`: the reply read from the TNC, or None when not ready. */
    method AwaitReply(reply: Option<string>) returns (r: Option<string>)
      ensures r == if ready then reply else None
    {
      if !ready {
        return None;
      }
      return reply;
    }

    /** `init_tnc`: the ten provisioning commands in order, each sent only when ready. */
    method InitTnc()
      modifies this`cmdOut
      ensures cmdOut == old(cmdOut) + (if ready then CmdStream(Provisioning()) else [])
    {
      CmdResponseTen(Provisioning());
    }

    /** Ten `cmd_response` calls, one per command of `cmds`, in order. */
    method CmdResponseTen(cmds: seq<string>)
      requires |cmds| == 10 && forall k :: 0 <= k < |cmds| ==> cmds[k] != ""
      modifies this`cmdOut
      ensures cmdOut == old(cmdOut) + (if ready then CmdStream(cmds) else [])
    {
      ghost var c0, p := cmdOut, cmdOut;
      assert cmds[..0] == [];
      p := cmdOut; CmdResponse(cmds[0]); Extend(c0, p, cmdOut, ready, cmds, 0);
      p := cmdOut; CmdResponse(cmds[1]); Extend(c0, p, cmdOut, ready, cmds, 1);
      p := cmdOut; CmdResponse(cmds[2]); Extend(c0, p, cmdOut, ready, cmds, 2);
      p := cmdOut; CmdResponse(cmds[3]); Extend(c0, p, cmdOut, ready, cmds, 3);
      p := cmdOut; CmdResponse(cmds[4]); Extend(c0, p, cmdOut, ready, cmds, 4);
      p := cmdOut; CmdResponse(cmds[5]); Extend(c0, p, cmdOut, ready, cmds, 5);
      p := cmdOut; CmdResponse(cmds[6]); Extend(c0, p, cmdOut, ready, cmds, 6);
      p := cmdOut; CmdResponse(cmds[7]); Extend(c0, p, cmdOut, ready, cmds, 7);
      p := cmdOut; CmdResponse(cmds[8]); Extend(c0, p, cmdOut, ready, cmds, 8);
      p := cmdOut; CmdResponse(cmds[9]); Extend(c0, p, cmdOut, ready, cmds, 9);
      assert cmds[..10] == cmds;
    }

    /**
     * `connect_to_ardopcf` as written, for the attempt that succeeds:
     * provisioning runs before the plugin is marked ready, so every
     * provisioning command is dropped unless it was ready already.
     */
    method ConnectAsWritten()
      modifies this`ready, this`cmdOut
      ensures ready
      ensures cmdOut == old(cmdOut) + (if old(ready) then CmdStream(Provisioning()) else [])
      ensures !old(ready) ==> cmdOut == old(cmdOut)
    {
      InitTnc();
      ready := true;
    }

    /** The successful connection with the plugin marked ready first, so the TNC is provisioned. */
    method Connect()
      modifies this`ready, this`cmdOut
      ensures ready
      ensures cmdOut == old(cmdOut) + CmdStream(Provisioning())
    {
      ready := true;
      InitTnc();
    }

    /**
     * `on_settings_update`: copy the settings into the state record; reconnect
     * when host or port changed; then, if ready, send the four settings commands.
     */
    method OnSettingsUpdate(call: string, grid: string, mode: string, repeats: int, newHost: string, newPort: int)
      modifies this`state, this`host, this`port, this`ready, this`cmdOut
      ensures state == old(state).(mycall := call, gridsquare := grid, fecMode := mode, fecRepeats := Int(repeats))
      ensures host == newHost && port == newPort
      ensures ready == (old(host) != newHost || old(port) != newPort || old(ready))
      ensures cmdOut == old(cmdOut)
        + (if old(host) != newHost || old(port) != newPort then CmdStream(Provisioning()) else [])
        + (if ready then CmdStream(SettingsCommands(call, grid, mode, Int(repeats))) else [])
    {
      state := state.(mycall := call, gridsquare := grid, fecMode := mode, fecRepeats := Int(repeats));
      if host != newHost || port != newPort {
        host, port := newHost, newPort;
        ready := false;
        Connect();
      }
      SendSettings();
    }

    /** The tail of `on_settings_update`: when ready, the four settings commands for the current state record. */
    method SendSettings()
      modifies this`cmdOut
      ensures cmdOut == old(cmdOut)
        + (if ready then CmdStream(SettingsCommands(state.mycall, state.gridsquare, state.fecMode, state.fecRepeats)) else [])
    {
      if !ready {
        return;
      }
      CmdResponseFour(SettingsCommands(state.mycall, state.gridsquare, state.fecMode, state.fecRepeats));
    }

    /** Four `cmd_response` calls, one per command of `cmds`, in order. */
    method CmdResponseFour(cmds: seq<string>)
      requires |cmds| == 4 && forall k :: 0 <= k < |cmds| ==> cmds[k] != ""
      modifies this`cmdOut
      ensures cmdOut == old(cmdOut) + (if ready then CmdStream(cmds) else [])
    {
      ghost var c0, p := cmdOut, cmdOut;
      assert cmds[..0] == [];
      p := cmdOut; CmdResponse(cmds[0]); Extend(c0, p, cmdOut, ready, cmds, 0);
      p := cmdOut; CmdResponse(cmds[1]); Extend(c0, p, cmdOut, ready, cmds, 1);
      p := cmdOut; CmdResponse(cmds[2]); Extend(c0, p, cmdOut, ready, cmds, 2);
      p := cmdOut; CmdResponse(cmds[3]); Extend(c0, p, cmdOut, ready, cmds, 3);
      assert cmds[..4] == cmds;
    }

    /**
     * `send_text_to_buffer`: None when not ready; False when the frame is
     * refused; otherwise one text frame is sent and the result is True.
     */
    method SendTextToBuffer(message: string) returns (r: Option<bool>)
      modifies this`dataOut
      ensures !ready ==> r == None && dataOut == old(dataOut)
      ensures ready ==> r == Some(TextFrame(message, TextCap).Success?)
      ensures ready && TextFrame(message, TextCap).Success? ==> dataOut == old(dataOut) + [TextFrame(message, TextCap).value]
      ensures TextFrame(message, TextCap).Failure? ==> dataOut == old(dataOut)
    {
      if !ready {
        return None;
      }
      var frame := TextFrame(message, TextCap);
      if frame.Failure? {
        return Some(false);
      }
      dataOut := dataOut + [frame.value];
      return Some(true);
    }

    /** `append_bytes_to_buffer`: when ready, one frame per 1000-byte chunk, in order; nothing otherwise. */
    method AppendBytesToBuffer(data: seq<byte>)
      modifies this`dataOut
      ensures dataOut == old(dataOut) + (if ready then Frames(data) else [])
    {
      if !ready {
        return;
      }
      var i := 0;
      while i < |data|
        invariant dataOut + Frames(Drop(data, i)) == old(dataOut) + Frames(data)
        decreases |data| - i
      {
        var rest := Drop(data, i);
        var chunk := if |rest| <= ChunkSize then rest else rest[..ChunkSize];
        dataOut := dataOut + [Frame(chunk)];
        FramesStep(data, i);
        i := i + ChunkSize;
      }
      assert Drop(data, i) == [];
    }

    /** `on_transmit_buffer`: `FECSEND TRUE`, twice. */
    method OnTransmitBuffer()
      modifies this`cmdOut
      ensures cmdOut == old(cmdOut) + (if ready then [Line("FECSEND TRUE"), Line("FECSEND TRUE")] else [])
    {
      CmdResponse("FECSEND TRUE");
      CmdResponse("FECSEND TRUE");
    }

    /** `on_clear_buffer`: `PURGEBUFFER`. */
    method OnClearBuffer()
      modifies this`cmdOut
      ensures cmdOut == old(cmdOut) + (if ready then [Line("PURGEBUFFER")] else [])
    {
      CmdResponse("PURGEBUFFER");
    }

    /** `on_transport_state_update`: poll the TNC with `STATE` and then `BUFFER`; both are dropped unless ready. */
    method OnTransportStateUpdate()
      modifies this`cmdOut
      ensures cmdOut == old(cmdOut) + (if ready then [Line("STATE"), Line("BUFFER")] else [])
    {
      CmdResponse("STATE");
      CmdResponse("BUFFER");
    }

    /**
     * `on_get_data` over the chunks read before the inactivity timeout or the
     * stop signal: the payload assembled up to the first terminated body.
     */
    method GetData(received: seq<seq<byte>>) returns (payload: seq<byte>)
      ensures payload == Reassemble(received)
    {
      payload := [];
      var k := 0;
      while k < |received|
        invariant k <= |received|
        invariant payload + Reassemble(received[k..]) == Reassemble(received)
        decreases |received| - k
      {
        var body := ChunkBody(received[k]);
        assert received[k..][0] == received[k] && received[k..][1..] == received[k + 1..];
        if body.None? {
          k := k + 1;
          continue;
        }
        payload := payload + body.value;
        if IsLast(body.value) {
          return;
        }
        k := k + 1;
      }
    }

    /**
     * One turn of `listen_for_command_responses`: reconnect if needed, append
     * the reply to the history, then one pass over the history.
     */
    method ListenOnce(reply: Option<string>)
      requires listening
      modifies this`ready, this`cmdOut, this`history, this`state, this`effects, this`listening
      ensures ready
      ensures cmdOut == old(cmdOut) + (if old(ready) then [] else CmdStream(InitTncCommands(old(state).mycall, old(state).gridsquare, old(state).fecMode, old(state).fecRepeats)))
      ensures var res := Pass(PluginHooks, old(state), old(history) + [reply], 0, old(effects));
        state == res.st && history == res.history && effects == res.effects && listening == !res.crashed
    {
      if !ready {
        Connect();
      }
      var response := AwaitReply(reply);
      history := history + [response];
      var res := RunPass(PluginHooks, state, history, effects);
      state, history, effects := res.st, res.history, res.effects;
      if res.crashed {
        listening := false;
      }
    }

    /** `on_shutdown`: raise the stop flag, nudge the TNC with `STATE`, then close both sockets. */
    method OnShutdown()
      modifies this`stopped, this`cmdOut, this`closed, this`listening
      ensures stopped && !listening && closed
      ensures cmdOut == old(cmdOut) + (if ready then [Line("STATE")] else [])
    {
      stopped := true;
      CmdResponse("STATE");
      listening := false;
      closed := true;
    }
  }

  /** A log that held `c0` and the first `k` commands, after the command at `k` went through a ready guard. */
  lemma Extend(c0: seq<string>, prev: seq<string>, now: seq<string>, ready: bool, cmds: seq<string>, k: nat)
    requires k < |cmds|
    requires prev == c0 + (if ready then CmdStream(cmds[..k]) else [])
    requires cmds[k] != "" && now == prev + (if ready && cmds[k] != "" then [Line(cmds[k])] else [])
    ensures now == c0 + (if ready then CmdStream(cmds[..k + 1]) else [])
  {
    CmdStreamAppend(cmds[..k], [cmds[k]]);
    assert cmds[..k] + [cmds[k]] == cmds[..k + 1];
  }

  /** One step of the chunking loop: the frame of the chunk at offset `i`, then the frames of what follows it. */
  lemma FramesStep(data: seq<byte>, i: nat)
    requires i < |data|
    ensures var rest := Drop(data, i);
      var chunk := if |rest| <= ChunkSize then rest else rest[..ChunkSize];
      |chunk| <= ChunkSize && Frames(rest) == [Frame(chunk)] + Frames(Drop(data, i + ChunkSize))
  {
    var rest := Drop(data, i);
    assert rest == data[i..];
    if |rest| > ChunkSize {
      assert rest[ChunkSize..] == Drop(data, i + ChunkSize);
    } else {
      assert Drop(data, i + ChunkSize) == [];
    }
  }
}
