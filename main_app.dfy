/**
 * The chat client: its modem object (command socket, data socket, optional
 * rigctld socket, command listener) and the parts of its window that are not
 * drawing: the bounded message history and the settings it pushes to the TNC.
 */
module ChatApp {
  import opened Wrappers
  import opened Seqs
  import opened Utf8
  import opened Framing
  import opened Commands

  /** The largest text frame the client accepts, in bytes of `'FEC' + message`. */
  const TextCap: nat := 2000
  /** The most messages the history keeps. */
  const HistoryCap: nat := 500

  // ---------------------------------------------------------------------------
  // Raw payloads

  /** Why `append_bytes_to_buffer` raises: the payload is not UTF-8, or its length does not fit two bytes. */
  datatype AppendError = NotUtf8 | TooLarge

  /**
   * `append_bytes_to_buffer` as written: the payload is decoded and the
   * length field counts the characters of `'FEC' + text`, while the UTF-8
   * bytes are what is sent.
   */
  function AppendFrameAsWritten(data: seq<byte>): (r: Result<seq<byte>, AppendError>)
    ensures r == Failure(NotUtf8) <==> Decode(data).None?
    ensures r == Failure(TooLarge) <==> Decode(data).Some? && |Decode(data).value| + 3 >= 65536
    ensures r.Success? ==> |r.value| == |data| + 5 && FromBigEndian(r.value[..2]) == |Decode(data).value| + 3
    ensures r.Success? ==> r.value == BigEndian2(|Decode(data).value| + 3) + Fec + data
  {
    match Decode(data)
    case None => Failure(NotUtf8)
    case Some(text) =>
      var n := |"FEC" + text|;
      if n >= 65536 then Failure(TooLarge)
      else
        EncodeDecode(data);
        TaggedText(text);
        var r := BigEndian2(n) + Encode("FEC" + text);
        assert r[..2] == BigEndian2(n);
        Success(r)
  }

  /** A two-byte UTF-8 payload is declared one byte shorter than it is. */
  lemma AppendUndercountExample()
    ensures AppendFrameAsWritten([0xC3, 0xA9]).Success?
    ensures var f := AppendFrameAsWritten([0xC3, 0xA9]).value; FromBigEndian(f[..2]) == 4 && |f| - 2 == 5
  {
    assert EncodeChar('\U{e9}') == [0xC3, 0xA9];
    assert Encode("\U{e9}") == [0xC3, 0xA9];
    DecodeEncode("\U{e9}");
  }

  /** `append_bytes_to_buffer` with the length counted in bytes: the data frame of the payload, which must still be UTF-8. */
  function AppendFrame(data: seq<byte>): (r: Result<seq<byte>, AppendError>)
    ensures r == Failure(NotUtf8) <==> Decode(data).None?
    ensures r == Failure(TooLarge) <==> Decode(data).Some? && |data| > 65532
    ensures r.Success? ==> |r.value| >= 2 && FromBigEndian(r.value[..2]) == |r.value| - 2
  {
    if Decode(data).None? then Failure(NotUtf8)
    else if |data| > 65532 then Failure(TooLarge)
    else
      FrameLayout(data);
      Success(Frame(data))
  }

  /** The corrected frame is the data frame of the payload, and agrees with the frame written before whenever the payload is ASCII. */
  lemma AppendFrameIsFrame(data: seq<byte>)
    requires AppendFrame(data).Success?
    ensures |data| + 3 < 65536 && AppendFrame(data).value == Frame(data)
    ensures IsAscii(Decode(data).value) ==> AppendFrameAsWritten(data) == AppendFrame(data)
  {
    var text := Decode(data).value;
    if IsAscii(text) {
      AsciiLength(data);
    }
  }

  /** ASCII text decoded from `data` has one character per byte. */
  lemma AsciiLength(data: seq<byte>)
    requires Decode(data).Some? && IsAscii(Decode(data).value)
    ensures |Decode(data).value| == |data|
  {
    EncodeDecode(data);
    EncodeAscii(Decode(data).value);
  }

  // ---------------------------------------------------------------------------
  // Receiving

  /** What one call to `recieve_from_data_buffer` comes to. */
  datatype Outcome =
    | Nothing                 // nothing readable, or OSError
    | Message(text: string)
    | Unbound                 // UnboundLocalError: `response` was never assigned
    | BadBase64               // binascii.Error from the base64 decoder

  const FileTag: string := "FileXFR:"

  /**
   * `recieve_from_data_buffer` as written: drop two bytes, then six, and
   * decode. A `FileXFR:` text is replaced by its decoded remainder, unless
   * that is not UTF-8. A body that is not UTF-8 reaches `return(response)`
   * with `response` never assigned. `b64decode` is `base64.b64decode`, None
   * when it raises.
   */
  function ReceiveAsWritten(raw: Option<seq<byte>>, b64decode: string -> Option<seq<byte>>): (r: Outcome)
    ensures raw.None? <==> r == Nothing
    ensures r == Unbound <==> raw.Some? && Decode(Drop(raw.value, 8)).None?
    ensures r.Message? ==> Decode(Drop(raw.value, 8)).Some?
  {
    match raw
    case None => Nothing
    case Some(b) =>
      var body := Drop(Drop(b, 2), 6);
      assert body == Drop(b, 8);
      match Decode(body)
      case None => Unbound
      case Some(text) => FileText(text, b64decode)
  }

  /** The `FileXFR:` replacement applied to decoded text. */
  function FileText(text: string, b64decode: string -> Option<seq<byte>>): (r: Outcome)
    ensures r.Message? || r == BadBase64
    ensures !StartsWith(text, FileTag) ==> r == Message(text)
    ensures StartsWith(text, FileTag) ==> (r == BadBase64 <==> b64decode(text[8..]).None?)
    ensures StartsWith(text, FileTag) && b64decode(text[8..]).Some? ==>
      var d := Decode(b64decode(text[8..]).value);
      r == Message(if d.Some? then d.value else text)
  {
    if StartsWith(text, FileTag) then
      match b64decode(text[8..])
      case None => BadBase64
      case Some(file) =>
        match Decode(file)
        case None => Message(text)
        case Some(t) => Message(t)
    else Message(text)
  }

  /** An undecodable body makes the receiver raise instead of returning. */
  lemma InvalidBodyRaises(b64decode: string -> Option<seq<byte>>)
    ensures ReceiveAsWritten(Some([0x00, 0x04, 0x46, 0x45, 0x43, 0x46, 0x45, 0x43, 0xFF]), b64decode) == Unbound
  {
    var raw: seq<byte> := [0x00, 0x04, 0x46, 0x45, 0x43, 0x46, 0x45, 0x43, 0xFF];
    assert Drop(raw, 8) == [0xFF];
    assert DecodeFirst([0xFF]).None?;
  }

  /**
   * `recieve_from_data_buffer` with the invalid packet dropped: a body that
   * is not UTF-8 yields nothing.
   */
  function Receive(raw: Option<seq<byte>>, b64decode: string -> Option<seq<byte>>): (r: Outcome)
    ensures r != Unbound
    ensures r == Nothing <==> raw.None? || Decode(Drop(raw.value, 8)).None?
  {
    match raw
    case None => Nothing
    case Some(b) =>
      var body := Drop(Drop(b, 2), 6);
      assert body == Drop(b, 8);
      match Decode(body)
      case None => Nothing
      case Some(text) => FileText(text, b64decode)
  }

  /** The corrected receiver differs from the one written only where that one raised. */
  lemma ReceiveAgrees(raw: Option<seq<byte>>, b64decode: string -> Option<seq<byte>>)
    ensures ReceiveAsWritten(raw, b64decode) != Unbound ==> Receive(raw, b64decode) == ReceiveAsWritten(raw, b64decode)
    ensures ReceiveAsWritten(raw, b64decode) == Unbound ==> Receive(raw, b64decode) == Nothing
  {
  }

  /** A plain text frame delivered with the doubled tag is read back as its message. */
  lemma ReceiveTextFrame(message: string, b64decode: string -> Option<seq<byte>>)
    requires TextFrame(message, TextCap).Success?
    requires !StartsWith(message, FileTag)
    ensures Receive(Some(DoubledTag(TextFrame(message, TextCap).value)), b64decode) == Message(message)
  {
    DoubledTextBody(message);
    DecodeEncode(message);
  }

  /**
   * A file sent by `load_file_to_buffer` as `FileXFR:` and its base64 text,
   * delivered with the doubled tag, is read back as the file's text when
   * the file is UTF-8.
   */
  lemma ReceiveFileFrame(encoded: string, file: seq<byte>, b64decode: string -> Option<seq<byte>>)
    requires TextFrame(FileTag + encoded, TextCap).Success?
    requires b64decode(encoded) == Some(file) && Decode(file).Some?
    ensures Receive(Some(DoubledTag(TextFrame(FileTag + encoded, TextCap).value)), b64decode) == Message(Decode(file).value)
  {
    DoubledTextBody(FileTag + encoded);
    DecodeEncode(FileTag + encoded);
    assert (FileTag + encoded)[8..] == encoded;
  }

  /** Past its first eight bytes, a text frame delivered with the doubled tag holds the UTF-8 message. */
  lemma DoubledTextBody(message: string)
    requires TextFrame(message, TextCap).Success?
    ensures Drop(DoubledTag(TextFrame(message, TextCap).value), 8) == Encode(message)
  {
    TextFrameIsFrame(message, TextCap);
    DoubledFrameBody(Encode(message));
  }

  lemma DoubledFrameBody(data: seq<byte>)
    requires |data| + 3 < 65536
    ensures Drop(DoubledTag(Frame(data)), 8) == data
  {
    FrameLayout(data);
    var d := DoubledTag(Frame(data));
    assert d == Frame(data)[..2] + FecFec + data;
  }

  // ---------------------------------------------------------------------------
  // Message history

  /** `write_message` on the history: append, then drop the oldest entry once there are more than 500. */
  function CappedAppend<T>(h: seq<T>, m: T): (r: seq<T>)
    ensures |r| == if |h| < HistoryCap then |h| + 1 else |h|
    ensures r == (h + [m])[|h| + 1 - |r|..]
  {
    var g := h + [m];
    if |g| > HistoryCap then g[1..] else g
  }

  /** The history after writing `msgs`, one at a time, starting from `h`. */
  function History<T>(h: seq<T>, msgs: seq<T>): seq<T>
    decreases |msgs|
  {
    if msgs == [] then h else History(CappedAppend(h, msgs[0]), msgs[1..])
  }

  /** The newest entries of `s`, at most 500 of them: the history a capped list should hold. */
  function Newest<T>(s: seq<T>): (r: seq<T>)
    ensures |r| == if |s| <= HistoryCap then |s| else HistoryCap
    ensures r == s[|s| - |r|..]
  {
    if |s| <= HistoryCap then s else s[|s| - HistoryCap..]
  }

  /** Starting from a history within the cap, the cap is kept and the newest messages are kept, in order. */
  lemma HistoryKeepsNewest<T>(h: seq<T>, msgs: seq<T>)
    requires |h| <= HistoryCap
    ensures |History(h, msgs)| == if |h| + |msgs| <= HistoryCap then |h| + |msgs| else HistoryCap
    ensures History(h, msgs) == (h + msgs)[|h| + |msgs| - |History(h, msgs)|..]
  {
    HistoryIsNewest(h, msgs);
  }

  /** Writing messages one at a time into a capped history leaves the newest entries of the whole sequence. */
  lemma {:induction false} HistoryIsNewest<T>(h: seq<T>, msgs: seq<T>)
    requires |h| <= HistoryCap
    ensures History(h, msgs) == Newest(h + msgs)
    decreases |msgs|
  {
    if msgs != [] {
      var h' := CappedAppend(h, msgs[0]);
      HistoryIsNewest(h', msgs[1..]);
      CappedThenRest(h, msgs);
      if |h| == HistoryCap {
        NewestDropsFirst(h + msgs);
      }
    } else {
      assert h + msgs == h;
    }
  }

  /** Dropping the first entry of a sequence longer than the cap keeps the same newest entries. */
  lemma NewestDropsFirst<T>(s: seq<T>)
    requires |s| > HistoryCap
    ensures Newest(s[1..]) == Newest(s)
  {
    assert s[1..][|s| - 1 - HistoryCap..] == s[|s| - HistoryCap..];
  }

  /** A capped append followed by the remaining messages is the whole sequence, less its first entry when the cap was reached. */
  lemma {:induction false} CappedThenRest<T>(h: seq<T>, msgs: seq<T>)
    requires |h| <= HistoryCap && msgs != []
    ensures |h| < HistoryCap ==> CappedAppend(h, msgs[0]) + msgs[1..] == h + msgs
    ensures |h| == HistoryCap ==> |CappedAppend(h, msgs[0])| == HistoryCap && CappedAppend(h, msgs[0]) + msgs[1..] == (h + msgs)[1..]
  {
    var m, rest := msgs[0], msgs[1..];
    assert msgs == [m] + rest;
    if |h| < HistoryCap {
      assert CappedAppend(h, m) == h + [m];
    } else {
      assert CappedAppend(h, m) == (h + [m])[1..];
    }
  }

  // ---------------------------------------------------------------------------
  // The modem object

  /** What keying does in the chat client: `T 1` to rigctld, when connected. */
  function KeyEffects(rig: bool): seq<Effect> {
    if rig then [RigctldSend("T 1\n")] else []
  }

  function UnkeyEffects(rig: bool): seq<Effect> {
    if rig then [RigctldSend("T 0\n")] else []
  }

  /** The listener keys and unkeys rigctld exactly as the transmitter methods do. */
  lemma ListenerKeysLikeTransmitter(rig: bool, e: string)
    ensures Effects(RigctldDirect(rig), Key, e) == KeyEffects(rig)
    ensures Effects(RigctldDirect(rig), Unkey, e) == UnkeyEffects(rig)
  {
  }

  class Modem {
    /** `sock_rigctld` is a socket, not None. */
    const rig: bool
    var callsign: string
    var gridsquare: string
    var fecMode: string
    var fecRepeats: Value
    var state: TncState
    var history: seq<Option<string>>
    /** Lines passed to the command socket's `sendall`, in order. */
    var cmdOut: seq<string>
    /** Bytes passed to the data socket's `sendall`, one entry per call. */
    var dataOut: seq<seq<byte>>
    /** Commands sent to rigctld, in order. */
    var rigOut: seq<Effect>
    var kill: bool
    var closed: bool

    /** Construction: defaults, provisioning, then the listener starts. */
    constructor (rig: bool)
      ensures this.rig == rig && state == InitialState && history == [] && dataOut == [] && rigOut == []
      ensures callsign == "N0CALL" && gridsquare == "AA00AA" && fecMode == "4FSK.200.50S" && fecRepeats == Int(0)
      ensures cmdOut == CmdStream(InitTncCommands(callsign, gridsquare, fecMode, fecRepeats))
      ensures !kill && !closed
    {
      this.rig := rig;
      callsign, gridsquare, fecMode, fecRepeats := "N0CALL", "AA00AA", "4FSK.200.50S", Int(0);
      state := InitialState;
      history, cmdOut, dataOut, rigOut := [], [], [], [];
      kill, closed := false, false;
      new;
      InitTnc();
    }

    /** `cmd`: the command and one carriage return. */
    method Cmd(command: string)
      modifies this`cmdOut
      ensures cmdOut == old(cmdOut) + [Line(command)]
    {
      cmdOut := cmdOut + [Line(command)];
    }

    /** `cmd_response(command, wait=False)`: sends a non-empty command and returns at once; an empty one is not sent. */
    method CmdResponse(command: string)
      modifies this`cmdOut
      ensures cmdOut == old(cmdOut) + (if command != "" then [Line(command)] else [])
    {
      if command != "" {
        Cmd(command);
      }
    }

    /** `init_tnc`: the ten provisioning commands, built from the station fields, in order. */
    method InitTnc()
      modifies this`cmdOut
      ensures cmdOut == old(cmdOut) + CmdStream(InitTncCommands(callsign, gridsquare, fecMode, fecRepeats))
    {
      CmdResponseTen(InitTncCommands(callsign, gridsquare, fecMode, fecRepeats));
    }

    /** Ten `cmd_response` calls, one per command of `cmds`, in order. */
    method CmdResponseTen(cmds: seq<string>)
      requires |cmds| == 10 && forall k :: 0 <= k < |cmds| ==> cmds[k] != ""
      modifies this`cmdOut
      ensures cmdOut == old(cmdOut) + CmdStream(cmds)
    {
      ghost var c0, p := cmdOut, cmdOut;
      assert cmds[..0] == [];
      p := cmdOut; CmdResponse(cmds[0]); Extend(c0, p, cmdOut, cmds, 0);
      p := cmdOut; CmdResponse(cmds[1]); Extend(c0, p, cmdOut, cmds, 1);
      p := cmdOut; CmdResponse(cmds[2]); Extend(c0, p, cmdOut, cmds, 2);
      p := cmdOut; CmdResponse(cmds[3]); Extend(c0, p, cmdOut, cmds, 3);
      p := cmdOut; CmdResponse(cmds[4]); Extend(c0, p, cmdOut, cmds, 4);
      p := cmdOut; CmdResponse(cmds[5]); Extend(c0, p, cmdOut, cmds, 5);
      p := cmdOut; CmdResponse(cmds[6]); Extend(c0, p, cmdOut, cmds, 6);
      p := cmdOut; CmdResponse(cmds[7]); Extend(c0, p, cmdOut, cmds, 7);
      p := cmdOut; CmdResponse(cmds[8]); Extend(c0, p, cmdOut, cmds, 8);
      p := cmdOut; CmdResponse(cmds[9]); Extend(c0, p, cmdOut, cmds, 9);
      assert cmds[..10] == cmds;
    }

    /** `key_transmitter`: `T 1` to rigctld, only when connected. */
    method KeyTransmitter()
      modifies this`rigOut
      ensures rigOut == old(rigOut) + KeyEffects(rig)
    {
      if rig {
        rigOut := rigOut + [RigctldSend("T 1\n")];
      }
    }

    /** `unkey_transmitter`: `T 0` to rigctld, only when connected. */
    method UnkeyTransmitter()
      modifies this`rigOut
      ensures rigOut == old(rigOut) + UnkeyEffects(rig)
    {
      if rig {
        rigOut := rigOut + [RigctldSend("T 0\n")];
      }
    }

    /** `send_text_to_buffer`: False and nothing sent when the frame is refused; otherwise one text frame and True. */
    method SendTextToBuffer(message: string) returns (sent: bool)
      modifies this`dataOut
      ensures sent == TextFrame(message, TextCap).Success?
      ensures dataOut == old(dataOut) + (if sent then [TextFrame(message, TextCap).value] else [])
    {
      var frame := TextFrame(message, TextCap);
      if frame.Failure? {
        return false;
      }
      dataOut := dataOut + [frame.value];
      return true;
    }

    /** `append_bytes_to_buffer`: one frame for the whole payload, or the error Python raises. */
    method AppendBytesToBuffer(data: seq<byte>) returns (err: Option<AppendError>)
      modifies this`dataOut
      ensures err.None? <==> AppendFrame(data).Success?
      ensures err.None? ==> dataOut == old(dataOut) + [Frame(data)]
      ensures err.Some? ==> dataOut == old(dataOut) && err.value == AppendFrame(data).error
    {
      var frame := AppendFrame(data);
      if frame.Failure? {
        return Some(frame.error);
      }
      AppendFrameIsFrame(data);
      dataOut := dataOut + [frame.value];
      return None;
    }

    /** `load_file_to_buffer`: the base64 text of the file (computed outside), tagged `FileXFR:`, as a text frame. */
    method LoadFileToBuffer(encoded: string) returns (sent: bool)
      modifies this`dataOut
      ensures sent == TextFrame(FileTag + encoded, TextCap).Success?
      ensures dataOut == old(dataOut) + (if sent then [TextFrame(FileTag + encoded, TextCap).value] else [])
    {
      sent := SendTextToBuffer(FileTag + encoded);
    }

    /** `transmit_buffer`: `FECSEND TRUE`, once. */
    method TransmitBuffer()
      modifies this`cmdOut
      ensures cmdOut == old(cmdOut) + [Line("FECSEND TRUE")]
    {
      CmdResponse("FECSEND TRUE");
    }

    /** `clear_buffer`: `PURGEBUFFER`. */
    method ClearBuffer()
      modifies this`cmdOut
      ensures cmdOut == old(cmdOut) + [Line("PURGEBUFFER")]
    {
      Cmd("PURGEBUFFER");
    }

    /** One turn of `listen_for_command_responses`: append the reply, then one pass over the history. */
    method ListenOnce(reply: Option<string>) returns (crashed: bool)
      requires !kill
      modifies this`history, this`state, this`rigOut
      ensures var res := Pass(RigctldDirect(rig), old(state), old(history) + [reply], 0, []);
        state == res.st && history == res.history && rigOut == old(rigOut) + res.effects && crashed == res.crashed
    {
      history := history + [reply];
      var res := RunPass(RigctldDirect(rig), state, history, []);
      state, history := res.st, res.history;
      rigOut := rigOut + res.effects;
      crashed := res.crashed;
    }

    /** `close_all`: stop the listener, unkey, close the sockets. */
    method CloseAll()
      modifies this`kill, this`rigOut, this`closed
      ensures kill && closed
      ensures rigOut == old(rigOut) + UnkeyEffects(rig)
    {
      kill := true;
      UnkeyTransmitter();
      closed := true;
    }
  }

  // ---------------------------------------------------------------------------
  // The window

  class Window {
    const modem: Modem
    var callsign: string
    var gridsquare: string
    var fecMode: string
    var fecRepeats: Value
    var useHistory: bool
    var messageHistory: seq<string>

    /** The window's defaults; the modem is created and provisioned with its own defaults, then polled once. */
    constructor (rig: bool)
      ensures fresh(modem) && modem.rig == rig
      ensures callsign == "N0CALL" && gridsquare == "AA00AA" && fecMode == "4FSK.200.50S" && fecRepeats == Int(1)
      ensures useHistory && messageHistory == []
      ensures modem.callsign == "N0CALL" && modem.gridsquare == "AA00AA" && modem.fecMode == "4FSK.200.50S" && modem.fecRepeats == Int(0)
      ensures modem.cmdOut == CmdStream(InitTncCommands(modem.callsign, modem.gridsquare, modem.fecMode, modem.fecRepeats)) + [Line("STATE"), Line("BUFFER")]
    {
      modem := new Modem(rig);
      callsign, gridsquare, fecMode, fecRepeats := "N0CALL", "AA00AA", "4FSK.200.50S", Int(1);
      useHistory := true;
      messageHistory := [];
      new;
      PollState();
    }

    /** `update_ui_ardop_state`, one firing: ask the TNC for its state, then for its buffer. */
    method PollState()
      modifies modem`cmdOut
      ensures modem.cmdOut == old(modem.cmdOut) + [Line("STATE"), Line("BUFFER")]
    {
      modem.CmdResponse("STATE");
      modem.CmdResponse("BUFFER");
    }

    /** `write_message`, for the history: with history on, the message is appended within the cap. */
    method WriteMessage(message: string)
      modifies this`messageHistory
      ensures messageHistory == if useHistory then CappedAppend(old(messageHistory), message) else old(messageHistory)
    {
      if useHistory {
        messageHistory := messageHistory + [message];
        if |messageHistory| > HistoryCap {
          messageHistory := messageHistory[1..];
        }
      }
    }

    /** `apply_settings`: copy the four settings to the modem, then send them in order. */
    method ApplySettings()
      modifies modem`callsign, modem`gridsquare, modem`fecMode, modem`fecRepeats, modem`cmdOut
      ensures modem.callsign == callsign && modem.gridsquare == gridsquare && modem.fecMode == fecMode && modem.fecRepeats == fecRepeats
      ensures modem.cmdOut == old(modem.cmdOut) + CmdStream(SettingsCommands(callsign, gridsquare, fecMode, fecRepeats))
    {
      modem.callsign, modem.gridsquare, modem.fecMode, modem.fecRepeats := callsign, gridsquare, fecMode, fecRepeats;
      var cmds := SettingsCommands(callsign, gridsquare, fecMode, fecRepeats);
      ghost var c0, p := modem.cmdOut, modem.cmdOut;
      assert cmds[..0] == [];
      p := modem.cmdOut; modem.Cmd(cmds[0]); CmdStreamStep(c0, p, modem.cmdOut, cmds, 0);
      p := modem.cmdOut; modem.Cmd(cmds[1]); CmdStreamStep(c0, p, modem.cmdOut, cmds, 1);
      p := modem.cmdOut; modem.Cmd(cmds[2]); CmdStreamStep(c0, p, modem.cmdOut, cmds, 2);
      p := modem.cmdOut; modem.Cmd(cmds[3]); CmdStreamStep(c0, p, modem.cmdOut, cmds, 3);
      assert cmds[..4] == cmds;
    }

    /**
     * `send_message`: the text is prefixed with the callsign and framed; when
     * the frame is sent transmission is requested, otherwise an error line is
     * written first; the message itself is written in either case.
     */
    method SendMessage(entry: string)
      modifies this`messageHistory, modem`dataOut, modem`cmdOut
      ensures var message := callsign + ": " + entry;
        var sent := TextFrame(message, TextCap).Success?;
        && modem.dataOut == old(modem.dataOut) + (if sent then [TextFrame(message, TextCap).value] else [])
        && modem.cmdOut == old(modem.cmdOut) + (if sent then [Line("FECSEND TRUE")] else [])
        && messageHistory == if !useHistory then old(messageHistory)
           else if sent then CappedAppend(old(messageHistory), message)
           else CappedAppend(CappedAppend(old(messageHistory), SendFailed), message)
    {
      var message := callsign + ": " + entry;
      var sent := modem.SendTextToBuffer(message);
      if sent {
        modem.TransmitBuffer();
      } else {
        WriteMessage(SendFailed);
      }
      WriteMessage(message);
    }
  }

  const SendFailed: string := "Could not send message, file too large or other error."

  /** One more command answered: the sent lines extend by that command's line. */
  lemma Extend(c0: seq<string>, prev: seq<string>, now: seq<string>, cmds: seq<string>, k: nat)
    requires k < |cmds|
    requires prev == c0 + CmdStream(cmds[..k])
    requires cmds[k] != "" && now == prev + (if cmds[k] != "" then [Line(cmds[k])] else [])
    ensures now == c0 + CmdStream(cmds[..k + 1])
  {
    CmdStreamStep(c0, prev, now, cmds, k);
  }
}
