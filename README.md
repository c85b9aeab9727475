# hamChat core, modelled in Dafny

hamChat is a keyboard-to-keyboard chat and file-transfer program for amateur
radio. It drives the ARDOP soft modem (the `ardopcf` TNC) over two TCP ports:
a command port that takes carriage-return terminated text commands and
answers with status lines, and a data port that takes length-prefixed frames
for transmission and hands back received frames. Around that sit a plugin
manager that routes received frames to plugins by the protocol field of a
colon-separated header, and plugins for automatic acknowledgement, file
transfer and rig control through `rigctld`.

This project models the sequential core of that program:

- **Data-port framing** (`framing.dfy`). Outbound frames are the length, the
  mode tag `FEC`, then the chunk, with payloads cut into 1000-byte chunks.
  Inbound, the transport plugin reassembles chunks until a body ends with
  `:END:`. The older clients strip a fixed eight bytes instead.
- **Command channel** (`commands.dfy`). Command lines, the ten-command
  provisioning sequence, and the reply classifier. The listener's pass over
  a history list that it mutates while iterating is modelled exactly as the
  interpreter runs it.
- **The three modem objects**, as classes whose methods update their fields:
  - the transport plugin (`ardop_transport.dfy`)
  - the standalone client (`standalone_modem.dfy`)
  - the chat application's modem and window (`main_app.dfy`)
- **The plugin manager** (`plugin_router.dfy`): the dependency check, routing
  of a received frame, and the lifecycle fan-out.
- **The plugins' header builders and parsers**:
  - autoACK (`auto_ack.dfy`)
  - both file-transfer plugins (`file_transfer.dfy`, `legacy_file_transfer.dfy`)
  - the Hamlib rig-control plugin (`hamlib.dfy`)
- **Supporting libraries** for Python's string and byte behaviour:
  - `seqs.dfy`: slicing with clamped bounds, `split`/`join`, `startswith`, `in`
  - `utf8.dfy`: `str.encode()` / `bytes.decode()`
  - `text.dfy`: whitespace `split()`/`strip()`, `str(n)`
  - `headers.dfy`: colon-separated headers
  - `wrappers.dfy`: `Option` and `Result`

Sockets become logs of what was passed to `sendall`, one entry per call.
Replies, received chunks, the outcome of opening a socket and the base64
decoder are parameters. Where Python raises, the model returns an explicit
outcome: `Raised`, `Malformed`, `crashed`, `Unbound`, or a `Failure`.

## Model

| member | source | states |
|---|---|---|
| Framing.TagsAreAscii | plugins/ARDOPCF.py:413-418 | The byte constants `FEC`, `FECFEC`, `ERR` and `:END:` are the encodings of those texts, and `FECFEC` is `FEC` twice. |
| Framing.BigEndian2 | plugins/ARDOPCF.py:340 | `n.to_bytes(2, 'big')` is two bytes, and they read back as `n`. |
| Framing.FrameLayout | plugins/ARDOPCF.py:339-341 | A frame is five bytes longer than its chunk. It declares the chunk length plus three, carries `FEC` at bytes 2-4, and ends with the chunk. |
| Framing.ChunksShape | plugins/ARDOPCF.py:336-337 | There are ceil(len/1000) chunks. None is empty, all but the last hold exactly 1000 bytes, and together they are the data. |
| Framing.FramesOfChunks | plugins/ARDOPCF.py:336-342 | One frame per chunk, in order: frame k is the frame of chunk k, and empty data sends nothing. |
| Framing.FrameBounds | plugins/ARDOPCF.py:336-341 | Every frame declares at most 1003 and is at most 1005 bytes long. |
| Framing.StripHeadersOfFrames | plugins/ARDOPCF.py:336-342 | Dropping the first five bytes of every emitted frame and concatenating in order gives the data back exactly. |
| Framing.ErrChunkIgnored | plugins/ARDOPCF.py:418-420 | An `ERR` chunk, wherever it arrives, leaves the reassembled payload exactly as without it. |
| Framing.StopsAtTerminator | plugins/ARDOPCF.py:427-429 | Once a body ending in `:END:` has been read, later chunks never reach the payload. |
| Framing.ContinuesWithoutTerminator | plugins/ARDOPCF.py:394-429 | Without a terminating body every chunk is read, and reassembly goes on into what follows. |
| Framing.ChunkBodyOfFrame | plugins/ARDOPCF.py:410-417 | Stripping the length and `FEC` from the frame of a chunk that does not begin with `FEC` gives the chunk back. |
| Framing.ChunkBodyOfDoubledFrame | plugins/ARDOPCF.py:411-414 | With the modem's doubled tag `FECFEC`, any chunk comes back intact. |
| Framing.RoundTrip | plugins/ARDOPCF.py:389-431 | Frames received in the order sent reassemble to exactly the data, when no chunk starts with `FEC` and only the last may end in `:END:`. |
| Framing.RoundTripDoubledFirst | plugins/ARDOPCF.py:408-417 | The same holds when the first frame arrives with the doubled tag. |
| Framing.ChunkStartingWithTagIsCut | plugins/ARDOPCF.py:413-417 | A chunk that begins with `FEC` loses those three bytes, because the receiver takes `FECFEC` for the doubled tag. |
| Framing.SplitFooterDoesNotEnd | plugins/ARDOPCF.py:428-429 | A `:END:` split across two chunks does not end reassembly, so the next chunk is still appended. |
| Framing.TextFrameAsWritten | plugins/ARDOPCF.py:311-320 | As written, a text frame is refused exactly when `'FEC' + message` has more characters than the cap. Otherwise it is the character count, then the UTF-8 bytes. |
| Framing.TextOverflowUnreachable | plugins/ARDOPCF.py:312-319 | Under the caps used (1000 and 2000) the OverflowError branch is never reached. |
| Framing.TextFrameAsciiLength | plugins/ARDOPCF.py:316-320 | For ASCII text the declared length equals the bytes that follow it. |
| Framing.TextFrameUndercounts | plugins/ARDOPCF.py:316-320 | One non-ASCII character makes the declared length fall short of the bytes sent. |
| Framing.TextFrameUndercountExample | plugins/ARDOPCF.py:316-320 | The message "é" is declared as 4 bytes but sent as 5. |
| Framing.TextFrame | plugins/ARDOPCF.py:311-320 | Corrected text frame: refused exactly when the UTF-8 bytes of `'FEC' + message` exceed the cap. Otherwise the declared length is the number of bytes that follow. |
| Framing.TextFrameIsFrame | plugins/ARDOPCF.py:311-320 | A corrected text frame is the data frame of the message's bytes, and dropping five bytes decodes back to the message. |
| Framing.TextFrameAgreesOnAscii | plugins/ARDOPCF.py:311-320 | On ASCII text the corrected frame equals the frame as written. |
| Framing.SingleFrame | ARDOPCF.py:132-139 | The standalone client sends one frame for the whole payload. It fails exactly when the payload exceeds 65532 bytes, where `to_bytes` raises. |
| Framing.LengthField | ARDOPCF.py:159 | `raw[:2]` is at most two bytes and is a prefix of the input. |
| Framing.ReceiveFixed | ARDOPCF.py:151-169 | The result is None exactly when nothing was read. Otherwise it is the bytes after the first eight, with a warning exactly when the declared length differs from what follows it. |
| Framing.ReceiveFixedOfDoubledFrame | ARDOPCF.py:157-167 | A single frame delivered with the doubled tag is read back as its payload. |
| Commands.Line | plugins/ARDOPCF.py:178 | A command line is the command followed by exactly one carriage return. |
| Commands.CmdBytes | plugins/ARDOPCF.py:178-179 | The bytes sent end with byte 13. |
| Commands.CmdBytesRoundTrip | plugins/ARDOPCF.py:177-179 | The bytes decode back to the command plus `\r`, and are one byte longer than an ASCII command. |
| Commands.ValueText | plugins/ARDOPCF.py:158 | A stored text renders as itself, and a number as `str(n)`. |
| Commands.InitTncCommands | plugins/ARDOPCF.py:152-162 | Provisioning is exactly ten commands. |
| Commands.SettingsCommands | plugins/ARDOPCF.py:215-218 | A settings change sends four commands. |
| Commands.SettingsAreProvisioningSubset | plugins/ARDOPCF.py:215-218 | The settings commands are provisioning commands 1, 2, 4 and 5, in that order. |
| Commands.ProvisioningArguments | plugins/ARDOPCF.py:154-158 | Single-word call, grid and mode come back as the second token of their provisioning commands, and so does the default repeat count `0`. |
| Commands.Token | plugins/ARDOPCF.py:478 | `entry.split()[k]` exists exactly when the line has more than k tokens, and is a word without whitespace. |
| Commands.Classify | plugins/ARDOPCF.py:469-495 | `Key` exactly when a `PTT TRUE`/`T T` substring occurs. `Unkey` exactly when there is no key substring and a `PTT FALSE`/`T F` one occurs. `BUFFER`/`STATE` take token 1, and each of the five setting keywords takes token 2. `FECSEND` exactly when that prefix is reached. `Malformed` (Python's IndexError) exactly when the branch reached reads a token the line lacks. `Unhandled` exactly when no branch matches. |
| Commands.Update | plugins/ARDOPCF.py:471-492 | Each reply kind writes its own field and nothing else: `ptt` for key and unkey, the token for the other eight, with `BUFFER` and `FECREPEATS` stored as text. Unhandled, malformed and `FECSEND` replies change nothing. |
| Commands.StatusReplyRoundTrip | plugins/ARDOPCF.py:477-480 | `BUFFER v` or `STATE v` puts exactly `v` into its field and changes nothing else. |
| Commands.SettingReplyRoundTrip | plugins/ARDOPCF.py:483-492 | `KEYWORD echo v`, for each of the five setting keywords, puts exactly `v` into that keyword's field of any state record and changes nothing else. |
| Commands.ClassifyMyCall | plugins/ARDOPCF.py:483-484 | A `MYCALL` line without keying text is classified by its third token. |
| Commands.ClassifyGridSquare | plugins/ARDOPCF.py:485-486 | A `GRIDSQUARE` line without keying text is classified by its third token. |
| Commands.ClassifyFecMode | plugins/ARDOPCF.py:481-488 | A `FECMODE` line is not taken for `FECSEND` and is classified by its third token. |
| Commands.ClassifyFecRepeats | plugins/ARDOPCF.py:481-490 | A `FECREPEATS` line is taken for neither `FECSEND` nor `FECMODE` and is classified by its third token. |
| Commands.ClassifyProtocolMode | plugins/ARDOPCF.py:491-492 | A `PROTOCOLMODE` line without keying text is classified by its third token. |
| Commands.Effects | plugins/ARDOPCF.py:471-499 | Non-keying replies cause only the forward to `on_command_received`, and only in the plugin transport. The chat client without rigctld makes no calls. |
| Commands.RemoveFirst | plugins/ARDOPCF.py:496 | `list.remove` shortens the list by one when the value occurs, and leaves it alone otherwise. |
| Commands.RemoveFirstAt | plugins/ARDOPCF.py:496 | Removing the first occurrence at index i closes the gap at i. |
| Commands.RunPass | plugins/ARDOPCF.py:468-503 | The loop over the history computes exactly the pass function. That function advances the index, removes the handled entry, stops at `None`, and crashes on a malformed reply. |
| Commands.NoneEndsPass | plugins/ARDOPCF.py:500-503 | A `None` at the loop index ends the pass with nothing changed. |
| Commands.PassSkipsEveryOther | plugins/ARDOPCF.py:469-496 | Over distinct well-formed replies, a pass handles the entries at even offsets in order and leaves those at odd offsets in the history. |
| Commands.SecondOfTwoWaits | plugins/ARDOPCF.py:469-496 | With two replies queued, the first is handled and the second stays for the next pass. |
| Commands.ListenHandlesEachReply | plugins/ARDOPCF.py:459-499 | Well-formed replies arriving one per pass are each handled at once, and the history ends empty. |
| Commands.NoneBlocksForever | plugins/ARDOPCF.py:459-503 | Once `None` heads the history, no later reply is handled or removed, and they pile up behind it. |
| Commands.CrashIsFinal | plugins/ARDOPCF.py:468-503 | After an uncaught IndexError the listener is gone, and later replies change nothing. |
| Commands.BareMyCallCrashes | plugins/ARDOPCF.py:483-484 | A bare `MYCALL` reply kills the listener and leaves the state record as it was. |
| Commands.BareMyCallIsMalformed | plugins/ARDOPCF.py:483-484 | A bare `MYCALL` is classified as malformed. |
| ArdopTransport.Transport.constructor | plugins/ARDOPCF.py:77-116 | Starts from the default state record and connects with the corrected connect (see Findings), which provisions the TNC. Ready and listening, nothing sent on the data port. |
| ArdopTransport.Transport.SendCmd | plugins/ARDOPCF.py:173-183 | Appends the command line only when ready. |
| ArdopTransport.Transport.CmdResponse | plugins/ARDOPCF.py:439-451 | A fire-and-forget command is sent only when ready, and an empty command is never sent. |
| ArdopTransport.Transport.AwaitReply | plugins/ARDOPCF.py:439-457 | A waiting call returns the reply when ready, and None otherwise. |
| ArdopTransport.Transport.InitTnc | plugins/ARDOPCF.py:152-162 | When ready, the ten provisioning commands for the current state record, in order. Nothing otherwise. |
| ArdopTransport.Transport.ConnectAsWritten | plugins/ARDOPCF.py:129-135 | As written, provisioning runs before `ready` is set, so every command is dropped unless the plugin was already ready. |
| ArdopTransport.Transport.Connect | plugins/ARDOPCF.py:129-135 | Corrected connect: ready, and all ten provisioning commands are sent. |
| ArdopTransport.Transport.OnSettingsUpdate | plugins/ARDOPCF.py:196-218 | Copies the settings into the state record. Exactly when host or port changed, reconnects with the corrected connect, which provisions. Then, if ready, sends the four settings commands. |
| ArdopTransport.Transport.SendSettings | plugins/ARDOPCF.py:213-218 | When ready, the four settings commands for the current state record. Nothing otherwise. |
| ArdopTransport.Transport.SendTextToBuffer | plugins/ARDOPCF.py:306-324 | None and nothing sent when not ready. Otherwise, with the corrected byte-counted text frame, False and nothing sent when the frame is refused, or one text frame sent and True. |
| ArdopTransport.Transport.AppendBytesToBuffer | plugins/ARDOPCF.py:326-342 | When ready, exactly one frame per 1000-byte chunk is sent, in order. Nothing when not ready. |
| ArdopTransport.Transport.OnTransmitBuffer | plugins/ARDOPCF.py:344-347 | `FECSEND TRUE` twice, when ready. |
| ArdopTransport.Transport.OnClearBuffer | plugins/ARDOPCF.py:351-352 | `PURGEBUFFER`, when ready. |
| ArdopTransport.Transport.GetData | plugins/ARDOPCF.py:371-431 | The loop returns exactly the reassembled payload of the chunks read. |
| ArdopTransport.Transport.ListenOnce | plugins/ARDOPCF.py:459-503 | Reconnects with the corrected connect if needed, appends the reply, and runs one pass. State, history and plugin calls are the pass's result, and a crash stops the listener. |
| ArdopTransport.Transport.OnTransportStateUpdate | plugins/ARDOPCF.py:301-304 | Polls with `STATE` and then `BUFFER` when ready. When not ready, both are dropped. |
| ArdopTransport.Transport.OnShutdown | plugins/ARDOPCF.py:505-512 | Sets the stop flag, sends `STATE` when ready, joins the listener so that it no longer runs, and closes. |
| StandaloneModem.ListenerKeysLikeTransmitter | ARDOPCF.py:199-206 | The listener's keying and unkeying calls are exactly those of `key_transmitter`/`unkey_transmitter`. |
| StandaloneModem.ShutdownOrder | ARDOPCF.py:238-251 | In the shutdown trace the unkey comes before the stop request, no socket closes before the listener is joined, and `T 0` is sent when rigctld is connected. |
| StandaloneModem.Modem.constructor | ARDOPCF.py:9-79 | Default station fields and the provisioning sequence built from them; the listener starts. |
| StandaloneModem.Modem.CmdResponse | ARDOPCF.py:171-181 | A non-empty command line is sent with no ready guard. An empty command sends nothing. |
| StandaloneModem.Modem.InitTnc | ARDOPCF.py:81-92 | The ten provisioning commands built from the station fields, in order. |
| StandaloneModem.Modem.KeyTransmitter | ARDOPCF.py:100-105 | `T 1` to rigctld and then the plugins' key hook, only when rigctld is connected. |
| StandaloneModem.Modem.UnkeyTransmitter | ARDOPCF.py:107-112 | `T 0` to rigctld and then the unkey hook, only when rigctld is connected. |
| StandaloneModem.Modem.SendTextToBuffer | ARDOPCF.py:114-130 | True and one corrected, byte-counted text frame under the 2000 cap. False and nothing sent otherwise. |
| StandaloneModem.Modem.AppendBytesToBuffer | ARDOPCF.py:132-139 | One frame for the whole payload. An overflow error, with nothing sent, exactly above 65532 bytes. |
| StandaloneModem.Modem.TransmitBuffer | ARDOPCF.py:141-145 | `FECSEND TRUE` twice. |
| StandaloneModem.Modem.ClearBuffer | ARDOPCF.py:147-149 | `PURGEBUFFER`. |
| StandaloneModem.Modem.ListenOnce | ARDOPCF.py:189-236 | Appends the reply and runs one pass, with rigctld and plugin keying. The trace gains the pass's calls, and a crash stops the listener. |
| StandaloneModem.Modem.CloseAll | ARDOPCF.py:238-251 | Appends exactly the shutdown trace, after which the listener is gone. |
| ChatApp.AppendFrameAsWritten | main.py:402-411 | As written, the payload must decode. The length counts the characters of `'FEC' + text`, while the bytes sent are the payload's. |
| ChatApp.AppendUndercountExample | main.py:402-411 | The two-byte payload `C3 A9` is declared as 4 bytes but sent as 5. |
| ChatApp.AppendFrame | main.py:402-411 | Corrected: the payload must still be UTF-8, and the declared length is the number of bytes that follow. |
| ChatApp.AppendFrameIsFrame | main.py:402-411 | The corrected frame is the data frame of the payload, and agrees with the frame as written for ASCII payloads. |
| ChatApp.ReceiveAsWritten | main.py:428-462 | Nothing exactly when nothing was read. An UnboundLocalError exactly when the body after eight bytes is not UTF-8. |
| ChatApp.FileText | main.py:441-451 | Text without the `FileXFR:` prefix is returned as is. For tagged text, the base64 error happens exactly when the remainder after the prefix does not decode. Otherwise the result is the decoded file's text, or the tagged text itself when the file is not UTF-8, since the `UnicodeDecodeError` is caught after `response` was assigned. |
| ChatApp.InvalidBodyRaises | main.py:441-460 | A frame whose body is the byte `FF` makes the receiver raise. |
| ChatApp.Receive | main.py:428-462 | Corrected receiver: never raises for an invalid body. Returns nothing exactly when nothing was read or the body is not UTF-8. |
| ChatApp.ReceiveAgrees | main.py:441-460 | The corrected receiver equals the receiver as written wherever that one returns. |
| ChatApp.ReceiveTextFrame | main.py:428-450 | A text frame delivered with the doubled tag is read back as its message. |
| ChatApp.ReceiveFileFrame | main.py:448-450 | A file sent as `FileXFR:` and its base64 text, delivered with the doubled tag, is read back as the file's text when the file is UTF-8. |
| ChatApp.DoubledTextBody | main.py:437-440 | After the first eight bytes of a doubled-tag text frame come exactly the message's UTF-8 bytes. |
| ChatApp.CappedAppend | main.py:146-149 | One write grows the history by one below 500 and keeps it at 500 otherwise. The result is the newest entries of history plus message. |
| ChatApp.HistoryKeepsNewest | main.py:143-149 | After any number of writes, the history stays within 500 and holds the newest messages in order. |
| ChatApp.HistoryIsNewest | main.py:143-149 | Writing messages one at a time leaves exactly the newest (at most 500) entries of the old history followed by the messages. |
| ChatApp.ListenerKeysLikeTransmitter | main.py:495-502 | The listener keys and unkeys rigctld exactly as the transmitter methods do. |
| ChatApp.Modem.constructor | main.py:271-346 | Default station fields, and the provisioning sequence built from them. |
| ChatApp.Modem.Cmd | main.py:361-364 | Exactly the command plus one `\r` is sent. |
| ChatApp.Modem.CmdResponse | main.py:464-474 | A non-empty fire-and-forget command is sent once. An empty command sends nothing. |
| ChatApp.Modem.InitTnc | main.py:348-359 | The ten provisioning commands, in order. |
| ChatApp.Modem.KeyTransmitter | main.py:367-373 | `T 1` to rigctld, only when connected. |
| ChatApp.Modem.UnkeyTransmitter | main.py:375-381 | `T 0` to rigctld, only when connected. |
| ChatApp.Modem.SendTextToBuffer | main.py:383-399 | True and one corrected, byte-counted text frame under the 2000 cap. False and nothing sent otherwise. |
| ChatApp.Modem.AppendBytesToBuffer | main.py:402-411 | The corrected data frame of the payload, whose length counts bytes, is sent. Otherwise the error Python raises, with nothing sent. |
| ChatApp.Modem.LoadFileToBuffer | main.py:413-419 | The base64 text tagged `FileXFR:` goes out as one corrected text frame, or nothing when refused. |
| ChatApp.Modem.TransmitBuffer | main.py:422-423 | `FECSEND TRUE`, once. |
| ChatApp.Modem.ClearBuffer | main.py:425-426 | `PURGEBUFFER`. |
| ChatApp.Modem.ListenOnce | main.py:485-530 | Appends the reply and runs one pass with rigctld keying. The result says whether the listener died. |
| ChatApp.Modem.CloseAll | main.py:532-540 | Stops the listener, unkeys rigctld when connected, and closes. The closing `sys.exit()` is left out. |
| ChatApp.Window.constructor | main.py:47-72 | The window's defaults (repeats 1), history on and empty, and a modem provisioned with its own defaults (repeats 0), then asked for `STATE` and `BUFFER` once. |
| ChatApp.Window.PollState | main.py:197-199 | One firing of the state poll sends `STATE` and then `BUFFER`, and nothing else. |
| ChatApp.Window.WriteMessage | main.py:143-150 | With history on, a capped append. With history off, unchanged. |
| ChatApp.Window.ApplySettings | main.py:259-267 | Copies the four settings to the modem, then sends `MYCALL`, `GRIDSQUARE`, `FECMODE`, `FECREPEATS` in order. |
| ChatApp.Window.SendMessage | main.py:152-164 | Frames `callsign: entry` with the corrected text frame. If sent, requests transmission; otherwise first writes the error line. The message is written either way. |
| PluginRouter.FirstUnmet | PluginManager.py:46-55 | The first unmet dependency is listed and unmet. There is none exactly when every dependency is met. |
| PluginRouter.AbsentPluginIsMet | PluginManager.py:57-63 | A dependency on a plugin that is not loaded is met. |
| PluginRouter.NumberNeverMeetsString | PluginManager.py:61 | A number version never meets a string version of the same text. |
| PluginRouter.HeaderField | PluginManager.py:80-81 | A missing header gives no field, because Python raises. Otherwise a decoded field is the UTF-8 decoding of that colon-separated field. |
| PluginRouter.ScanHandlers | PluginManager.py:76-88 | Every warning concerns the plugin scanned and is a version warning. An earlier match is never lost. |
| PluginRouter.ScanWarnings | PluginManager.py:76-88 | Without an exception, the loop warns once per non-`ALL` handler occurring in the protocol field, and only when the plugin's version differs from the frame's version field; every warning carries that field. |
| PluginRouter.ScanMatches | PluginManager.py:76-89 | Without an exception, a plugin is selected exactly when one handler is `'ALL'` or occurs in header field 1. |
| PluginRouter.AllHandlersNeverWarn | PluginManager.py:78-79 | `'ALL'` handlers never check the version, never warn and never raise. |
| PluginRouter.DefaultHandlerMatchesEverything | PluginManager.py:80-88 | The default handler `''` matches every frame with a decodable protocol field. It warns exactly when the versions differ. |
| PluginRouter.DeliveredExactlyToHandlers | PluginManager.py:72-90 | Without an exception, each plugin receives the frame once if it handles it, and never otherwise. |
| PluginRouter.DeliveriesUnchanged | PluginManager.py:89-90 | Every delivery carries the header and payload unchanged. |
| PluginRouter.NoHeaderScan | PluginManager.py:76-81 | With a None header, a handler list that holds anything but `'ALL'` raises before any warning is shown. |
| PluginRouter.NoHeaderDispatch | PluginManager.py:74-90 | A None header, which `hamChatPlugin.py:43-45` allows for `'ALL'` handlers, reaches in order every plugin with only `'ALL'` handlers up to the first plugin that has another handler. Python raises there, and later plugins get nothing. |
| PluginRouter.FirstUnmetAt | PluginManager.py:48-54 | The dependency the nested loop stops at is the first unmet one, in plugin and declaration order. |
| PluginRouter.Manager.constructor | PluginManager.py:8-28 | Dependencies are checked once, and the warning is raised exactly when one is unmet. |
| PluginRouter.Manager.IsDependencyMet | PluginManager.py:57-63 | False exactly when some loaded plugin has the name with a different version. |
| PluginRouter.Manager.AreDependenciesSatisfied | PluginManager.py:46-55 | True exactly when all dependencies are met. Otherwise exactly the first unmet one is logged as `name version`. |
| PluginRouter.Manager.OnDataReceived | PluginManager.py:72-90 | The calls made are exactly those of the dispatch function, which plugin order and the handler rule determine. Also reports whether Python raised. |
| PluginRouter.Manager.ScanPlugin | PluginManager.py:75-88 | The handler loop of one plugin produces the scan's warnings, match and exception. |
| PluginRouter.Manager.FanOut | PluginManager.py:92-134 | Each lifecycle hook is called once on every plugin, in list order, and nothing else happens. |
| PluginRouter.ShippedDependencyUnmet | plugins/ardopALE.py:59-66 | With the shipped definitions, the ALE plugin's string `'0.1'` dependency on ARDOPCF, whose version is the number 0.1, is the first unmet one. |
| PluginRouter.ShippedDependencyText | PluginManager.py:53 | That dependency is logged as `ARDOPCF 0.1`. |
| AutoAck.OnPayloadReceived | plugins/autoACK.py:39-61 | No reply when disabled, with no header, or for a payload starting `autoACKed `. A reply only when our call is in field 3 or reply-to-all is on. The reply is the ACK text for the sender in field 0 and the payload length. |
| AutoAck.TransportCalls | plugins/autoACK.py:61-64 | A reply is appended to the buffer, then transmission is requested, once each. |
| AutoAck.TagWithinTen | plugins/autoACK.py:47 | `b'autoACKed ' in payload[:10]` holds exactly when the payload starts with it. |
| AutoAck.ReplyDecision | plugins/autoACK.py:49-54 | For a well-formed header and untagged payload, a reply is made exactly when our call is in field 3 or reply-to-all is on. |
| AutoAck.AckParts | plugins/autoACK.py:59 | The ACK is its header followed by its payload. |
| AutoAck.AckIsNeverAcked | plugins/autoACK.py:45-59 | An ACK payload is never acknowledged, whatever header comes with it. |
| AutoAck.AckFields | plugins/autoACK.py:59 | Split on `:`, the ACK is a chat frame version 0.1 from us to the sender. |
| FileTransfer.BaseName | plugins/FileTransfer.py:84 | The name has no `/` and is a suffix of the path. |
| FileTransfer.Outgoing | plugins/FileTransfer.py:53-88 | Nothing for a cancelled dialog. Otherwise the encoded header with the base name and byte size, then the file, then `:END:`. |
| FileTransfer.HeaderIsJoin | plugins/FileTransfer.py:85 | The header is its eight fields joined with `:`. |
| FileTransfer.OnPayloadReceived | plugins/FileTransfer.py:31-41 | Raises exactly with fewer than six fields. Otherwise suggests field 4 and saves the payload. |
| FileTransfer.MismatchAlwaysReported | plugins/FileTransfer.py:39-40 | The size mismatch is reported for every accepted frame. |
| FileTransfer.FieldPositions | plugins/FileTransfer.py:35-39 | For colon-free fields, the receiver finds the base name at index 4, the decimal size (reading back as the length) at 5 and `BEGIN` at 6. |
| FileTransfer.BaseNameOfPath | plugins/FileTransfer.py:59 | The name after the last `/` is exactly the file name. |
| LegacyFileTransfer.Outgoing | ARDOPCF_Plugins/ARDOPPCFPluginFileTransfer.py:59-68 | The encoded header followed directly by the file, with no footer. |
| LegacyFileTransfer.OutgoingRoundTrips | ARDOPCF_Plugins/ARDOPPCFPluginFileTransfer.py:28-36 | The frame sent for a colon-free callsign and path, cut after its header, is saved under that path with exactly the file's bytes. |
| LegacyFileTransfer.HeaderIsJoin | ARDOPCF_Plugins/ARDOPPCFPluginFileTransfer.py:66 | The header is seven fields, with the full path as field 3, joined with `:`. |
| LegacyFileTransfer.OnDataReceived | ARDOPCF_Plugins/ARDOPPCFPluginFileTransfer.py:28-36 | Raises exactly with fewer than five fields. Otherwise suggests field 3, reports the mismatch, and saves the payload. |
| LegacyFileTransfer.PathWithoutColonRoundTrips | ARDOPCF_Plugins/ARDOPPCFPluginFileTransfer.py:31-34 | A colon-free path comes back whole as the name, and the size field reads back as the file's length. |
| LegacyFileTransfer.ColonPathIsCut | ARDOPCF_Plugins/ARDOPPCFPluginFileTransfer.py:66 | A path such as `C:/x` is cut at the colon: the name is the drive, and the rest lands in the size field. |
| Hamlib.Dotted | plugins/hamlib.py:110 | The formatted frequency is two characters longer than the reply. |
| Hamlib.DottedPlacesTwoDots | plugins/hamlib.py:109-110 | For six or more characters, dots go in front of the last six and the last three, and removing them restores the reply. |
| Hamlib.ShortReplyDotsInFront | plugins/hamlib.py:110 | Up to three characters, both dots go in front. |
| Hamlib.MediumReplyDots | plugins/hamlib.py:110 | With four or five characters, one dot goes in front and one before the last three. |
| Hamlib.DottedExample | plugins/hamlib.py:104-110 | `146450000` reads as `146.450.000`. |
| Hamlib.Rig.constructor | plugins/hamlib.py:26-36 | Default address, socket opened straight away, status by outcome. |
| Hamlib.Rig.OpenSocket | plugins/hamlib.py:137-155 | Closes any old socket and keeps the new one. On success, "Connected" and the error text reset. On failure, "Error" and the described exception. |
| Hamlib.Rig.ApplyConfig | plugins/hamlib.py:93-101 | An unchanged host and port change nothing. Otherwise both are taken and the socket is reopened. |
| Hamlib.Rig.KeyTransmitter | plugins/hamlib.py:39-44 | `T 1` when a connected socket exists; a failed write is ignored. |
| Hamlib.Rig.UnkeyTransmitter | plugins/hamlib.py:46-51 | `T 0` when a connected socket exists; a failed write is ignored. |
| Hamlib.Rig.Shutdown | plugins/hamlib.py:53-56 | With a socket, unkey and then close. Without one, nothing. |
| Hamlib.Rig.GetRadioFrequency | plugins/hamlib.py:103-114 | Queries `f` and dots the stripped reply. Raises without a connected socket. |
| Hamlib.Rig.SetRadioFrequency | plugins/hamlib.py:116-121 | `F <freq>` then the frequency query. Without a socket only "Not connected to rigctld." is shown. |
| Hamlib.Rig.GetRadioMode | plugins/hamlib.py:123-128 | `m` and the stripped reply. The not-connected message when there is no socket. |
| Hamlib.Rig.SetRadioMode | plugins/hamlib.py:130-135 | `M <mode>` and the stripped reply. The not-connected message when there is no socket. |
| Hamlib.KeyThenShutdown | plugins/hamlib.py:39-56 | Keying, unkeying and shutting down a connected plugin sends `T 1`, `T 0`, `T 0` after the opening query, and ends closed. |
| Utf8.DecodeEncode | main.py:442 | Decoding what was encoded gives the text back. |
| Utf8.EncodeDecode | main.py:405-410 | Bytes that decode re-encode to the same bytes. |
| Utf8.EncodeLonger | main.py:391-395 | One non-ASCII character makes the encoding longer than the text. |
| Text.Words | plugins/ARDOPCF.py:478 | `split()` never returns an empty token. |
| Text.WordsCons | plugins/ARDOPCF.py:478 | A word, then whitespace, then more text: the word is the first token. |
| Text.StripTrailing | plugins/hamlib.py:108 | `strip()` removes the trailing newline of a reply. |
| Text.DecimalRoundTrip | plugins/FileTransfer.py:85 | The decimal digits of `n` read back as `n`. |
| Text.DecimalHasNoSeparator | plugins/FileTransfer.py:85 | Decimal digits never contain `:`, `/` or whitespace. |
| Seqs.SliceBound | plugins/hamlib.py:110 | A Python slice bound is normalised into the sequence. |
| Seqs.Drop | plugins/ARDOPCF.py:410 | `s[n:]` has the clamped length, and what was dropped is the prefix. |
| Seqs.IsInfixAt | plugins/ARDOPCF.py:471 | `p in s` holds exactly when p occurs at some index. |
| Seqs.SplitJoin | plugins/FileTransfer.py:37 | Splitting a join of separator-free fields gives the fields back. |
| Seqs.SplitFieldsFree | plugins/FileTransfer.py:37 | No field of a split contains the separator. |
| Seqs.LastFieldIsSuffix | plugins/FileTransfer.py:84 | `split(sep)[-1]` has no separator, ends the input, and follows a separator or starts it. |
| Headers.SplitHeader | plugins/FileTransfer.py:35-37 | A header of colon-free fields splits back into exactly their encodings. |

## Left out

- Socket errors, `select` and the reconnect-with-sleep loops are left out. Sends are logs, and the successful connection attempt is the one modelled.
- `is_ready` (plugins/ARDOPCF.py:118-119) is the `ready` field, read directly.
- Tk widgets, settings windows, colours and status labels are left out. Whatever calls `on_transport_state_update` is not part of this model. The polling it does is `ArdopTransport.Transport.OnTransportStateUpdate`.
- Listener threads, stop events, `join` and the `on_get_data` timeouts are not modelled. One call of `ListenOnce` is one loop turn, and the end of the received sequence stands for a timeout or stop.
- `estimate_time_to_send` is left out because it is floating-point arithmetic.
- Base64 is a parameter, `b64decode`, and the base64 text of a loaded file is an input. The second base64 decode in the chat window's `listen_for_messages` is left out.
- File dialogs, reading and writing files, and JSON settings and history files are left out. The older file-transfer plugin opens an empty path when the dialog is cancelled, which raises FileNotFoundError outside the model.
- Plugin discovery by importlib is left out: the plugin list is an input. The ALE plugin is only test data for the dependency check.
- A command reply that is not UTF-8 raises UnicodeDecodeError in the listener. Replies are modelled as text already decoded.
- The lifecycle hooks are called `on_data_received` in the manager but `on_payload_recieved` in some plugins. The model records the call the manager makes, not whether the plugin defines the method.
- `except BrokenPipeError or OSError` in the transport catches only BrokenPipeError. Sends are not modelled as failing.
- The Hamlib plugin's definition has no `handlers` key. The router models a missing key as an exception (`handlers == None`), but the Hamlib plugin itself is not given a definition.
- Hamlib.Rig.KeyTransmitter: a connected socket that fails later is not modelled, and the sent log holds the text before UTF-8 encoding.
- ArdopTransport.Transport.InitTnc: the ten unrolled `cmd_response` calls are grouped into one helper call.
- ArdopTransport.Transport.constructor: connects with the corrected `Connect`, which provisions the TNC. As written, every connect runs while `ready` is false, so none of the ten commands is sent (`ConnectAsWritten`, Findings row 3).
- ArdopTransport.Transport.OnSettingsUpdate: the reconnect uses the corrected `Connect`. As written it sends no provisioning commands.
- ArdopTransport.Transport.ListenOnce: the reconnect uses the corrected `Connect`. As written it sends no provisioning commands.
- ArdopTransport.Transport.SendTextToBuffer: uses `Framing.TextFrame`, which counts and caps UTF-8 bytes. As written the length field and cap count characters (`Framing.TextFrameAsWritten`, Findings row 1). The two agree on ASCII text (`Framing.TextFrameAgreesOnAscii`).
- StandaloneModem.Modem.SendTextToBuffer: the same corrected text frame. As written the length counts characters.
- ChatApp.Modem.SendTextToBuffer: the same corrected text frame. As written the length counts characters.
- ChatApp.Modem.LoadFileToBuffer: sends through the corrected text frame. As written the length counts characters; the two agree whenever the encoded text is ASCII, as base64 output is.
- ChatApp.Window.SendMessage: sends through the corrected text frame. As written the length counts the characters of `callsign: entry`.
- ChatApp.Modem.AppendBytesToBuffer: uses `ChatApp.AppendFrame`, whose length field counts bytes. As written it counts the decoded characters (`ChatApp.AppendFrameAsWritten`, Findings row 2).
- ChatApp.Window.PollState: the poll re-schedules itself every 200 ms with `after`; one firing is modelled, and the GUI labels it sets are left out.
- PluginRouter.Manager.OnDataReceived: a delivered plugin whose `on_data_received` raises is not modelled. In the source the exception leaves the loop at PluginManager.py:90, so the plugins after it never get the frame. `LegacyFileTransfer.OnDataReceived` raises this way on a header with fewer than five fields. `Dispatch` and this method deliver to every later matching plugin.
- ChatApp.Modem.CloseAll: the `sys.exit()` that ends `close_all` (main.py:540) is left out. The method ends with the sockets closed.
- PluginRouter.Manager.FanOut: a hook that raises is not modelled. The transport's `on_shutdown` ends in `sys.exit()` (plugins/ARDOPCF.py:513), which stops the shutdown fan-out at that plugin, so the plugins after it are not called.
- Every receiver assumes that one `recv` returns exactly one frame (`Framing.ReceiveFixed`, `ChatApp.Receive`, `ArdopTransport.Transport.GetData`). TCP may split or merge frames, and that is not modelled.
- The chat window's `listen_for_messages` poll (main.py:182-195) is left out: its frame is `ChatApp.Receive`'s result, and the rest is base64, file saving and a timer.
- StandaloneModem.Modem.constructor, ChatApp.Modem.constructor: the interactive rigctld prompt and the `exit()` calls at construction (ARDOPCF.py:14-35 and main.py:282-303) are left out. Whether rigctld is connected is a constructor parameter.

## Findings

| source | as written | input that shows it | evidently intended | confidence | as-written member | corrected member |
|---|---|---|---|---|---|---|
| plugins/ARDOPCF.py:311-320 | The length field of a text frame counts the characters of `'FEC' + message`, but the UTF-8 bytes are what is sent. The same code is in main.py:386-395 and ARDOPCF.py:117-126. | message `é`: declared 4, followed by 5 bytes | the length counts bytes, and the cap applies to bytes | not executed | Framing.TextFrameUndercountExample | Framing.TextFrameIsFrame |
| main.py:405-410 | `append_bytes_to_buffer` decodes the payload and counts the characters of `'FEC' + text`, then sends the payload's bytes. | payload `C3 A9`: declared 4, followed by 5 bytes | the declared length is the byte length | not executed | ChatApp.AppendUndercountExample | ChatApp.AppendFrameIsFrame |
| plugins/ARDOPCF.py:134-135 | `init_tnc` runs before `ready` is set, and `cmd_response` drops every command while not ready, so the TNC is never provisioned on first connect. | connecting from the not-ready state sends none of the ten commands | mark ready, then provision | not executed | ArdopTransport.Transport.ConnectAsWritten | ArdopTransport.Transport.Connect |
| main.py:441-460 | When the body is not UTF-8, `response` is never assigned, so `return(response)` raises UnboundLocalError after the invalid packet is saved. | a frame whose body after eight bytes is `FF` | return nothing for an invalid packet | not executed | ChatApp.InvalidBodyRaises | ChatApp.ReceiveAgrees |
