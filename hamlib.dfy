/**
 * The Hamlib plugin: a client of the `rigctld` daemon that keys and
 * unkeys the transmitter, sets and reads the radio's frequency and mode,
 * and reports whether its socket could be opened.
 *
 * The socket is modelled by two flags, whether a socket object exists and
 * whether it is connected, and by the log of texts written to it; what
 * the daemon answers, and whether opening succeeds, are parameters.
 */
module Hamlib {
  import opened Seqs
  import opened Text

  const DefaultHost: string := "localhost"
  const DefaultPort: string := "4532"
  const NoError: string := "No error detected."
  const NotConnected: string := "Not connected to rigctld."

  /** The rigctld commands the plugin writes. */
  const KeyCommand: string := "T 1\n"
  const UnkeyCommand: string := "T 0\n"
  const FrequencyQuery: string := "f\n"
  const ModeQuery: string := "m\n"

  function SetFrequencyCommand(frequency: int): string {
    "F " + IntText(frequency) + "\n"
  }

  function SetModeCommand(mode: string): string {
    "M " + mode + "\n"
  }

  /**
   * The frequency reply made readable: `r[:-6] + '.' + r[-6:-3] + '.' + r[-3:]`,
   * with Python's clamping of slice bounds.
   */
  function Dotted(r: string): (d: string)
    ensures |d| == |r| + 2
  {
    Slice(r, 0, -6) + "." + Slice(r, -6, -3) + "." + Slice(r, -3, |r|)
  }

  /**
   * A reply of six characters or more gains exactly two dots, in front of
   * its last six and its last three characters; taking them out again gives
   * back the reply.
   */
  lemma DottedPlacesTwoDots(r: string)
    requires |r| >= 6
    ensures var d := Dotted(r);
      && d[|r| - 6] == '.' && d[|r| - 2] == '.'
      && d[..|r| - 6] + d[|r| - 5..|r| - 2] + d[|r| - 1..] == r
  {
    var n := |r|;
    var d := Dotted(r);
    assert Slice(r, 0, -6) == r[..n - 6];
    assert Slice(r, -6, -3) == r[n - 6..n - 3];
    assert Slice(r, -3, n) == r[n - 3..];
    assert d == r[..n - 6] + "." + r[n - 6..n - 3] + "." + r[n - 3..];
    assert d[..n - 6] == r[..n - 6];
    assert d[n - 5..n - 2] == r[n - 6..n - 3];
    assert d[n - 1..] == r[n - 3..];
    assert r == r[..n - 6] + r[n - 6..n - 3] + r[n - 3..];
  }

  /** A reply of at most three characters gets both dots in front of it. */
  lemma ShortReplyDotsInFront(r: string)
    requires |r| <= 3
    ensures Dotted(r) == ".." + r
  {
    assert Slice(r, 0, -6) == [] && Slice(r, -6, -3) == [];
    assert Slice(r, -3, |r|) == r;
  }

  /** A reply of four or five characters gets one dot in front and one before its last three. */
  lemma MediumReplyDots(r: string)
    requires 3 < |r| < 6
    ensures Dotted(r) == "." + r[..|r| - 3] + "." + r[|r| - 3..]
  {
    assert Slice(r, 0, -6) == [];
    assert Slice(r, -6, -3) == r[..|r| - 3];
    assert Slice(r, -3, |r|) == r[|r| - 3..];
  }

  /** The example in the plugin's own comment: `146450000` reads as `146.450.000`. */
  lemma DottedExample()
    ensures Dotted("146450000") == "146.450.000"
  {
    var r := "146450000";
    assert Slice(r, 0, -6) == "146";
    assert Slice(r, -6, -3) == "450";
    assert Slice(r, -3, |r|) == "000";
  }

  /** The error text's wording for an exception type: a failed address lookup gets a plain description. */
  function Described(errorType: string): string {
    if errorType == "gaierror" then "an incorrect hostname or IP address" else errorType
  }

  function ConnectError(errorType: string): string {
    "Could not connect to rigctld due to " + Described(errorType) + ".\nPlease configure the plugin."
  }

  /** How an attempt to open the rigctld socket goes. */
  datatype Opening =
    | Answered(reply: string)          // connected, and the frequency query was answered
    | ConnectFailed(errorType: string) // host lookup, port conversion or connect raised
    | QueryFailed(errorType: string)   // connected, but the frequency query raised

  /** What a query of the radio returns. */
  datatype Answer =
    | Reply(text: string)
    | NotConnectedReported   // no socket: a message in the chat window, no return value
    | Raised                 // the socket exists but is not connected: the write raises

  class Rig {
    var host: string
    var port: string
    /** `sock_rigctld is not None`. */
    var socket: bool
    /** The socket is connected to rigctld. */
    var connected: bool
    var status: string
    var errorMessage: string
    /** Every text written to rigctld, in order. */
    var sent: seq<string>
    /** Number of sockets closed. */
    var closes: nat
    var chat: seq<string>

    /** A connected socket is a socket. */
    predicate Valid()
      reads this
    {
      connected ==> socket
    }

    /** The plugin starts with the default address and opens its socket straight away. */
    constructor (opening: Opening)
      ensures Valid()
      ensures host == DefaultHost && port == DefaultPort && socket && closes == 0 && chat == []
      ensures connected == !opening.ConnectFailed?
      ensures opening.Answered? ==> status == "Connected" && errorMessage == NoError
      ensures !opening.Answered? ==> status == "Error" && errorMessage == ConnectError(opening.errorType)
      ensures sent == if opening.ConnectFailed? then [] else [FrequencyQuery]
    {
      host := DefaultHost;
      port := DefaultPort;
      socket := false;
      connected := false;
      status := "";
      errorMessage := NoError;
      sent := [];
      closes := 0;
      chat := [];
      new;
      OpenSocket(opening);
    }

    /**
     * `__open_rigctld_socket`: closes any socket it had, makes a new one and
     * connects it, asks for the frequency, and sets the status and the
     * error text by the outcome. The new socket is kept even when the
     * connection failed.
     */
    method OpenSocket(opening: Opening)
      modifies this
      ensures Valid()
      ensures socket && connected == !opening.ConnectFailed?
      ensures closes == old(closes) + (if old(socket) then 1 else 0)
      ensures opening.Answered? ==> status == "Connected" && errorMessage == NoError
      ensures !opening.Answered? ==> status == "Error" && errorMessage == ConnectError(opening.errorType)
      ensures sent == old(sent) + if opening.ConnectFailed? then [] else [FrequencyQuery]
      ensures host == old(host) && port == old(port) && chat == old(chat)
    {
      if socket {
        closes := closes + 1;
      }
      socket := true;
      connected := false;
      match opening {
        case ConnectFailed(e) =>
          status := "Error";
          errorMessage := ConnectError(e);
        case QueryFailed(e) =>
          connected := true;
          sent := sent + [FrequencyQuery];
          status := "Error";
          errorMessage := ConnectError(e);
        case Answered(_) =>
          connected := true;
          sent := sent + [FrequencyQuery];
          status := "Connected";
          errorMessage := NoError;
      }
    }

    /**
     * `__apply_hamlib_config`: an unchanged host and port leave everything
     * as it was; otherwise both are taken and the socket is reopened.
     */
    method ApplyConfig(newHost: string, newPort: string, opening: Opening)
      requires Valid()
      modifies this
      ensures Valid()
      ensures old(host) == newHost && old(port) == newPort ==>
        && socket == old(socket) && connected == old(connected) && status == old(status)
        && errorMessage == old(errorMessage) && sent == old(sent) && closes == old(closes)
      ensures host == newHost && port == newPort && chat == old(chat)
      ensures !(old(host) == newHost && old(port) == newPort) ==>
        && socket && connected == !opening.ConnectFailed?
        && closes == old(closes) + (if old(socket) then 1 else 0)
        && status == (if opening.Answered? then "Connected" else "Error")
        && sent == old(sent) + if opening.ConnectFailed? then [] else [FrequencyQuery]
    {
      if host == newHost && port == newPort {
        return;
      }
      host := newHost;
      port := newPort;
      OpenSocket(opening);
    }

    /** Writes `text` to a socket that has one; a write to an unconnected socket raises. */
    method Write(text: string)
      modifies this
      ensures sent == old(sent) + if socket && connected then [text] else []
      ensures host == old(host) && port == old(port) && socket == old(socket) && connected == old(connected)
      ensures status == old(status) && errorMessage == old(errorMessage) && closes == old(closes) && chat == old(chat)
    {
      if socket && connected {
        sent := sent + [text];
      }
    }

    /** `on_key_transmitter`: `T 1` when there is a socket; a failed write is ignored. */
    method KeyTransmitter()
      modifies this
      ensures sent == old(sent) + if socket && connected then [KeyCommand] else []
      ensures host == old(host) && port == old(port) && socket == old(socket) && connected == old(connected)
      ensures status == old(status) && errorMessage == old(errorMessage) && closes == old(closes) && chat == old(chat)
    {
      if socket {
        Write(KeyCommand);
      }
    }

    /** `on_unkey_transmitter`: `T 0` when there is a socket; a failed write is ignored. */
    method UnkeyTransmitter()
      modifies this
      ensures sent == old(sent) + if socket && connected then [UnkeyCommand] else []
      ensures host == old(host) && port == old(port) && socket == old(socket) && connected == old(connected)
      ensures status == old(status) && errorMessage == old(errorMessage) && closes == old(closes) && chat == old(chat)
    {
      if socket {
        Write(UnkeyCommand);
      }
    }

    /** `on_shutdown`: with a socket, unkey first and then close it; without one, nothing. */
    method Shutdown()
      requires Valid()
      modifies this
      ensures Valid()
      ensures !old(socket) ==> sent == old(sent) && closes == old(closes) && connected == old(connected)
      ensures old(socket) ==>
        sent == old(sent) + (if old(connected) then [UnkeyCommand] else []) && closes == old(closes) + 1 && !connected
      ensures host == old(host) && port == old(port) && socket == old(socket)
      ensures status == old(status) && errorMessage == old(errorMessage) && chat == old(chat)
    {
      if socket {
        UnkeyTransmitter();
        closes := closes + 1;
        connected := false;
      }
    }

    /**
     * `__test_rigctld_connection`: asks for the frequency and dots the
     * stripped reply. It has no socket guard of its own: without a
     * connected socket the `sendall` raises.
     */
    method GetRadioFrequency(reply: string) returns (a: Answer)
      modifies this
      ensures socket && connected ==> a == Reply(Dotted(Strip(reply))) && sent == old(sent) + [FrequencyQuery]
      ensures !(socket && connected) ==> a == Raised && sent == old(sent)
      ensures host == old(host) && port == old(port) && socket == old(socket) && connected == old(connected)
      ensures status == old(status) && errorMessage == old(errorMessage) && closes == old(closes) && chat == old(chat)
    {
      if socket && connected {
        Write(FrequencyQuery);
        a := Reply(Dotted(Strip(reply)));
      } else {
        a := Raised;
      }
    }

    /**
     * `set_radio_frequency`: writes `F <frequency>` and then queries the
     * frequency back; without a socket it only reports that it is not
     * connected.
     */
    method SetRadioFrequency(frequency: int, reply: string) returns (a: Answer)
      modifies this
      ensures !socket ==> a == NotConnectedReported && chat == old(chat) + [NotConnected] && sent == old(sent)
      ensures socket && !connected ==> a == Raised && chat == old(chat) && sent == old(sent)
      ensures socket && connected ==>
        a == Reply(Dotted(Strip(reply))) && chat == old(chat) && sent == old(sent) + [SetFrequencyCommand(frequency), FrequencyQuery]
      ensures host == old(host) && port == old(port) && socket == old(socket) && connected == old(connected)
      ensures status == old(status) && errorMessage == old(errorMessage) && closes == old(closes)
    {
      if !socket {
        chat := chat + [NotConnected];
        a := NotConnectedReported;
      } else if !connected {
        a := Raised;
      } else {
        Write(SetFrequencyCommand(frequency));
        a := GetRadioFrequency(reply);
      }
    }

    /** `get_radio_mode`: writes `m` and returns the stripped reply. */
    method GetRadioMode(reply: string) returns (a: Answer)
      modifies this
      ensures !socket ==> a == NotConnectedReported && chat == old(chat) + [NotConnected] && sent == old(sent)
      ensures socket && !connected ==> a == Raised && chat == old(chat) && sent == old(sent)
      ensures socket && connected ==> a == Reply(Strip(reply)) && chat == old(chat) && sent == old(sent) + [ModeQuery]
      ensures host == old(host) && port == old(port) && socket == old(socket) && connected == old(connected)
      ensures status == old(status) && errorMessage == old(errorMessage) && closes == old(closes)
    {
      if !socket {
        chat := chat + [NotConnected];
        a := NotConnectedReported;
      } else if !connected {
        a := Raised;
      } else {
        Write(ModeQuery);
        a := Reply(Strip(reply));
      }
    }

    /** `set_radio_mode`: writes `M <mode>` and returns the stripped reply. */
    method SetRadioMode(mode: string, reply: string) returns (a: Answer)
      modifies this
      ensures !socket ==> a == NotConnectedReported && chat == old(chat) + [NotConnected] && sent == old(sent)
      ensures socket && !connected ==> a == Raised && chat == old(chat) && sent == old(sent)
      ensures socket && connected ==>
        a == Reply(Strip(reply)) && chat == old(chat) && sent == old(sent) + [SetModeCommand(mode)]
      ensures host == old(host) && port == old(port) && socket == old(socket) && connected == old(connected)
      ensures status == old(status) && errorMessage == old(errorMessage) && closes == old(closes)
    {
      if !socket {
        chat := chat + [NotConnected];
        a := NotConnectedReported;
      } else if !connected {
        a := Raised;
      } else {
        Write(SetModeCommand(mode));
        a := Reply(Strip(reply));
      }
    }
  }

  /**
   * Keying, unkeying and shutting down a plugin whose socket connected:
   * rigctld sees `T 1`, then `T 0` twice (once from the unkey, once from
   * the shutdown), and the socket ends closed.
   */
  method KeyThenShutdown(opening: Opening) returns (rig: Rig)
    requires !opening.ConnectFailed?
    ensures rig.sent == [FrequencyQuery, KeyCommand, UnkeyCommand, UnkeyCommand]
    ensures rig.closes == 1 && !rig.connected
  {
    rig := new Rig(opening);
    rig.KeyTransmitter();
    rig.UnkeyTransmitter();
    rig.Shutdown();
  }
}
