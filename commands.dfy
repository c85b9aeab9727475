/**
 * The TNC command channel: commands are text terminated by a carriage
 * return, the modem is provisioned by a fixed command sequence, and each
 * reply line is classified into an update of the modem's state record.
 *
 * The listener keeps the replies in a history list that it mutates while
 * iterating over it. `Pass` states one iteration of that `for` loop exactly
 * as the interpreter runs it: the loop index advances after each entry while
 * the handled entry is removed, a `None` reply raises a TypeError that ends
 * the pass, and a reply with too few tokens raises an uncaught IndexError.
 */
module Commands {
  import opened Wrappers
  import opened Seqs
  import opened Utf8
  import opened Text

  // ---------------------------------------------------------------------------
  // Commands

  /** The text sent for a command: the command and one carriage return. */
  function Line(command: string): (r: string)
    ensures |r| == |command| + 1 && r[..|command|] == command && r[|command|] == '\r'
  {
    command + "\r"
  }

  /** The bytes `sendall` receives for a command: its line, UTF-8 encoded. */
  function CmdBytes(command: string): (r: seq<byte>)
    ensures |r| >= 1 && r[|r| - 1] == 13
  {
    EncodeAppend(command, "\r");
    Encode(Line(command))
  }

  /** The lines sent for a series of commands, one `sendall` each. */
  function CmdStream(commands: seq<string>): (r: seq<string>)
    ensures |r| == |commands|
  {
    if commands == [] then [] else [Line(commands[0])] + CmdStream(commands[1..])
  }

  lemma {:induction false} CmdStreamAppend(xs: seq<string>, ys: seq<string>)
    ensures CmdStream(xs + ys) == CmdStream(xs) + CmdStream(ys)
  {
    if xs != [] {
      assert (xs + ys)[1..] == xs[1..] + ys;
      CmdStreamAppend(xs[1..], ys);
    } else {
      assert xs + ys == ys;
    }
  }

  /** A log holding `c0` and the lines of the first `k` commands, after the line of the command at `k` was appended. */
  lemma CmdStreamStep(c0: seq<string>, prev: seq<string>, now: seq<string>, cmds: seq<string>, k: nat)
    requires k < |cmds|
    requires prev == c0 + CmdStream(cmds[..k])
    requires now == prev + [Line(cmds[k])]
    ensures now == c0 + CmdStream(cmds[..k + 1])
  {
    CmdStreamAppend(cmds[..k], [cmds[k]]);
    assert cmds[..k] + [cmds[k]] == cmds[..k + 1];
  }

  /** Exactly one carriage return is added, and the text before it comes back unchanged. */
  lemma CmdBytesRoundTrip(command: string)
    ensures Decode(CmdBytes(command)) == Some(command + "\r")
    ensures IsAscii(command) ==> |CmdBytes(command)| == |command| + 1
  {
    DecodeEncode(command + "\r");
    if IsAscii(command) {
      EncodeAscii(command + "\r");
    }
  }

  /** A field the modem classes keep either as a number or as the text the TNC replied with. */
  datatype Value = Int(i: int) | Str(s: string)

  /** The f-string rendering of a value. */
  function ValueText(v: Value): (r: string)
    ensures v.Str? ==> r == v.s
    ensures v.Int? ==> r == IntText(v.i)
  {
    match v
    case Int(i) => IntText(i)
    case Str(s) => s
  }

  /** `init_tnc`: the ten provisioning commands, in the order they are sent. */
  function InitTncCommands(call: string, grid: string, mode: string, repeats: Value): (r: seq<string>)
    ensures |r| == 10
    ensures forall k :: 0 <= k < |r| ==> r[k] != ""
  {
    [ "INITIALIZE",
      "MYCALL " + call,
      "GRIDSQUARE " + grid,
      "PROTOCOLMODE FEC",
      "FECMODE " + mode,
      "FECREPEATS " + ValueText(repeats),
      "FECID 1",
      "LISTEN 1",
      "ENABLEPINGACK 1",
      "USE600MODES 1" ]
  }

  /** The four commands a settings change sends: call, grid, mode, repeats. */
  function SettingsCommands(call: string, grid: string, mode: string, repeats: Value): (r: seq<string>)
    ensures |r| == 4
    ensures forall k :: 0 <= k < |r| ==> r[k] != ""
  {
    ["MYCALL " + call, "GRIDSQUARE " + grid, "FECMODE " + mode, "FECREPEATS " + ValueText(repeats)]
  }

  /** The settings commands are the station-specific commands of the provisioning sequence, in the same order. */
  lemma SettingsAreProvisioningSubset(call: string, grid: string, mode: string, repeats: Value)
    ensures var init := InitTncCommands(call, grid, mode, repeats);
      SettingsCommands(call, grid, mode, repeats) == [init[1], init[2], init[4], init[5]]
  {
  }

  /** The TNC reads each provisioning argument back as the command's second token, when it is a single word. */
  lemma ProvisioningArguments(call: string, grid: string, mode: string)
    requires IsWord(call) && IsWord(grid) && IsWord(mode)
    ensures var init := InitTncCommands(call, grid, mode, Int(0));
      && Words(init[1]) == ["MYCALL", call]
      && Words(init[2]) == ["GRIDSQUARE", grid]
      && Words(init[4]) == ["FECMODE", mode]
      && Words(init[5]) == ["FECREPEATS", "0"]
  {
    CallGridArguments(call, grid, mode);
    ModeRepeatsArguments(call, grid, mode);
  }

  lemma CallGridArguments(call: string, grid: string, mode: string)
    requires IsWord(call) && IsWord(grid)
    ensures var init := InitTncCommands(call, grid, mode, Int(0));
      Words(init[1]) == ["MYCALL", call] && Words(init[2]) == ["GRIDSQUARE", grid]
  {
    var init := InitTncCommands(call, grid, mode, Int(0));
    LineWords("MYCALL", call, init[1]);
    LineWords("GRIDSQUARE", grid, init[2]);
  }

  lemma ModeRepeatsArguments(call: string, grid: string, mode: string)
    requires IsWord(mode)
    ensures var init := InitTncCommands(call, grid, mode, Int(0));
      Words(init[4]) == ["FECMODE", mode] && Words(init[5]) == ["FECREPEATS", "0"]
  {
    var init := InitTncCommands(call, grid, mode, Int(0));
    assert ValueText(Int(0)) == "0" && IsWord("0");
    LineWords("FECMODE", mode, init[4]);
    LineWords("FECREPEATS", "0", init[5]);
  }

  lemma LineWords(keyword: string, arg: string, line: string)
    requires IsWord(keyword) && IsWord(arg) && line == keyword + " " + arg
    ensures Words(line) == [keyword, arg]
  {
    ArgumentWords(keyword, arg);
  }

  lemma ArgumentWords(keyword: string, arg: string)
    requires IsWord(keyword) && IsWord(arg)
    ensures Words(keyword + " " + arg) == [keyword, arg]
  {
    WordsCons(keyword, " ", arg);
    WordsSingle(arg, []);
    assert arg + [] == arg;
  }

  // ---------------------------------------------------------------------------
  // Classification of one reply

  /** The state record the listener maintains. */
  datatype TncState = TncState(
    state: string, buffer: Value, ptt: bool, mycall: string, gridsquare: string,
    fecMode: string, fecRepeats: Value, protocolMode: string)

  /** The record before any reply has been handled. */
  const InitialState := TncState("DISC", Int(0), false, "N0CALL", "AA00AA", "4FSK.200.50S", Int(0), "FEC")

  /** What a reply line means to the listener. */
  datatype Reply =
    | Key | Unkey
    | Buffer(token: string) | State(token: string) | FecSend
    | MyCall(token: string) | GridSquare(token: string) | FecMode(token: string)
    | FecRepeats(token: string) | ProtocolMode(token: string)
    | Unhandled
    | Malformed   // `entry.split()[k]` raised IndexError

  predicate Keys(e: string) {
    IsInfix(e, "PTT TRUE") || IsInfix(e, "T T")
  }

  predicate Unkeys(e: string) {
    IsInfix(e, "PTT FALSE") || IsInfix(e, "T F")
  }

  /** `entry.split()[k]`, or None where Python raises IndexError. */
  function Token(e: string, k: nat): (r: Option<string>)
    ensures r.Some? <==> k < |Words(e)|
    ensures r.Some? ==> IsWord(r.value)
  {
    WordsHaveNoSpace(e);
    if k < |Words(e)| then Some(Words(e)[k]) else None
  }

  function Stored(t: Option<string>, make: string -> Reply): Reply {
    if t.Some? then make(t.value) else Malformed
  }

  /** Replies whose value is `split()[1]`. */
  predicate StatusLine(e: string) {
    StartsWith(e, "BUFFER") || StartsWith(e, "STATE")
  }

  /** Replies whose value is `split()[2]`: one of the five setting keywords, past the earlier branches. */
  predicate SettingLine(e: string) {
    && !StatusLine(e) && !StartsWith(e, "FECSEND")
    && (|| StartsWith(e, "MYCALL") || StartsWith(e, "GRIDSQUARE") || StartsWith(e, "FECMODE")
        || StartsWith(e, "FECREPEATS") || StartsWith(e, "PROTOCOLMODE"))
  }

  /** The listener's if/elif chain over one reply line. */
  function Classify(e: string): (r: Reply)
    ensures r == Key <==> Keys(e)
    ensures r == Unkey <==> !Keys(e) && Unkeys(e)
    ensures r.Buffer? ==> StartsWith(e, "BUFFER") && Token(e, 1) == Some(r.token)
    ensures r.State? ==> StartsWith(e, "STATE") && Token(e, 1) == Some(r.token)
    ensures r == FecSend <==> !Keys(e) && !Unkeys(e) && !StatusLine(e) && StartsWith(e, "FECSEND")
    ensures r.MyCall? ==> StartsWith(e, "MYCALL") && Token(e, 2) == Some(r.token)
    ensures r.GridSquare? ==> StartsWith(e, "GRIDSQUARE") && Token(e, 2) == Some(r.token)
    ensures r.FecMode? ==> StartsWith(e, "FECMODE") && Token(e, 2) == Some(r.token)
    ensures r.FecRepeats? ==> StartsWith(e, "FECREPEATS") && Token(e, 2) == Some(r.token)
    ensures r.ProtocolMode? ==> StartsWith(e, "PROTOCOLMODE") && Token(e, 2) == Some(r.token)
    ensures r.Malformed? ==> |Words(e)| < 3
    ensures r.Malformed? <==> !Keys(e) && !Unkeys(e) && if StatusLine(e) then |Words(e)| < 2 else SettingLine(e) && |Words(e)| < 3
    ensures r.Unhandled? <==> !Keys(e) && !Unkeys(e) && !StatusLine(e) && !StartsWith(e, "FECSEND") && !SettingLine(e)
  {
    if Keys(e) then Key
    else if Unkeys(e) then Unkey
    else if StartsWith(e, "BUFFER") then Stored(Token(e, 1), t => Buffer(t))
    else if StartsWith(e, "STATE") then Stored(Token(e, 1), t => State(t))
    else if StartsWith(e, "FECSEND") then FecSend
    else if StartsWith(e, "MYCALL") then Stored(Token(e, 2), t => MyCall(t))
    else if StartsWith(e, "GRIDSQUARE") then Stored(Token(e, 2), t => GridSquare(t))
    else if StartsWith(e, "FECMODE") then Stored(Token(e, 2), t => FecMode(t))
    else if StartsWith(e, "FECREPEATS") then Stored(Token(e, 2), t => FecRepeats(t))
    else if StartsWith(e, "PROTOCOLMODE") then Stored(Token(e, 2), t => ProtocolMode(t))
    else Unhandled
  }

  /** The state record after a reply: each kind writes its one field and nothing else. */
  function Update(st: TncState, r: Reply): (st': TncState)
    ensures r.Buffer? ==> st' == st.(buffer := Str(r.token))
    ensures r.State? ==> st' == st.(state := r.token)
    ensures r.MyCall? ==> st' == st.(mycall := r.token)
    ensures r.GridSquare? ==> st' == st.(gridsquare := r.token)
    ensures r.FecMode? ==> st' == st.(fecMode := r.token)
    ensures r.FecRepeats? ==> st' == st.(fecRepeats := Str(r.token))
    ensures r.ProtocolMode? ==> st' == st.(protocolMode := r.token)
    ensures r in {FecSend, Unhandled, Malformed} ==> st' == st
    ensures st'.ptt == (if r == Key then true else if r == Unkey then false else st.ptt)
    ensures r in {Key, Unkey} ==> st' == st.(ptt := st'.ptt)
  {
    match r
    case Key => st.(ptt := true)
    case Unkey => st.(ptt := false)
    case Buffer(t) => st.(buffer := Str(t))
    case State(t) => st.(state := t)
    case FecSend => st
    case MyCall(t) => st.(mycall := t)
    case GridSquare(t) => st.(gridsquare := t)
    case FecMode(t) => st.(fecMode := t)
    case FecRepeats(t) => st.(fecRepeats := Str(t))
    case ProtocolMode(t) => st.(protocolMode := t)
    case Unhandled => st
    case Malformed => st
  }

  /** A TNC status reply carries its value back into the state record. */
  lemma StatusReplyRoundTrip(keyword: string, value: string)
    requires keyword in {"BUFFER", "STATE"}
    requires IsWord(value) && !Keys(keyword + " " + value) && !Unkeys(keyword + " " + value)
    ensures var st := Update(InitialState, Classify(keyword + " " + value));
      (keyword == "BUFFER" ==> st == InitialState.(buffer := Str(value)))
      && (keyword == "STATE" ==> st == InitialState.(state := value))
  {
    var e := keyword + " " + value;
    ArgumentWords(keyword, value);
    assert e[..|keyword|] == keyword;
    if keyword == "STATE" {
      assert !StartsWith(e, "BUFFER") by { assert e[0] == 'S'; }
    }
  }

  /**
   * A setting reply `KEYWORD echo value` puts exactly `value`, the third
   * token, into the keyword's field of any state record.
   */
  lemma {:induction false} SettingReplyRoundTrip(st: TncState, keyword: string, echo: string, value: string)
    requires keyword in {"MYCALL", "GRIDSQUARE", "FECMODE", "FECREPEATS", "PROTOCOLMODE"}
    requires IsWord(echo) && IsWord(value)
    requires !Keys(keyword + " " + echo + " " + value) && !Unkeys(keyword + " " + echo + " " + value)
    ensures var st' := Update(st, Classify(keyword + " " + echo + " " + value));
      && (keyword == "MYCALL" ==> st' == st.(mycall := value))
      && (keyword == "GRIDSQUARE" ==> st' == st.(gridsquare := value))
      && (keyword == "FECMODE" ==> st' == st.(fecMode := value))
      && (keyword == "FECREPEATS" ==> st' == st.(fecRepeats := Str(value)))
      && (keyword == "PROTOCOLMODE" ==> st' == st.(protocolMode := value))
  {
    var e := keyword + " " + echo + " " + value;
    SettingKeywordIsWord(keyword);
    SettingLineWords(keyword, echo, value);
    assert Token(e, 2) == Some(value);
    if keyword == "MYCALL" {
      ClassifyMyCall(e, value);
    } else if keyword == "GRIDSQUARE" {
      ClassifyGridSquare(e, value);
    } else if keyword == "FECMODE" {
      ClassifyFecMode(e, value);
    } else if keyword == "FECREPEATS" {
      ClassifyFecRepeats(e, value);
    } else {
      ClassifyProtocolMode(e, value);
    }
  }

  /** A `MYCALL` line without keying text yields its third token. */
  lemma ClassifyMyCall(e: string, value: string)
    requires StartsWith(e, "MYCALL") && !Keys(e) && !Unkeys(e) && Token(e, 2) == Some(value)
    ensures Classify(e) == MyCall(value)
  {
    assert e[0] == 'M';
  }

  /** A `GRIDSQUARE` line without keying text yields its third token. */
  lemma ClassifyGridSquare(e: string, value: string)
    requires StartsWith(e, "GRIDSQUARE") && !Keys(e) && !Unkeys(e) && Token(e, 2) == Some(value)
    ensures Classify(e) == GridSquare(value)
  {
    assert e[0] == 'G';
  }

  /** A `FECMODE` line without keying text yields its third token; it is not `FECSEND`. */
  lemma ClassifyFecMode(e: string, value: string)
    requires StartsWith(e, "FECMODE") && !Keys(e) && !Unkeys(e) && Token(e, 2) == Some(value)
    ensures Classify(e) == FecMode(value)
  {
    assert e[0] == 'F' && e[3] == 'M';
  }

  /** A `FECREPEATS` line without keying text yields its third token; it is neither `FECSEND` nor `FECMODE`. */
  lemma ClassifyFecRepeats(e: string, value: string)
    requires StartsWith(e, "FECREPEATS") && !Keys(e) && !Unkeys(e) && Token(e, 2) == Some(value)
    ensures Classify(e) == FecRepeats(value)
  {
    assert e[0] == 'F' && e[3] == 'R';
  }

  /** A `PROTOCOLMODE` line without keying text yields its third token. */
  lemma ClassifyProtocolMode(e: string, value: string)
    requires StartsWith(e, "PROTOCOLMODE") && !Keys(e) && !Unkeys(e) && Token(e, 2) == Some(value)
    ensures Classify(e) == ProtocolMode(value)
  {
    assert e[0] == 'P';
  }

  /** Each setting keyword is one word. */
  lemma SettingKeywordIsWord(keyword: string)
    requires keyword in {"MYCALL", "GRIDSQUARE", "FECMODE", "FECREPEATS", "PROTOCOLMODE"}
    ensures IsWord(keyword)
  {
  }

  /** The three tokens of a setting reply, and its keyword prefix. */
  lemma {:induction false} SettingLineWords(keyword: string, echo: string, value: string)
    requires IsWord(keyword) && IsWord(echo) && IsWord(value)
    ensures Words(keyword + " " + echo + " " + value) == [keyword, echo, value]
    ensures StartsWith(keyword + " " + echo + " " + value, keyword)
  {
    var e := keyword + " " + echo + " " + value;
    assert e == keyword + " " + (echo + " " + value);
    WordsCons(keyword, " ", echo + " " + value);
    ArgumentWords(echo, value);
    assert e[..|keyword|] == keyword;
  }

  // ---------------------------------------------------------------------------
  // Effects

  /** Where a modem class sends keying requests. */
  datatype Route =
    | PluginHooks                 // the plugin transport: plugin-manager hooks, and every reply forwarded
    | RigctldDirect(rig: bool)    // the chat client: `T 1`/`T 0` to rigctld, when connected
    | RigctldAndPlugins(rig: bool) // the standalone modem: rigctld, then the plugin hooks, when connected

  /** Calls the listener makes besides updating its own state. */
  datatype Effect = RigctldSend(text: string) | KeyHook | UnkeyHook | CommandReceived(entry: string)

  /** The calls made for one handled reply, in order. */
  function Effects(route: Route, r: Reply, e: string): (fx: seq<Effect>)
    ensures r !in {Key, Unkey} ==> fx == (if route.PluginHooks? then [CommandReceived(e)] else [])
    ensures route.RigctldDirect? && !route.rig ==> fx == []
  {
    var keying :=
      match route
      case PluginHooks =>
        if r == Key then [KeyHook] else if r == Unkey then [UnkeyHook] else []
      case RigctldDirect(rig) =>
        if !rig then [] else if r == Key then [RigctldSend("T 1\n")] else if r == Unkey then [RigctldSend("T 0\n")] else []
      case RigctldAndPlugins(rig) =>
        if !rig then []
        else if r == Key then [RigctldSend("T 1\n"), KeyHook]
        else if r == Unkey then [RigctldSend("T 0\n"), UnkeyHook]
        else [];
    keying + (if route.PluginHooks? then [CommandReceived(e)] else [])
  }

  // ---------------------------------------------------------------------------
  // One pass over the history

  /** `list.remove(x)`: drops the first element equal to `x`; Python raises ValueError when there is none. */
  function RemoveFirst<T(==)>(s: seq<T>, x: T): (r: seq<T>)
    ensures x in s ==> |r| == |s| - 1
    ensures x !in s ==> r == s
  {
    if s == [] then []
    else if s[0] == x then s[1..]
    else [s[0]] + RemoveFirst(s[1..], x)
  }

  /** When `x` first occurs at `i`, removing it closes the gap at `i`. */
  lemma {:induction false} RemoveFirstAt<T>(s: seq<T>, x: T, i: nat)
    requires i < |s| && s[i] == x && x !in s[..i]
    ensures RemoveFirst(s, x) == s[..i] + s[i + 1..]
  {
    if i > 0 {
      assert s[1..][..i - 1] == s[..i][1..];
      RemoveFirstAt(s[1..], x, i - 1);
      assert s[1..][i..] == s[i + 1..];
    }
  }

  /** State, history and calls when a pass ends; `crashed` when it ended in an uncaught IndexError. */
  datatype PassResult = PassResult(st: TncState, history: seq<Option<string>>, effects: seq<Effect>, crashed: bool)

  /** The rest of one `for entry in history` loop, from loop index `i`. */
  function Pass(route: Route, st: TncState, hist: seq<Option<string>>, i: nat, fx: seq<Effect>): PassResult
    decreases |hist| - i
  {
    if i >= |hist| then PassResult(st, hist, fx, false)
    else match hist[i]
      case None => PassResult(st, hist, fx, false)
      case Some(e) =>
        var r := Classify(e);
        if r == Malformed then PassResult(st, hist, fx, true)
        else
          assert hist[i] in hist;
          Pass(route, Update(st, r), RemoveFirst(hist, hist[i]), i + 1, fx + Effects(route, r, e))
  }

  /**
   * One pass of the listener loop, run on a copy of the history list: the
   * loop index advances past each handled entry while that entry is removed.
   */
  method RunPass(route: Route, st0: TncState, hist0: seq<Option<string>>, fx0: seq<Effect>) returns (res: PassResult)
    ensures res == Pass(route, st0, hist0, 0, fx0)
  {
    var st, hist, fx, i := st0, hist0, fx0, 0;
    while i < |hist|
      invariant Pass(route, st, hist, i, fx) == Pass(route, st0, hist0, 0, fx0)
      decreases |hist| - i
    {
      var entry := hist[i];
      if entry.None? {
        return PassResult(st, hist, fx, false);
      }
      var r := Classify(entry.value);
      if r == Malformed {
        return PassResult(st, hist, fx, true);
      }
      st := Update(st, r);
      fx := fx + Effects(route, r, entry.value);
      assert entry in hist;
      hist := RemoveFirst(hist, entry);
      i := i + 1;
    }
    return PassResult(st, hist, fx, false);
  }

  /** A `None` at the loop index ends the pass with nothing changed. */
  lemma NoneEndsPass(route: Route, st: TncState, hist: seq<Option<string>>, fx: seq<Effect>)
    requires hist != [] && hist[0] == None
    ensures Pass(route, st, hist, 0, fx) == PassResult(st, hist, fx, false)
  {
  }

  // ---------------------------------------------------------------------------
  // Which entries a pass handles

  predicate Distinct<T(==)>(s: seq<T>) {
    forall j, k :: 0 <= j < k < |s| ==> s[j] != s[k]
  }

  /** Every reply is present and classifies without an IndexError. */
  predicate WellFormed(es: seq<string>) {
    forall k :: 0 <= k < |es| ==> Classify(es[k]) != Malformed
  }

  function Lift(es: seq<string>): (r: seq<Option<string>>)
    ensures |r| == |es|
  {
    if es == [] then [] else [Some(es[0])] + Lift(es[1..])
  }

  /** Entries at positions 0, 2, 4, … */
  function Evens<T>(s: seq<T>): (r: seq<T>)
    ensures |r| == (|s| + 1) / 2
  {
    if s == [] then [] else if |s| == 1 then s else [s[0]] + Evens(s[2..])
  }

  /** Entries at positions 1, 3, 5, … */
  function Odds<T>(s: seq<T>): (r: seq<T>)
    ensures |r| == |s| / 2
  {
    if |s| < 2 then [] else [s[1]] + Odds(s[2..])
  }

  /** The effect of handling the replies one after another, with nothing skipped. */
  function HandleAll(route: Route, st: TncState, es: seq<string>, fx: seq<Effect>): (TncState, seq<Effect>)
    requires WellFormed(es)
    decreases |es|
  {
    if es == [] then (st, fx)
    else HandleAll(route, Update(st, Classify(es[0])), es[1..], fx + Effects(route, Classify(es[0]), es[0]))
  }

  /**
   * A pass over distinct, well-formed replies handles every other one: the
   * entries at even offsets from the loop index are handled in order and
   * removed, and those at odd offsets are skipped and stay behind.
   */
  lemma {:induction false} PassSkipsEveryOther(route: Route, st: TncState, kept: seq<Option<string>>, rest: seq<string>, fx: seq<Effect>)
    requires WellFormed(rest) && Distinct(kept + Lift(rest))
    ensures WellFormed(Evens(rest))
    ensures Pass(route, st, kept + Lift(rest), |kept|, fx) == Skipping(route, st, kept, rest, fx)
    decreases |rest|
  {
    EvensWellFormed(rest);
    if rest == [] {
      assert kept + Lift(rest) == kept;
    } else {
      var e := rest[0];
      var r := Classify(e);
      LiftParts(kept, rest);
      DistinctParts(kept, Some(e), Lift(rest[1..]));
      HandleOne(route, st, kept, e, Lift(rest[1..]), fx);
      if |rest| == 1 {
        assert rest[1..] == [] && Evens(rest) == rest && Odds(rest) == [];
        assert kept + Lift(rest[1..]) == kept == kept + Lift(Odds(rest));
        assert HandleAll(route, st, rest, fx) == (Update(st, r), fx + Effects(route, r, e));
      } else {
        WellFormedSuffix(rest, 2);
        PassSkipsEveryOther(route, Update(st, r), kept + [Some(rest[1])], rest[2..], fx + Effects(route, r, e));
      }
    }
  }

  /** What `PassSkipsEveryOther` says a pass ends with: the even-offset replies handled, the odd-offset ones kept. */
  function Skipping(route: Route, st: TncState, kept: seq<Option<string>>, rest: seq<string>, fx: seq<Effect>): PassResult
    requires WellFormed(Evens(rest))
  {
    var (st', fx') := HandleAll(route, st, Evens(rest), fx);
    PassResult(st', kept + Lift(Odds(rest)), fx', false)
  }

  lemma LiftParts(kept: seq<Option<string>>, rest: seq<string>)
    requires rest != []
    ensures kept + Lift(rest) == kept + [Some(rest[0])] + Lift(rest[1..])
    ensures |rest| >= 2 ==> kept + Lift(rest[1..]) == (kept + [Some(rest[1])]) + Lift(rest[2..])
    ensures |rest| >= 2 ==> (kept + [Some(rest[1])]) + Lift(Odds(rest[2..])) == kept + Lift(Odds(rest))
  {
    LiftCons(kept, rest);
    if |rest| >= 2 {
      LiftCons(kept, rest[1..]);
      assert rest[1..][1..] == rest[2..];
      assert Odds(rest) == [rest[1]] + Odds(rest[2..]);
      LiftCons(kept, Odds(rest));
    }
  }

  lemma {:induction false} LiftCons(kept: seq<Option<string>>, rest: seq<string>)
    requires rest != []
    ensures kept + Lift(rest) == (kept + [Some(rest[0])]) + Lift(rest[1..])
  {
    var tail := Lift(rest[1..]);
    assert Lift(rest) == [Some(rest[0])] + tail;
    assert kept + ([Some(rest[0])] + tail) == (kept + [Some(rest[0])]) + tail;
  }

  lemma WellFormedSuffix(es: seq<string>, n: nat)
    requires WellFormed(es) && n <= |es|
    ensures WellFormed(es[n..])
  {
    forall k | 0 <= k < |es[n..]| ensures Classify(es[n..][k]) != Malformed {
      assert es[n..][k] == es[k + n];
    }
  }

  /** Handling the reply at the loop index: update, record its calls, remove it, advance. */
  lemma HandleOne(route: Route, st: TncState, kept: seq<Option<string>>, e: string, tail: seq<Option<string>>, fx: seq<Effect>)
    requires Classify(e) != Malformed && Some(e) !in kept
    ensures var r := Classify(e);
      Pass(route, st, kept + [Some(e)] + tail, |kept|, fx)
      == Pass(route, Update(st, r), kept + tail, |kept| + 1, fx + Effects(route, r, e))
  {
    var hist := kept + [Some(e)] + tail;
    assert hist[|kept|] == Some(e);
    assert hist[..|kept|] == kept;
    RemoveFirstAt(hist, Some(e), |kept|);
    assert hist[|kept| + 1..] == tail;
  }

  /** In a list of distinct entries, the middle one is not among those before it, and the others stay distinct without it. */
  lemma DistinctParts<T>(front: seq<T>, x: T, back: seq<T>)
    requires Distinct(front + [x] + back)
    ensures x !in front && Distinct(front + back)
  {
    var s := front + [x] + back;
    forall j | 0 <= j < |front| ensures front[j] != x {
      assert s[j] == front[j] && s[|front|] == x;
    }
    var t := front + back;
    forall j, k | 0 <= j < k < |t| ensures t[j] != t[k] {
      var j0 := if j < |front| then j else j + 1;
      var k0 := if k < |front| then k else k + 1;
      assert t[j] == s[j0] && t[k] == s[k0];
    }
  }

  lemma {:induction false} EvensWellFormed(es: seq<string>)
    requires WellFormed(es)
    ensures WellFormed(Evens(es))
    decreases |es|
  {
    if |es| > 1 {
      WellFormedSuffix(es, 2);
      EvensWellFormed(es[2..]);
    }
  }

  /** Two replies queued together: the first is handled and the second waits for the next pass. */
  lemma SecondOfTwoWaits(route: Route, st: TncState, a: string, b: string)
    requires a != b && Classify(a) != Malformed && Classify(b) != Malformed
    ensures Pass(route, st, [Some(a), Some(b)], 0, []).history == [Some(b)]
  {
    assert Evens([a, b]) == [a] && WellFormed([a]);
    assert WellFormed([a, b]);
    assert Lift([a, b]) == [Some(a), Some(b)];
    PassSkipsEveryOther(route, st, [], [a, b], []);
    assert [] + Lift([a, b]) == [Some(a), Some(b)];
    assert Odds([a, b]) == [b];
  }

  // ---------------------------------------------------------------------------
  // The listener loop

  /**
   * The listener over a sequence of replies: each reply is appended to the
   * history and a pass follows; an IndexError ends the thread.
   */
  function Listen(route: Route, res: PassResult, replies: seq<Option<string>>): PassResult
    decreases |replies|
  {
    if replies == [] || res.crashed then res
    else Listen(route, Pass(route, res.st, res.history + [replies[0]], 0, res.effects), replies[1..])
  }

  /** With an empty history, well-formed replies arriving one per pass are each handled at once and nothing is left behind. */
  lemma {:induction false} ListenHandlesEachReply(route: Route, st: TncState, replies: seq<string>, fx: seq<Effect>)
    requires WellFormed(replies)
    ensures var (st', fx') := HandleAll(route, st, replies, fx);
      Listen(route, PassResult(st, [], fx, false), Lift(replies)) == PassResult(st', [], fx', false)
    decreases |replies|
  {
    if replies != [] {
      var e := replies[0];
      var r := Classify(e);
      assert [] + [Lift(replies)[0]] == [Some(e)];
      assert Pass(route, st, [Some(e)], 0, fx) == PassResult(Update(st, r), [], fx + Effects(route, r, e), false) by {
        assert RemoveFirst([Some(e)], Some(e)) == [];
      }
      assert Lift(replies)[1..] == Lift(replies[1..]);
      WellFormedSuffix(replies, 1);
      ListenHandlesEachReply(route, Update(st, r), replies[1..], fx + Effects(route, r, e));
    }
  }

  /** Once a `None` heads the history, no later reply changes the state record or is removed: they pile up behind it. */
  lemma {:induction false} NoneBlocksForever(route: Route, st: TncState, rest: seq<Option<string>>, fx: seq<Effect>, replies: seq<Option<string>>)
    ensures Listen(route, PassResult(st, [None] + rest, fx, false), replies) == PassResult(st, [None] + rest + replies, fx, false)
    decreases |replies|
  {
    if replies == [] {
      assert [None] + rest + replies == [None] + rest;
    } else {
      var h := [None] + rest + [replies[0]];
      assert h[0] == None;
      assert h == [None] + (rest + [replies[0]]);
      NoneBlocksForever(route, st, rest + [replies[0]], fx, replies[1..]);
      assert [None] + (rest + [replies[0]]) + replies[1..] == [None] + rest + replies;
    }
  }

  /** A reply with too few tokens ends the listener for good: later replies are never appended. */
  lemma CrashIsFinal(route: Route, res: PassResult, replies: seq<Option<string>>)
    requires res.crashed
    ensures Listen(route, res, replies) == res
  {
  }

  /** `MYCALL` with no argument kills the listener; the state record keeps what it had. */
  lemma BareMyCallCrashes(route: Route, st: TncState)
    ensures Pass(route, st, [Some("MYCALL")], 0, []) == PassResult(st, [Some("MYCALL")], [], true)
  {
    BareMyCallIsMalformed();
  }

  lemma BareMyCallIsMalformed()
    ensures Classify("MYCALL") == Malformed
  {
    var e := "MYCALL";
    MyCallNeverKeys(e);
    MyCallPrefixes(e);
    assert Words(e) == [e] by { WordsSingle(e, []); assert e + [] == e; }
    assert Token(e, 2) == None;
  }

  lemma MyCallNeverKeys(e: string)
    requires e == "MYCALL"
    ensures !Keys(e) && !Unkeys(e)
  {
    assert 'P' !in e && 'T' !in e;
    NotInfixWithoutHead(e, "PTT TRUE");
    NotInfixWithoutHead(e, "T T");
    NotInfixWithoutHead(e, "PTT FALSE");
    NotInfixWithoutHead(e, "T F");
  }

  lemma MyCallPrefixes(e: string)
    requires e == "MYCALL"
    ensures !StartsWith(e, "BUFFER") && !StartsWith(e, "STATE") && !StartsWith(e, "FECSEND")
    ensures StartsWith(e, "MYCALL")
  {
    assert e[0] == 'M';
  }
}
