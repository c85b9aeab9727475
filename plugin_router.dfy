/**
 * The plugin manager: the dependency check run once the plugins are
 * loaded, the routing of a received frame to the plugins that handle its
 * protocol, and the hooks that are called on every plugin in turn.
 */
module PluginRouter {
  import opened Wrappers
  import opened Seqs
  import opened Utf8

  /** A `version` value: Python compares a number and a string as different whatever their text. */
  datatype Version = Str(s: string) | Num(literal: string)

  /** How `f"{version}"` renders a version. */
  function VersionText(v: Version): string {
    match v
    case Str(s) => s
    case Num(literal) => literal
  }

  datatype Dependency = Dependency(plugin: string, version: Version)

  /** The parts of a plugin's `definition` the manager reads; `handlers` is None when the key is missing. */
  datatype PluginDef = PluginDef(name: string, version: Version, handlers: Option<seq<string>>, dependsOn: seq<Dependency>)

  // ---------------------------------------------------------------------------
  // Dependencies

  /** No loaded plugin has the name with a different version. */
  predicate Met(plugins: seq<PluginDef>, name: string, version: Version) {
    forall i :: 0 <= i < |plugins| && plugins[i].name == name ==> plugins[i].version == version
  }

  /** Every dependency of every plugin, in plugin order and then declaration order. */
  function AllDeps(plugins: seq<PluginDef>): seq<Dependency> {
    if plugins == [] then [] else plugins[0].dependsOn + AllDeps(plugins[1..])
  }

  /** The first dependency in `deps` that is not met, if any. */
  function FirstUnmet(plugins: seq<PluginDef>, deps: seq<Dependency>): (r: Option<Dependency>)
    ensures r.Some? ==> r.value in deps && !Met(plugins, r.value.plugin, r.value.version)
    ensures r.None? <==> forall k :: 0 <= k < |deps| ==> Met(plugins, deps[k].plugin, deps[k].version)
  {
    if deps == [] then None
    else if !Met(plugins, deps[0].plugin, deps[0].version) then Some(deps[0])
    else
      var r := FirstUnmet(plugins, deps[1..]);
      assert forall k :: 1 <= k < |deps| ==> deps[k] == deps[1..][k - 1];
      r
  }

  /** The entry `are_dependencies_satisfied` logs for a dependency. */
  function DepText(d: Dependency): string {
    d.plugin + " " + VersionText(d.version)
  }

  lemma {:induction false} AllDepsSplit(plugins: seq<PluginDef>, i: nat)
    requires i < |plugins|
    ensures AllDeps(plugins) == AllDeps(plugins[..i]) + plugins[i].dependsOn + AllDeps(plugins[i + 1..])
  {
    if i > 0 {
      var tail := plugins[1..];
      AllDepsSplit(tail, i - 1);
      assert tail[..i - 1] == plugins[1..i] && tail[i - 1] == plugins[i] && tail[i..] == plugins[i + 1..];
      var a, b, c, d := plugins[0].dependsOn, AllDeps(plugins[1..i]), plugins[i].dependsOn, AllDeps(plugins[i + 1..]);
      assert AllDeps(plugins) == a + (b + c + d);
      assert AllDeps(plugins[..i]) == a + b by {
        assert plugins[..i][0] == plugins[0] && plugins[..i][1..] == plugins[1..i];
      }
      assert a + (b + c + d) == a + b + c + d;
    } else {
      assert plugins[..0] == [];
    }
  }

  lemma {:induction false} AllDepsPrefix(plugins: seq<PluginDef>, i: nat)
    requires i < |plugins|
    ensures AllDeps(plugins[..i + 1]) == AllDeps(plugins[..i]) + plugins[i].dependsOn
  {
    AllDepsSplit(plugins[..i + 1], i);
    assert plugins[..i + 1][..i] == plugins[..i];
    assert plugins[..i + 1][i + 1..] == [];
  }

  /** Met dependencies ahead of the rest do not change which one is first unmet. */
  lemma {:induction false} FirstUnmetSkips(plugins: seq<PluginDef>, met: seq<Dependency>, rest: seq<Dependency>)
    requires forall k :: 0 <= k < |met| ==> Met(plugins, met[k].plugin, met[k].version)
    ensures FirstUnmet(plugins, met + rest) == FirstUnmet(plugins, rest)
  {
    if met != [] {
      assert (met + rest)[0] == met[0];
      assert (met + rest)[1..] == met[1..] + rest;
      FirstUnmetSkips(plugins, met[1..], rest);
    } else {
      assert met + rest == rest;
    }
  }

  /** A dependency on a plugin that is not loaded counts as met. */
  lemma AbsentPluginIsMet(plugins: seq<PluginDef>, name: string, version: Version)
    requires forall i :: 0 <= i < |plugins| ==> plugins[i].name != name
    ensures Met(plugins, name, version)
  {
  }

  /** A number version and a string version never match, even with the same text. */
  lemma NumberNeverMeetsString(plugins: seq<PluginDef>, i: nat, name: string, text: string)
    requires i < |plugins| && plugins[i].name == name && plugins[i].version == Num(text)
    ensures !Met(plugins, name, Str(text))
  {
  }

  // ---------------------------------------------------------------------------
  // Routing a received frame

  /** A call the manager makes on a plugin, or a warning it shows about one, by position in the plugin list. */
  datatype Call =
    | Delivered(plugin: nat, header: Option<seq<byte>>, payload: seq<byte>)
    | VersionWarning(plugin: nat, remote: string)
    | Hooked(plugin: nat, hook: Hook)

  /** The lifecycle hooks that are called on every plugin. */
  datatype Hook =
    | CommandReceived(command: string)
    | DataLoadedIntoBuffer(data: seq<byte>)
    | TransmitBuffer | ClearBuffer | KeyTransmitter | UnkeyTransmitter
    | CreateSettingsMenu | SaveSettings | CreateWidgets | ArdopStateUpdate | Shutdown

  const Colon: byte := 0x3A

  /**
   * `header.split(b':')[n].decode()`; None when Python raises: AttributeError
   * on a missing (None) header, IndexError, or UnicodeDecodeError.
   */
  function HeaderField(header: Option<seq<byte>>, n: nat): (r: Option<string>)
    ensures header.None? ==> r.None?
    ensures r.Some? ==> header.Some? && n < |Split(header.value, Colon)| && Encode(r.value) == Split(header.value, Colon)[n]
  {
    if header.None? then None
    else
      var fields := Split(header.value, Colon);
      if n < |fields| then
        var d := Decode(fields[n]);
        if d.Some? then EncodeDecode(fields[n]); d else None
      else None
  }

  /** What the handler loop of one plugin produced: warnings, whether to deliver, whether Python raised. */
  datatype Scan = Scan(warnings: seq<Call>, matched: bool, crashed: bool)

  /** The handler loop for plugin `i` from the handler list `hs` on, `matched` saying whether an earlier handler matched. */
  function ScanHandlers(i: nat, version: Version, hs: seq<string>, header: Option<seq<byte>>, matched: bool): (r: Scan)
    ensures matched && !r.crashed ==> r.matched
    ensures forall k :: 0 <= k < |r.warnings| ==> r.warnings[k].VersionWarning? && r.warnings[k].plugin == i
    decreases |hs|
  {
    if hs == [] then Scan([], matched, false)
    else if hs[0] == "ALL" then ScanHandlers(i, version, hs[1..], header, true)
    else
      match HeaderField(header, 1)
      case None => Scan([], matched, true)
      case Some(protocol) =>
        if !IsInfix(protocol, hs[0]) then ScanHandlers(i, version, hs[1..], header, matched)
        else
          match HeaderField(header, 2)
          case None => Scan([], matched, true)
          case Some(remote) =>
            var w := if version != Str(remote) then [VersionWarning(i, remote)] else [];
            var rest := ScanHandlers(i, version, hs[1..], header, true);
            Scan(w + rest.warnings, rest.matched, rest.crashed)
  }

  /** Calls made by `on_data_received` on the plugins from position `i` on, and whether it raised. */
  datatype Dispatched = Dispatched(calls: seq<Call>, crashed: bool)

  function Dispatch(plugins: seq<PluginDef>, i: nat, header: Option<seq<byte>>, payload: seq<byte>): (r: Dispatched)
    requires i <= |plugins|
    decreases |plugins| - i
  {
    if i == |plugins| then Dispatched([], false)
    else
      match plugins[i].handlers
      case None => Dispatched([], true)
      case Some(hs) =>
        var s := ScanHandlers(i, plugins[i].version, hs, header, false);
        if s.crashed then Dispatched(s.warnings, true)
        else
          var d := if s.matched then [Delivered(i, header, payload)] else [];
          var rest := Dispatch(plugins, i + 1, header, payload);
          Dispatched(s.warnings + d + rest.calls, rest.crashed)
  }

  /** One of the handlers is `'ALL'` or occurs in the protocol field. */
  predicate Handles(hs: seq<string>, protocol: Option<string>) {
    exists k :: 0 <= k < |hs| && (hs[k] == "ALL" || (protocol.Some? && IsInfix(protocol.value, hs[k])))
  }

  /** The handler loop matches exactly when some handler is `'ALL'` or occurs in the protocol field. */
  lemma {:induction false} ScanMatches(i: nat, version: Version, hs: seq<string>, header: Option<seq<byte>>, matched: bool)
    requires !ScanHandlers(i, version, hs, header, matched).crashed
    ensures ScanHandlers(i, version, hs, header, matched).matched <==> matched || Handles(hs, HeaderField(header, 1))
    decreases |hs|
  {
    if hs != [] {
      var p := HeaderField(header, 1);
      var m' := matched || hs[0] == "ALL" || (p.Some? && IsInfix(p.value, hs[0]));
      ScanMatches(i, version, hs[1..], header, m');
      assert Handles(hs, p) <==> (hs[0] == "ALL" || (p.Some? && IsInfix(p.value, hs[0]))) || Handles(hs[1..], p) by {
        if Handles(hs[1..], p) {
          var k :| 0 <= k < |hs[1..]| && (hs[1..][k] == "ALL" || (p.Some? && IsInfix(p.value, hs[1..][k])));
          assert hs[k + 1] == hs[1..][k];
        }
        if Handles(hs, p) {
          var k :| 0 <= k < |hs| && (hs[k] == "ALL" || (p.Some? && IsInfix(p.value, hs[k])));
          if k > 0 { assert hs[1..][k - 1] == hs[k]; }
        }
      }
    }
  }

  /** A handler loop made only of `'ALL'` handlers never warns and never raises. */
  lemma {:induction false} AllHandlersNeverWarn(i: nat, version: Version, hs: seq<string>, header: Option<seq<byte>>, matched: bool)
    requires forall k :: 0 <= k < |hs| ==> hs[k] == "ALL"
    ensures ScanHandlers(i, version, hs, header, matched) == Scan([], matched || hs != [], false)
    decreases |hs|
  {
    if hs != [] {
      AllHandlersNeverWarn(i, version, hs[1..], header, true);
    }
  }

  /** How many handlers of `hs`, other than `'ALL'`, occur in the protocol field `protocol`. */
  function SpecificMatches(hs: seq<string>, protocol: string): (n: nat)
    ensures n <= |hs|
  {
    if hs == [] then 0
    else (if hs[0] != "ALL" && IsInfix(protocol, hs[0]) then 1 else 0) + SpecificMatches(hs[1..], protocol)
  }

  /**
   * When the loop does not raise, it warns exactly once per handler other
   * than `'ALL'` that occurs in the protocol field, and only when the
   * plugin's version differs from the frame's version field; every warning
   * carries that field.
   */
  lemma {:induction false} ScanWarnings(i: nat, version: Version, hs: seq<string>, header: Option<seq<byte>>, matched: bool)
    requires !ScanHandlers(i, version, hs, header, matched).crashed
    ensures var s := ScanHandlers(i, version, hs, header, matched);
      var p, remote := HeaderField(header, 1), HeaderField(header, 2);
      && |s.warnings| == (if p.Some? && remote.Some? && version != Str(remote.value) then SpecificMatches(hs, p.value) else 0)
      && forall k :: 0 <= k < |s.warnings| ==> remote.Some? && s.warnings[k] == VersionWarning(i, remote.value)
    decreases |hs|
  {
    if hs != [] {
      var p := HeaderField(header, 1);
      var m' := matched || hs[0] == "ALL" || (p.Some? && IsInfix(p.value, hs[0]));
      ScanWarnings(i, version, hs[1..], header, m');
    }
  }

  /**
   * The default handler list `['']` of the base plugin matches every frame
   * whose protocol field decodes, and warns when the frame's version field
   * differs from the plugin's.
   */
  lemma DefaultHandlerMatchesEverything(i: nat, version: Version, header: Option<seq<byte>>)
    requires HeaderField(header, 1).Some? && HeaderField(header, 2).Some?
    ensures var s := ScanHandlers(i, version, [""], header, false);
      && s.matched && !s.crashed
      && (s.warnings == [] <==> version == Str(HeaderField(header, 2).value))
  {
    assert StartsWith(HeaderField(header, 1).value, "");
  }

  /** Every call made from position `i` on concerns a plugin at or after `i`. */
  lemma {:induction false} DispatchFrom(plugins: seq<PluginDef>, i: nat, header: Option<seq<byte>>, payload: seq<byte>)
    requires i <= |plugins|
    ensures forall k :: 0 <= k < |Dispatch(plugins, i, header, payload).calls| ==>
      i <= Dispatch(plugins, i, header, payload).calls[k].plugin < |plugins|
    decreases |plugins| - i
  {
    if i < |plugins| && plugins[i].handlers.Some? {
      var s := ScanHandlers(i, plugins[i].version, plugins[i].handlers.value, header, false);
      DispatchFrom(plugins, i + 1, header, payload);
      if !s.crashed {
        var d := if s.matched then [Delivered(i, header, payload)] else [];
        var rest := Dispatch(plugins, i + 1, header, payload).calls;
        var calls := s.warnings + d + rest;
        assert calls == Dispatch(plugins, i, header, payload).calls;
        forall k | 0 <= k < |calls| ensures i <= calls[k].plugin < |plugins| {
          if k < |s.warnings| {
            assert calls[k] == s.warnings[k];
            assert s.warnings[k].plugin == i;
          } else if k < |s.warnings| + |d| {
            assert calls[k] == d[k - |s.warnings|];
            assert d[k - |s.warnings|].plugin == i;
          } else {
            assert calls[k] == rest[k - |s.warnings| - |d|];
            assert i + 1 <= rest[k - |s.warnings| - |d|].plugin < |plugins|;
          }
        }
      }
    }
  }

  /** How many calls in `calls` deliver to plugin `i`. */
  function DeliveryCount(calls: seq<Call>, i: nat): nat {
    if calls == [] then 0
    else (if calls[0].Delivered? && calls[0].plugin == i then 1 else 0) + DeliveryCount(calls[1..], i)
  }

  lemma {:induction false} DeliveryCountAppend(xs: seq<Call>, ys: seq<Call>, i: nat)
    ensures DeliveryCount(xs + ys, i) == DeliveryCount(xs, i) + DeliveryCount(ys, i)
  {
    if xs != [] {
      assert (xs + ys)[0] == xs[0];
      assert (xs + ys)[1..] == xs[1..] + ys;
      DeliveryCountAppend(xs[1..], ys, i);
    } else {
      assert xs + ys == ys;
    }
  }

  lemma {:induction false} NoDeliveries(calls: seq<Call>, i: nat)
    requires forall k :: 0 <= k < |calls| ==> !calls[k].Delivered? || calls[k].plugin != i
    ensures DeliveryCount(calls, i) == 0
  {
    if calls != [] {
      NoDeliveries(calls[1..], i);
    }
  }

  /**
   * When no exception is raised, plugin `i` receives the frame once if one
   * of its handlers is `'ALL'` or occurs in the protocol field, and never
   * otherwise; what is delivered is the header and payload unchanged.
   */
  lemma {:induction false} DeliveredExactlyToHandlers(plugins: seq<PluginDef>, start: nat, header: Option<seq<byte>>, payload: seq<byte>, i: nat)
    requires start <= i < |plugins|
    requires !Dispatch(plugins, start, header, payload).crashed
    ensures plugins[i].handlers.Some?
    ensures DeliveryCount(Dispatch(plugins, start, header, payload).calls, i) == if Handles(plugins[i].handlers.value, HeaderField(header, 1)) then 1 else 0
    decreases |plugins| - start
  {
    var hs := plugins[start].handlers.value;
    var s := ScanHandlers(start, plugins[start].version, hs, header, false);
    var d := if s.matched then [Delivered(start, header, payload)] else [];
    var rest := Dispatch(plugins, start + 1, header, payload);
    assert Dispatch(plugins, start, header, payload).calls == s.warnings + d + rest.calls;
    DeliveryCountAppend(s.warnings + d, rest.calls, i);
    DeliveryCountAppend(s.warnings, d, i);
    NoDeliveries(s.warnings, i);
    if i > start {
      DeliveredExactlyToHandlers(plugins, start + 1, header, payload, i);
      NoDeliveries(d, i);
    } else {
      ScanMatches(start, plugins[start].version, hs, header, false);
      DispatchFrom(plugins, start + 1, header, payload);
      NoDeliveries(rest.calls, i);
    }
  }

  /** Every delivery carries the header and payload it was given. */
  lemma DeliveriesUnchanged(plugins: seq<PluginDef>, start: nat, header: Option<seq<byte>>, payload: seq<byte>)
    requires start <= |plugins|
    ensures var calls := Dispatch(plugins, start, header, payload).calls;
      forall k :: 0 <= k < |calls| && calls[k].Delivered? ==> calls[k].header == header && calls[k].payload == payload
    decreases |plugins| - start
  {
    if start < |plugins| && plugins[start].handlers.Some? {
      DeliveriesUnchanged(plugins, start + 1, header, payload);
    }
  }

  // ---------------------------------------------------------------------------
  // A frame without a header

  /** The plugin's handler list is present and holds nothing but `'ALL'`. */
  predicate AllOnly(p: PluginDef) {
    p.handlers.Some? && forall k :: 0 <= k < |p.handlers.value| ==> p.handlers.value[k] == "ALL"
  }

  /** The deliveries of a missing header to the plugins `i` up to `m`, each of which is `AllOnly`. */
  function AllDelivered(plugins: seq<PluginDef>, i: nat, m: nat, payload: seq<byte>): (r: seq<Call>)
    requires i <= m <= |plugins|
    ensures |r| <= m - i
    ensures forall k :: 0 <= k < |r| ==> r[k].Delivered? && i <= r[k].plugin < m && r[k].header.None? && r[k].payload == payload
    decreases m - i
  {
    if i == m then []
    else
      var d := if plugins[i].handlers.Some? && plugins[i].handlers.value != [] then [Delivered(i, None, payload)] else [];
      d + AllDelivered(plugins, i + 1, m, payload)
  }

  /** With no header, a handler other than `'ALL'` makes the loop raise before any warning. */
  lemma {:induction false} NoHeaderScan(i: nat, version: Version, hs: seq<string>, matched: bool)
    requires exists k :: 0 <= k < |hs| && hs[k] != "ALL"
    ensures ScanHandlers(i, version, hs, None, matched).crashed
    ensures ScanHandlers(i, version, hs, None, matched).warnings == []
    decreases |hs|
  {
    if hs[0] == "ALL" {
      var k :| 0 <= k < |hs| && hs[k] != "ALL";
      assert hs[1..][k - 1] == hs[k];
      NoHeaderScan(i, version, hs[1..], true);
    }
  }

  /**
   * A frame whose header is None (one an `'ALL'` handler may be given) is
   * delivered to the `AllOnly` plugins in order, up to the first plugin that
   * is not: there Python raises, and no plugin after it hears of the frame.
   */
  lemma {:induction false} NoHeaderDispatch(plugins: seq<PluginDef>, i: nat, m: nat, payload: seq<byte>)
    requires i <= m <= |plugins|
    requires forall j :: i <= j < m ==> AllOnly(plugins[j])
    requires m < |plugins| ==> !AllOnly(plugins[m])
    ensures Dispatch(plugins, i, None, payload) == Dispatched(AllDelivered(plugins, i, m, payload), m < |plugins|)
    decreases m - i
  {
    if i < m {
      AllHandlersNeverWarn(i, plugins[i].version, plugins[i].handlers.value, None, false);
      NoHeaderDispatch(plugins, i + 1, m, payload);
    } else if i < |plugins| && plugins[i].handlers.Some? {
      var hs := plugins[i].handlers.value;
      var k :| 0 <= k < |hs| && hs[k] != "ALL";
      NoHeaderScan(i, plugins[i].version, hs, false);
    }
  }

  // ---------------------------------------------------------------------------
  // The manager

  class Manager {
    /** The loaded plugins, in load order. */
    const plugins: seq<PluginDef>
    var unmetDependencies: seq<string>
    /** Calls made on the plugins and warnings shown about them, in order. */
    var calls: seq<Call>
    /** The warning box about unmet dependencies was shown. */
    var dependencyWarning: bool

    /** Construction over an already loaded plugin list: check the dependencies once. */
    constructor (plugins: seq<PluginDef>)
      ensures this.plugins == plugins && calls == []
      ensures dependencyWarning <==> FirstUnmet(plugins, AllDeps(plugins)).Some?
      ensures unmetDependencies == if dependencyWarning then [DepText(FirstUnmet(plugins, AllDeps(plugins)).value)] else []
    {
      this.plugins := plugins;
      unmetDependencies, calls, dependencyWarning := [], [], false;
      new;
      var ok := AreDependenciesSatisfied();
      dependencyWarning := !ok;
    }

    /** `is_dependency_met`: false exactly when some loaded plugin has the name with a different version. */
    method IsDependencyMet(name: string, version: Version) returns (met: bool)
      ensures met <==> Met(plugins, name, version)
    {
      var i := 0;
      while i < |plugins|
        invariant 0 <= i <= |plugins|
        invariant forall j :: 0 <= j < i && plugins[j].name == name ==> plugins[j].version == version
      {
        if plugins[i].name == name && plugins[i].version != version {
          return false;
        }
        i := i + 1;
      }
      return true;
    }

    /**
     * `are_dependencies_satisfied`: true exactly when every dependency is
     * met; otherwise the first unmet one, in plugin and declaration order, is
     * logged once and the rest are not looked at.
     */
    method AreDependenciesSatisfied() returns (ok: bool)
      modifies this`unmetDependencies
      ensures ok <==> FirstUnmet(plugins, AllDeps(plugins)).None?
      ensures unmetDependencies == old(unmetDependencies) + (if ok then [] else [DepText(FirstUnmet(plugins, AllDeps(plugins)).value)])
    {
      var i := 0;
      while i < |plugins|
        invariant 0 <= i <= |plugins|
        invariant unmetDependencies == old(unmetDependencies)
        invariant forall k :: 0 <= k < |AllDeps(plugins[..i])| ==> Met(plugins, AllDeps(plugins[..i])[k].plugin, AllDeps(plugins[..i])[k].version)
      {
        var deps := plugins[i].dependsOn;
        var m := 0;
        while m < |deps|
          invariant 0 <= m <= |deps|
          invariant unmetDependencies == old(unmetDependencies)
          invariant forall k :: 0 <= k < m ==> Met(plugins, deps[k].plugin, deps[k].version)
        {
          var met := IsDependencyMet(deps[m].plugin, deps[m].version);
          if !met {
            unmetDependencies := unmetDependencies + [DepText(deps[m])];
            FirstUnmetAt(plugins, i, m);
            return false;
          }
          m := m + 1;
        }
        AllDepsPrefix(plugins, i);
        assert forall k :: 0 <= k < |deps| ==> Met(plugins, deps[k].plugin, deps[k].version);
        i := i + 1;
      }
      assert plugins[..|plugins|] == plugins;
      return true;
    }

    /**
     * `on_data_received`: the frame is offered to the plugins in list order;
     * the result says whether Python raised part-way (a missing `handlers`
     * key, a header with too few fields or one that is not UTF-8).
     */
    method OnDataReceived(header: Option<seq<byte>>, payload: seq<byte>) returns (crashed: bool)
      modifies this`calls
      ensures calls == old(calls) + Dispatch(plugins, 0, header, payload).calls
      ensures crashed == Dispatch(plugins, 0, header, payload).crashed
    {
      var i := 0;
      ghost var total := Dispatch(plugins, 0, header, payload);
      ghost var goal := old(calls) + total.calls;
      while i < |plugins|
        invariant 0 <= i <= |plugins|
        invariant calls + Dispatch(plugins, i, header, payload).calls == goal
        invariant Dispatch(plugins, i, header, payload).crashed == total.crashed
      {
        DispatchStep(plugins, i, header, payload);
        if plugins[i].handlers.None? {
          return true;
        }
        ghost var c0 := calls;
        ghost var s := ScanHandlers(i, plugins[i].version, plugins[i].handlers.value, header, false);
        ghost var rest := Dispatch(plugins, i + 1, header, payload);
        var matched, raised := ScanPlugin(i, header);
        if raised {
          assert calls == c0 + Dispatch(plugins, i, header, payload).calls;
          return true;
        }
        if matched {
          calls := calls + [Delivered(i, header, payload)];
        }
        ghost var mid := if matched then [Delivered(i, header, payload)] else [];
        assert calls == c0 + s.warnings + mid;
        assert Dispatch(plugins, i, header, payload).calls == s.warnings + mid + rest.calls;
        Regroup4(c0, s.warnings, mid, rest.calls);
        assert calls + rest.calls == goal && rest.crashed == total.crashed;
        i := i + 1;
      }
      return false;
    }

    /** The handler loop of `on_data_received` for plugin `i`. */
    method ScanPlugin(i: nat, header: Option<seq<byte>>) returns (matched: bool, raised: bool)
      requires i < |plugins| && plugins[i].handlers.Some?
      modifies this`calls
      ensures var s := ScanHandlers(i, plugins[i].version, plugins[i].handlers.value, header, false);
        calls == old(calls) + s.warnings && matched == s.matched && raised == s.crashed
    {
      var hs := plugins[i].handlers.value;
      var version := plugins[i].version;
      matched := false;
      var k := 0;
      while k < |hs|
        invariant 0 <= k <= |hs|
        invariant var s := ScanHandlers(i, version, hs[k..], header, matched); var s0 := ScanHandlers(i, version, hs, header, false);
          calls + s.warnings == old(calls) + s0.warnings && s.matched == s0.matched && s.crashed == s0.crashed
      {
        assert hs[k..][1..] == hs[k + 1..];
        if hs[k] == "ALL" {
          matched := true;
        } else {
          var protocol := HeaderField(header, 1);
          if protocol.None? {
            return matched, true;
          }
          if IsInfix(protocol.value, hs[k]) {
            var remote := HeaderField(header, 2);
            if remote.None? {
              return matched, true;
            }
            if version != Str(remote.value) {
              calls := calls + [VersionWarning(i, remote.value)];
            }
            matched := true;
          }
        }
        k := k + 1;
      }
      assert hs[|hs|..] == [];
      return matched, false;
    }

    /** A lifecycle fan-out: the same hook once on every plugin, in list order, and nothing else. */
    method FanOut(hook: Hook)
      modifies this`calls
      ensures |calls| == |old(calls)| + |plugins| && calls[..|old(calls)|] == old(calls)
      ensures forall k :: 0 <= k < |plugins| ==> calls[|old(calls)| + k] == Hooked(k, hook)
    {
      var i := 0;
      while i < |plugins|
        invariant 0 <= i <= |plugins|
        invariant |calls| == |old(calls)| + i && calls[..|old(calls)|] == old(calls)
        invariant forall k :: 0 <= k < i ==> calls[|old(calls)| + k] == Hooked(k, hook)
      {
        calls := calls + [Hooked(i, hook)];
        i := i + 1;
      }
    }
  }

  /** `Dispatch` at one position, unfolded. */
  lemma DispatchStep(plugins: seq<PluginDef>, i: nat, header: Option<seq<byte>>, payload: seq<byte>)
    requires i < |plugins|
    ensures plugins[i].handlers.None? ==> Dispatch(plugins, i, header, payload) == Dispatched([], true)
    ensures plugins[i].handlers.Some? ==>
      var s := ScanHandlers(i, plugins[i].version, plugins[i].handlers.value, header, false);
      var rest := Dispatch(plugins, i + 1, header, payload);
      Dispatch(plugins, i, header, payload) ==
        if s.crashed then Dispatched(s.warnings, true)
        else Dispatched(s.warnings + (if s.matched then [Delivered(i, header, payload)] else []) + rest.calls, rest.crashed)
  {
  }

  /** The dependency at `(i, m)` is unmet and all that come before it are met: it is the first unmet one. */
  lemma FirstUnmetAt(plugins: seq<PluginDef>, i: nat, m: nat)
    requires i < |plugins| && m < |plugins[i].dependsOn|
    requires forall k :: 0 <= k < |AllDeps(plugins[..i])| ==> Met(plugins, AllDeps(plugins[..i])[k].plugin, AllDeps(plugins[..i])[k].version)
    requires forall k :: 0 <= k < m ==> Met(plugins, plugins[i].dependsOn[k].plugin, plugins[i].dependsOn[k].version)
    requires !Met(plugins, plugins[i].dependsOn[m].plugin, plugins[i].dependsOn[m].version)
    ensures FirstUnmet(plugins, AllDeps(plugins)) == Some(plugins[i].dependsOn[m])
  {
    var deps := plugins[i].dependsOn;
    var before := AllDeps(plugins[..i]) + deps[..m];
    AllDepsSplit(plugins, i);
    assert AllDeps(plugins) == before + (deps[m..] + AllDeps(plugins[i + 1..])) by {
      assert deps == deps[..m] + deps[m..];
    }
    FirstUnmetSkips(plugins, before, deps[m..] + AllDeps(plugins[i + 1..]));
    assert (deps[m..] + AllDeps(plugins[i + 1..]))[0] == deps[m];
  }

  // ---------------------------------------------------------------------------
  // The repository's own definitions

  const CoreDep: Dependency := Dependency("Core", Str("0.1"))

  /** Core, the ARDOPCF transport (whose version is the number 0.1) and the ALE plugin that depends on it by the string '0.1'. */
  function ShippedPlugins(coreVersion: Version): seq<PluginDef> {
    [ PluginDef("Core", coreVersion, Some([]), []),
      PluginDef("ARDOPCF", Num("0.1"), Some([]), [CoreDep]),
      PluginDef("ardopALE", Str("0.1"), Some([""]), [CoreDep, Dependency("ARDOPCF", Str("0.1")), Dependency("Hamlib", Str("0.1"))]) ]
  }

  /** With Core at '0.1', the first unmet dependency is the ALE plugin's on ARDOPCF, logged as `ARDOPCF 0.1`. */
  lemma ShippedDependencyUnmet()
    ensures FirstUnmet(ShippedPlugins(Str("0.1")), AllDeps(ShippedPlugins(Str("0.1")))) == Some(Dependency("ARDOPCF", Str("0.1")))
  {
    var ps := ShippedPlugins(Str("0.1"));
    var ardop := Dependency("ARDOPCF", Str("0.1"));
    var hamlib := Dependency("Hamlib", Str("0.1"));
    AllDepsOfThree(ps[0], ps[1], ps[2]);
    assert ps == [ps[0], ps[1], ps[2]];
    assert AllDeps(ps) == [CoreDep, CoreDep, ardop, hamlib];
    assert Met(ps, "Core", Str("0.1"));
    NumberNeverMeetsString(ps, 1, "ARDOPCF", "0.1");
    FirstUnmetThird(ps, CoreDep, CoreDep, ardop, hamlib);
  }

  /** The entry logged for that dependency. */
  lemma ShippedDependencyText()
    ensures DepText(Dependency("ARDOPCF", Str("0.1"))) == "ARDOPCF 0.1"
  {
  }

  lemma AllDepsOfThree(p0: PluginDef, p1: PluginDef, p2: PluginDef)
    ensures AllDeps([p0, p1, p2]) == p0.dependsOn + p1.dependsOn + p2.dependsOn
  {
    assert [p0, p1, p2][1..] == [p1, p2] && [p1, p2][1..] == [p2] && [p2][1..] == [];
    assert AllDeps([p2]) == p2.dependsOn + [];
    assert AllDeps([p1, p2]) == p1.dependsOn + AllDeps([p2]);
    assert AllDeps([p0, p1, p2]) == p0.dependsOn + AllDeps([p1, p2]);
    Regroup3(p0.dependsOn, p1.dependsOn, p2.dependsOn);
  }

  lemma FirstUnmetThird(plugins: seq<PluginDef>, a: Dependency, b: Dependency, c: Dependency, d: Dependency)
    requires Met(plugins, a.plugin, a.version) && Met(plugins, b.plugin, b.version) && !Met(plugins, c.plugin, c.version)
    ensures FirstUnmet(plugins, [a, b, c, d]) == Some(c)
  {
    assert [a, b, c, d][1..] == [b, c, d] && [b, c, d][1..] == [c, d];
    assert FirstUnmet(plugins, [c, d]) == Some(c);
    assert FirstUnmet(plugins, [b, c, d]) == Some(c);
  }
}
