/** The smart-hotspot loop (smarthotspot.go): every few seconds scan for known
    networks; leave hotspot mode for the supplicant as soon as one is in
    range, and fall back to hotspot mode once none has been seen for longer
    than a grace window. One iteration of the loop is one `Tick`. */
module SmartHotspot {
  import opened Results
  import opened WpaConf
  import opened WifiManager
  import opened WpaSupplicant
  import opened Hostapd

  /** Go's `time.Second`, in nanoseconds, the unit of `time.Duration`. */
  const Second: int := 1_000_000_000

  /** How long no known network may be seen before the hotspot starts. */
  const GraceWindow: int := 10 * Second

  /** The loop's state: the manager and the last instant from which the
      absence of known networks is measured, in nanoseconds. */
  datatype LoopState = LoopState(wm: Manager, noKnownSince: int)

  /** The supplicant may run only while the hotspot does not. */
  predicate Exclusive(wm: Manager) {
    !(wm.hostapd.Some? && wm.supplicant.Some?)
  }

  /** hostapd and dnsmasq are either both recorded or both absent, which is
      what `StopHotspot` needs not to dereference a nil handle. */
  predicate Paired(wm: Manager) {
    wm.hostapd.Some? <==> wm.dnsmasq.Some?
  }

  /** The set-up before the loop: bring the interface up, exiting the process
      if that fails, and start measuring from `now`. */
  function Start(wm: Manager, now: int, ifUp: Outcome): (r: Exec<LoopState>)
    ensures r.Exited? <==> ifUp.Fail?
    ensures r.Returned? ==> r.value.wm == wm && r.value.noKnownSince == now
    ensures !r.Panicked?
  {
    if ifUp.Fail? then Exited else Returned(LoopState(wm, now))
  }

  /** The first rule: a known network is in range while the hotspot runs.
      Stop the hotspot and start the supplicant on the manager's
      configuration; when that works, the silence is measured afresh from
      `restampAt`. A supplicant that fails to start is only logged. */
  function LeaveHotspot(s: LoopState, iface: string, restampAt: int, cmds: Commands): (r: Exec<LoopState>)
    ensures !r.Exited?
    ensures r.Panicked? <==>
      (s.wm.hostapd.Some? != s.wm.dnsmasq.Some?)
      || (cmds.reset.Pass? && !cmds.wrap(SupplicantCommand(iface, s.wm.wpaConfPath)))
    ensures r.Returned? ==> r.value.wm.hostapd.None? && r.value.wm.dnsmasq.None?
    ensures r.Returned? ==> r.value.wm.knownSsids == s.wm.knownSsids && r.value.wm.wpaConfPath == s.wm.wpaConfPath
    ensures r.Returned? ==>
      if cmds.reset.Pass?
      then r.value.noKnownSince == restampAt && r.value.wm.supplicant == Some(SupplicantCommand(iface, s.wm.wpaConfPath))
      else r.value.noKnownSince == s.noKnownSince && r.value.wm.supplicant == s.wm.supplicant
  {
    match StopHotspot(s.wm)
    case Panicked => Panicked
    case Exited => Exited
    case Returned(wm1) =>
      match StartWPASupplicant(wm1, iface, wm1.wpaConfPath, cmds)
      case Panicked => Panicked
      case Exited => Exited
      case Returned(d) =>
        Returned(LoopState(d.wm, if d.err.None? then restampAt else s.noKnownSince))
  }

  /** The second rule: no known network for longer than the grace window and
      no hotspot. Stop the supplicant and, if that worked, start the hotspot;
      failures are only logged and the timestamp is left alone. */
  function EnterHotspot(s: LoopState, iface: string, cmds: Commands): (r: LoopState)
    ensures r.noKnownSince == s.noKnownSince
    ensures r.wm.knownSsids == s.wm.knownSsids && r.wm.wpaConfPath == s.wm.wpaConfPath
    ensures s.wm.supplicant.Some? && cmds.kill.Fail? ==> r == s
    ensures r != s ==> r.wm.supplicant.None?
    ensures (s.wm.supplicant.None? || cmds.kill.Pass?) && (cmds.reset.Fail? || cmds.run(IfconfigCommand(iface)).Fail?) ==>
      r.wm == s.wm.(supplicant := None)
    ensures (s.wm.supplicant.None? || cmds.kill.Pass?) && cmds.reset.Pass? && cmds.run(IfconfigCommand(iface)).Pass? ==>
      && r.wm.supplicant.None?
      && (r.wm.hostapd.Some? <==> cmds.wrap(HostapdCommand))
      && (cmds.wrap(HostapdCommand) ==> (r.wm.dnsmasq.Some? <==> cmds.wrap(DnsmasqCommand(iface, cmds.tempConf))))
      && (!cmds.wrap(HostapdCommand) ==> r.wm.dnsmasq == s.wm.dnsmasq)
  {
    var d := StopWPASupplicant(s.wm, cmds.kill);
    if d.err.Some? then s
    else LoopState(StartHotspot(d.wm, iface, cmds).wm, s.noKnownSince)
  }

  /** One iteration of the loop. `ifaces` is what listing and scanning the
      wireless interfaces produced, `now` the time taken after the scan and
      `restampAt` the time taken after the supplicant started. A failed scan
      changes nothing. */
  function Tick(s: LoopState, iface: string, ifaces: Result<seq<ScanOutcome>, string>,
                now: int, restampAt: int, cmds: Commands): (r: Exec<LoopState>)
    ensures !r.Exited?
    ensures r.Returned? ==>
      r.value.wm.knownSsids == s.wm.knownSsids && r.value.wm.wpaConfPath == s.wm.wpaConfPath
  {
    match ScanForKnownSSID(s.wm.knownSsids, ifaces)
    case Failure(_) => Returned(s)
    case Success(ssids) =>
      var r1 := if |ssids| > 0 && s.wm.hostapd.Some? then LeaveHotspot(s, iface, restampAt, cmds) else Returned(s);
      match r1
      case Panicked => Panicked
      case Exited => Exited
      case Returned(s1) =>
        if |ssids| == 0 && now - s1.noKnownSince > GraceWindow && s1.wm.hostapd.None?
        then Returned(EnterHotspot(s1, iface, cmds))
        else Returned(s1)
  }

  /** What the outside world supplies to one iteration. */
  datatype Input = Input(ifaces: Result<seq<ScanOutcome>, string>, now: int, restampAt: int, cmds: Commands)

  /** Iterations of the loop, one per input, stopping at a panic. */
  function Run(s: LoopState, iface: string, inputs: seq<Input>): (r: Exec<LoopState>)
    ensures !r.Exited?
    ensures |inputs| == 0 ==> r == Returned(s)
    ensures r.Returned? ==>
      r.value.wm.knownSsids == s.wm.knownSsids && r.value.wm.wpaConfPath == s.wm.wpaConfPath
    decreases |inputs|
  {
    if |inputs| == 0 then Returned(s)
    else
      var i := inputs[0];
      match Tick(s, iface, i.ifaces, i.now, i.restampAt, i.cmds)
      case Returned(s1) => Run(s1, iface, inputs[1..])
      case Panicked => Panicked
      case Exited => Exited
  }

  // ---------------------------------------------------------------------
  // Lemmas

  /** A scan that fails leaves everything as it was. */
  lemma ScanFailureChangesNothing(s: LoopState, iface: string, ifaces: Result<seq<ScanOutcome>, string>,
                                  now: int, restampAt: int, cmds: Commands)
    requires ScanForKnownSSID(s.wm.knownSsids, ifaces).Failure?
    ensures Tick(s, iface, ifaces, now, restampAt, cmds) == Returned(s)
  {
  }

  /** At most one rule fires: leaving the hotspot needs a known network in
      range, entering it needs none, and which applies is decided by whether
      hostapd is recorded. */
  lemma TickFiresAtMostOneRule(s: LoopState, iface: string, ifaces: Result<seq<ScanOutcome>, string>,
                               now: int, restampAt: int, cmds: Commands)
    requires ScanForKnownSSID(s.wm.knownSsids, ifaces).Success?
    ensures var ssids := ScanForKnownSSID(s.wm.knownSsids, ifaces).value;
      Tick(s, iface, ifaces, now, restampAt, cmds) ==
        if |ssids| > 0 && s.wm.hostapd.Some? then LeaveHotspot(s, iface, restampAt, cmds)
        else if |ssids| == 0 && now - s.noKnownSince > GraceWindow && s.wm.hostapd.None?
        then Returned(EnterHotspot(s, iface, cmds))
        else Returned(s)
  {
  }

  /** With a known network in range and no hotspot, the loop leaves the
      connection alone. */
  lemma StaysConnected(s: LoopState, iface: string, ifaces: Result<seq<ScanOutcome>, string>,
                       now: int, restampAt: int, cmds: Commands)
    requires s.wm.hostapd.None?
    requires ScanForKnownSSID(s.wm.knownSsids, ifaces).Success?
    requires |ScanForKnownSSID(s.wm.knownSsids, ifaces).value| > 0
    ensures Tick(s, iface, ifaces, now, restampAt, cmds) == Returned(s)
  {
  }

  /** With the hotspot running and no known network in range, the loop keeps
      the hotspot. */
  lemma StaysHotspot(s: LoopState, iface: string, ifaces: Result<seq<ScanOutcome>, string>,
                     now: int, restampAt: int, cmds: Commands)
    requires s.wm.hostapd.Some?
    requires ScanForKnownSSID(s.wm.knownSsids, ifaces) == Success(multiset{})
    ensures Tick(s, iface, ifaces, now, restampAt, cmds) == Returned(s)
  {
  }

  /** Within the grace window nothing happens without a known network. */
  lemma WaitsOutGraceWindow(s: LoopState, iface: string, ifaces: Result<seq<ScanOutcome>, string>,
                            now: int, restampAt: int, cmds: Commands)
    requires ScanForKnownSSID(s.wm.knownSsids, ifaces) == Success(multiset{})
    requires now - s.noKnownSince <= GraceWindow
    ensures Tick(s, iface, ifaces, now, restampAt, cmds) == Returned(s)
  {
  }

  /** The hotspot comes on only after a successful scan that found no known
      network, more than the grace window after the timestamp. */
  lemma HotspotOnlyAfterSilence(s: LoopState, iface: string, ifaces: Result<seq<ScanOutcome>, string>,
                                now: int, restampAt: int, cmds: Commands)
    requires s.wm.hostapd.None?
    requires Tick(s, iface, ifaces, now, restampAt, cmds).Returned?
    requires Tick(s, iface, ifaces, now, restampAt, cmds).value.wm.hostapd.Some?
    ensures ScanForKnownSSID(s.wm.knownSsids, ifaces) == Success(multiset{})
    ensures now - s.noKnownSince > GraceWindow
  {
  }

  /** The timestamp changes only when the loop left hotspot mode and started
      the supplicant, and then it becomes the time taken after that start. */
  lemma TimestampOnlyOnReconnect(s: LoopState, iface: string, ifaces: Result<seq<ScanOutcome>, string>,
                                 now: int, restampAt: int, cmds: Commands)
    requires Tick(s, iface, ifaces, now, restampAt, cmds).Returned?
    requires Tick(s, iface, ifaces, now, restampAt, cmds).value.noKnownSince != s.noKnownSince
    ensures s.wm.hostapd.Some?
    ensures Tick(s, iface, ifaces, now, restampAt, cmds).value.noKnownSince == restampAt
    ensures Tick(s, iface, ifaces, now, restampAt, cmds).value.wm.supplicant.Some?
  {
  }

  /** A known network in range ends hotspot mode: when every command works,
      one iteration stops hostapd and dnsmasq, starts the supplicant and
      restarts the silence measurement. */
  lemma LeavesHotspotWhenKnownSeen(s: LoopState, iface: string, ifaces: Result<seq<ScanOutcome>, string>,
                                   now: int, restampAt: int, cmds: Commands)
    requires s.wm.hostapd.Some? && s.wm.dnsmasq.Some?
    requires ScanForKnownSSID(s.wm.knownSsids, ifaces).Success?
    requires |ScanForKnownSSID(s.wm.knownSsids, ifaces).value| > 0
    requires cmds.reset.Pass? && cmds.wrap(SupplicantCommand(iface, s.wm.wpaConfPath))
    ensures Tick(s, iface, ifaces, now, restampAt, cmds).Returned?
    ensures var t := Tick(s, iface, ifaces, now, restampAt, cmds).value;
      && t.wm.hostapd.None? && t.wm.dnsmasq.None?
      && t.wm.supplicant == Some(SupplicantCommand(iface, s.wm.wpaConfPath))
      && t.noKnownSince == restampAt
  {
  }

  /** Never both: an iteration that returns keeps the supplicant and the
      hotspot from running together. */
  lemma TickKeepsExclusive(s: LoopState, iface: string, ifaces: Result<seq<ScanOutcome>, string>,
                           now: int, restampAt: int, cmds: Commands)
    requires Exclusive(s.wm)
    requires Tick(s, iface, ifaces, now, restampAt, cmds).Returned?
    ensures Exclusive(Tick(s, iface, ifaces, now, restampAt, cmds).value.wm)
  {
  }

  /** The commands an iteration may need all wrap. */
  predicate Wraps(iface: string, confPath: string, cmds: Commands) {
    && cmds.wrap(SupplicantCommand(iface, confPath))
    && cmds.wrap(HostapdCommand)
    && cmds.wrap(DnsmasqCommand(iface, cmds.tempConf))
  }

  /** With every command line wrapping, an iteration from paired handles
      cannot panic and keeps the handles paired. */
  lemma TickKeepsPaired(s: LoopState, iface: string, ifaces: Result<seq<ScanOutcome>, string>,
                        now: int, restampAt: int, cmds: Commands)
    requires Paired(s.wm)
    requires Wraps(iface, s.wm.wpaConfPath, cmds)
    ensures Tick(s, iface, ifaces, now, restampAt, cmds).Returned?
    ensures Paired(Tick(s, iface, ifaces, now, restampAt, cmds).value.wm)
    ensures Tick(s, iface, ifaces, now, restampAt, cmds).value.wm.wpaConfPath == s.wm.wpaConfPath
  {
  }

  /** Every input lets every command line wrap. */
  predicate AllWrap(iface: string, confPath: string, inputs: seq<Input>) {
    forall k :: 0 <= k < |inputs| ==> Wraps(iface, confPath, inputs[k].cmds)
  }

  /** Over any run in which every command line wraps, the loop started with
      no daemons never panics and never has the supplicant and the hotspot,
      or only half of the hotspot, running. */
  lemma {:induction false} RunKeepsInvariants(s: LoopState, iface: string, inputs: seq<Input>)
    requires Exclusive(s.wm) && Paired(s.wm)
    requires AllWrap(iface, s.wm.wpaConfPath, inputs)
    ensures Run(s, iface, inputs).Returned?
    ensures Exclusive(Run(s, iface, inputs).value.wm) && Paired(Run(s, iface, inputs).value.wm)
    decreases |inputs|
  {
    if |inputs| > 0 {
      var i := inputs[0];
      assert Wraps(iface, s.wm.wpaConfPath, i.cmds);
      TickKeepsPaired(s, iface, i.ifaces, i.now, i.restampAt, i.cmds);
      TickKeepsExclusive(s, iface, i.ifaces, i.now, i.restampAt, i.cmds);
      var s1 := Tick(s, iface, i.ifaces, i.now, i.restampAt, i.cmds).value;
      assert AllWrap(iface, s1.wm.wpaConfPath, inputs[1..]) by {
        forall k | 0 <= k < |inputs[1..]|
          ensures Wraps(iface, s1.wm.wpaConfPath, inputs[1..][k].cmds)
        {
          assert inputs[1..][k] == inputs[k + 1];
        }
      }
      RunKeepsInvariants(s1, iface, inputs[1..]);
    }
  }

  /** A manager fresh from `NewWifiManager` satisfies both invariants, so
      the whole loop keeps them. */
  lemma LoopFromNewManager(fs: map<string, FileEntry>, path: string, iface: string,
                           now: int, ifUp: Outcome, inputs: seq<Input>)
    requires NewWifiManager(fs, path).Success?
    requires ifUp.Pass?
    requires AllWrap(iface, path, inputs)
    ensures Start(NewWifiManager(fs, path).value, now, ifUp).Returned?
    ensures var s := Start(NewWifiManager(fs, path).value, now, ifUp).value;
      Run(s, iface, inputs).Returned? && Exclusive(Run(s, iface, inputs).value.wm)
  {
    var s := Start(NewWifiManager(fs, path).value, now, ifUp).value;
    RunKeepsInvariants(s, iface, inputs);
  }

  // ---------------------------------------------------------------------
  // The grace window and the last sighting

  /** A scan on one interface that sees exactly the ssid `home`. */
  const SeesHome: Result<seq<ScanOutcome>, string> := Success([Scanned(["home"])])

  /** A scan on one interface that sees nothing. */
  const SeesNothing: Result<seq<ScanOutcome>, string> := Success([Scanned([])])

  lemma HomeSighted(known: set<string>)
    requires "home" in known
    ensures ScanForKnownSSID(known, SeesHome).Success?
    ensures |ScanForKnownSSID(known, SeesHome).value| > 0
  {
    SightedCount(known, [Scanned(["home"])], "home");
    assert Sightings("home", [Scanned(["home"])]) == 1;
  }

  lemma NothingSighted(known: set<string>)
    ensures ScanForKnownSSID(known, SeesNothing) == Success(multiset{})
  {
    assert AllSighted(known, [Scanned([])]) == multiset{};
  }

  /** As written, a sighting in client mode does not restart the silence
      measurement: with the stamp at 0, a scan at 60 s that sees the known
      network `home` changes nothing, and a scan at 63 s that sees nothing
      starts the hotspot at once, after only 3 s without a known network. */
  lemma HotspotSoonAfterSighting(s: LoopState, iface: string, restampAt: int, cmds: Commands)
    requires "home" in s.wm.knownSsids
    requires s.wm.hostapd.None? && s.noKnownSince == 0
    requires cmds.kill.Pass? && cmds.reset.Pass? && cmds.run(IfconfigCommand(iface)).Pass? && cmds.wrap(HostapdCommand)
    ensures Tick(s, iface, SeesHome, 60 * Second, restampAt, cmds) == Returned(s)
    ensures Tick(s, iface, SeesNothing, 63 * Second, restampAt, cmds).Returned?
    ensures Tick(s, iface, SeesNothing, 63 * Second, restampAt, cmds).value.wm.hostapd.Some?
    ensures 63 * Second - 60 * Second <= GraceWindow
  {
    HomeSighted(s.wm.knownSsids);
    NothingSighted(s.wm.knownSsids);
  }

  /** One iteration of the loop as its opening comment describes it: a scan
      that sees a known network also restarts the silence measurement, at the
      time read after the scan; everything else is `Tick`. */
  function TickRestamping(s: LoopState, iface: string, ifaces: Result<seq<ScanOutcome>, string>,
                          now: int, restampAt: int, cmds: Commands): (r: Exec<LoopState>)
    ensures !r.Exited?
    ensures r.Returned? ==>
      r.value.wm.knownSsids == s.wm.knownSsids && r.value.wm.wpaConfPath == s.wm.wpaConfPath
  {
    match ScanForKnownSSID(s.wm.knownSsids, ifaces)
    case Failure(_) => Returned(s)
    case Success(ssids) =>
      Tick(if |ssids| > 0 then s.(noKnownSince := now) else s, iface, ifaces, now, restampAt, cmds)
  }

  /** Restamping changes nothing but the stamp: the same iterations panic,
      the same processes run, and a scan without a sighting is handled
      exactly as before. */
  lemma RestampingOnlyMovesStamp(s: LoopState, iface: string, ifaces: Result<seq<ScanOutcome>, string>,
                                 now: int, restampAt: int, cmds: Commands)
    ensures TickRestamping(s, iface, ifaces, now, restampAt, cmds).Returned?
        <==> Tick(s, iface, ifaces, now, restampAt, cmds).Returned?
    ensures TickRestamping(s, iface, ifaces, now, restampAt, cmds).Returned? ==>
      TickRestamping(s, iface, ifaces, now, restampAt, cmds).value.wm == Tick(s, iface, ifaces, now, restampAt, cmds).value.wm
    ensures !Hit(s.wm.knownSsids, ifaces) ==>
      TickRestamping(s, iface, ifaces, now, restampAt, cmds) == Tick(s, iface, ifaces, now, restampAt, cmds)
  {
    var scan := ScanForKnownSSID(s.wm.knownSsids, ifaces);
    if scan.Success? && |scan.value| > 0 && s.wm.hostapd.Some? {
      LeaveHotspotIgnoresStamp(s, iface, restampAt, now, cmds);
    }
  }

  /** Leaving hotspot mode does not look at the stamp it is given. */
  lemma LeaveHotspotIgnoresStamp(s: LoopState, iface: string, restampAt: int, t: int, cmds: Commands)
    ensures LeaveHotspot(s.(noKnownSince := t), iface, restampAt, cmds).Returned?
        <==> LeaveHotspot(s, iface, restampAt, cmds).Returned?
    ensures LeaveHotspot(s, iface, restampAt, cmds).Returned? ==>
      LeaveHotspot(s.(noKnownSince := t), iface, restampAt, cmds).value.wm == LeaveHotspot(s, iface, restampAt, cmds).value.wm
  {
    assert s.(noKnownSince := t).wm == s.wm;
  }

  /** Iterations of the restamping loop, one per input, stopping at a panic. */
  function RunRestamping(s: LoopState, iface: string, inputs: seq<Input>): (r: Exec<LoopState>)
    ensures !r.Exited?
    ensures r.Returned? ==> r.value.wm.knownSsids == s.wm.knownSsids
    decreases |inputs|
  {
    if |inputs| == 0 then Returned(s)
    else
      var i := inputs[0];
      match TickRestamping(s, iface, i.ifaces, i.now, i.restampAt, i.cmds)
      case Returned(s1) => RunRestamping(s1, iface, inputs[1..])
      case Panicked => Panicked
      case Exited => Exited
  }

  /** Whether a scan saw a known network. */
  predicate Hit(known: set<string>, ifaces: Result<seq<ScanOutcome>, string>) {
    ScanForKnownSSID(known, ifaces).Success? && |ScanForKnownSSID(known, ifaces).value| > 0
  }

  /** The clock never runs backwards: within an iteration the restamp time
      follows the scan time, and the next iteration's scan follows both. */
  predicate Clocked(inputs: seq<Input>) {
    && (forall k :: 0 <= k < |inputs| ==> inputs[k].now <= inputs[k].restampAt)
    && (forall k :: 0 <= k < |inputs| - 1 ==> inputs[k].restampAt <= inputs[k + 1].now)
  }

  /** One restamping iteration: the stamp never moves back, never passes the
      restamp time, and after a sighting is at least the scan time. */
  lemma TickRestampingStamp(s: LoopState, iface: string, i: Input)
    requires s.noKnownSince <= i.now <= i.restampAt
    requires TickRestamping(s, iface, i.ifaces, i.now, i.restampAt, i.cmds).Returned?
    ensures var t := TickRestamping(s, iface, i.ifaces, i.now, i.restampAt, i.cmds).value;
      && s.noKnownSince <= t.noKnownSince <= i.restampAt
      && (Hit(s.wm.knownSsids, i.ifaces) ==> i.now <= t.noKnownSince)
  {
  }

  /** Over a run with a forward-running clock, the stamp is at least the
      scan time of every iteration that saw a known network. */
  lemma {:induction false} RunRestampingStamp(s: LoopState, iface: string, inputs: seq<Input>)
    requires Clocked(inputs)
    requires |inputs| > 0 ==> s.noKnownSince <= inputs[0].now
    requires RunRestamping(s, iface, inputs).Returned?
    ensures var t := RunRestamping(s, iface, inputs).value;
      && s.noKnownSince <= t.noKnownSince
      && (|inputs| > 0 ==> t.noKnownSince <= inputs[|inputs| - 1].restampAt)
      && forall j :: 0 <= j < |inputs| && Hit(s.wm.knownSsids, inputs[j].ifaces) ==> inputs[j].now <= t.noKnownSince
    decreases |inputs|
  {
    if |inputs| > 0 {
      var i := inputs[0];
      TickRestampingStamp(s, iface, i);
      var s1 := TickRestamping(s, iface, i.ifaces, i.now, i.restampAt, i.cmds).value;
      var rest := inputs[1..];
      assert Clocked(rest) by {
        forall k | 0 <= k < |rest| ensures rest[k].now <= rest[k].restampAt {
          assert rest[k] == inputs[k + 1];
        }
        forall k | 0 <= k < |rest| - 1 ensures rest[k].restampAt <= rest[k + 1].now {
          assert rest[k] == inputs[k + 1] && rest[k + 1] == inputs[k + 2];
        }
      }
      RunRestampingStamp(s1, iface, rest);
      var t := RunRestamping(s, iface, inputs).value;
      assert t == RunRestamping(s1, iface, rest).value;
      forall j | 0 <= j < |inputs| && Hit(s.wm.knownSsids, inputs[j].ifaces)
        ensures inputs[j].now <= t.noKnownSince
      {
        if j > 0 {
          assert inputs[j] == rest[j - 1];
        }
      }
    }
  }

  /** With the restamping loop and a forward-running clock, the hotspot
      starts only after more than the grace window without a known network:
      every earlier iteration that saw one scanned more than ten seconds
      before the iteration that starts the hotspot. */
  lemma HotspotWaitsAfterSighting(s: LoopState, iface: string, inputs: seq<Input>, last: Input)
    requires Clocked(inputs + [last])
    requires |inputs| > 0 ==> s.noKnownSince <= inputs[0].now
    requires RunRestamping(s, iface, inputs).Returned?
    requires RunRestamping(s, iface, inputs).value.wm.hostapd.None?
    requires TickRestamping(RunRestamping(s, iface, inputs).value, iface, last.ifaces, last.now, last.restampAt, last.cmds).Returned?
    requires TickRestamping(RunRestamping(s, iface, inputs).value, iface, last.ifaces, last.now, last.restampAt, last.cmds).value.wm.hostapd.Some?
    ensures forall j :: 0 <= j < |inputs| && Hit(s.wm.knownSsids, inputs[j].ifaces) ==> last.now - inputs[j].now > GraceWindow
  {
    var all := inputs + [last];
    assert Clocked(inputs) by {
      forall k | 0 <= k < |inputs| ensures inputs[k].now <= inputs[k].restampAt {
        assert inputs[k] == all[k];
      }
      forall k | 0 <= k < |inputs| - 1 ensures inputs[k].restampAt <= inputs[k + 1].now {
        assert inputs[k] == all[k] && inputs[k + 1] == all[k + 1];
      }
    }
    RunRestampingStamp(s, iface, inputs);
    var t := RunRestamping(s, iface, inputs).value;
    if !Hit(t.wm.knownSsids, last.ifaces) {
      HotspotOnlyAfterSilence(t, iface, last.ifaces, last.now, last.restampAt, last.cmds);
    }
  }
}
