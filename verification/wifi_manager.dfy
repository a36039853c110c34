/** The manager record and its two bookkeeping operations: building a
    manager for a configuration file, refreshing the set of known ssids from
    that file, and scanning every wireless interface for known ssids
    (wifimanager.go). */
module WifiManager {
  import opened Results
  import opened WpaConf

  /** The manager's state. A daemon handle is the command line of the
      process it runs, or `None` for a nil handle; `dnsmasqConf` is the path
      of the temporary dnsmasq configuration ("" when there is none). */
  datatype Manager = Manager(
    wpaConfPath: string,
    knownSsids: set<string>,
    hostapd: Option<string>,
    dnsmasq: Option<string>,
    supplicant: Option<string>,
    dnsmasqConf: string)

  /** The result of a state-changing call: the new state and the error it
      reported, if any. */
  datatype Done = Done(wm: Manager, err: Option<string>)

  /** What the external commands of one call report. `run` is `runCmd` on a
      command line; `wrap` says whether `wrapCmd` could parse a command line
      (it returns nil otherwise); `tempConf` is the name of the temporary file
      created for dnsmasq. */
  datatype Commands = Commands(
    kill: Outcome,
    reset: Outcome,
    run: string -> Outcome,
    wrap: string -> bool,
    tempConf: string)

  /** `NewWifiManager`: fails exactly when the configuration file does not
      exist; a new manager knows no ssids and runs no daemon. */
  function NewWifiManager(fs: map<string, FileEntry>, path: string): (r: Result<Manager, string>)
    ensures r.Failure? <==> path !in fs
    ensures r.Failure? ==> r.error == "WPA configuration file '" + path + "' does not exist!"
    ensures r.Success? ==>
      && r.value.wpaConfPath == path && r.value.knownSsids == {}
      && r.value.hostapd.None? && r.value.dnsmasq.None? && r.value.supplicant.None?
  {
    if path !in fs then Failure("WPA configuration file '" + path + "' does not exist!")
    else Success(Manager(path, {}, None, None, None, ""))
  }

  /** The ssids of a list of networks, duplicates collapsed. */
  function Ssids(nets: seq<Network>): set<string> {
    set i | 0 <= i < |nets| :: nets[i].ssid
  }

  /** `UpdateKnownSSIDs`: the known set becomes exactly the ssids of the
      configuration file; when the file cannot be read the manager is left as
      it was and the read error is reported. Nothing but the known set changes. */
  function UpdateKnownSSIDs(wm: Manager, fs: map<string, FileEntry>): (r: Done)
    ensures r.err.Some? <==> ParseSupplicantConf(fs, wm.wpaConfPath).Failure?
    ensures r.err.Some? ==> r.wm == wm
    ensures r.err.None? ==>
      && r.wm == wm.(knownSsids := r.wm.knownSsids)
      && (forall s :: s in r.wm.knownSsids <==>
            exists i :: 0 <= i < |ParseSupplicantConf(fs, wm.wpaConfPath).value| &&
              ParseSupplicantConf(fs, wm.wpaConfPath).value[i].ssid == s)
  {
    match ParseSupplicantConf(fs, wm.wpaConfPath)
    case Failure(e) => Done(wm, Some(e))
    case Success(nets) => Done(wm.(knownSsids := Ssids(nets)), None)
  }

  // ---------------------------------------------------------------------
  // Scanning

  /** What `WifiScan` reports for one interface. */
  datatype ScanOutcome = Scanned(ssids: seq<string>) | ScanFailed(error: string)

  /** The known ssids one interface saw, each once: the intersection of the
      known set with the set of scanned names. */
  function Sighted(known: set<string>, scan: ScanOutcome): multiset<string> {
    match scan
    case Scanned(ssids) => multiset(set s | s in ssids && s in known)
    case ScanFailed(_) => multiset{}
  }

  /** The known ssids of every interface, in one bag. */
  function AllSighted(known: set<string>, scans: seq<ScanOutcome>): (r: multiset<string>)
    ensures forall s :: s in r ==> s in known && exists i :: 0 <= i < |scans| && scans[i].Scanned? && s in scans[i].ssids
    decreases |scans|
  {
    if |scans| == 0 then multiset{}
    else
      var rest := AllSighted(known, scans[1..]);
      forall s | s in rest
        ensures exists i :: 0 <= i < |scans| && scans[i].Scanned? && s in scans[i].ssids
      {
        var j :| 0 <= j < |scans[1..]| && scans[1..][j].Scanned? && s in scans[1..][j].ssids;
        assert scans[j + 1] == scans[1..][j];
      }
      Sighted(known, scans[0]) + rest
  }

  /** The error text gathered from failed scans: each message on its own line. */
  function ScanErrors(scans: seq<ScanOutcome>): (r: string)
    ensures r == [] <==> forall i :: 0 <= i < |scans| ==> scans[i].Scanned?
    decreases |scans|
  {
    if |scans| == 0 then ""
    else
      var rest := ScanErrors(scans[1..]);
      assert forall i :: 1 <= i < |scans| ==> scans[i] == scans[1..][i - 1];
      match scans[0]
      case Scanned(_) => rest
      case ScanFailed(e) => e + "\n" + rest
  }

  const NoInterface: string := "No wifi interface found"

  /** `ScanForKnownSSID` once the interface list (or the error listing it)
      and each interface's scan are given. Every sighting is reported, so an
      ssid seen on two interfaces appears twice; order is not modelled. Any
      sighting wins over scan errors; with no sighting the errors are
      reported, and with neither the result is empty. */
  function ScanForKnownSSID(known: set<string>, ifaces: Result<seq<ScanOutcome>, string>): (r: Result<multiset<string>, string>)
    ensures ifaces.Failure? ==> r == Failure(ifaces.error)
    ensures ifaces == Success([]) ==> r == Failure(NoInterface)
    ensures ifaces.Success? && |ifaces.value| > 0 ==>
      (r.Failure? <==> AllSighted(known, ifaces.value) == multiset{} &&
                        exists i :: 0 <= i < |ifaces.value| && ifaces.value[i].ScanFailed?)
    ensures r.Success? ==> forall s :: s in r.value ==>
      && s in known
      && exists i :: 0 <= i < |ifaces.value| && ifaces.value[i].Scanned? && s in ifaces.value[i].ssids
  {
    match ifaces
    case Failure(e) => Failure(e)
    case Success(scans) =>
      if |scans| == 0 then Failure(NoInterface)
      else
        var found := AllSighted(known, scans);
        if |found| > 0 then Success(found)
        else if |ScanErrors(scans)| > 0 then Failure(ScanErrors(scans))
        else Success(multiset{})
  }

  /** How many interfaces scanned successfully and listed `s`. */
  function Sightings(s: string, scans: seq<ScanOutcome>): nat
    decreases |scans|
  {
    if |scans| == 0 then 0
    else (if scans[0].Scanned? && s in scans[0].ssids then 1 else 0) + Sightings(s, scans[1..])
  }

  /** A known ssid is reported once per interface that saw it; an unknown
      one never. */
  lemma {:induction false} SightedCount(known: set<string>, scans: seq<ScanOutcome>, s: string)
    ensures AllSighted(known, scans)[s] == if s in known then Sightings(s, scans) else 0
    decreases |scans|
  {
    if |scans| > 0 {
      SightedCount(known, scans[1..], s);
      match scans[0]
      case Scanned(ssids) =>
        var hit := set x | x in ssids && x in known;
        assert s in hit <==> s in ssids && s in known;
      case ScanFailed(_) =>
    }
  }

  /** A successful scan reports each known ssid exactly as many times as
      there are interfaces that saw it. */
  lemma ScanReportsEverySighting(known: set<string>, scans: seq<ScanOutcome>)
    requires |scans| > 0
    ensures ScanForKnownSSID(known, Success(scans)).Success? ==>
      forall s :: ScanForKnownSSID(known, Success(scans)).value[s] == if s in known then Sightings(s, scans) else 0
  {
    forall s {
      SightedCount(known, scans, s);
    }
  }

  /** The known set after a refresh does not depend on the state before it:
      refreshing twice is refreshing once. */
  lemma UpdateIdempotent(wm: Manager, fs: map<string, FileEntry>)
    ensures UpdateKnownSSIDs(UpdateKnownSSIDs(wm, fs).wm, fs) == UpdateKnownSSIDs(wm, fs)
  {
  }
}
