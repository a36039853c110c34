/** Talking to wpa_supplicant: turning an ssid and a password into a
    network block, appending it to the known-networks file, and starting and
    stopping the supplicant daemon (wpa_supplicant.go). */
module WpaSupplicant {
  import opened Results
  import opened Text
  import opened WpaConf
  import opened WpaConfLaws
  import opened WifiManager

  /** How a run of the `wpa_passphrase` helper ended: its command line could
      not be parsed (`simpleexec.ParseCmd` gave nil, as it may for a quote in
      the ssid or password), it could not be started, it could not be waited
      for, or it finished with this output. The error and stderr texts are the
      helper's own. */
  datatype HelperRun =
    | Unparsable
    | StartFailed(error: string, stderr: string)
    | WaitFailed(error: string, stderr: string)
    | Finished(stdout: string)

  /** The helper's command line for one network. */
  function PassphraseCommand(ssid: string, psk: string): string {
    "/usr/bin/wpa_passphrase \"" + ssid + "\" \"" + psk + "\""
  }

  /** The text between `network={` and `}` of the block written by hand for
      an open network. */
  function OpenBody(ssid: string): string {
    "\n\t" + (("ssid=\"" + ssid + "\"") + "\n" + "\tkey_mgmt=NONE" + "\n" + "\tpriority=-1") + "\n"
  }

  /** The block for an open network, as the format string lays it out:
      a line feed, then the block. */
  function OpenTemplate(ssid: string): string {
    "\n" + BlockOpen + OpenBody(ssid) + "}"
  }

  /** `WPAPassphrase`: for an empty password, the hand-written open-network
      block; otherwise the output of the helper run on the ssid and the
      password. Either way the block is trimmed. A helper that cannot be
      started or waited for gives an error and no block; a command line that
      does not parse leaves a nil command whose `Stdout` is then set, a nil
      dereference. */
  function WPAPassphrase(ssid: string, psk: string, run: string -> HelperRun): (r: Exec<Result<string, string>>)
    ensures !r.Exited?
    ensures r.Panicked? <==> psk != "" && run(PassphraseCommand(ssid, psk)).Unparsable?
    ensures psk == "" ==> r == Returned(Success(BlockOpen + OpenBody(ssid) + "}"))
    ensures psk != "" && r.Returned? ==> (r.value.Success? <==> run(PassphraseCommand(ssid, psk)).Finished?)
    ensures r.Returned? && r.value.Success? && psk != "" ==>
      TrimSpace(run(PassphraseCommand(ssid, psk)).stdout) == r.value.value
  {
    if psk == "" then
      TrimPadded("\n", BlockOpen + OpenBody(ssid) + "}", "");
      assert "\n" + (BlockOpen + OpenBody(ssid) + "}") + "" == OpenTemplate(ssid);
      Returned(Success(TrimSpace(OpenTemplate(ssid))))
    else
      match run(PassphraseCommand(ssid, psk))
      case Unparsable => Panicked
      case StartFailed(e, stderr) => Returned(Failure("Failed to run command :" + e + " (stderr: " + stderr + ")"))
      case WaitFailed(e, stderr) => Returned(Failure("Failed to wait for command :" + e + " (stderr: " + stderr + ")"))
      case Finished(out) => Returned(Success(TrimSpace(out)))
  }

  /** `AddNetworkConf` on the text of the known-networks file: the block is
      appended between line feeds, or, when no block could be made, the text
      is left alone and the error returned. A panic in `WPAPassphrase` ends
      the process. */
  function AddNetworkConf(content: string, ssid: string, password: string, run: string -> HelperRun): (r: Exec<(string, Option<string>)>)
    ensures r.Panicked? <==> WPAPassphrase(ssid, password, run).Panicked?
    ensures !r.Exited?
    ensures r.Returned? ==> (r.value.1.None? <==> WPAPassphrase(ssid, password, run).value.Success?)
    ensures r.Returned? && r.value.1.Some? ==>
      r.value.0 == content && r.value.1 == Some(WPAPassphrase(ssid, password, run).value.error)
    ensures r.Returned? && r.value.1.None? ==>
      r.value.0 == content + "\n" + WPAPassphrase(ssid, password, run).value.value + "\n"
  {
    match WPAPassphrase(ssid, password, run)
    case Panicked => Panicked
    case Exited => Exited
    case Returned(Failure(e)) => Returned((content, Some(e)))
    case Returned(Success(data)) => Returned((content + "\n" + data + "\n", None))
  }

  /** One network to add: its ssid and its plaintext password. */
  datatype Request = Request(ssid: string, password: string)

  /** Adding several networks one after the other, errors ignored; a panic
      ends the run. */
  function AddAll(content: string, reqs: seq<Request>, run: string -> HelperRun): Exec<string>
    decreases |reqs|
  {
    if |reqs| == 0 then Returned(content)
    else match AddNetworkConf(content, reqs[0].ssid, reqs[0].password, run)
      case Panicked => Panicked
      case Exited => Exited
      case Returned((c, _)) => AddAll(c, reqs[1..], run)
  }

  // ---------------------------------------------------------------------
  // The daemon

  /** The supplicant's command line for an interface and a configuration file. */
  function SupplicantCommand(iface: string, confPath: string): string {
    "/sbin/wpa_supplicant -Dnl80211 -i" + iface + " -c" + confPath
  }

  /** `StartWPASupplicant`: reset the interface, then start the daemon on the
      given configuration file. A failed reset is reported and leaves the
      state alone. A command line `wrapCmd` cannot parse leaves a nil handle
      whose `Start` dereferences nil. */
  function StartWPASupplicant(wm: Manager, iface: string, confPath: string, cmds: Commands): (r: Exec<Done>)
    ensures r.Panicked? <==> cmds.reset.Pass? && !cmds.wrap(SupplicantCommand(iface, confPath))
    ensures !r.Exited?
    ensures r.Returned? && r.value.err.Some? ==> r.value.wm == wm && cmds.reset.Fail?
    ensures cmds.reset.Fail? ==> r == Returned(Done(wm, Some("Failed to reset wifi interface: " + cmds.reset.error)))
    ensures r.Returned? && r.value.err.None? ==>
      r.value.wm == wm.(supplicant := Some(SupplicantCommand(iface, confPath)))
  {
    match cmds.reset
    case Fail(e) => Returned(Done(wm, Some("Failed to reset wifi interface: " + e)))
    case Pass =>
      var cmd := SupplicantCommand(iface, confPath);
      if !cmds.wrap(cmd) then Panicked
      else Returned(Done(wm.(supplicant := Some(cmd)), None))
  }

  /** `StopWPASupplicant`: with no daemon, nothing to do. Otherwise kill it;
      a failed kill is reported and the handle kept, a successful one clears
      the handle. Nothing else in the state changes. */
  function StopWPASupplicant(wm: Manager, kill: Outcome): (r: Done)
    ensures r.wm == wm.(supplicant := r.wm.supplicant)
    ensures r.err.Some? <==> wm.supplicant.Some? && kill.Fail?
    ensures r.err.Some? ==> r.wm == wm
    ensures r.err.None? ==> r.wm.supplicant.None?
  {
    match wm.supplicant
    case None => Done(wm, None)
    case Some(_) =>
      match kill
      case Fail(e) => Done(wm, Some("Failed to interrupt wpa_supplicant: " + e + "\n"))
      case Pass => Done(wm.(supplicant := None), None)
  }

  // ---------------------------------------------------------------------
  // Lemmas

  /** Starting the supplicant and then stopping it with a successful kill
      gives back the state started from. */
  lemma StartThenStop(wm: Manager, iface: string, confPath: string, cmds: Commands)
    requires wm.supplicant.None?
    requires cmds.reset.Pass? && cmds.wrap(SupplicantCommand(iface, confPath))
    ensures StartWPASupplicant(wm, iface, confPath, cmds).Returned?
    ensures StopWPASupplicant(StartWPASupplicant(wm, iface, confPath, cmds).value.wm, Pass) == Done(wm, None)
  {
  }

  /** The block written for an open network is read back as that network,
      with an empty psk. */
  lemma OpenBodyParses(g: Keying, ssid: string)
    requires ssid != "" && '\n' !in ssid
    ensures ParseNetworkWith(g, TrimSpace(OpenBody(ssid))) == Some(Network(ssid, "", ""))
  {
    var l0 := "ssid=\"" + ssid + "\"";
    OpenLines(ssid, l0, "\tkey_mgmt=NONE", "\tpriority=-1");
    OpenScan(g, ssid, l0, "\tkey_mgmt=NONE", "\tpriority=-1");
    ParseLines(g, TrimSpace(OpenBody(ssid)), [l0, "\tkey_mgmt=NONE", "\tpriority=-1"], Fields(ssid, "", ""));
  }

  /** Trimming the open-network body and splitting it at line feeds. */
  lemma OpenLines(ssid: string, l0: string, l1: string, l2: string)
    requires '\n' !in ssid && l0 == "ssid=\"" + ssid + "\""
    requires l1 == "\tkey_mgmt=NONE" && l2 == "\tpriority=-1"
    ensures Split(TrimSpace(OpenBody(ssid)), '\n') == [l0, l1, l2]
  {
    assert OpenBody(ssid) == "\n\t" + (l0 + "\n" + l1 + "\n" + l2) + "\n";
    ThreeLineBody(OpenBody(ssid), "\n\t", l0, l1, l2, "\n");
  }

  /** Reading the three lines of the open-network block. */
  lemma OpenScan(g: Keying, ssid: string, l0: string, l1: string, l2: string)
    requires '\n' !in ssid && l0 == "ssid=\"" + ssid + "\""
    requires l1 == "\tkey_mgmt=NONE" && l2 == "\tpriority=-1"
    ensures ScanLines(g, NoFields, [l0, l1, l2]) == Fields(ssid, "", "")
  {
    ScanThree(g, NoFields, l0, l1, l2);
    SsidLineAt(g, NoFields, ssid, l0);
    InertLine(g, NoFields.(ssid := ssid), l1);
    InertLine(g, NoFields.(ssid := ssid), l2);
  }

  // ---------------------------------------------------------------------
  // Appending several networks and reading the file back

  /** The network a helper block describes: the psk it derived, and the
      password quoted in the comment line, as the helper writes it. */
  function HelperNetwork(req: Request, psk: string): Network {
    Network(req.ssid, psk, "\"" + req.password + "\"")
  }

  /** What the helper is expected to print for a request with a password:
      the block `AsConf` lays out for the network, up to white space around
      it. An open network gets the empty psk. */
  predicate HelperWrites(run: string -> HelperRun, req: Request, psk: string) {
    if req.password == "" then psk == ""
    else
      var out := run(PassphraseCommand(req.ssid, req.password));
      out.Finished? && TrimSpace(out.stdout) == BlockOpen + ConfBody(HelperNetwork(req, psk)) + "}"
  }

  /** The text between `network={` and `}` of the block added for a request. */
  function AddedBody(req: Request, psk: string): string {
    if req.password == "" then OpenBody(req.ssid) else ConfBody(HelperNetwork(req, psk))
  }

  function AddedBodies(reqs: seq<Request>, psks: seq<string>): (r: seq<string>)
    requires |reqs| == |psks|
    ensures |r| == |reqs| && forall i :: 0 <= i < |r| ==> r[i] == AddedBody(reqs[i], psks[i])
    decreases |reqs|
  {
    if |reqs| == 0 then [] else [AddedBody(reqs[0], psks[0])] + AddedBodies(reqs[1..], psks[1..])
  }

  /** The networks the added blocks describe, as the parser reads them. */
  function Added(reqs: seq<Request>, psks: seq<string>): (r: seq<Network>)
    requires |reqs| == |psks|
    ensures |r| == |reqs| && forall i :: 0 <= i < |r| ==> r[i] == Network(reqs[i].ssid, psks[i], "")
    decreases |reqs|
  {
    if |reqs| == 0 then [] else [Network(reqs[0].ssid, psks[0], "")] + Added(reqs[1..], psks[1..])
  }

  /** Adding one request appends its block, between line feeds. */
  lemma AddOne(c: string, req: Request, psk: string, run: string -> HelperRun)
    requires HelperWrites(run, req, psk)
    ensures AddNetworkConf(c, req.ssid, req.password, run) == Returned((c + ("\n" + BlockOpen + AddedBody(req, psk) + "}\n"), None))
  {
    var body := AddedBody(req, psk);
    var data := BlockOpen + body + "}";
    if req.password == "" {
      assert WPAPassphrase(req.ssid, req.password, run) == Returned(Success(data));
    } else {
      assert WPAPassphrase(req.ssid, req.password, run) == Returned(Success(data));
    }
    var r := AddNetworkConf(c, req.ssid, req.password, run);
    assert r.Returned? && r.value.1.None?;
    AppendBlock(c, body, data, r.value.0);
  }

  /** The text appended for a block body is the block on its own lines. */
  lemma AppendBlock(c: string, body: string, data: string, t: string)
    requires data == BlockOpen + body + "}" && t == c + "\n" + data + "\n"
    ensures t == c + ("\n" + BlockOpen + body + "}\n")
  {
  }

  /** The helper assumption holds of every request of a list. */
  predicate AllHelperWrites(run: string -> HelperRun, reqs: seq<Request>, psks: seq<string>)
    requires |reqs| == |psks|
  {
    forall i :: 0 <= i < |reqs| ==> HelperWrites(run, reqs[i], psks[i])
  }

  lemma AllHelperWritesTail(run: string -> HelperRun, reqs: seq<Request>, psks: seq<string>)
    requires |reqs| == |psks| && |reqs| > 0 && AllHelperWrites(run, reqs, psks)
    ensures HelperWrites(run, reqs[0], psks[0]) && AllHelperWrites(run, reqs[1..], psks[1..])
  {
    forall i | 0 <= i < |reqs| - 1
      ensures HelperWrites(run, reqs[1..][i], psks[1..][i])
    {
      assert reqs[1..][i] == reqs[i + 1] && psks[1..][i] == psks[i + 1];
    }
  }

  /** The first block of a framed list, then the rest. */
  lemma FramedCons(c: string, bodies: seq<string>)
    requires |bodies| > 0
    ensures c + ("\n" + BlockOpen + bodies[0] + "}\n") + Framed(bodies[1..]) == c + Framed(bodies)
  {
  }

  /** Each request's block is appended, on its own lines, in request order. */
  lemma {:induction false} AddAllFramed(c: string, reqs: seq<Request>, psks: seq<string>, run: string -> HelperRun)
    requires |reqs| == |psks|
    requires AllHelperWrites(run, reqs, psks)
    ensures AddAll(c, reqs, run) == Returned(c + Framed(AddedBodies(reqs, psks)))
    decreases |reqs|
  {
    if |reqs| == 0 {
      assert c + "" == c;
    } else {
      AllHelperWritesTail(run, reqs, psks);
      var bodies := AddedBodies(reqs, psks);
      var block := "\n" + BlockOpen + bodies[0] + "}\n";
      AddOne(c, reqs[0], psks[0], run);
      AddAllFramed(c + block, reqs[1..], psks[1..], run);
      assert bodies[1..] == AddedBodies(reqs[1..], psks[1..]);
      FramedCons(c, bodies);
    }
  }

  /** The block added for a request is read back as the request's ssid with
      the psk its block carried. */
  lemma AddedBodyParses(req: Request, psk: string)
    requires Writable(HelperNetwork(req, psk)) && (req.password == "" ==> psk == "")
    ensures ParseNetworkWith(AsWritten, TrimSpace(AddedBody(req, psk))) == Some(Network(req.ssid, psk, ""))
  {
    if req.password == "" {
      OpenBodyParses(AsWritten, req.ssid);
    } else {
      ParseConfBody(AsWritten, HelperNetwork(req, psk));
    }
  }

  /** An added block body holds no `}` of its own. */
  lemma AddedBodyNoBrace(req: Request, psk: string)
    requires Writable(HelperNetwork(req, psk))
    ensures '}' !in AddedBody(req, psk)
  {
  }

  lemma {:induction false} CollectAdded(reqs: seq<Request>, psks: seq<string>)
    requires |reqs| == |psks|
    requires forall i :: 0 <= i < |reqs| ==> Writable(HelperNetwork(reqs[i], psks[i]))
    requires forall i :: 0 <= i < |reqs| ==> reqs[i].password == "" ==> psks[i] == ""
    ensures Collect(AsWritten, AddedBodies(reqs, psks)) == Added(reqs, psks)
    decreases |reqs|
  {
    if |reqs| > 0 {
      AddedBodyParses(reqs[0], psks[0]);
      CollectAdded(reqs[1..], psks[1..]);
      CollectCons(AsWritten, AddedBody(reqs[0], psks[0]), AddedBodies(reqs[1..], psks[1..]), Network(reqs[0].ssid, psks[0], ""));
    }
  }

  /** Adding networks one after another to an empty file and parsing it gives
      every added network back, in order, with the psk its block carried. */
  lemma AddedNetworksParse(reqs: seq<Request>, psks: seq<string>, run: string -> HelperRun)
    requires |reqs| == |psks|
    requires AllHelperWrites(run, reqs, psks)
    requires forall i :: 0 <= i < |reqs| ==> Writable(HelperNetwork(reqs[i], psks[i]))
    ensures AddAll("", reqs, run).Returned?
    ensures ParseConf(AddAll("", reqs, run).value) == Success(Added(reqs, psks))
  {
    AddAllFramed("", reqs, psks, run);
    assert "" + Framed(AddedBodies(reqs, psks)) == Framed(AddedBodies(reqs, psks));
    var bodies := AddedBodies(reqs, psks);
    forall i | 0 <= i < |bodies|
      ensures '}' !in bodies[i]
    {
      AddedBodyNoBrace(reqs[i], psks[i]);
    }
    BlocksFramed(bodies);
    forall i | 0 <= i < |reqs|
      ensures reqs[i].password == "" ==> psks[i] == ""
    {
      assert HelperWrites(run, reqs[i], psks[i]);
    }
    CollectAdded(reqs, psks);
  }

  /** After networks are appended to an empty configuration file, refreshing
      the manager makes it know exactly the requested ssids. */
  lemma KnownAfterAdding(wm: Manager, fs: map<string, FileEntry>, reqs: seq<Request>, psks: seq<string>,
                         run: string -> HelperRun, text: string)
    requires |reqs| == |psks|
    requires AllHelperWrites(run, reqs, psks)
    requires forall i :: 0 <= i < |reqs| ==> Writable(HelperNetwork(reqs[i], psks[i]))
    requires AddAll("", reqs, run) == Returned(text)
    requires wm.wpaConfPath in fs && fs[wm.wpaConfPath] == File(text)
    ensures UpdateKnownSSIDs(wm, fs).err.None?
    ensures UpdateKnownSSIDs(wm, fs).wm.knownSsids == set i | 0 <= i < |reqs| :: reqs[i].ssid
  {
    AddedNetworksParse(reqs, psks, run);
    assert ParseSupplicantConf(fs, wm.wpaConfPath) == Success(Added(reqs, psks));
    AddedSsids(reqs, psks);
  }

  /** The networks added for some requests carry exactly the requested ssids. */
  lemma AddedSsids(reqs: seq<Request>, psks: seq<string>)
    requires |reqs| == |psks|
    ensures Ssids(Added(reqs, psks)) == set i | 0 <= i < |reqs| :: reqs[i].ssid
  {
    var added := Added(reqs, psks);
    forall x | x in Ssids(added) ensures x in set i | 0 <= i < |reqs| :: reqs[i].ssid {
      var i :| 0 <= i < |added| && added[i].ssid == x;
      assert reqs[i].ssid == x;
    }
    forall x | x in set i | 0 <= i < |reqs| :: reqs[i].ssid ensures x in Ssids(added) {
      var i :| 0 <= i < |reqs| && reqs[i].ssid == x;
      assert added[i].ssid == x;
    }
  }
}
