/** The access-point side: starting hostapd and dnsmasq on an interface and
    stopping them again (hostapd.go). */
module Hostapd {
  import opened Results
  import opened Text
  import opened WifiManager
  import opened WpaSupplicant

  const HostapdCommand: string := "/usr/sbin/hostapd /etc/hostapd/hostapd.conf"

  /** The `runCmd` line that gives the interface its static address. */
  function IfconfigCommand(iface: string): string {
    "ifconfig " + iface + " up 10.11.12.1 netmask 255.255.255.0"
  }

  /** The lines of the dnsmasq configuration written to the temporary file:
      an empty line, the five directives, and the empty line after the final
      line feed. */
  function DnsmasqLines(iface: string): seq<string> {
    ["", "no-resolv", "bind-interfaces", "interface=" + iface, "dhcp-authoritative",
     "dhcp-range=10.11.12.10,10.11.12.20,12h", ""]
  }

  /** The dnsmasq configuration text, as the format string lays it out. */
  function DnsmasqConf(iface: string): string {
    "\nno-resolv\nbind-interfaces\ninterface=" + iface
      + "\ndhcp-authoritative" + "\ndhcp-range=10.11.12.10,10.11.12.20,12h\n"
  }

  /** The dnsmasq command line for an interface and a configuration file. */
  function DnsmasqCommand(iface: string, confPath: string): string {
    "/usr/sbin/dnsmasq --no-resolv --bind-interfaces -i " + iface
      + " --dhcp-authoritative --dhcp-range=10.11.12.10,10.11.12.20,12h -d -C " + confPath
  }

  /** `StartHotspot`: stop the supplicant (its error is ignored), reset the
      interface, give it its static address, then start hostapd and, on the
      temporary configuration, dnsmasq. Each failure ends the call with an
      error; a command line `wrapCmd` cannot parse leaves that handle nil. */
  function StartHotspot(wm: Manager, iface: string, cmds: Commands): (r: Done)
    ensures var stopped := StopWPASupplicant(wm, cmds.kill).wm;
      && r.wm.wpaConfPath == wm.wpaConfPath && r.wm.knownSsids == wm.knownSsids
      && r.wm.supplicant == stopped.supplicant
      && (cmds.reset.Fail? || cmds.run(IfconfigCommand(iface)).Fail? ==> r.wm == stopped && r.err.Some?)
      && (r.err.None? <==>
            cmds.reset.Pass? && cmds.run(IfconfigCommand(iface)).Pass?
            && cmds.wrap(HostapdCommand) && cmds.wrap(DnsmasqCommand(iface, cmds.tempConf)))
      && (cmds.reset.Pass? && cmds.run(IfconfigCommand(iface)).Pass? ==>
            && (r.wm.hostapd.Some? <==> cmds.wrap(HostapdCommand))
            && (cmds.wrap(HostapdCommand) ==> (r.wm.dnsmasq.Some? <==> cmds.wrap(DnsmasqCommand(iface, cmds.tempConf))))
            && (!cmds.wrap(HostapdCommand) ==> r.wm.dnsmasq == wm.dnsmasq))
      && (cmds.reset.Pass? && cmds.run(IfconfigCommand(iface)).Pass? && !cmds.wrap(HostapdCommand) ==>
            r.wm == stopped.(hostapd := None))
      && (cmds.reset.Pass? && cmds.run(IfconfigCommand(iface)).Pass? && cmds.wrap(HostapdCommand)
          && !cmds.wrap(DnsmasqCommand(iface, cmds.tempConf)) ==>
            r.wm == stopped.(hostapd := Some(HostapdCommand), dnsmasqConf := cmds.tempConf, dnsmasq := None))
      && (r.err.None? ==>
            && r.wm.hostapd == Some(HostapdCommand)
            && r.wm.dnsmasq == Some(DnsmasqCommand(iface, cmds.tempConf))
            && r.wm.dnsmasqConf == cmds.tempConf)
  {
    var wm := StopWPASupplicant(wm, cmds.kill).wm;
    if cmds.reset.Fail? then Done(wm, Some("Failed to reset wifi interface: " + cmds.reset.error))
    else if cmds.run(IfconfigCommand(iface)).Fail? then
      Done(wm, Some("StartHotspot: Failed to bring up wifi interface"))
    else if !cmds.wrap(HostapdCommand) then Done(wm.(hostapd := None), Some("Failed to create hostapdCmd"))
    else
      var wm := wm.(hostapd := Some(HostapdCommand), dnsmasqConf := cmds.tempConf);
      var cmd := DnsmasqCommand(iface, cmds.tempConf);
      if !cmds.wrap(cmd) then Done(wm.(dnsmasq := None), Some("Failed to create dnsmasqCmd"))
      else Done(wm.(dnsmasq := Some(cmd)), None)
  }

  /** `StopHotspot`: with neither daemon there is nothing to do; otherwise
      both are interrupted, so a missing one is a nil dereference; when both
      are there both handles and the configuration path are cleared. It never
      reports an error. */
  function StopHotspot(wm: Manager): (r: Exec<Manager>)
    ensures r.Panicked? <==> wm.hostapd.Some? != wm.dnsmasq.Some?
    ensures !r.Exited?
    ensures r.Returned? ==> r.value.hostapd.None? && r.value.dnsmasq.None?
    ensures r.Returned? ==>
      r.value == wm.(hostapd := None, dnsmasq := None, dnsmasqConf := r.value.dnsmasqConf)
    ensures r.Returned? && wm.hostapd.Some? ==> r.value.dnsmasqConf == ""
    ensures wm.hostapd.None? && wm.dnsmasq.None? ==> r == Returned(wm)
  {
    if wm.hostapd.None? && wm.dnsmasq.None? then Returned(wm)
    else if wm.hostapd.None? || wm.dnsmasq.None? then Panicked
    else Returned(wm.(hostapd := None, dnsmasq := None, dnsmasqConf := ""))
  }

  // ---------------------------------------------------------------------
  // Lemmas

  /** The configuration holds the five dnsmasq directives, one per line,
      between an empty first and an empty last line. */
  lemma DnsmasqConfLines(iface: string)
    requires '\n' !in iface
    ensures Split(DnsmasqConf(iface), '\n') == DnsmasqLines(iface)
  {
    var parts := DnsmasqLines(iface);
    DnsmasqLinesPlain(iface, parts);
    DnsmasqJoin(iface, parts);
    SplitJoin(parts, '\n');
  }

  /** The configuration text is its lines joined with line feeds. */
  lemma DnsmasqJoin(iface: string, parts: seq<string>)
    requires parts == DnsmasqLines(iface)
    ensures Join(parts, '\n') == DnsmasqConf(iface)
  {
    var range := "dhcp-range=10.11.12.10,10.11.12.20,12h";
    var j6 := Join(parts[6..], '\n');
    assert j6 == "";
    var j5 := Join(parts[5..], '\n');
    assert parts[5..][1..] == parts[6..];
    assert j5 == range + "\n";
    var j4 := Join(parts[4..], '\n');
    assert parts[4..][1..] == parts[5..];
    assert j4 == "dhcp-authoritative" + "\n" + j5;
    var j3 := Join(parts[3..], '\n');
    assert parts[3..][1..] == parts[4..];
    assert j3 == "interface=" + iface + "\n" + j4;
    var j2 := Join(parts[2..], '\n');
    assert parts[2..][1..] == parts[3..];
    assert j2 == "bind-interfaces" + "\n" + j3;
    var j1 := Join(parts[1..], '\n');
    assert parts[1..][1..] == parts[2..];
    assert j1 == "no-resolv" + "\n" + j2;
    assert Join(parts, '\n') == "" + "\n" + j1;
    DnsmasqText(iface, range, j4);
  }

  /** The configuration text regrouped line by line. */
  lemma DnsmasqText(iface: string, range: string, tail: string)
    requires range == "dhcp-range=10.11.12.10,10.11.12.20,12h"
    requires tail == "dhcp-authoritative" + "\n" + (range + "\n")
    ensures "" + "\n" + ("no-resolv" + "\n" + ("bind-interfaces" + "\n" + ("interface=" + iface + "\n" + tail)))
      == DnsmasqConf(iface)
  {
    var head := "\nno-resolv\nbind-interfaces\ninterface=";
    var auth := "\ndhcp-authoritative";
    var last := "\ndhcp-range=10.11.12.10,10.11.12.20,12h\n";
    DnsmasqHead(head);
    DnsmasqLast(last, range);
    assert auth == "\n" + "dhcp-authoritative";
    assert DnsmasqConf(iface) == head + iface + auth + last;
    Regroup("\n", "no-resolv", "bind-interfaces", "interface=", iface, "dhcp-authoritative", range);
  }

  /** Line-by-line and piece-by-piece groupings of the same text agree. */
  lemma Regroup(nl: string, a: string, b: string, c: string, i: string, d: string, f: string)
    ensures "" + nl + (a + nl + (b + nl + (c + i + nl + (d + nl + (f + nl)))))
      == (nl + a + nl + b + nl + c) + i + (nl + d) + (nl + f + nl)
  {
  }

  lemma DnsmasqHead(head: string)
    requires head == "\nno-resolv\nbind-interfaces\ninterface="
    ensures head == "\n" + "no-resolv" + "\n" + "bind-interfaces" + "\n" + "interface="
  {
  }

  lemma DnsmasqLast(last: string, range: string)
    requires last == "\ndhcp-range=10.11.12.10,10.11.12.20,12h\n"
    requires range == "dhcp-range=10.11.12.10,10.11.12.20,12h"
    ensures last == "\n" + range + "\n"
  {
  }

  lemma DnsmasqLinesPlain(iface: string, parts: seq<string>)
    requires '\n' !in iface && parts == DnsmasqLines(iface)
    ensures forall i :: 0 <= i < |parts| ==> '\n' !in parts[i]
  {
    assert '\n' !in "interface=";
    assert '\n' !in "dhcp-range=10.11.12.10,10.11.12.20,12h";
  }

  /** Stopping the hotspot a second time changes nothing more. */
  lemma StopHotspotIdempotent(wm: Manager)
    requires StopHotspot(wm).Returned?
    ensures StopHotspot(StopHotspot(wm).value) == StopHotspot(wm)
  {
  }

  /** Starting and then stopping the hotspot, with every command working,
      succeeds both times and leaves no daemon running. */
  lemma StartThenStopHotspot(wm: Manager, iface: string, cmds: Commands)
    requires cmds.kill.Pass? && cmds.reset.Pass? && cmds.run(IfconfigCommand(iface)).Pass?
    requires cmds.wrap(HostapdCommand) && cmds.wrap(DnsmasqCommand(iface, cmds.tempConf))
    ensures StartHotspot(wm, iface, cmds).err.None?
    ensures StopHotspot(StartHotspot(wm, iface, cmds).wm).Returned?
    ensures var w := StopHotspot(StartHotspot(wm, iface, cmds).wm).value;
      w.hostapd.None? && w.dnsmasq.None? && w.supplicant.None? && w.dnsmasqConf == ""
  {
  }

  /** Called on its own, `StartHotspot` can leave the supplicant running
      beside hostapd: the stop it begins with may fail, and that failure is
      ignored. */
  lemma StartHotspotIgnoresStop(wm: Manager, iface: string, cmds: Commands)
    requires wm.supplicant.Some? && cmds.kill.Fail?
    requires cmds.reset.Pass? && cmds.run(IfconfigCommand(iface)).Pass?
    requires cmds.wrap(HostapdCommand) && cmds.wrap(DnsmasqCommand(iface, cmds.tempConf))
    ensures StartHotspot(wm, iface, cmds).err.None?
    ensures StartHotspot(wm, iface, cmds).wm.hostapd.Some?
    ensures StartHotspot(wm, iface, cmds).wm.supplicant == wm.supplicant
  {
  }

  /** When hostapd starts but the dnsmasq command line cannot be wrapped,
      `StartHotspot` returns with hostapd recorded and dnsmasq not; the next
      `StopHotspot` then dereferences the missing dnsmasq handle. */
  lemma HalfStartedHotspotPanics(wm: Manager, iface: string, cmds: Commands)
    requires cmds.reset.Pass? && cmds.run(IfconfigCommand(iface)).Pass?
    requires cmds.wrap(HostapdCommand) && !cmds.wrap(DnsmasqCommand(iface, cmds.tempConf))
    ensures StartHotspot(wm, iface, cmds).err == Some("Failed to create dnsmasqCmd")
    ensures StopHotspot(StartHotspot(wm, iface, cmds).wm).Panicked?
  {
  }
}
