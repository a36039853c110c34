/** The known-networks file of wpa_supplicant: finding the `network={ … }`
    blocks in its text, reading `ssid=`, `#psk=` and `psk=` out of each block,
    and writing one network back as a block (wpa_conf_parser.go). */
module WpaConf {
  import opened Results
  import opened Text

  /** One known network. `password` is the plaintext kept in the `#psk=`
      comment line; `psk` is the derived key (or empty for an open network). */
  datatype Network = Network(ssid: string, psk: string, password: string)

  /** A file system as far as the parser sees it: a path that is present
      exists; reading it yields its text or an error. */
  datatype FileEntry = File(content: string) | Unreadable(error: string)

  // Capture-group names (Go's `SubexpNames`) of the four regular
  // expressions; index 0 stands for the whole match and has no name.
  const NetworkGroups: seq<string> := ["", "network"]
  const SsidGroups: seq<string> := ["", "ssid"]
  const PasswordGroups: seq<string> := ["", "password"]
  const PskGroups: seq<string> := ["", "psk"]

  const BlockOpen: string := "network={"

  /** The block written for a network (`AsConf`): a line feed, then
      `network={`, the body and `}`. */
  function AsConf(n: Network): (r: string)
    ensures |r| == |n.ssid| + |n.password| + |n.psk| + 34
    ensures r[..|BlockOpen| + 1] == "\n" + BlockOpen && r[|r| - 1] == '}'
  {
    "\n" + BlockOpen + ConfBody(n) + "}"
  }

  /** The body of that block: the ssid line, the `#psk=` comment with the
      plaintext and the `psk=` line, each on its own tab-indented line. */
  function ConfBody(n: Network): string {
    "\n\t" + (("ssid=\"" + n.ssid + "\"") + "\n" + ("\t#psk=" + n.password) + "\n" + ("\tpsk=" + n.psk)) + "\n"
  }

  // ---------------------------------------------------------------------
  // Submatch maps

  /** The loop of `mapSubexpNames` after the first element of both slices is
      dropped: name `n[i]` gets capture `m[i]`, a later name overriding an
      earlier equal one. */
  function AssignGroups(m: seq<string>, n: seq<string>): (r: map<string, string>)
    requires |n| <= |m|
    ensures r.Keys == set i | 0 <= i < |n| :: n[i]
    ensures forall i :: 0 <= i < |n| && n[i] !in n[i + 1..] ==> r[n[i]] == m[i]
    decreases |n|
  {
    if |n| == 0 then map[]
    else
      var last := |n| - 1;
      var prev := AssignGroups(m, n[..last]);
      AssignStep(m, n, n[..last], prev);
      prev[n[last] := m[last]]
  }

  /** One more name: the map built from all but the last name, updated with
      the last one, has every name as a key and keeps each earlier capture
      whose name does not come again. */
  lemma AssignStep(m: seq<string>, n: seq<string>, init: seq<string>, prev: map<string, string>)
    requires 1 <= |n| <= |m| && init == n[..|n| - 1]
    requires prev.Keys == set i | 0 <= i < |init| :: init[i]
    requires forall i :: 0 <= i < |init| && init[i] !in init[i + 1..] ==> prev[init[i]] == m[i]
    ensures prev[n[|n| - 1] := m[|n| - 1]].Keys == set i | 0 <= i < |n| :: n[i]
    ensures forall i :: 0 <= i < |n| && n[i] !in n[i + 1..] ==> prev[n[|n| - 1] := m[|n| - 1]][n[i]] == m[i]
  {
    var last := |n| - 1;
    var r := prev[n[last] := m[last]];
    forall x | x in r.Keys ensures x in set i | 0 <= i < |n| :: n[i] {
      if x != n[last] {
        var i :| 0 <= i < last && init[i] == x;
        assert n[i] == x;
      }
    }
    forall i | 0 <= i < |n| ensures n[i] in r.Keys {
      if i < last {
        assert init[i] == n[i];
      }
    }
    forall i | 0 <= i < |n| && n[i] !in n[i + 1..] ensures r[n[i]] == m[i] {
      if i < last {
        assert n[last] == n[i + 1..][last - i - 1];
        assert init[i] == n[i];
        assert init[i + 1..] == n[i + 1..last];
        assert n[i] !in init[i + 1..];
      }
    }
  }

  /** `mapSubexpNames(m, n)`: the group names of `n` (whole match excluded)
      mapped to the captures of `m` at the same positions. Go slices `m[1:]`
      and indexes `m` by every position of `n`, so both must be non-empty and
      `m` at least as long as `n`. */
  function MapSubexpNames(m: seq<string>, n: seq<string>): (r: map<string, string>)
    requires 1 <= |n| <= |m|
    ensures r.Keys == set i | 1 <= i < |n| :: n[i]
    ensures forall i :: 1 <= i < |n| && n[i] !in n[i + 1..] ==> r[n[i]] == m[i]
  {
    var r := AssignGroups(m[1..], n[1..]);
    forall i | 1 <= i < |n|
      ensures n[i] in r
    {
      assert n[1..][i - 1] == n[i];
    }
    forall i | 1 <= i < |n| && n[i] !in n[i + 1..]
      ensures r[n[i]] == m[i]
    {
      assert n[1..][i - 1] == n[i] && m[1..][i - 1] == m[i];
      assert n[1..][i - 1 + 1..] == n[i + 1..];
    }
    r
  }

  /** Reading a Go map: a missing key gives the zero value, the empty string. */
  function Lookup(r: map<string, string>, key: string): string {
    if key in r then r[key] else ""
  }

  // ---------------------------------------------------------------------
  // The per-line regular expressions

  /** What `.*` matches without the `s` flag: everything up to the first line feed. */
  function RestOfLine(s: string): (r: string)
    ensures HasPrefix(s, r) && '\n' !in r
    ensures |r| == |s| || s[|r|] == '\n'
  {
    match IndexOf(s, '\n')
    case None => s
    case Some(i) => s[..i]
  }

  /** `FindStringSubmatch` of `^ssid="(?P<ssid>.*)"`: the greedy `.*` runs to
      the last quote before the end of the first line. */
  function SsidSubmatch(line: string): (r: Option<seq<string>>)
    ensures r.Some? <==> HasPrefix(line, "ssid=\"") && '"' in RestOfLine(line[6..])
    ensures r.Some? ==>
      && |r.value| == 2
      && r.value[0] == "ssid=\"" + r.value[1] + "\""
      && HasPrefix(line, r.value[0])
      && '\n' !in r.value[1]
      && '"' !in RestOfLine(line[6..])[|r.value[1]| + 1..]
  {
    if !HasPrefix(line, "ssid=\"") then None
    else
      var rest := RestOfLine(line[6..]);
      match LastIndexOf(rest, '"')
      case None => None
      case Some(q) =>
        SsidCapture(line, rest, q);
        Some([line[..7 + q], rest[..q]])
  }

  /** The match of `^ssid="(.*)"` ending at the last quote `q` of the rest
      of the first line. */
  lemma SsidCapture(line: string, rest: string, q: nat)
    requires HasPrefix(line, "ssid=\"") && rest == RestOfLine(line[6..])
    requires q < |rest| && rest[q] == '"'
    ensures 7 + q <= |line| && line[..7 + q] == "ssid=\"" + rest[..q] + "\""
    ensures '\n' !in rest[..q]
  {
    assert line[6..][..q + 1] == rest[..q + 1];
    assert line[..7 + q] == line[..6] + line[6..][..q + 1];
    assert rest[..q + 1] == rest[..q] + "\"";
    assert forall k :: 0 <= k < q ==> rest[..q][k] == rest[k];
  }

  /** `FindStringSubmatch` of `^<prefix>(.*)`, as for `^#psk=(?P<password>.*)`
      and `^psk=(?P<psk>.*)`: the prefix, then the rest of the first line. */
  function PrefixSubmatch(line: string, prefix: string): (r: Option<seq<string>>)
    ensures r.Some? <==> HasPrefix(line, prefix)
    ensures r.Some? ==>
      && |r.value| == 2
      && r.value[0] == prefix + r.value[1]
      && HasPrefix(line, r.value[0])
      && '\n' !in r.value[1]
      && (|line| == |r.value[0]| || line[|r.value[0]|] == '\n')
  {
    if HasPrefix(line, prefix) then
      var cap := RestOfLine(line[|prefix|..]);
      assert line[..|prefix| + |cap|] == prefix + cap by {
        assert line[..|prefix| + |cap|] == line[..|prefix|] + line[|prefix|..][..|cap|];
      }
      Some([prefix + cap, cap])
    else None
  }

  // ---------------------------------------------------------------------
  // One block

  /** Which group names the `#psk=` match is read through. The source passes
      `pskRegex`'s names, which have no `password` group, so the lookup of
      `password` always misses; `Intended` uses `passwordRegex`'s own names. */
  datatype Keying = AsWritten | Intended

  function PasswordLookupGroups(keying: Keying): seq<string> {
    match keying
    case AsWritten => PskGroups
    case Intended => PasswordGroups
  }

  /** The three variables `ParseWPANetwork` fills in while reading a block. */
  datatype Fields = Fields(ssid: string, password: string, psk: string)

  const NoFields := Fields("", "", "")

  /** One iteration of the loop of `ParseWPANetwork`. The line is trimmed and
      classified by the first of `ssid=`, `#psk=`, `psk=` it contains; a
      line whose regular expression does not match changes nothing.
      `keying` chooses the group names the `#psk=` match is read through. */
  function ScanLine(keying: Keying, f: Fields, raw: string): (r: Fields)
    ensures r.ssid != f.ssid ==> HasPrefix(TrimSpace(raw), "ssid=\"")
    ensures r.password != f.password ==>
      !Contains(TrimSpace(raw), "ssid=") && HasPrefix(TrimSpace(raw), "#psk=")
    ensures r.psk != f.psk ==>
      && !Contains(TrimSpace(raw), "ssid=") && !Contains(TrimSpace(raw), "#psk=")
      && HasPrefix(TrimSpace(raw), "psk=")
    ensures r == f || r == f.(ssid := r.ssid) || r == f.(password := r.password) || r == f.(psk := r.psk)
    ensures keying == AsWritten ==> r.password == f.password || r.password == ""
  {
    var line := TrimSpace(raw);
    if Contains(line, "ssid=") then
      match SsidSubmatch(line)
      case Some(m) => f.(ssid := Lookup(MapSubexpNames(m, SsidGroups), "ssid"))
      case None => f
    else if Contains(line, "#psk=") then
      match PrefixSubmatch(line, "#psk=")
      case Some(m) => f.(password := Lookup(MapSubexpNames(m, PasswordLookupGroups(keying)), "password"))
      case None => f
    else if Contains(line, "psk=") then
      match PrefixSubmatch(line, "psk=")
      case Some(m) => f.(psk := Lookup(MapSubexpNames(m, PskGroups), "psk"))
      case None => f
    else f
  }

  /** The loop of `ParseWPANetwork` over the lines of a block, first to last. */
  function ScanLines(keying: Keying, f: Fields, lines: seq<string>): (r: Fields)
    ensures keying == AsWritten && f.password == "" ==> r.password == ""
    decreases |lines|
  {
    if |lines| == 0 then f
    else ScanLines(keying, ScanLine(keying, f, lines[0]), lines[1..])
  }

  /** `ParseWPANetwork` with the group names used for the `#psk=` line as a
      parameter: a network when some line set a non-empty ssid, else nil. */
  function ParseNetworkWith(keying: Keying, s: string): (r: Option<Network>)
    ensures r.Some? ==> r.value.ssid != ""
    ensures r.Some? && keying == AsWritten ==> r.value.password == ""
  {
    var f := ScanLines(keying, NoFields, Split(s, '\n'));
    if |f.ssid| > 0 then Some(Network(f.ssid, f.psk, f.password)) else None
  }

  /** `ParseWPANetwork` as written: the plaintext password is never recovered. */
  function ParseNetwork(s: string): (r: Option<Network>)
    ensures r.Some? ==> r.value.ssid != "" && r.value.password == ""
  {
    ParseNetworkWith(AsWritten, s)
  }

  /** `ParseWPANetwork` with the `#psk=` match read through its own group names. */
  function ParseNetworkCorrected(s: string): (r: Option<Network>)
    ensures r.Some? ==> r.value.ssid != ""
  {
    ParseNetworkWith(Intended, s)
  }

  // ---------------------------------------------------------------------
  // The whole file

  /** `networkRegex.FindAllStringSubmatch(t, -1)` for `(?s)network={(.*?)}`,
      as the capture of each match: leftmost `network={`, then the shortest
      text up to a `}`, then the search resumes after that `}`. A
      `network={` with no `}` after it ends the search, since no later
      start can be followed by a `}` either. */
  function Blocks(t: string): (r: seq<string>)
    ensures |r| <= Occurrences(t, BlockOpen)
    ensures forall i :: 0 <= i < |r| ==> '}' !in r[i] && Contains(t, BlockOpen + r[i] + "}")
    decreases |t|
  {
    if |t| < |BlockOpen| then []
    else if HasPrefix(t, BlockOpen) then
      match IndexOf(t[9..], '}')
      case None => []
      case Some(j) =>
        var body := t[9..9 + j];
        var rest := Blocks(t[10 + j..]);
        assert HasPrefix(t, BlockOpen + body + "}") by {
          assert t[..10 + j] == t[..9] + t[9..][..j] + [t[9..][j]];
        }
        forall i | 0 <= i < |rest|
          ensures Contains(t, BlockOpen + rest[i] + "}")
        {
          ContainsInSuffix(t, 10 + j, BlockOpen + rest[i] + "}");
        }
        assert Occurrences(t, BlockOpen) == 1 + Occurrences(t[1..], BlockOpen);
        assert t[10 + j..] == t[1..][9 + j..];
        OccurrencesOfSuffix(t[1..], 9 + j, BlockOpen);
        [body] + rest
    else
      var rest := Blocks(t[1..]);
      forall i | 0 <= i < |rest|
        ensures Contains(t, BlockOpen + rest[i] + "}")
      {
        ContainsInSuffix(t, 1, BlockOpen + rest[i] + "}");
      }
      rest
  }

  /** The loop of `parseConf` over the block captures: each capture is read
      back through `mapSubexpNames`, trimmed and parsed; blocks without an
      ssid are dropped. */
  function Collect(keying: Keying, bodies: seq<string>): (r: seq<Network>)
    ensures |r| <= |bodies|
    ensures forall i :: 0 <= i < |r| ==> r[i].ssid != ""
    ensures keying == AsWritten ==> forall i :: 0 <= i < |r| ==> r[i].password == ""
    decreases |bodies|
  {
    if |bodies| == 0 then []
    else
      var rest := Collect(keying, bodies[1..]);
      var parsed := ParseNetworkWith(keying, TrimSpace(BlockCapture(bodies[0])));
      if parsed.Some? then [parsed.value] + rest else rest
  }

  /** The `network` group of one `networkRegex` match, read back through
      `mapSubexpNames`: exactly the text between `network={` and `}`. */
  function BlockCapture(body: string): (r: string)
    ensures r == body
  {
    Lookup(MapSubexpNames([BlockOpen + body + "}", body], NetworkGroups), "network")
  }

  /** `parseConf` with the `#psk=` group names as a parameter. */
  function ParseConfWith(keying: Keying, data: string): (r: Result<seq<Network>, string>)
    ensures r.Success?
    ensures |r.value| <= Occurrences(data, BlockOpen)
    ensures forall i :: 0 <= i < |r.value| ==> r.value[i].ssid != ""
  {
    Success(Collect(keying, Blocks(data)))
  }

  /** `parseConf` as written: never an error, at most one network per
      `network={`, every network named, no password ever recovered. */
  function ParseConf(data: string): (r: Result<seq<Network>, string>)
    ensures r.Success?
    ensures |r.value| <= Occurrences(data, BlockOpen)
    ensures forall i :: 0 <= i < |r.value| ==> r.value[i].ssid != "" && r.value[i].password == ""
  {
    ParseConfWith(AsWritten, data)
  }

  /** `parseConf` with the `#psk=` line read through its own group names. */
  function ParseConfCorrected(data: string): (r: Result<seq<Network>, string>)
    ensures r.Success?
    ensures |r.value| <= Occurrences(data, BlockOpen)
    ensures forall i :: 0 <= i < |r.value| ==> r.value[i].ssid != ""
  {
    ParseConfWith(Intended, data)
  }

  /** `ParseWPASupplicantConf`: read the file, then parse its text with the
      parser as written. Only the read can fail. Every network has a name and
      an empty password, and the ssids and psks are those the corrected parser
      finds (`ParseConfAgreesOnKeys`). */
  function ParseSupplicantConf(fs: map<string, FileEntry>, path: string): (r: Result<seq<Network>, string>)
    ensures r.Failure? <==> path !in fs || fs[path].Unreadable?
    ensures r.Success? ==> |r.value| <= Occurrences(fs[path].content, BlockOpen)
    ensures r.Success? ==> forall i :: 0 <= i < |r.value| ==> r.value[i].ssid != "" && r.value[i].password == ""
    ensures r.Success? ==> Credentials(r.value) == Credentials(ParseConfCorrected(fs[path].content).value)
  {
    if path !in fs then Failure("open " + path + ": no such file or directory")
    else match fs[path]
      case Unreadable(e) => Failure(e)
      case File(content) =>
        ParseConfAgreesOnKeys(content);
        ParseConf(content)
  }

  /** The (ssid, psk) pairs of a list of networks, in order. */
  function Credentials(nets: seq<Network>): seq<(string, string)>
    decreases |nets|
  {
    if |nets| == 0 then [] else [(nets[0].ssid, nets[0].psk)] + Credentials(nets[1..])
  }

  // ---------------------------------------------------------------------
  // Lemmas: the two group-name choices agree on ssid and psk

  lemma {:induction false} ScanLinesAgree(g1: Keying, g2: Keying, f1: Fields, f2: Fields, lines: seq<string>)
    requires f1.ssid == f2.ssid && f1.psk == f2.psk
    ensures ScanLines(g1, f1, lines).ssid == ScanLines(g2, f2, lines).ssid
    ensures ScanLines(g1, f1, lines).psk == ScanLines(g2, f2, lines).psk
    decreases |lines|
  {
    if |lines| > 0 {
      ScanLinesAgree(g1, g2, ScanLine(g1, f1, lines[0]), ScanLine(g2, f2, lines[0]), lines[1..]);
    }
  }

  lemma ParseNetworkAgrees(s: string)
    ensures ParseNetworkWith(AsWritten, s).Some? == ParseNetworkWith(Intended, s).Some?
    ensures ParseNetworkWith(AsWritten, s).Some? ==>
      && ParseNetworkWith(AsWritten, s).value.ssid == ParseNetworkWith(Intended, s).value.ssid
      && ParseNetworkWith(AsWritten, s).value.psk == ParseNetworkWith(Intended, s).value.psk
  {
    ScanLinesAgree(AsWritten, Intended, NoFields, NoFields, Split(s, '\n'));
  }

  lemma {:induction false} CollectAgrees(bodies: seq<string>)
    ensures Credentials(Collect(AsWritten, bodies)) == Credentials(Collect(Intended, bodies))
    decreases |bodies|
  {
    if |bodies| > 0 {
      ParseNetworkAgrees(TrimSpace(BlockCapture(bodies[0])));
      CollectAgrees(bodies[1..]);
      var a := Collect(AsWritten, bodies);
      var b := Collect(Intended, bodies);
      if |a| > |Collect(AsWritten, bodies[1..])| {
        assert a[1..] == Collect(AsWritten, bodies[1..]);
        assert b[1..] == Collect(Intended, bodies[1..]);
      }
    }
  }

  /** The password-group defect affects only the password: both parsers
      find the same networks with the same ssids and psks, in the same order. */
  lemma ParseConfAgreesOnKeys(data: string)
    ensures Credentials(ParseConf(data).value) == Credentials(ParseConfCorrected(data).value)
  {
    CollectAgrees(Blocks(data));
  }
}
