/** Properties of the known-networks parser: how blocks are found in a text,
    how each kind of line inside a block is read, and the round trip through
    `AsConf`. */
module WpaConfLaws {
  import opened Results
  import opened Text
  import opened WpaConf

  // ---------------------------------------------------------------------
  // Finding blocks

  /** Text in which no `network={` starts, ending in a character that cannot
      begin to spell one, is passed over without producing a block. */
  lemma {:induction false} SkipGap(x: string, t: string)
    requires !Contains(x, BlockOpen)
    requires |x| > 0 ==> x[|x| - 1] !in BlockOpen[..8]
    ensures Blocks(x + t) == Blocks(t)
    decreases |x|
  {
    if |x| > 0 {
      var u := x + t;
      if |u| >= |BlockOpen| {
        if |x| >= |BlockOpen| {
          assert u[..9] == x[..9];
        } else {
          assert u[|x| - 1] == x[|x| - 1];
          assert BlockOpen[|x| - 1] in BlockOpen[..8];
        }
        assert !HasPrefix(u, BlockOpen);
        assert u[1..] == x[1..] + t;
        SkipGap(x[1..], t);
      }
    } else {
      assert x + t == t;
    }
  }

  /** A `network={` followed by a `}`-free body and a `}` is one block,
      and the search resumes right after the `}`. */
  lemma BlockAt(body: string, y: string)
    requires '}' !in body
    ensures Blocks(BlockOpen + body + "}" + y) == [body] + Blocks(y)
  {
    var t := BlockOpen + body + "}" + y;
    assert HasPrefix(t, BlockOpen);
    var u := t[9..];
    assert u == body + "}" + y;
    assert u[|body|] == '}';
    var j := IndexOf(u, '}').value;
    assert j == |body|;
    assert t[9..9 + j] == body;
    assert t[10 + j..] == y;
  }

  /** What `AddNetworkConf` leaves behind for a list of block bodies: each
      block on its own, wrapped in line feeds. */
  function Framed(bodies: seq<string>): string
    decreases |bodies|
  {
    if |bodies| == 0 then "" else "\n" + BlockOpen + bodies[0] + "}\n" + Framed(bodies[1..])
  }

  /** Blocks written one after another are found again, in order. */
  lemma {:induction false} BlocksFramed(bodies: seq<string>)
    requires forall i :: 0 <= i < |bodies| ==> '}' !in bodies[i]
    ensures Blocks(Framed(bodies)) == bodies
    decreases |bodies|
  {
    if |bodies| > 0 {
      var rest := Framed(bodies[1..]);
      assert Framed(bodies) == "\n" + (BlockOpen + bodies[0] + "}" + ("\n" + rest));
      ShortNotContains("\n", BlockOpen);
      SkipGap("\n", BlockOpen + bodies[0] + "}" + ("\n" + rest));
      BlockAt(bodies[0], "\n" + rest);
      SkipGap("\n", rest);
      BlocksFramed(bodies[1..]);
    }
  }

  // ---------------------------------------------------------------------
  // Reading single lines

  /** An `ssid="…"` line sets the ssid to everything between the first and
      the last quote, whatever the keying. */
  lemma SsidLine(g: Keying, f: Fields, s: string)
    requires '\n' !in s
    ensures ScanLine(g, f, "ssid=\"" + s + "\"") == f.(ssid := s)
  {
    SsidLineAt(g, f, s, "ssid=\"" + s + "\"");
  }

  lemma SsidLineAt(g: Keying, f: Fields, s: string, line: string)
    requires line == "ssid=\"" + s + "\"" && '\n' !in s
    ensures ScanLine(g, f, line) == f.(ssid := s)
  {
    SsidLineTrimmed(s, line);
    SsidLineMatch(s, line);
    assert HasPrefix(line, "ssid=");
    assert SsidGroups[1] == "ssid" && "ssid" !in SsidGroups[2..];
    assert Lookup(MapSubexpNames([line, s], SsidGroups), "ssid") == s;
  }

  lemma SsidLineTrimmed(s: string, line: string)
    requires line == "ssid=\"" + s + "\""
    ensures TrimSpace(line) == line
  {
    TrimPadded("", line, "");
    assert "" + line + "" == line;
  }

  lemma SsidLineMatch(s: string, line: string)
    requires line == "ssid=\"" + s + "\"" && '\n' !in s
    ensures SsidSubmatch(line) == Some([line, s])
  {
    assert HasPrefix(line, "ssid=\"");
    assert line[6..] == s + "\"";
    assert RestOfLine(s + "\"") == s + "\"";
    assert LastIndexOf(s + "\"", '"') == Some(|s|);
    assert (s + "\"")[..|s|] == s;
    assert line[..7 + |s|] == line;
  }

  /** A whole line that starts with `prefix` is matched by `^<prefix>(.*)`
      with the rest of the line as the capture. */
  lemma PrefixLine(prefix: string, k: string)
    requires '\n' !in k
    ensures PrefixSubmatch(prefix + k, prefix) == Some([prefix + k, k])
  {
    var line := prefix + k;
    assert HasPrefix(line, prefix);
    assert line[|prefix|..] == k;
    assert RestOfLine(k) == k;
  }

  /** A line ending in non-space text keeps all of it through `TrimSpace`. */
  lemma TrimIndented(a: string, line: string)
    requires AllSpace(a)
    requires |line| > 0 && !IsSpace(line[0]) && !IsSpace(line[|line| - 1])
    ensures TrimSpace(a + line) == line
  {
    TrimPadded(a, line, "");
    assert a + line + "" == a + line;
  }

  /** `psk=` followed by text free of the other two keys contains only the
      `psk=` key. */
  lemma PskKeyOnly(k: string)
    requires !Contains(k, "ssid=") && !Contains(k, "#psk=")
    ensures !Contains("psk=" + k, "ssid=") && !Contains("psk=" + k, "#psk=")
    ensures Contains("psk=" + k, "psk=")
  {
    assert NoStartInside("psk=", "ssid=") by {
      assert "psk="[1] == 's' && "psk="[2] == 'k';
    }
    ContainsSkip("psk=", k, "ssid=");
    ContainsSkip("psk=", k, "#psk=");
    assert HasPrefix("psk=" + k, "psk=");
  }

  /** `#psk=` followed by text without `ssid=` is taken for a comment line. */
  lemma CommentKeyOnly(p: string)
    requires !Contains(p, "ssid=")
    ensures !Contains("#psk=" + p, "ssid=") && Contains("#psk=" + p, "#psk=")
  {
    assert NoStartInside("#psk=", "ssid=") by {
      assert "#psk="[2] == 's' && "#psk="[3] == 'k';
    }
    ContainsSkip("#psk=", p, "ssid=");
    assert HasPrefix("#psk=" + p, "#psk=");
  }

  /** A `#psk=` line never touches the ssid or the psk. */
  lemma CommentLine(g: Keying, f: Fields, a: string, p: string)
    requires AllSpace(a)
    ensures ScanLine(g, f, a + "#psk=" + p).ssid == f.ssid
    ensures ScanLine(g, f, a + "#psk=" + p).psk == f.psk
  {
    CommentLineFirst(a, p, a + "#psk=" + p);
    HashLine(g, f, a + "#psk=" + p);
  }

  lemma CommentLineFirst(a: string, p: string, raw: string)
    requires AllSpace(a) && raw == a + "#psk=" + p
    ensures |TrimSpace(raw)| > 0 && TrimSpace(raw)[0] == '#'
  {
    assert raw == a + ("#psk=" + p);
    TrimKeepsFirst(a, "#psk=" + p);
  }

  /** A line that starts with `#` after trimming cannot set the ssid or the psk. */
  lemma HashLine(g: Keying, f: Fields, raw: string)
    requires |TrimSpace(raw)| > 0 && TrimSpace(raw)[0] == '#'
    ensures ScanLine(g, f, raw).ssid == f.ssid && ScanLine(g, f, raw).psk == f.psk
  {
    var line := TrimSpace(raw);
    assert !HasPrefix(line, "ssid=\"");
    assert !HasPrefix(line, "psk=");
  }

  /** An indented line whose text ends in a non-space character is trimmed
      down to the text. */
  lemma TrimKeyLine(a: string, key: string, v: string)
    requires AllSpace(a)
    requires |key| > 0 && !IsSpace(key[0]) && !IsSpace(key[|key| - 1])
    requires v == [] || !IsSpace(v[|v| - 1])
    ensures TrimSpace(a + key + v) == key + v
  {
    var line := key + v;
    assert a + key + v == a + line;
    assert line[0] == key[0];
    assert !IsSpace(line[|line| - 1]) by {
      if v == [] { assert line == key; } else { assert line[|line| - 1] == v[|v| - 1]; }
    }
    TrimIndented(a, line);
  }

  /** The psk branch of the loop body, once the trimmed line is known to be
      a psk line. */
  lemma PskBranch(g: Keying, f: Fields, raw: string, k: string)
    requires TrimSpace(raw) == "psk=" + k
    requires '\n' !in k
    requires !Contains(k, "ssid=") && !Contains(k, "#psk=")
    ensures ScanLine(g, f, raw) == f.(psk := k)
  {
    PskKeyOnly(k);
    PrefixLine("psk=", k);
    assert PskGroups[1] == "psk" && "psk" !in PskGroups[2..];
    assert Lookup(MapSubexpNames(["psk=" + k, k], PskGroups), "psk") == k;
  }

  /** A `psk=` line, after any indentation, sets the psk to the rest of the
      line when nothing in it can be taken for an ssid or comment line. */
  lemma PskLine(g: Keying, f: Fields, a: string, k: string)
    requires AllSpace(a)
    requires '\n' !in k && (k == [] || !IsSpace(k[|k| - 1]))
    requires !Contains(k, "ssid=") && !Contains(k, "#psk=")
    ensures ScanLine(g, f, a + "psk=" + k) == f.(psk := k)
  {
    PskLineAt(g, f, a, k, a + "psk=" + k);
  }

  lemma PskLineAt(g: Keying, f: Fields, a: string, k: string, raw: string)
    requires raw == a + "psk=" + k && AllSpace(a)
    requires '\n' !in k && (k == [] || !IsSpace(k[|k| - 1]))
    requires !Contains(k, "ssid=") && !Contains(k, "#psk=")
    ensures ScanLine(g, f, raw) == f.(psk := k)
  {
    TrimKeyLine(a, "psk=", k);
    PskBranch(g, f, raw, k);
  }

  /** The comment branch of the loop body, once the trimmed line is known
      to be a comment line, for either choice of group names. */
  lemma CommentBranch(g: Keying, f: Fields, raw: string, p: string)
    requires TrimSpace(raw) == "#psk=" + p
    requires '\n' !in p && !Contains(p, "ssid=")
    ensures ScanLine(g, f, raw) == f.(password := if g == Intended then p else "")
  {
    CommentKeyOnly(p);
    PrefixLine("#psk=", p);
    if g == Intended {
      assert PasswordGroups[1] == "password" && "password" !in PasswordGroups[2..];
      assert Lookup(MapSubexpNames(["#psk=" + p, p], PasswordGroups), "password") == p;
    } else {
      assert "password" !in MapSubexpNames(["#psk=" + p, p], PskGroups);
    }
  }

  lemma CommentLineAt(g: Keying, f: Fields, a: string, p: string, raw: string)
    requires raw == a + "#psk=" + p && AllSpace(a)
    requires '\n' !in p && (p == [] || !IsSpace(p[|p| - 1]))
    requires !Contains(p, "ssid=")
    ensures ScanLine(g, f, raw) == f.(password := if g == Intended then p else "")
  {
    TrimKeyLine(a, "#psk=", p);
    CommentBranch(g, f, raw, p);
  }

  /** The comment line as written: whatever single-line text without
      trailing white space follows `#psk=`, the password read is the empty
      string. A rest holding `ssid=` is excluded, because such a line is read
      as an ssid line instead (`ScanLine`'s first branch). */
  lemma CommentLineAsWritten(f: Fields, a: string, p: string)
    requires AllSpace(a)
    requires '\n' !in p && (p == [] || !IsSpace(p[|p| - 1]))
    requires !Contains(p, "ssid=")
    ensures ScanLine(AsWritten, f, a + "#psk=" + p) == f.(password := "")
  {
    CommentLineAt(AsWritten, f, a, p, a + "#psk=" + p);
  }

  /** The comment line read through its own group names: the password is
      the rest of the line. */
  lemma CommentLineCorrected(f: Fields, a: string, p: string)
    requires AllSpace(a)
    requires '\n' !in p && (p == [] || !IsSpace(p[|p| - 1]))
    requires !Contains(p, "ssid=")
    ensures ScanLine(Intended, f, a + "#psk=" + p) == f.(password := p)
  {
    CommentLineAt(Intended, f, a, p, a + "#psk=" + p);
  }

  /** A line without the letter `s` matches none of the three keys. */
  lemma InertLine(g: Keying, f: Fields, raw: string)
    requires 's' !in raw
    ensures ScanLine(g, f, raw) == f
  {
    TrimSpaceIsInfix(raw);
    var line := TrimSpace(raw);
    assert forall c :: c in line ==> c in raw;
    MissingChar(line, "ssid=", 's');
    MissingChar(line, "#psk=", 's');
    MissingChar(line, "psk=", 's');
  }

  // ---------------------------------------------------------------------
  // Writing a network and reading it back

  /** The lines of a written block once the block has been trimmed. */
  function ConfLines(n: Network): seq<string> {
    ["ssid=\"" + n.ssid + "\"", "\t#psk=" + n.password, "\tpsk=" + n.psk]
  }

  /** A text ends in a character other than white space, or is empty. */
  predicate EndsSolid(s: string) {
    s == [] || !IsSpace(s[|s| - 1])
  }

  /** A network the block format can carry: named, every field on one line
      and free of `}`, and a psk that neither ends in white space nor can be
      mistaken for an ssid or comment line. */
  predicate Writable(n: Network) {
    && n.ssid != ""
    && '\n' !in n.ssid && '\n' !in n.password && '\n' !in n.psk
    && '}' !in n.ssid && '}' !in n.password && '}' !in n.psk
    && EndsSolid(n.psk)
    && !Contains(n.psk, "ssid=") && !Contains(n.psk, "#psk=")
  }

  /** One framed block, with nothing after it, is the only block of its text. */
  lemma SingleBlock(t: string, body: string)
    requires t == "\n" + BlockOpen + body + "}" && '}' !in body
    ensures Blocks(t) == [body]
  {
    assert t == "\n" + (BlockOpen + body + "}" + "");
    ShortNotContains("\n", BlockOpen);
    SkipGap("\n", BlockOpen + body + "}" + "");
    BlockAt(body, "");
  }

  /** The block `AsConf` writes is found as the only block of its text. */
  lemma AsConfBlocks(n: Network)
    requires '}' !in n.ssid && '}' !in n.password && '}' !in n.psk
    ensures Blocks(AsConf(n)) == [ConfBody(n)]
  {
    ConfBodyNoBrace(n, ConfBody(n));
    SingleBlock(AsConf(n), ConfBody(n));
  }

  lemma ConfBodyNoBrace(n: Network, body: string)
    requires '}' !in n.ssid && '}' !in n.password && '}' !in n.psk
    requires body == ConfBody(n)
    ensures '}' !in body
  {
    assert forall c :: c in body ==> c in n.ssid || c in n.password || c in n.psk || c in "\n\tssid=\"#pk";
  }

  /** Trimming a written block and splitting it at line feeds gives back its
      three lines. */
  lemma ConfBodyLines(n: Network)
    requires '\n' !in n.ssid && '\n' !in n.password && '\n' !in n.psk
    requires EndsSolid(n.psk)
    ensures Split(TrimSpace(ConfBody(n)), '\n') == ConfLines(n)
  {
    var lines := ConfLines(n);
    ConfBodyShape(n, lines[0], lines[1], lines[2]);
    ThreeLineBody(ConfBody(n), "\n\t", lines[0], lines[1], lines[2], "\n");
  }

  /** The written body is its three lines between white space padding. */
  lemma ConfBodyShape(n: Network, l0: string, l1: string, l2: string)
    requires [l0, l1, l2] == ConfLines(n)
    requires '\n' !in n.ssid && '\n' !in n.password && '\n' !in n.psk
    requires EndsSolid(n.psk)
    ensures ConfBody(n) == "\n\t" + (l0 + "\n" + l1 + "\n" + l2) + "\n"
    ensures '\n' !in l0 && '\n' !in l1 && '\n' !in l2
    ensures |l0| > 0 && !IsSpace(l0[0]) && |l2| > 0 && !IsSpace(l2[|l2| - 1])
  {
    assert l0[0] == 's';
    if n.psk == [] { assert l2[|l2| - 1] == '='; }
    else { assert l2[|l2| - 1] == n.psk[|n.psk| - 1]; }
  }

  /** Reading the three lines of a written block: the ssid line names the
      network, the psk line sets the psk, and the comment line decides the
      password alone. */
  lemma {:induction false} ScanConfLines(g: Keying, n: Network)
    requires Writable(n)
    ensures var pw := ScanLine(g, NoFields.(ssid := n.ssid), "\t#psk=" + n.password).password;
      ScanLines(g, NoFields, ConfLines(n)) == Fields(n.ssid, pw, n.psk)
  {
    var lines := ConfLines(n);
    ScanConfLinesAt(g, n, lines[0], lines[1], lines[2]);
  }

  lemma ScanConfLinesAt(g: Keying, n: Network, l0: string, l1: string, l2: string)
    requires Writable(n)
    requires l0 == "ssid=\"" + n.ssid + "\"" && l1 == "\t" + "#psk=" + n.password && l2 == "\t" + "psk=" + n.psk
    ensures ScanLines(g, NoFields, [l0, l1, l2]) == Fields(n.ssid, ScanLine(g, NoFields.(ssid := n.ssid), l1).password, n.psk)
  {
    ScanThree(g, NoFields, l0, l1, l2);
    SsidLineAt(g, NoFields, n.ssid, l0);
    var f1 := NoFields.(ssid := n.ssid);
    CommentLineFirst("\t", n.password, l1);
    HashLine(g, f1, l1);
    var f2 := ScanLine(g, f1, l1);
    assert f2 == f1.(password := f2.password);
    PskLineAt(g, f2, "\t", n.psk, l2);
  }

  /** The blocks of a text that yield a network, parsed in order. */
  lemma CollectOne(g: Keying, body: string, net: Network)
    requires ParseNetworkWith(g, TrimSpace(body)) == Some(net)
    ensures Collect(g, [body]) == [net]
  {
    assert BlockCapture(body) == body;
    assert [body][1..] == [];
  }

  /** The body of a written block is read as the network written, with the
      password decided by the comment line. */
  lemma ParseConfBody(g: Keying, n: Network)
    requires Writable(n)
    ensures var pw := ScanLine(g, NoFields.(ssid := n.ssid), "\t#psk=" + n.password).password;
      ParseNetworkWith(g, TrimSpace(ConfBody(n))) == Some(Network(n.ssid, n.psk, pw))
  {
    ConfBodyLines(n);
    ScanConfLines(g, n);
  }

  /** `parseConf` of one written block yields that one network, with the
      password decided by the comment line. */
  lemma ParseAsConf(g: Keying, n: Network)
    requires Writable(n)
    ensures var pw := ScanLine(g, NoFields.(ssid := n.ssid), "\t#psk=" + n.password).password;
      ParseConfWith(g, AsConf(n)) == Success([Network(n.ssid, n.psk, pw)])
  {
    var pw := ScanLine(g, NoFields.(ssid := n.ssid), "\t#psk=" + n.password).password;
    AsConfBlocks(n);
    ParseConfBody(g, n);
    CollectOne(g, ConfBody(n), Network(n.ssid, n.psk, pw));
  }

  /** Round trip through the parser as written: the ssid and the psk come
      back, the password does not. */
  lemma RoundTrip(n: Network)
    requires Writable(n)
    ensures ParseConf(AsConf(n)) == Success([n.(password := "")])
  {
    ParseAsConf(AsWritten, n);
  }

  /** Round trip through the corrected parser: the whole network comes back
      when the password, like the psk, ends in a non-space character and
      holds no `ssid=`. */
  lemma RoundTripCorrected(n: Network)
    requires Writable(n)
    requires EndsSolid(n.password) && !Contains(n.password, "ssid=")
    ensures ParseConfCorrected(AsConf(n)) == Success([n])
  {
    ParseAsConf(Intended, n);
    assert "\t#psk=" + n.password == "\t" + "#psk=" + n.password;
    CommentLineCorrected(NoFields.(ssid := n.ssid), "\t", n.password);
  }

  /** The network of `PasswordLost` keeps to one line and holds no `}`. */
  lemma ExampleOneLine(n: Network)
    requires n == Network("home", "0123abcd", "secret")
    ensures '\n' !in n.ssid && '\n' !in n.password && '\n' !in n.psk
    ensures '}' !in n.ssid && '}' !in n.password && '}' !in n.psk
  {
  }

  /** Neither text of the network of `PasswordLost` can pass for a key. */
  lemma ExampleNoKeys(n: Network)
    requires n == Network("home", "0123abcd", "secret")
    ensures !Contains(n.psk, "ssid=") && !Contains(n.psk, "#psk=") && !Contains(n.password, "ssid=")
  {
    ExamplePskNoKeys(n.psk);
    ExamplePasswordNoKey(n.password);
  }

  lemma ExamplePskNoKeys(psk: string)
    requires psk == "0123abcd"
    ensures !Contains(psk, "ssid=") && !Contains(psk, "#psk=")
  {
    assert 's' !in psk;
    MissingChar(psk, "ssid=", 's');
    MissingChar(psk, "#psk=", 's');
  }

  lemma ExamplePasswordNoKey(password: string)
    requires password == "secret"
    ensures !Contains(password, "ssid=")
  {
    assert 'i' !in password;
    MissingChar(password, "ssid=", 'i');
  }

  /** The network of `PasswordLost` ends both its psk and its password in a
      non-space character. */
  lemma ExampleSolid(n: Network)
    requires n == Network("home", "0123abcd", "secret")
    ensures EndsSolid(n.psk) && EndsSolid(n.password)
  {
  }

  /** A concrete network whose plaintext the parser as written loses and the
      corrected parser keeps. */
  lemma PasswordLost(n: Network)
    requires n == Network("home", "0123abcd", "secret")
    ensures ParseConf(AsConf(n)).value == [Network("home", "0123abcd", "")]
    ensures ParseConfCorrected(AsConf(n)).value == [n]
  {
    ExampleOneLine(n);
    ExampleNoKeys(n);
    ExampleSolid(n);
    RoundTrip(n);
    RoundTripCorrected(n);
  }

  // ---------------------------------------------------------------------
  // A file with stray text between the blocks

  /** Two lines are read one after the other. */
  lemma ScanTwo(g: Keying, f: Fields, l0: string, l1: string)
    ensures ScanLines(g, f, [l0, l1]) == ScanLine(g, ScanLine(g, f, l0), l1)
  {
    var f1 := ScanLine(g, f, l0);
    assert [l0, l1][1..] == [l1];
    assert ScanLines(g, f, [l0, l1]) == ScanLines(g, f1, [l1]);
    assert [l1][1..] == [];
    assert ScanLines(g, f1, [l1]) == ScanLines(g, ScanLine(g, f1, l1), []);
  }

  /** The lines of a block are read first to last: one more line at the end
      is read after all the others. */
  lemma {:induction false} ScanLinesSnoc(g: Keying, f: Fields, lines: seq<string>, l: string)
    ensures ScanLines(g, f, lines + [l]) == ScanLine(g, ScanLines(g, f, lines), l)
    decreases |lines|
  {
    if |lines| == 0 {
      assert lines + [l] == [l];
      assert [l][1..] == [];
    } else {
      assert (lines + [l])[1..] == lines[1..] + [l];
      ScanLinesSnoc(g, ScanLine(g, f, lines[0]), lines[1..], l);
    }
  }

  /** A later ssid line overrides whatever the earlier lines of the block set. */
  lemma LastSsidWins(g: Keying, f: Fields, lines: seq<string>, s: string, l: string)
    requires l == "ssid=\"" + s + "\"" && '\n' !in s
    ensures ScanLines(g, f, lines + [l]) == ScanLines(g, f, lines).(ssid := s)
  {
    ScanLinesSnoc(g, f, lines, l);
    SsidLine(g, ScanLines(g, f, lines), s);
  }

  /** Three lines are read one after the other. */
  lemma ScanThree(g: Keying, f: Fields, l0: string, l1: string, l2: string)
    ensures ScanLines(g, f, [l0, l1, l2]) == ScanLine(g, ScanLine(g, ScanLine(g, f, l0), l1), l2)
  {
    var f1 := ScanLine(g, f, l0);
    assert [l0, l1, l2][1..] == [l1, l2];
    assert ScanLines(g, f, [l0, l1, l2]) == ScanLines(g, f1, [l1, l2]);
    ScanTwo(g, f1, l1, l2);
  }

  /** An ssid line and an indented psk line are read as the network they name. */
  lemma SsidPskLines(g: Keying, ssid: string, a: string, k: string, l0: string, l1: string)
    requires l0 == "ssid=\"" + ssid + "\"" && l1 == a + "psk=" + k
    requires AllSpace(a)
    requires '\n' !in ssid
    requires '\n' !in k && EndsSolid(k)
    requires !Contains(k, "ssid=") && !Contains(k, "#psk=")
    ensures ScanLines(g, NoFields, [l0, l1]) == Fields(ssid, "", k)
  {
    ScanTwo(g, NoFields, l0, l1);
    SsidLine(g, NoFields, ssid);
    PskLine(g, NoFields.(ssid := ssid), a, k);
  }

  /** A block whose lines fill in a non-empty ssid is read as that network. */
  lemma ParseLines(g: Keying, s: string, lines: seq<string>, f: Fields)
    requires Split(s, '\n') == lines && ScanLines(g, NoFields, lines) == f && f.ssid != ""
    ensures ParseNetworkWith(g, s) == Some(Network(f.ssid, f.psk, f.password))
  {
  }

  /** Trimming a padded two-line block body and splitting it at line feeds. */
  lemma TwoLineBody(body: string, pre: string, l0: string, l1: string, post: string)
    requires body == pre + l0 + "\n" + l1 + post
    requires AllSpace(pre) && AllSpace(post)
    requires '\n' !in l0 && '\n' !in l1
    requires |l0| > 0 && !IsSpace(l0[0]) && |l1| > 0 && !IsSpace(l1[|l1| - 1])
    ensures Split(TrimSpace(body), '\n') == [l0, l1]
  {
    var inner := l0 + "\n" + l1;
    assert body == pre + inner + post;
    assert inner[0] == l0[0];
    assert inner[|inner| - 1] == l1[|l1| - 1];
    TrimPadded(pre, inner, post);
    assert Join([l0, l1], '\n') == inner;
    SplitJoin([l0, l1], '\n');
  }

  /** Joining three lines. */
  lemma JoinThree(l0: string, l1: string, l2: string)
    ensures Join([l0, l1, l2], '\n') == l0 + "\n" + l1 + "\n" + l2
  {
    assert [l0, l1, l2][1..] == [l1, l2];
    assert [l1, l2][1..] == [l2];
    assert Join([l1, l2], '\n') == l1 + "\n" + l2;
  }

  /** Trimming a padded three-line block body and splitting it at line feeds. */
  lemma ThreeLineBody(body: string, pre: string, l0: string, l1: string, l2: string, post: string)
    requires body == pre + (l0 + "\n" + l1 + "\n" + l2) + post
    requires AllSpace(pre) && AllSpace(post)
    requires '\n' !in l0 && '\n' !in l1 && '\n' !in l2
    requires |l0| > 0 && !IsSpace(l0[0]) && |l2| > 0 && !IsSpace(l2[|l2| - 1])
    ensures Split(TrimSpace(body), '\n') == [l0, l1, l2]
  {
    var inner := l0 + "\n" + l1 + "\n" + l2;
    assert inner[0] == l0[0];
    assert inner[|inner| - 1] == l2[|l2| - 1];
    TrimPadded(pre, inner, post);
    JoinThree(l0, l1, l2);
    SplitJoin([l0, l1, l2], '\n');
  }

  /** A block body holding an ssid line and an indented psk line, padded
      with white space, is read as the network they name. */
  lemma SsidPskBody(g: Keying, body: string, pre: string, ssid: string, a: string, k: string, post: string)
    requires body == pre + ("ssid=\"" + ssid + "\"") + "\n" + (a + "psk=" + k) + post
    requires AllSpace(pre) && AllSpace(post) && AllSpace(a) && '\n' !in a
    requires ssid != "" && '\n' !in ssid
    requires k != [] && '\n' !in k && EndsSolid(k)
    requires !Contains(k, "ssid=") && !Contains(k, "#psk=")
    ensures ParseNetworkWith(g, TrimSpace(body)) == Some(Network(ssid, k, ""))
  {
    var l0 := "ssid=\"" + ssid + "\"";
    var l1 := a + "psk=" + k;
    SsidPskShape(ssid, a, k, l0, l1);
    TwoLineBody(body, pre, l0, l1, post);
    SsidPskLines(g, ssid, a, k, l0, l1);
    ParseLines(g, TrimSpace(body), [l0, l1], Fields(ssid, "", k));
  }

  /** The two lines of such a body are single lines with solid outer ends. */
  lemma SsidPskShape(ssid: string, a: string, k: string, l0: string, l1: string)
    requires l0 == "ssid=\"" + ssid + "\"" && l1 == a + "psk=" + k
    requires '\n' !in a && '\n' !in ssid && '\n' !in k && k != [] && EndsSolid(k)
    ensures '\n' !in l0 && '\n' !in l1
    ensures |l0| > 0 && !IsSpace(l0[0]) && |l1| > 0 && !IsSpace(l1[|l1| - 1])
  {
    assert l1[|l1| - 1] == k[|k| - 1];
  }

  /** A block that yields a network contributes it ahead of the later ones. */
  lemma CollectCons(g: Keying, body: string, rest: seq<string>, net: Network)
    requires ParseNetworkWith(g, TrimSpace(body)) == Some(net)
    ensures Collect(g, [body] + rest) == [net] + Collect(g, rest)
  {
    assert BlockCapture(body) == body;
    assert ([body] + rest)[1..] == rest;
  }

  /** Text in which no `network={` can start, ending in a line feed, is skipped. */
  lemma SkipPlain(x: string, t: string)
    requires '{' !in x && |x| > 0 && x[|x| - 1] == '\n'
    ensures Blocks(x + t) == Blocks(t)
  {
    MissingChar(x, BlockOpen, '{');
    SkipGap(x, t);
  }

  /** The text of the parser's test: stray lines, a `network=` with no
      brace, a `network=}`, a lone `{`, and two well-formed blocks. */
  const TestConf: string :=
    TestHead + (BlockOpen + TestBody1 + "}" + (TestStray + TestLast))

  const TestHead: string := "\nasdf\n"
  const TestBody1: string := "\n\tssid=\"ssid-1\"\n\tpsk=pw-1\n"
  const TestStray: string := TestStrayLines + "{" + TestStrayTail
  const TestStrayLines: string :=
    "\ndummy text" + "\nto make" + "\nsure" + "\nregex works"
    + "\nnetwork=must fail" + "\nnetwork=}" + "\n"
  const TestStrayTail: string := "\nnetwork=}\n\n"
  const TestLast: string := BlockOpen + TestBody2 + "}"
  const TestBody2: string := "\n\tssid=\"ssid-2\"\n\tpsk=pw-2\n"

  /** The stray text between the blocks, brace included, yields no block. */
  lemma SkipTestStray(t: string)
    ensures Blocks(TestStray + t) == Blocks(t)
  {
    assert '{' !in TestStrayLines;
    assert TestStray + t == TestStrayLines + ("{" + (TestStrayTail + t));
    SkipPlain(TestStrayLines, "{" + (TestStrayTail + t));
    ShortNotContains("{", BlockOpen);
    SkipGap("{", TestStrayTail + t);
    SkipPlain(TestStrayTail, t);
  }

  /** `TestConf` holds exactly the two well-formed blocks, in order. */
  lemma TestBlocks(text: string)
    requires text == TestConf
    ensures Blocks(text) == [TestBody1, TestBody2]
  {
    var rest := TestStray + TestLast;
    SkipPlain(TestHead, BlockOpen + TestBody1 + "}" + rest);
    BlockAt(TestBody1, rest);
    SkipTestStray(TestLast);
    assert TestLast == BlockOpen + TestBody2 + "}" + "";
    BlockAt(TestBody2, "");
  }

  /** The shape of both bodies of `TestConf`: a tab-indented ssid line and
      psk line, then a line feed. */
  lemma TestShapedBody(g: Keying, b: string, ssid: string, k: string)
    requires b == "\n\t" + ("ssid=\"" + ssid + "\"") + "\n" + ("\t" + "psk=" + k) + "\n"
    requires ssid != "" && '\n' !in ssid && k != [] && '\n' !in k && EndsSolid(k)
    requires 's' !in k
    ensures ParseNetworkWith(g, TrimSpace(b)) == Some(Network(ssid, k, ""))
  {
    MissingChar(k, "ssid=", 's');
    MissingChar(k, "#psk=", 's');
    assert AllSpace("\n\t") && AllSpace("\t") && '\n' !in "\t" && AllSpace("\n");
    SsidPskBody(g, b, "\n\t", ssid, "\t", k, "\n");
  }

  /** The first body of `TestConf` is read as `ssid-1` with psk `pw-1`. */
  lemma TestNetwork1(g: Keying, b: string)
    requires b == TestBody1
    ensures ParseNetworkWith(g, TrimSpace(b)) == Some(Network("ssid-1", "pw-1", ""))
  {
    assert b == "\n\t" + ("ssid=\"" + "ssid-1" + "\"") + "\n" + ("\t" + "psk=" + "pw-1") + "\n";
    TestShapedBody(g, b, "ssid-1", "pw-1");
  }

  /** The second body of `TestConf` is read as `ssid-2` with psk `pw-2`. */
  lemma TestNetwork2(g: Keying, b: string)
    requires b == TestBody2
    ensures ParseNetworkWith(g, TrimSpace(b)) == Some(Network("ssid-2", "pw-2", ""))
  {
    assert b == "\n\t" + ("ssid=\"" + "ssid-2" + "\"") + "\n" + ("\t" + "psk=" + "pw-2") + "\n";
    TestShapedBody(g, b, "ssid-2", "pw-2");
  }

  /** Both bodies of `TestConf` yield their networks, in order. */
  lemma TestCollect(b1: string, b2: string)
    requires b1 == TestBody1 && b2 == TestBody2
    ensures Collect(AsWritten, [b1, b2]) == [Network("ssid-1", "pw-1", ""), Network("ssid-2", "pw-2", "")]
  {
    TestNetwork1(AsWritten, b1);
    TestNetwork2(AsWritten, b2);
    CollectTwo(AsWritten, b1, b2, Network("ssid-1", "pw-1", ""), Network("ssid-2", "pw-2", ""));
  }

  /** Two blocks that each yield a network give both, in order. */
  lemma CollectTwo(g: Keying, b1: string, b2: string, n1: Network, n2: Network)
    requires ParseNetworkWith(g, TrimSpace(b1)) == Some(n1)
    requires ParseNetworkWith(g, TrimSpace(b2)) == Some(n2)
    ensures Collect(g, [b1, b2]) == [n1, n2]
  {
    var bodies := [b1, b2];
    var tail := [b2];
    CollectOne(g, b2, n2);
    assert bodies == [b1] + tail;
    CollectCons(g, b1, tail, n1);
  }

  /** Only the two well-formed blocks are found, in order, and each gives
      its ssid and psk. */
  lemma ParseTestConf(text: string)
    requires text == TestConf
    ensures ParseConf(text) == Success([Network("ssid-1", "pw-1", ""), Network("ssid-2", "pw-2", "")])
  {
    TestBlocks(text);
    TestCollect(TestBody1, TestBody2);
  }
}
