// What the parser and the two other readers accept, said of the lines of any text.
module PolicyStrict {
  import opened Common
  import opened Strings
  import opened PolicyModel
  import opened PolicyRoundTrip
  import opened PolicySaved
  import opened PolicyReaders
  import opened PolicyListeners
  import opened Fees
  import opened PolicyEditor

  // ------------------------------------------------------------------ the parser

  // What lines of this option make of it, over what it was.
  function Gathered(before: Option<string>, given: seq<string>, many: bool): Option<string> {
    if given == [] then before
    else if before.None? then Some(if many then Join(given, ',') else given[0])
    else Some(before.value + "," + Join(given, ','))
  }

  // An option that may be given once is given once; one that may be repeated is joined.
  ghost predicate GatheredFrom(before: Option<string>, after: Option<string>, given: seq<string>, many: bool) {
    && after == Gathered(before, given, many)
    && (!many ==> |given| <= 1 && (given != [] ==> before.None?))
  }

  // Options a line of their own name sets; `noonion` is one, until the last checks.
  predicate Own(name: string) {
    Name(name) && name !in ["bind", "nobind", "noasmap", "legacy_maxorphantx", "listen", "asmap"]
  }

  lemma DirectIsOwn(name: string)
    requires Direct(name)
    ensures Own(name)
  {
  }

  lemma OwnLine(st: Parsed, line: string, network: string, name: string)
    requires Own(name) && ParseLine(st, line, network).Ok? && StartsWith(line, name + "=")
    ensures GatheredFrom(Find(st.out, name), Find(ParseLine(st, line, network).value.out, name),
                         [line[|name| + 1..]], MultiLine(name))
  {
    SplitKey(line, name);
    NotTagged(line);
    hide SplitOnce, StartsWith, LEGACY_TAG, INCOMING_TAG;
  }

  lemma OtherLine(st: Parsed, line: string, network: string, name: string)
    requires Own(name) && ParseLine(st, line, network).Ok? && !StartsWith(line, name + "=")
    ensures Find(ParseLine(st, line, network).value.out, name) == Find(st.out, name)
  {
    SplitKey(line, name);
    hide SplitOnce, StartsWith, LEGACY_TAG, INCOMING_TAG;
  }

  lemma LineGathered(st: Parsed, line: string, network: string, name: string)
    requires Own(name) && ParseLine(st, line, network).Ok?
    ensures GatheredFrom(Find(st.out, name), Find(ParseLine(st, line, network).value.out, name),
                         Tagged([line], name + "="), MultiLine(name))
  {
    TaggedSingle(line, name + "=");
    hide ParseLine, StartsWith, Own, Tagged, MultiLine;
    if StartsWith(line, name + "=") { OwnLine(st, line, network, name); } else { OtherLine(st, line, network, name); }
  }

  lemma {:induction false} JoinConcat(a: seq<string>, b: seq<string>)
    requires a != [] && b != []
    ensures Join(a + b, ',') == Join(a, ',') + "," + Join(b, ',')
  {
    assert (a + b)[0] == a[0] && (a + b)[1..] == a[1..] + b;
    if |a| > 1 { JoinConcat(a[1..], b); }
  }

  lemma GatheredOn(before: Option<string>, middle: Option<string>, after: Option<string>,
                   a: seq<string>, b: seq<string>, many: bool)
    requires GatheredFrom(before, middle, a, many) && GatheredFrom(middle, after, b, many)
    ensures GatheredFrom(before, after, a + b, many)
  {
    if a == [] {
      assert a + b == b;
    } else if b == [] {
      assert a + b == a;
    } else {
      JoinConcat(a, b);
      if before.Some? {
        assert before.value + "," + (Join(a, ',') + "," + Join(b, ','))
            == before.value + "," + Join(a, ',') + "," + Join(b, ',');
      }
    }
  }

  lemma {:induction false} LinesGathered(st: Parsed, lines: seq<string>, network: string, name: string)
    requires Own(name) && ParseLines(st, lines, network).Ok?
    ensures GatheredFrom(Find(st.out, name), Find(ParseLines(st, lines, network).value.out, name),
                         Tagged(lines, name + "="), MultiLine(name))
    decreases |lines|
  {
    if lines != [] {
      var next := ParseLine(st, lines[0], network).value;
      LineGathered(st, lines[0], network, name);
      hide ParseLine, Own;
      LinesGathered(next, lines[1..], network, name);
      assert lines == [lines[0]] + lines[1..];
      TaggedConcat([lines[0]], lines[1..], name + "=");
      GatheredOn(Find(st.out, name), Find(next.out, name), Find(ParseLines(st, lines, network).value.out, name),
                 Tagged([lines[0]], name + "="), Tagged(lines[1..], name + "="), MultiLine(name));
    }
  }

  lemma DerivedKeeps(st: Parsed, network: string, name: string)
    requires Derived(st, network).Ok? && name !in {"noonion", "i2psam", "i2pacceptincoming"}
    ensures Find(Derived(st, network).value, name) == Find(st.out, name)
  {
    hide I2pEnabled, Selects, IncomingBindings;
  }

  // Under each option, a parsed text has one line, or one or more that are joined, and
  // the policy says what they say; without a line it says nothing.
  lemma ParsedOptions(text: string, network: string, name: string)
    requires Parse(text, network).Ok? && Direct(name) && name !in {"i2psam", "i2pacceptincoming"}
    ensures var given := Tagged(Lines(text), name + "=");
      && (name in Parse(text, network).value <==> given != [])
      && (given != [] ==> Parse(text, network).value[name] == Join(given, ','))
      && (!MultiLine(name) ==> |given| <= 1)
  {
    var st := ParseLines(NOTHING, Lines(text), network).value;
    DirectIsOwn(name);
    LinesGathered(NOTHING, Lines(text), network, name);
    DerivedKeeps(st, network, name);
    hide ParseLines, Tagged, Lines, Derived;
    assert Find(NOTHING.out, name) == None;
    assert Find(Parse(text, network).value, name) == Find(st.out, name);
  }

  lemma DerivedI2p(st: Parsed, network: string)
    requires Derived(st, network).Ok?
    ensures var out := Derived(st, network).value;
      && Find(st.out, "i2psam") == (if I2pEnabled(out) then Some(SAM_ENDPOINT) else None)
      && Find(st.out, "i2pacceptincoming")
           == (if I2pEnabled(out) then Some(if Selects(out, "listen", "i2p") then "1" else "0") else None)
  {
    hide I2pEnabled, Selects, IncomingBindings;
  }

  lemma I2pNamed()
    ensures Own("i2psam") && Own("i2pacceptincoming") && Own("noonion")
    ensures !MultiLine("noonion") && !MultiLine("i2psam") && !MultiLine("i2pacceptincoming")
  {
  }

  lemma OneGiven(after: Option<string>, given: seq<string>)
    requires GatheredFrom(None, after, given, false)
    ensures given == if after.None? then [] else [after.value]
  {
  }

  // The router's lines stand in a parsed text exactly as its own selections imply.
  lemma ParsedI2p(text: string, network: string)
    requires Parse(text, network).Ok?
    ensures var out := Parse(text, network).value;
      && Tagged(Lines(text), "i2psam=") == (if I2pEnabled(out) then ["127.0.0.1:7656"] else [])
      && Tagged(Lines(text), "i2pacceptincoming=")
           == (if I2pEnabled(out) then [if Selects(out, "listen", "i2p") then "1" else "0"] else [])
  {
    hide I2pEnabled, Selects, Lines, Tagged, Derived, ParseLines, Own, MultiLine;
    I2pNamed();
    var st := ParseLines(NOTHING, Lines(text), network).value;
    DerivedI2p(st, network);
    LinesGathered(NOTHING, Lines(text), network, "i2psam");
    LinesGathered(NOTHING, Lines(text), network, "i2pacceptincoming");
    assert Find(NOTHING.out, "i2psam") == None && Find(NOTHING.out, "i2pacceptincoming") == None;
    assert "i2psam" + "=" == "i2psam=" && "i2pacceptincoming" + "=" == "i2pacceptincoming=";
    hide GatheredFrom;
    OneGiven(Find(st.out, "i2psam"), Tagged(Lines(text), "i2psam="));
    OneGiven(Find(st.out, "i2pacceptincoming"), Tagged(Lines(text), "i2pacceptincoming="));
  }

  lemma DerivedOnion(st: Parsed, network: string)
    requires Derived(st, network).Ok?
    ensures var out := Derived(st, network).value;
      Find(st.out, "noonion") == None
      || (Find(st.out, "noonion") == Some("1") && "onlynet" in out && "onion" !in Split(out["onlynet"], ','))
  {
    hide IncomingBindings, I2pEnabled, Split;
  }

  // A parsed text turns Tor outgoing off at most once, and only where its own outgoing
  // networks leave it out.
  lemma ParsedOnion(text: string, network: string)
    requires Parse(text, network).Ok?
    ensures var out, given := Parse(text, network).value, Tagged(Lines(text), "noonion=");
      given == [] || (given == ["1"] && "onlynet" in out && "onion" !in Split(out["onlynet"], ','))
  {
    hide I2pEnabled, Selects, Lines, Tagged, Derived, ParseLines, Own, MultiLine, Split;
    I2pNamed();
    var st := ParseLines(NOTHING, Lines(text), network).value;
    DerivedOnion(st, network);
    LinesGathered(NOTHING, Lines(text), network, "noonion");
    assert Find(NOTHING.out, "noonion") == None && "noonion" + "=" == "noonion=";
    hide GatheredFrom;
    OneGiven(Find(st.out, "noonion"), Tagged(Lines(text), "noonion="));
  }

  // ------------------------------------------------------- the derived listener lines

  lemma LineCleared(st: Parsed, line: string, network: string)
    requires ParseLine(st, line, network).Ok?
    ensures var next := ParseLine(st, line, network).value;
      && (st.cleared ==> next.cleared)
      && Tagged([line], "nobind=") == if next.cleared && !st.cleared then ["1"] else []
  {
    assert "nobind" + "=" == "nobind=";
    TaggedSingle(line, "nobind=");
    SplitKey(line, "nobind");
    if line != "" && line[0] != '#' { NotTagged(line); }
    hide SplitOnce, StartsWith, LEGACY_TAG, INCOMING_TAG, Tagged;
  }

  lemma {:induction false} LinesCleared(st: Parsed, lines: seq<string>, network: string)
    requires ParseLines(st, lines, network).Ok?
    ensures var next := ParseLines(st, lines, network).value;
      && (st.cleared ==> next.cleared)
      && Tagged(lines, "nobind=") == if next.cleared && !st.cleared then ["1"] else []
    decreases |lines|
  {
    if lines != [] {
      LineCleared(st, lines[0], network);
      hide ParseLine;
      LinesCleared(ParseLine(st, lines[0], network).value, lines[1..], network);
      assert lines == [lines[0]] + lines[1..];
      TaggedConcat([lines[0]], lines[1..], "nobind=");
    }
  }

  // A parsed text takes back the base listeners exactly once with a selection of its own,
  // and never without one.
  lemma ParsedReset(text: string, network: string)
    requires Parse(text, network).Ok?
    ensures Tagged(Lines(text), "nobind=") == if "listen" in Parse(text, network).value then ["1"] else []
  {
    hide I2pEnabled, Selects, Lines, Tagged, ParseLines, IncomingBindings;
    LinesCleared(NOTHING, Lines(text), network);
  }

  // What the lines that set the peer map, and those that turn it off, make of it.
  predicate MapFrom(before: Option<string>, after: Option<string>, off: seq<string>, on: seq<string>) {
    || (off == [] && on == [] && after == before)
    || (before.None? && off == ["1"] && on == [] && after == Some("0"))
    || (before.None? && off == [] && |on| == 1 && after == Some(on[0]))
  }

  lemma LineMap(st: Parsed, line: string, network: string)
    requires ParseLine(st, line, network).Ok?
    ensures MapFrom(Find(st.out, "asmap"), Find(ParseLine(st, line, network).value.out, "asmap"),
                    Tagged([line], "noasmap="), Tagged([line], "asmap="))
  {
    AsmapNames();
    TaggedSingle(line, "noasmap=");
    TaggedSingle(line, "asmap=");
    SplitKey(line, "noasmap");
    SplitKey(line, "asmap");
    if line != "" && line[0] != '#' { NotTagged(line); }
    hide SplitOnce, StartsWith, LEGACY_TAG, INCOMING_TAG, Tagged, Name;
  }

  lemma {:induction false} LinesMap(st: Parsed, lines: seq<string>, network: string)
    requires ParseLines(st, lines, network).Ok?
    ensures MapFrom(Find(st.out, "asmap"), Find(ParseLines(st, lines, network).value.out, "asmap"),
                    Tagged(lines, "noasmap="), Tagged(lines, "asmap="))
    decreases |lines|
  {
    if lines != [] {
      LineMap(st, lines[0], network);
      hide ParseLine;
      LinesMap(ParseLine(st, lines[0], network).value, lines[1..], network);
      assert lines == [lines[0]] + lines[1..];
      hide Tagged;
      TaggedConcat([lines[0]], lines[1..], "noasmap=");
      TaggedConcat([lines[0]], lines[1..], "asmap=");
    }
  }

  // A parsed text sets the peer map or turns it off, once in all, or leaves it alone.
  lemma ParsedMap(text: string, network: string)
    requires Parse(text, network).Ok?
    ensures MapFrom(None, Find(Parse(text, network).value, "asmap"),
                    Tagged(Lines(text), "noasmap="), Tagged(Lines(text), "asmap="))
  {
    LinesMap(NOTHING, Lines(text), network);
    DerivedKeeps(ParseLines(NOTHING, Lines(text), network).value, network, "asmap");
    assert Find(NOTHING.out, "asmap") == None;
    hide ParseLines, Tagged, Lines, Derived;
  }

  predicate KeyLine(line: string) {
    line != "" && line[0] != '#' && SplitOnce(line, '=').Some?
  }

  predicate ListenerKey(line: string) {
    KeyLine(line) && SplitOnce(line, '=').value.0 in {"bind", "nobind"}
  }

  lemma LineSectioned(st: Parsed, line: string, network: string)
    requires network in PORTS && ParseLine(st, line, network).Ok?
    ensures var header := "[" + network + "]";
      && ParseLine(st, line, network).value.section == (st.section || line == header)
      && (line == header ==> !st.section)
      && (line == "" || line[0] == '#' || line == header || KeyLine(line))
      && (KeyLine(line) ==> (ListenerKey(line) <==> st.section))
  {
    PortText(network);
    SectionHasNoValue(network);
    SplitOnceNone("[" + network + "]", '=');
    assert LEGACY_TAG[0] == '#' && INCOMING_TAG[0] == '#';
    if line != "" && line[0] != '#' { NotTagged(line); }
    hide LEGACY_TAG, INCOMING_TAG, PORTS, Port, SplitOnce, Plain;
  }

  lemma {:induction false} LinesSectioned(st: Parsed, lines: seq<string>, network: string, i: nat)
    requires network in PORTS && ParseLines(st, lines, network).Ok? && i < |lines|
    ensures var header, line := "[" + network + "]", lines[i];
      var within := st.section || header in lines[..i];
      && (line == header ==> !within)
      && (line == "" || line[0] == '#' || line == header || KeyLine(line))
      && (KeyLine(line) ==> (ListenerKey(line) <==> within))
    decreases |lines|
  {
    LineSectioned(st, lines[0], network);
    hide ParseLine, PORTS, KeyLine, ListenerKey;
    if i > 0 {
      LinesSectioned(ParseLine(st, lines[0], network).value, lines[1..], network, i - 1);
      assert lines[..i] == [lines[0]] + lines[1..][..i - 1];
    }
  }

  // Every line of a parsed text is empty, a comment, a key with a value, or the header of
  // the network's section, which stands there once at most; the listener lines stand
  // below it, and all other keys above.
  lemma ParsedSections(text: string, network: string, i: nat)
    requires network in PORTS && Parse(text, network).Ok? && i < |Lines(text)|
    ensures var lines, header := Lines(text), "[" + network + "]";
      && (lines[i] == header ==> header !in lines[..i])
      && (lines[i] == "" || lines[i][0] == '#' || lines[i] == header || KeyLine(lines[i]))
      && (KeyLine(lines[i]) ==> (ListenerKey(lines[i]) <==> header in lines[..i]))
  {
    hide Lines, Derived, ParseLines, KeyLine, ListenerKey, PORTS;
    LinesSectioned(NOTHING, Lines(text), network, i);
  }

  // ------------------------------------------------------------ the launcher's reader

  lemma IncomingReadableExactly(value: string)
    ensures IncomingReadable(value) <==> Incoming(value)
  {
    var parts := Split(value, ',');
    if Distinct(parts) { ElementsOfDistinct(parts); }
    if |Elements(parts)| == |parts| { DistinctOfElements(parts); }
    if parts == ["none"] { JoinOfSplit(value, ','); assert Join(["none"], ',') == "none"; }
    if value == "none" { SplitSingle("none", ','); ElementsOfDistinct(["none"]); }
    hide Split, Elements;
  }

  // A line that announces an address by itself.
  predicate Announces(l: string) {
    exists word :: word in {"discover=", "externalip=", "nodiscover=", "noexternalip="} && StartsWith(l, word)
  }

  lemma AnnouncesExactly(l: string)
    ensures AnnouncementConflict(l) <==> Announces(l)
  {
    hide StartsWith;
  }

  lemma UniqueNames(names: seq<string>)
    ensures |Elements(names)| == |names| <==> Distinct(names)
  {
    if Distinct(names) { ElementsOfDistinct(names); }
    if |Elements(names)| == |names| { DistinctOfElements(names); }
  }

  lemma ProxyExactly(proxy: seq<string>)
    ensures |proxy| > 1 || (|proxy| == 1 && proxy[0] != "0" && proxy[0] != TOR_ENDPOINT) <==>
      proxy !in {[], ["0"], ["127.0.0.1:9050"]}
  {
    assert |proxy| == 1 ==> proxy == [proxy[0]];
  }

  // The launcher starts Core exactly with a text that states one selection of incoming
  // peers at most, announces nothing by itself, and names each network and the proxy once.
  lemma LauncherAccepts(lines: seq<string>, network: string)
    ensures ReadSelection(lines, network).Ok? <==>
      && |Tagged(lines, INCOMING_TAG)| <= 1 && (forall v :: v in Tagged(lines, INCOMING_TAG) ==> Incoming(v))
      && (forall l :: l in lines ==> !Announces(l))
      && Distinct(Tagged(lines, "onlynet="))
      && (forall v :: v in Tagged(lines, "onlynet=") ==> v in {"ipv4", "ipv6", "onion", "i2p"})
      && Tagged(lines, "proxy=") in {[], ["0"], ["127.0.0.1:9050"]}
  {
    hide Tagged, IncomingReadable, Incoming, INCOMING_TAG, AnnouncementConflict, Announces, Distinct, TOR_ENDPOINT;
    hide Elements, Split;
    var incoming, outgoing, proxy := Tagged(lines, INCOMING_TAG), Tagged(lines, "onlynet="), Tagged(lines, "proxy=");
    forall v ensures IncomingReadable(v) <==> Incoming(v) { IncomingReadableExactly(v); }
    forall l ensures AnnouncementConflict(l) <==> Announces(l) { AnnouncesExactly(l); }
    UniqueNames(outgoing);
    ProxyExactly(proxy);
    assert forall v :: v in NETWORK_ORDER <==> v in {"ipv4", "ipv6", "onion", "i2p"};
  }

  // What it takes from the text, and what it assumes where the text says nothing.
  lemma LauncherReads(lines: seq<string>, network: string)
    requires ReadSelection(lines, network).Ok?
    ensures var said := ReadSelection(lines, network).value;
      && (Tagged(lines, INCOMING_TAG) == [] ==>
            said.incoming == if network == "regtest" then {"tor"} else {"clearnet", "tor"})
      && (forall v, n :: v in Tagged(lines, INCOMING_TAG) ==> (n in said.incoming <==> n in Split(v, ',')))
      && (Tagged(lines, "onlynet=") == [] ==> said.outgoing == {"ipv4", "ipv6", "onion"})
      && (Tagged(lines, "onlynet=") != [] ==> forall n :: n in said.outgoing <==> n in Tagged(lines, "onlynet="))
      && (said.proxied <==> Tagged(lines, "proxy=") == ["127.0.0.1:9050"])
  {
    var incoming, proxy := Tagged(lines, INCOMING_TAG), Tagged(lines, "proxy=");
    hide Tagged, IncomingReadable, INCOMING_TAG, AnnouncementConflict, Split;
    assert forall v :: v in incoming ==> v == incoming[0];
    assert |proxy| == 1 ==> proxy == [proxy[0]];
  }

  ghost predicate ListensOnI2p(lines: seq<string>) {
    exists v :: v in Tagged(lines, INCOMING_TAG) && "i2p" in Split(v, ',')
  }

  // The I2P condition refuses a text whose router lines are not the ones its selections
  // imply, and says otherwise whether one of them names I2P.
  lemma I2pReads(lines: seq<string>)
    ensures var outgoing := "i2p" in Tagged(lines, "onlynet=");
      var incoming := ListensOnI2p(lines);
      && (ReadI2p(lines).Ok? <==>
            && Tagged(lines, "i2psam=") == (if incoming || outgoing then ["127.0.0.1:7656"] else [])
            && Tagged(lines, "i2pacceptincoming=")
                 == (if incoming then ["1"] else if outgoing then ["0"] else []))
      && (ReadI2p(lines).Ok? ==> ReadI2p(lines).value == (incoming || outgoing))
  {
    hide Tagged, INCOMING_TAG, Split;
    var incoming := exists v :: v in Tagged(lines, INCOMING_TAG) && "i2p" in Split(v, ',');
    assert incoming <==> ListensOnI2p(lines);
    assert Flag(true) == "1" && Flag(false) == "0" && SAM_ENDPOINT == "127.0.0.1:7656";
    hide Flag, SAM_ENDPOINT, ListensOnI2p;
  }

  // --------------------------------------------------------------- an edited text

  const OWN_CONTROLS := {"listen", "onlynet", "proxy", "legacy_maxorphantx"}

  // What a line of the editor says before a comment: nothing, or a key and a value.
  function Stripped(raw: string): string { Trim(Split(raw, '#')[0]) }

  predicate Assigns(raw: string, key: string) {
    SplitOnce(Stripped(raw), '=').Some? && Trim(SplitOnce(Stripped(raw), '=').value.0) == key
  }

  // The values given for a key, in the units of the form.
  function GivenFor(p: Policy, lines: seq<string>, key: string): seq<string> {
    if lines == [] then []
    else
      var native := if Assigns(lines[0], key) then Trim(SplitOnce(Stripped(lines[0]), '=').value.1) else "";
      (if !Assigns(lines[0], key) then []
       else if key in p.entries && p.entries[key].kind.Decimal? then
         (match NativeFeeToInput(native) case Ok(v) => [v] case Err(_) => [])
       else [native])
      + GivenFor(p, lines[1..], key)
  }

  predicate Proper(p: Policy, raw: string) {
    || Stripped(raw) == ""
    || (SplitOnce(Stripped(raw), '=').Some?
        && var key := Trim(SplitOnce(Stripped(raw), '=').value.0); key in p.entries && key !in OWN_CONTROLS)
  }

  // The values of a key before and after some lines.
  ghost predicate EditedFrom(st: Edit, next: Edit, given: seq<string>, key: string) {
    && Find(next.values, key)
         == (if given == [] then Find(st.values, key)
             else if key in st.values && key in {"debug", "debugexclude"} then
               Some(st.values[key] + "," + Join(given, ','))
             else Some(Join(given, ',')))
    && (key in next.seen <==> key in st.seen || given != [])
    && (key !in {"debug", "debugexclude"} ==> |given| <= 1 && (given != [] ==> key !in st.seen))
  }

  lemma EditedLine(p: Policy, st: Edit, raw: string, key: string)
    requires EditLine(p, st, raw).Ok?
    ensures Proper(p, raw) && EditedFrom(st, EditLine(p, st, raw).value, GivenFor(p, [raw], key), key)
  {
    assert GivenFor(p, [raw][1..], key) == [];
    hide Trim, Split, SplitOnce, NativeFeeToInput;
    assert Stripped(raw) == "" ==> SplitOnce("", '=').None? by { NoKey(); }
  }

  lemma NoKey()
    ensures SplitOnce("", '=').None?
  {
  }

  lemma {:induction false} GivenConcat(p: Policy, a: seq<string>, b: seq<string>, key: string)
    ensures GivenFor(p, a + b, key) == GivenFor(p, a, key) + GivenFor(p, b, key)
  {
    if a == [] {
      assert a + b == b;
    } else {
      assert (a + b)[1..] == a[1..] + b;
      GivenConcat(p, a[1..], b, key);
    }
  }

  lemma EditedOn(st: Edit, middle: Edit, next: Edit, a: seq<string>, b: seq<string>, key: string)
    requires EditedFrom(st, middle, a, key) && EditedFrom(middle, next, b, key)
    ensures EditedFrom(st, next, a + b, key)
  {
    if a == [] {
      assert a + b == b;
    } else if b == [] {
      assert a + b == a;
    } else {
      JoinConcat(a, b);
      if key in st.values {
        assert st.values[key] + "," + Join(a, ',') + "," + Join(b, ',')
            == st.values[key] + "," + (Join(a, ',') + "," + Join(b, ','));
      }
    }
  }

  lemma {:induction false} EditedLines(p: Policy, st: Edit, lines: seq<string>, key: string)
    requires EditLines(p, st, lines).Ok?
    ensures EditedFrom(st, EditLines(p, st, lines).value, GivenFor(p, lines, key), key)
    ensures forall l :: l in lines ==> Proper(p, l)
    decreases |lines|
  {
    if lines != [] {
      var next := EditLine(p, st, lines[0]).value;
      EditedLine(p, st, lines[0], key);
      hide EditLine, EditedFrom, Proper;
      EditedLines(p, next, lines[1..], key);
      assert lines == [lines[0]] + lines[1..];
      GivenConcat(p, [lines[0]], lines[1..], key);
      EditedOn(st, next, EditLines(p, st, lines).value, GivenFor(p, [lines[0]], key), GivenFor(p, lines[1..], key), key);
    } else {
      assert GivenFor(p, lines, key) == [];
    }
  }

  lemma EditedParts(p: Policy, saved: string, text: string)
    requires ConfigValues(p, saved, text).Ok?
    ensures Current(p, saved).Ok?
    ensures var start := Edit(Retained(Current(p, saved).value), {});
      EditLines(p, start, Lines(text)).Ok?
      && ConfigValues(p, saved, text).value == EditLines(p, start, Lines(text)).value.values
    ensures Validate(p, ConfigValues(p, saved, text).value).Ok?
    ensures Utf8Length(text) <= 8192
    ensures forall c :: c in text ==> (' ' <= c < '\U{7F}') || '\U{9F}' < c || c in {'\n', '\r', '\t'}
  {
    assert forall c :: c in text && Control(c) ==> c == '\n' || c == '\r' || c == '\t';
    hide Current, EditLines, Validate, Retained;
  }

  // An edited text is accepted only if it fits, holds no control characters, and every
  // line is empty or sets a known option without a control of its own. The options with
  // their own controls stay as they are saved; every other one is what the text gives it,
  // once, or joined where it may be repeated.
  lemma EditedMeans(p: Policy, saved: string, text: string, key: string)
    requires ConfigValues(p, saved, text).Ok?
    ensures Utf8Length(text) <= 8192
    ensures forall c :: c in text ==> (' ' <= c < '\U{7F}') || '\U{9F}' < c || c in {'\n', '\r', '\t'}
    ensures forall l :: l in Lines(text) ==> Proper(p, l)
    ensures Current(p, saved).Ok?
    ensures var values, given := ConfigValues(p, saved, text).value, GivenFor(p, Lines(text), key);
      && Validate(p, values).Ok?
      && (key in OWN_CONTROLS ==> given == [] && Find(values, key) == Find(Current(p, saved).value, key))
      && (key !in OWN_CONTROLS ==> Find(values, key) == if given == [] then None else Some(Join(given, ',')))
      && (key !in {"debug", "debugexclude"} ==> |given| <= 1)
  {
    EditedParts(p, saved, text);
    var start := Edit(Retained(Current(p, saved).value), {});
    hide Current, EditLines, Validate, Lines, ConfigValues, Proper, GivenFor, Utf8Length, Retained, OWN_CONTROLS;
    hide EditedFrom, Join;
    EditedLines(p, start, Lines(text), key);
    if key in OWN_CONTROLS { ProperGives(p, Lines(text), key); }
    RetainedFinds(Current(p, saved).value, key);
    EditedAtLast(start, EditLines(p, start, Lines(text)).value, GivenFor(p, Lines(text), key), key);
  }

  lemma RetainedFinds(values: Values, key: string)
    ensures Find(Retained(values), key) == if key in OWN_CONTROLS then Find(values, key) else None
  {
    assert OWN_CONTROLS == {"listen", "onlynet", "proxy", "legacy_maxorphantx"};
  }

  lemma EditedAtLast(start: Edit, last: Edit, given: seq<string>, key: string)
    requires EditedFrom(start, last, given, key) && start.seen == {}
    ensures given == [] ==> Find(last.values, key) == Find(start.values, key)
    ensures given != [] && Find(start.values, key).None? ==> Find(last.values, key) == Some(Join(given, ','))
    ensures key !in {"debug", "debugexclude"} ==> |given| <= 1
  {
  }

  lemma {:induction false} ProperGives(p: Policy, lines: seq<string>, key: string)
    requires forall l :: l in lines ==> Proper(p, l)
    requires key in OWN_CONTROLS
    ensures GivenFor(p, lines, key) == []
  {
    if lines != [] {
      NoKey();
      assert lines[0] in lines && Proper(p, lines[0]);
      hide Trim, Split, SplitOnce;
      ProperGives(p, lines[1..], key);
    }
  }
}
