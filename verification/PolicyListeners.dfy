// Which addresses a policy listens on, said of the bind lines of its text.
module PolicyListeners {
  import opened Common
  import opened Strings
  import opened Decimals
  import opened PolicyModel
  import opened PolicyRoundTrip
  import opened PolicySaved
  import opened PolicyReaders

  // The peer port of each network, and the next one.
  const PORTS: map<string, (string, string)> := map[
    "main" := ("8333", "8334"), "test" := ("18333", "18334"), "testnet4" := ("48333", "48334"),
    "signet" := ("38333", "38334"), "regtest" := ("18444", "18445")]

  // These bind lines open the network's port to everyone exactly with Clearnet, to this
  // device alone without it, and the next port to Tor exactly with Tor.
  ghost predicate Listens(binds: seq<string>, clearnet: bool, tor: bool, port: string, next: string) {
    && Distinct(binds)
    && (!clearnet ==> forall b :: b in binds ==> StartsWith(b, "127.0.0.1:"))
    && (clearnet ==> forall b :: b in binds && !StartsWith(b, "127.0.0.1:")
                                 <==> b == "0.0.0.0:" + port || b == "[::]:" + port)
    && ("127.0.0.1:" + port in binds <==> !clearnet)
    && (forall b :: b in binds && StartsWith(b, "127.0.0.1:") && b != "127.0.0.1:" + port
                    <==> tor && b == "127.0.0.1:" + next + "=onion")
  }

  // The names of a selection, in any order.
  ghost predicate Incoming(selection: string) {
    selection == "none"
    || (Distinct(Split(selection, ',')) && forall p :: p in Split(selection, ',') ==> p in {"clearnet", "tor", "i2p"})
  }

  ghost predicate ListensAs(binds: seq<string>, selection: string, network: string) {
    && network in PORTS
    && Listens(binds, "clearnet" in Split(selection, ','), "tor" in Split(selection, ','),
               PORTS[network].0, PORTS[network].1)
  }

  lemma NextDigit(n: nat, s: string, d: nat, t: string)
    requires n > 0 && d < 10 && Digits(n) == s && t == s + [Digit(d)]
    ensures Digits(10 * n + d) == t
  {
    assert (10 * n + d) / 10 == n && (10 * n + d) % 10 == d;
  }

  lemma MainPort()
    ensures Digits(8333) == "8333" && Digits(8334) == "8334"
  {
    assert Digits(8) == [Digit(8)] == "8";
    hide Digits;
    NextDigit(8, "8", 3, "83");
    NextDigit(83, "83", 3, "833");
    NextDigit(833, "833", 3, "8333");
    NextDigit(833, "833", 4, "8334");
  }

  lemma TestPort()
    ensures Digits(18333) == "18333" && Digits(18334) == "18334"
  {
    assert Digits(1) == [Digit(1)] == "1";
    hide Digits;
    NextDigit(1, "1", 8, "18");
    NextDigit(18, "18", 3, "183");
    NextDigit(183, "183", 3, "1833");
    NextDigit(1833, "1833", 3, "18333");
    NextDigit(1833, "1833", 4, "18334");
  }

  lemma Testnet4Port()
    ensures Digits(48333) == "48333" && Digits(48334) == "48334"
  {
    assert Digits(4) == [Digit(4)] == "4";
    hide Digits;
    NextDigit(4, "4", 8, "48");
    NextDigit(48, "48", 3, "483");
    NextDigit(483, "483", 3, "4833");
    NextDigit(4833, "4833", 3, "48333");
    NextDigit(4833, "4833", 4, "48334");
  }

  lemma SignetPort()
    ensures Digits(38333) == "38333" && Digits(38334) == "38334"
  {
    assert Digits(3) == [Digit(3)] == "3";
    hide Digits;
    NextDigit(3, "3", 8, "38");
    NextDigit(38, "38", 3, "383");
    NextDigit(383, "383", 3, "3833");
    NextDigit(3833, "3833", 3, "38333");
    NextDigit(3833, "3833", 4, "38334");
  }

  lemma RegtestPort()
    ensures Digits(18444) == "18444" && Digits(18445) == "18445"
  {
    assert Digits(1) == [Digit(1)] == "1";
    hide Digits;
    NextDigit(1, "1", 8, "18");
    NextDigit(18, "18", 4, "184");
    NextDigit(184, "184", 4, "1844");
    NextDigit(1844, "1844", 4, "18444");
    NextDigit(1844, "1844", 5, "18445");
  }

  lemma PortText(network: string)
    ensures Port(network).Some? <==> network in PORTS
    ensures Port(network).Some? ==>
      PORTS[network] == (Digits(Port(network).value), Digits(Port(network).value + 1))
  {
    MainPort();
    TestPort();
    Testnet4Port();
    SignetPort();
    RegtestPort();
    hide Digits;
  }

  lemma Hosts(port: string, next: string)
    requires AllDigits(port)
    ensures StartsWith("127.0.0.1:" + port, "127.0.0.1:") && StartsWith("127.0.0.1:" + next + "=onion", "127.0.0.1:")
    ensures !StartsWith("0.0.0.0:" + port, "127.0.0.1:") && !StartsWith("[::]:" + port, "127.0.0.1:")
    ensures "127.0.0.1:" + next + "=onion" != "127.0.0.1:" + port && "0.0.0.0:" + port != "[::]:" + port
  {
    StripOwnPrefix("127.0.0.1:", port);
    StripOwnPrefix("127.0.0.1:", next + "=onion");
    assert "127.0.0.1:" + next + "=onion" == "127.0.0.1:" + (next + "=onion");
    NotPrefix("0.0.0.0:" + port, "127.0.0.1:", 0);
    NotPrefix("[::]:" + port, "127.0.0.1:", 0);
    assert ("0.0.0.0:" + port)[0] == '0' && ("[::]:" + port)[0] == '[';
    var onion, open := "127.0.0.1:" + next + "=onion", "127.0.0.1:" + port;
    assert onion[|onion| - 1] == 'n';
    assert open[|open| - 1] in ":" + port;
  }

  lemma BindingsListen(network: string, selection: string)
    requires IncomingBindings(network, selection).Ok?
    ensures ListensAs(IncomingBindings(network, selection).value, selection, network)
  {
    PortText(network);
    var port, next := PORTS[network].0, PORTS[network].1;
    Hosts(port, next);
    hide StartsWith, Split, Selection, AllDigits, Digits;
    var binds := IncomingBindings(network, selection).value;
    if "clearnet" in Split(selection, ',') {
      assert binds[0] == "0.0.0.0:" + port && binds[1] == "[::]:" + port;
    } else {
      assert binds[0] == "127.0.0.1:" + port;
    }
    if "tor" in Split(selection, ',') {
      assert binds[|binds| - 1] == "127.0.0.1:" + next + "=onion";
    }
  }

  // ------------------------------------------------------------ the printed listeners

  lemma ListenBound(values: Values, network: string, bindings: seq<string>)
    ensures Tagged(ListenLines(values, network, bindings), "bind=") == if "listen" in values then bindings else []
  {
    if "listen" in values {
      var tag, section := INCOMING_TAG + values["listen"], "[" + network + "]";
      ListenHead(values, network, bindings);
      assert "nobind" + "=" + "1" == "nobind=1" && "bind" + "=" == "bind=";
      OtherTagged(tag, "bind");
      OtherTagged(section, "bind");
      AssignmentTagged("nobind", "1", "bind");
      AssignmentsTagged("bind", bindings, "bind");
      TaggedConcat([tag], [section], "bind=");
      TaggedConcat([tag] + [section], ["nobind=1"], "bind=");
      TaggedConcat([tag] + [section] + ["nobind=1"], Assignments("bind", bindings), "bind=");
    }
  }

  lemma BlocksUnbound(values: Values, keys: seq<string>, network: string)
    requires Storable(values, network) && Listing(keys, values)
    ensures Tagged(Blocks(values, keys), "bind=") == []
  {
    assert RESERVED[0] == "bind" && "bind" + "=" == "bind=";
    BlocksTagged(values, keys, "bind");
  }

  lemma PartsUnbound(values: Values)
    ensures Tagged([HEADER], "bind=") == [] && Tagged(OnionLines(values), "bind=") == []
    ensures Tagged(I2pLines(values), "bind=") == []
  {
    assert "bind" + "=" == "bind=";
    HeaderTagged("bind");
    OnionTagged(values, "bind");
    I2pTagged(values, "bind");
  }

  lemma RenderBound(values: Values, keys: seq<string>, network: string)
    requires Storable(values, network) && Listing(keys, values)
    ensures RenderLines(values, network, keys).Ok?
    ensures Tagged(RenderLines(values, network, keys).value, "bind=") == ListenBindings(values, network).value
  {
    hide HEADER, Blocks, OnionLines, I2pLines, ListenLines, Tagged, OptionKey, Port, IncomingBindings, Plain;
    var bindings := ListenBindings(values, network).value;
    PartsUnbound(values);
    BlocksUnbound(values, keys, network);
    ListenBound(values, network, bindings);
    TaggedFive([HEADER], Blocks(values, keys), OnionLines(values), I2pLines(values),
               ListenLines(values, network, bindings), "bind=");
  }

  // The bind lines of a policy without an incoming selection, and with one.
  ghost predicate ListenersOf(lines: seq<string>, values: Values, network: string) {
    && ("listen" !in values ==> Tagged(lines, "bind=") == [])
    && ("listen" in values ==> ListensAs(Tagged(lines, "bind="), values["listen"], network))
  }

  // A printed policy listens exactly where its selection says.
  lemma RenderedListeners(values: Values, keys: seq<string>, network: string)
    requires Storable(values, network) && Listing(keys, values)
    ensures RenderLines(values, network, keys).Ok?
    ensures ListenersOf(Lines(Text(RenderLines(values, network, keys).value)), values, network)
  {
    RenderIsPlain(values, keys, network);
    LinesOfText(RenderLines(values, network, keys).value);
    RenderBound(values, keys, network);
    if "listen" in values { BindingsListen(network, values["listen"]); }
    hide RenderLines, Text, Lines, Tagged, ListensAs, Storable, Listing;
  }

  // ------------------------------------------------- Tor outgoing and the peer map

  lemma OnionPrinted(values: Values)
    ensures Tagged(OnionLines(values), "noonion=") ==
      if "onlynet" in values && "onion" !in Split(values["onlynet"], ',') then ["1"] else []
  {
    if OnionLines(values) != [] {
      assert "noonion" + "=" + "1" == "noonion=1" && "noonion" + "=" == "noonion=";
      AssignmentTagged("noonion", "1", "noonion");
    }
    hide Split;
  }

  lemma OthersOnion(values: Values, keys: seq<string>, network: string, bindings: seq<string>)
    requires Storable(values, network) && Listing(keys, values)
    ensures Tagged([HEADER], "noonion=") == [] && Tagged(Blocks(values, keys), "noonion=") == []
    ensures Tagged(I2pLines(values), "noonion=") == [] && Tagged(ListenLines(values, network, bindings), "noonion=") == []
  {
    assert RESERVED[3] == "noonion" && "noonion" + "=" == "noonion=";
    HeaderTagged("noonion");
    BlocksTagged(values, keys, "noonion");
    I2pTagged(values, "noonion");
    ListenTagged(values, network, bindings, "noonion");
  }

  // Tor outgoing is turned off in the printed text exactly if the policy chooses outgoing
  // networks and Tor is none of them.
  lemma RenderedOnion(values: Values, keys: seq<string>, network: string)
    requires Storable(values, network) && Listing(keys, values)
    ensures RenderLines(values, network, keys).Ok?
    ensures Tagged(Lines(Text(RenderLines(values, network, keys).value)), "noonion=") ==
      if "onlynet" in values && "onion" !in Split(values["onlynet"], ',') then ["1"] else []
  {
    hide HEADER, Blocks, OnionLines, I2pLines, ListenLines, Tagged, OptionKey, Port, IncomingBindings, Plain, Split;
    hide Text, Lines, PlainLines;
    var bindings := ListenBindings(values, network).value;
    RenderIsPlain(values, keys, network);
    AllPlain(RenderLines(values, network, keys).value);
    OthersOnion(values, keys, network, bindings);
    OnionPrinted(values);
    TaggedFive([HEADER], Blocks(values, keys), OnionLines(values), I2pLines(values),
               ListenLines(values, network, bindings), "noonion=");
  }

  lemma AllPlain(lines: seq<string>)
    requires PlainLines(lines)
    ensures Lines(Text(lines)) == lines
  {
    LinesOfText(lines);
  }

  lemma BlockForm(key: string, value: string)
    requires OptionKey(key) && key != "listen" && key != "legacy_maxorphantx" && !(key == "asmap" && value == "0")
    ensures '=' !in key && key != "noasmap"
    ensures Block(key, value) == (if MultiLine(key) then Assignments(key, Split(value, ',')) else [key + "=" + value])
  {
    assert RESERVED[2] == "noasmap";
    hide Assignments, Split;
  }

  lemma AsmapNames()
    ensures Name("noasmap") && Name("asmap") && !MultiLine("asmap")
    ensures "noasmap" + "=" == "noasmap=" && "asmap" + "=" == "asmap=" && "noasmap" + "=" + "1" == "noasmap=1"
  {
  }

  lemma UsualTagged(key: string, value: string, name: string)
    requires OptionKey(key) && key != "listen" && key != "legacy_maxorphantx" && !(key == "asmap" && value == "0")
    requires Name(name) && !MultiLine(name)
    ensures Tagged(Block(key, value), name + "=") == if key == name then [value] else []
  {
    hide Block, OptionKey, Name, Tagged, Assignments, Split, MultiLine;
    BlockForm(key, value);
    AssignmentTagged(key, value, name);
    AssignmentsTagged(key, Split(value, ','), name);
  }

  lemma SpecialTagged(key: string, value: string)
    requires key == "listen" || key == "legacy_maxorphantx" || (key == "asmap" && value == "0")
    ensures Tagged(Block(key, value), "noasmap=") == if key == "asmap" then ["1"] else []
    ensures Tagged(Block(key, value), "asmap=") == []
  {
    AsmapNames();
    if key == "legacy_maxorphantx" {
      OtherTagged(LEGACY_TAG + value, "noasmap");
      OtherTagged(LEGACY_TAG + value, "asmap");
    } else if key == "asmap" {
      AssignmentTagged("noasmap", "1", "noasmap");
      AssignmentTagged("noasmap", "1", "asmap");
    }
    hide Name, StartsWith;
  }

  lemma AsmapBlock(key: string, value: string)
    requires OptionKey(key)
    ensures Tagged(Block(key, value), "noasmap=") == if key == "asmap" && value == "0" then ["1"] else []
    ensures Tagged(Block(key, value), "asmap=") == if key == "asmap" && value != "0" then [value] else []
  {
    hide Block, OptionKey, Tagged, Name, MultiLine;
    if key == "listen" || key == "legacy_maxorphantx" || (key == "asmap" && value == "0") {
      SpecialTagged(key, value);
    } else {
      AsmapNames();
      UsualTagged(key, value, "asmap");
      NotReserved(key, value);
    }
  }

  lemma NotReserved(key: string, value: string)
    requires OptionKey(key) && key != "listen" && key != "legacy_maxorphantx" && !(key == "asmap" && value == "0")
    ensures Tagged(Block(key, value), "noasmap=") == []
  {
    AsmapNames();
    BlockForm(key, value);
    hide Block, OptionKey, Tagged, Name;
    UsualTagged(key, value, "noasmap");
  }

  // The peer map of an accepted policy is turned off for the stored zero, and set to any
  // other stored value.
  lemma {:induction false} NoAsmapPrinted(values: Values, keys: seq<string>)
    requires Distinct(keys) && forall k :: k in keys ==> k in values && OptionKey(k)
    ensures Tagged(Blocks(values, keys), "noasmap=") ==
      if "asmap" in keys && values["asmap"] == "0" then ["1"] else []
  {
    hide Block, OptionKey;
    if keys != [] {
      var key, rest := keys[0], keys[1..];
      assert keys == [key] + rest && key !in rest;
      NoAsmapPrinted(values, rest);
      hide Tagged, Distinct;
      AsmapBlock(key, values[key]);
      TaggedConcat(Block(key, values[key]), Blocks(values, rest), "noasmap=");
    }
  }

  lemma {:induction false} AsmapPrinted(values: Values, keys: seq<string>)
    requires Distinct(keys) && forall k :: k in keys ==> k in values && OptionKey(k)
    ensures Tagged(Blocks(values, keys), "asmap=") ==
      if "asmap" in keys && values["asmap"] != "0" then [values["asmap"]] else []
  {
    hide Block, OptionKey;
    if keys != [] {
      var key, rest := keys[0], keys[1..];
      assert keys == [key] + rest && key !in rest;
      AsmapPrinted(values, rest);
      hide Tagged, Distinct;
      AsmapBlock(key, values[key]);
      TaggedConcat(Block(key, values[key]), Blocks(values, rest), "asmap=");
    }
  }

  lemma {:induction false} DistinctOfElements(s: seq<string>)
    requires |Elements(s)| == |s|
    ensures Distinct(s)
  {
    if s != [] {
      assert s == [s[0]] + s[1..];
      assert Elements(s) == {s[0]} + Elements(s[1..]);
      ElementsBound(s[1..]);
      assert {s[0]} + Elements(s[1..]) != Elements(s[1..]);
      DistinctOfElements(s[1..]);
    }
  }

  lemma {:induction false} ElementsBound(s: seq<string>)
    ensures |Elements(s)| <= |s|
  {
    if s != [] {
      assert s == [s[0]] + s[1..];
      assert Elements(s) == {s[0]} + Elements(s[1..]);
      ElementsBound(s[1..]);
    }
  }

  lemma IncomingExactly(network: string, selection: string)
    ensures IncomingBindings(network, selection).Ok? <==> network in PORTS && Incoming(selection)
  {
    PortText(network);
    var parts := Split(selection, ',');
    if Distinct(parts) { ElementsOfDistinct(parts); }
    if |Elements(parts)| == |parts| { DistinctOfElements(parts); }
    hide Elements, Distinct, Port, Digits, PORTS, Split;
    assert forall p :: p in INCOMING_ORDER <==> p in {"clearnet", "tor", "i2p"};
  }

  // A policy is printed exactly if the network has a listener and the selection is
  // `none` or names Clearnet, Tor and I2P at most once each.
  lemma PrintedExactly(values: Values, keys: seq<string>, network: string)
    requires Listing(keys, values)
    ensures RenderLines(values, network, keys).Ok? <==>
      ("listen" in values ==> network in PORTS && Incoming(values["listen"]))
  {
    hide Blocks, OnionLines, I2pLines, ListenLines, HEADER, Incoming, PORTS, IncomingBindings;
    if "listen" in values { IncomingExactly(network, values["listen"]); }
  }

  // ------------------------------------------------------------- the parsed listeners

  lemma ParsedBind(st: Parsed, line: string, network: string)
    requires ParseLine(st, line, network).Ok?
    ensures ParseLine(st, line, network).value.bindings == st.bindings + Tagged([line], "bind=")
  {
    assert "bind" + "=" == "bind=";
    TaggedSingle(line, "bind=");
    SplitKey(line, "bind");
    if line != "" && line[0] != '#' { NotTagged(line); }
    hide SplitOnce, StartsWith, LEGACY_TAG, INCOMING_TAG, Tagged;
  }

  lemma {:induction false} ParsedBinds(st: Parsed, lines: seq<string>, network: string)
    requires ParseLines(st, lines, network).Ok?
    ensures ParseLines(st, lines, network).value.bindings == st.bindings + Tagged(lines, "bind=")
    decreases |lines|
  {
    if lines != [] {
      ParsedBind(st, lines[0], network);
      hide ParseLine;
      ParsedBinds(ParseLine(st, lines[0], network).value, lines[1..], network);
      TaggedConcat([lines[0]], lines[1..], "bind=");
      assert lines == [lines[0]] + lines[1..];
    }
  }

  // A text is parsed only if it listens exactly where its own selection says.
  lemma ParsedListeners(text: string, network: string)
    requires Parse(text, network).Ok?
    ensures ListenersOf(Lines(text), Parse(text, network).value, network)
  {
    var lines := Lines(text);
    ParsedBinds(NOTHING, lines, network);
    var st := ParseLines(NOTHING, lines, network).value;
    assert st.bindings == Tagged(lines, "bind=");
    var out := Parse(text, network).value;
    hide ParseLines, Tagged, Lines, ListensAs, I2pEnabled, Selects, IncomingBindings;
    assert "listen" in out <==> "listen" in st.out;
    if "listen" in out {
      assert out["listen"] == st.out["listen"];
      BindingsListen(network, out["listen"]);
    }
  }

  // ---------------------------------------------------------------------- validation

  lemma SameSelected(p: Policy, input: Values)
    requires Reviewed(p) && Validate(p, input).Ok? && "listen" in input
    ensures "listen" in Validate(p, input).value
    ensures forall n :: n in Split(Validate(p, input).value["listen"], ',') <==> n in Split(input["listen"], ',')
  {
    var value, stored := input["listen"], Validate(p, input).value["listen"];
    assert Canonical1(p, "listen", value) == Ok(stored);
    if value != "none" {
      IncomingNames();
      SortedSelection(value, INCOMING_ORDER);
      hide Split, Sorted, Selection;
      assert forall n :: n in Split(stored, ',') <==> n in Elements(Split(stored, ','));
      assert forall n :: n in Split(value, ',') <==> n in Elements(Split(value, ','));
    }
  }

  // From the input of a user to the bind lines of the file: whatever validation accepts
  // is printed, and listens where the input's own selection says.
  lemma ValidatedListeners(p: Policy, input: Values, keys: seq<string>)
    requires Reviewed(p) && Validate(p, input).Ok? && Listing(keys, Validate(p, input).value)
    ensures RenderLines(Validate(p, input).value, p.network, keys).Ok?
    ensures var text := Text(RenderLines(Validate(p, input).value, p.network, keys).value);
      ListenersOf(Lines(text), input, p.network)
  {
    var out := Validate(p, input).value;
    ListenKept(p, input);
    if "listen" in input { SameSelected(p, input); }
    hide Canonical1, Together, Storable, AllStable, Text, Lines, Tagged, Listens, RenderLines, Split, EachAllowed;
    ValidatedIsStable(p, input);
    RenderedListeners(out, keys, p.network);
  }

  lemma ListenKept(p: Policy, input: Values)
    requires Validate(p, input).Ok?
    ensures "listen" in Validate(p, input).value <==> "listen" in input
  {
    hide Canonical1, Together, Selects;
  }
}
