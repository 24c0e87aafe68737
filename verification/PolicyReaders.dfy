// One writer, three readers: the launcher and the I2P condition read from the printed
// text what the policy itself says.
module PolicyReaders {
  import opened Common
  import opened Strings
  import opened PolicyModel
  import opened PolicyRoundTrip
  import opened PolicySaved

  // ------------------------------------------------------------ lines with a prefix

  lemma {:induction false} TaggedConcat(a: seq<string>, b: seq<string>, prefix: string)
    ensures Tagged(a + b, prefix) == Tagged(a, prefix) + Tagged(b, prefix)
  {
    if a == [] {
      assert a + b == b;
    } else {
      assert (a + b)[1..] == a[1..] + b;
      TaggedConcat(a[1..], b, prefix);
    }
  }

  lemma TaggedSingle(line: string, prefix: string)
    ensures Tagged([line], prefix) == if StartsWith(line, prefix) then [line[|prefix|..]] else []
  {
    assert Tagged([], prefix) == [];
  }

  lemma {:induction false} TaggedNone(lines: seq<string>, prefix: string)
    requires Tagged(lines, prefix) == []
    ensures forall l :: l in lines ==> !StartsWith(l, prefix)
  {
    if lines != [] {
      TaggedNone(lines[1..], prefix);
      assert lines == [lines[0]] + lines[1..];
    }
  }

  // The name of an option as it starts a line.
  predicate Name(name: string) {
    name != "" && '=' !in name && name[0] != '#' && name[0] != '['
  }

  lemma NameStarts(key: string, value: string, name: string)
    requires '=' !in key && '=' !in name
    ensures StartsWith(key + "=" + value, name + "=") <==> key == name
    ensures (key + "=" + value)[|key| + 1..] == value
  {
    var line, prefix := key + "=" + value, name + "=";
    if StartsWith(line, prefix) {
      SplitOnceAt(key, '=', value);
      SplitOnceAt(name, '=', line[|prefix|..]);
      assert line == key + ['='] + value;
      assert line == line[..|prefix|] + line[|prefix|..];
      assert line == name + ['='] + line[|prefix|..];
    }
    if key == name { assert line[..|prefix|] == prefix; }
  }

  lemma SplitKey(line: string, name: string)
    requires Name(name)
    ensures StartsWith(line, name + "=") <==> SplitOnce(line, '=').Some? && SplitOnce(line, '=').value.0 == name
    ensures StartsWith(line, name + "=") ==> SplitOnce(line, '=').value.1 == line[|name| + 1..]
    ensures StartsWith(line, name + "=") ==> line != "" && line[0] != '#' && line[0] != '['
  {
    SplitOnceNone(line, '=');
    if StartsWith(line, name + "=") {
      var rest := line[|name| + 1..];
      assert line == name + ['='] + rest by { assert line[..|name| + 1] == name + "="; }
      SplitOnceAt(name, '=', rest);
    }
    assert SplitOnce(line, '=').Some? && SplitOnce(line, '=').value.0 == name ==> line[..|name| + 1] == name + "=";
  }

  lemma AssignmentTagged(key: string, value: string, name: string)
    requires '=' !in key && Name(name)
    ensures Tagged([key + "=" + value], name + "=") == if key == name then [value] else []
  {
    NameStarts(key, value, name);
    TaggedSingle(key + "=" + value, name + "=");
  }

  lemma {:induction false} AssignmentsTagged(key: string, parts: seq<string>, name: string)
    requires '=' !in key && Name(name)
    ensures Tagged(Assignments(key, parts), name + "=") == if key == name then parts else []
  {
    if parts != [] {
      AssignmentTagged(key, parts[0], name);
      AssignmentsTagged(key, parts[1..], name);
      TaggedConcat([key + "=" + parts[0]], Assignments(key, parts[1..]), name + "=");
    }
  }

  lemma OtherTagged(line: string, name: string)
    requires Name(name) && line != "" && (line[0] == '#' || line[0] == '[')
    ensures Tagged([line], name + "=") == []
  {
    NotPrefix(line, name + "=", 0);
    TaggedSingle(line, name + "=");
  }

  lemma {:induction false} AssignmentsUntagged(key: string, parts: seq<string>)
    requires key != "" ==> key[0] != '#'
    ensures Tagged(Assignments(key, parts), INCOMING_TAG) == []
  {
    if parts != [] {
      NotTagged(key + "=" + parts[0]);
      AssignmentsUntagged(key, parts[1..]);
    }
  }

  // ---------------------------------------------------------- the printed options

  // The values printed for one option, line by line.
  function Printed(values: Values, name: string): seq<string> {
    if name !in values then []
    else if MultiLine(name) then Split(values[name], ',')
    else [values[name]]
  }

  // Printed under their own name, if at all among the options.
  predicate Named(name: string) {
    Name(name) && name !in ["noasmap", "legacy_maxorphantx", "listen", "asmap"]
  }

  predicate Direct(name: string) { Named(name) && name !in ["bind", "nobind", "noonion"] }

  lemma BlockTagged(key: string, value: string, name: string)
    requires OptionKey(key) && Named(name)
    ensures Tagged(Block(key, value), name + "=") == if key == name then Printed(map[key := value], name) else []
  {
    if key == "legacy_maxorphantx" {
      OtherTagged(LEGACY_TAG + value, name);
    } else if key == "listen" {
    } else if key == "asmap" && value == "0" {
      AssignmentTagged("noasmap", "1", name);
      assert "noasmap" + "=" + "1" == "noasmap=1";
    } else {
      AssignmentTagged(key, value, name);
      AssignmentsTagged(key, Split(value, ','), name);
    }
  }

  lemma {:induction false} BlocksTagged(values: Values, keys: seq<string>, name: string)
    requires Named(name) && Distinct(keys) && forall k :: k in keys ==> k in values && OptionKey(k)
    ensures Tagged(Blocks(values, keys), name + "=") == if name in keys then Printed(values, name) else []
  {
    if keys != [] {
      var key, rest := keys[0], keys[1..];
      assert keys == [key] + rest;
      hide Block;
      BlockTagged(key, values[key], name);
      BlocksTagged(values, rest, name);
      TaggedConcat(Block(key, values[key]), Blocks(values, rest), name + "=");
      assert key !in rest;
    }
  }

  lemma BlockUntagged(key: string, value: string)
    requires OptionKey(key)
    ensures Tagged(Block(key, value), INCOMING_TAG) == []
  {
    if key == "legacy_maxorphantx" {
      var rest := "legacy-maxorphantx=" + value;
      assert LEGACY_TAG + value == MARK + rest && rest[0] == 'l';
      MarksDiffer(rest);
      TaggedSingle(LEGACY_TAG + value, INCOMING_TAG);
    } else if key == "asmap" && value == "0" {
      NotTagged("noasmap=1");
      TaggedSingle("noasmap=1", INCOMING_TAG);
    } else {
      AssignmentsUntagged(key, Split(value, ','));
      NotTagged(key + "=" + value);
      TaggedSingle(key + "=" + value, INCOMING_TAG);
    }
  }

  lemma {:induction false} BlocksUntagged(values: Values, keys: seq<string>)
    requires forall k :: k in keys ==> k in values && OptionKey(k)
    ensures Tagged(Blocks(values, keys), INCOMING_TAG) == []
  {
    if keys != [] {
      var key, rest := keys[0], keys[1..];
      assert keys == [key] + rest;
      hide Block;
      BlockUntagged(key, values[key]);
      BlocksUntagged(values, rest);
      TaggedConcat(Block(key, values[key]), Blocks(values, rest), INCOMING_TAG);
    }
  }

  // ------------------------------------------------------------ the derived lines

  function I2pPrinted(values: Values, name: string): seq<string> {
    if !I2pEnabled(values) then []
    else if name == "i2psam" then [SAM_ENDPOINT]
    else if name == "i2pacceptincoming" then [Flag(Selects(values, "listen", "i2p"))]
    else []
  }

  lemma HeaderTagged(name: string)
    requires Name(name)
    ensures Tagged([HEADER], name + "=") == [] && Tagged([HEADER], INCOMING_TAG) == []
  {
    var rest := "managed policy; " + "units are Bitcoin " + "Core native units";
    assert HEADER == MARK + rest;
    assert HEADER[0] == MARK[0] == '#';
    assert rest[0] == "managed policy; "[0] == 'm';
    MarksDiffer(rest);
    OtherTagged(HEADER, name);
    TaggedSingle(HEADER, INCOMING_TAG);
  }

  lemma OnionTagged(values: Values, name: string)
    requires Named(name) && name != "noonion"
    ensures Tagged(OnionLines(values), name + "=") == [] && Tagged(OnionLines(values), INCOMING_TAG) == []
  {
    if OnionLines(values) != [] {
      assert "noonion" + "=" + "1" == "noonion=1";
      AssignmentTagged("noonion", "1", name);
      NotTagged("noonion=1");
      TaggedSingle("noonion=1", INCOMING_TAG);
    }
  }

  function SamLine(): string { "i2psam" + "=" + SAM_ENDPOINT }

  function AcceptLine(flag: string): string { "i2pacceptincoming" + "=" + flag }

  lemma I2pShape(values: Values)
    requires I2pEnabled(values)
    ensures I2pLines(values) == [SamLine()] + [AcceptLine(Flag(Selects(values, "listen", "i2p")))]
  {
    assert "i2psam" + "=" == "i2psam=" && "i2pacceptincoming" + "=" == "i2pacceptincoming=";
    hide Selects, I2pEnabled, Flag, SAM_ENDPOINT;
  }

  lemma SamTag(name: string)
    requires Name(name)
    ensures Tagged([SamLine()], name + "=") == if name == "i2psam" then [SAM_ENDPOINT] else []
    ensures Tagged([SamLine()], INCOMING_TAG) == []
  {
    AssignmentTagged("i2psam", SAM_ENDPOINT, name);
    assert SamLine()[0] == 'i';
    NotTagged(SamLine());
    TaggedSingle(SamLine(), INCOMING_TAG);
  }

  lemma AcceptTag(flag: string, name: string)
    requires Name(name)
    ensures Tagged([AcceptLine(flag)], name + "=") == if name == "i2pacceptincoming" then [flag] else []
    ensures Tagged([AcceptLine(flag)], INCOMING_TAG) == []
  {
    AssignmentTagged("i2pacceptincoming", flag, name);
    assert AcceptLine(flag)[0] == 'i';
    NotTagged(AcceptLine(flag));
    TaggedSingle(AcceptLine(flag), INCOMING_TAG);
  }

  lemma I2pTagged(values: Values, name: string)
    requires Name(name)
    ensures Tagged(I2pLines(values), name + "=") == I2pPrinted(values, name)
    ensures Tagged(I2pLines(values), INCOMING_TAG) == []
  {
    hide I2pLines, SamLine, AcceptLine, INCOMING_TAG, SAM_ENDPOINT, I2pEnabled, Selects, Tagged;
    if I2pEnabled(values) {
      var flag := Flag(Selects(values, "listen", "i2p"));
      I2pShape(values);
      SamTag(name);
      AcceptTag(flag, name);
      TaggedConcat([SamLine()], [AcceptLine(flag)], name + "=");
      TaggedConcat([SamLine()], [AcceptLine(flag)], INCOMING_TAG);
    } else {
      I2pNoLines(values, name + "=");
      I2pNoLines(values, INCOMING_TAG);
    }
  }

  lemma I2pNoLines(values: Values, prefix: string)
    requires !I2pEnabled(values)
    ensures Tagged(I2pLines(values), prefix) == []
  {
  }

  lemma ListenHead(values: Values, network: string, bindings: seq<string>)
    requires "listen" in values
    ensures ListenLines(values, network, bindings)
         == [INCOMING_TAG + values["listen"]] + ["[" + network + "]"] + ["nobind=1"] + Assignments("bind", bindings)
  {
  }

  lemma ListenTagged(values: Values, network: string, bindings: seq<string>, name: string)
    requires Named(name) && name !in ["bind", "nobind"]
    ensures Tagged(ListenLines(values, network, bindings), name + "=") == []
  {
    if "listen" in values {
      var tag, section, prefix := INCOMING_TAG + values["listen"], "[" + network + "]", name + "=";
      ListenHead(values, network, bindings);
      assert "nobind" + "=" + "1" == "nobind=1";
      OtherTagged(tag, name);
      OtherTagged(section, name);
      AssignmentTagged("nobind", "1", name);
      AssignmentsTagged("bind", bindings, name);
      TaggedConcat([tag], [section], prefix);
      TaggedConcat([tag] + [section], ["nobind=1"], prefix);
      TaggedConcat([tag] + [section] + ["nobind=1"], Assignments("bind", bindings), prefix);
    }
  }

  lemma IncomingTagged(values: Values, network: string, bindings: seq<string>)
    ensures Tagged(ListenLines(values, network, bindings), INCOMING_TAG) == Printed(values, "listen")
  {
    if "listen" in values {
      var tag, section := INCOMING_TAG + values["listen"], "[" + network + "]";
      ListenHead(values, network, bindings);
      StripOwnPrefix(INCOMING_TAG, values["listen"]);
      NotTagged(section);
      NotTagged("nobind=1");
      TaggedSingle(tag, INCOMING_TAG);
      TaggedSingle(section, INCOMING_TAG);
      TaggedSingle("nobind=1", INCOMING_TAG);
      AssignmentsUntagged("bind", bindings);
      TaggedConcat([tag], [section], INCOMING_TAG);
      TaggedConcat([tag] + [section], ["nobind=1"], INCOMING_TAG);
      TaggedConcat([tag] + [section] + ["nobind=1"], Assignments("bind", bindings), INCOMING_TAG);
    }
  }

  // ------------------------------------------------------------- the whole text

  lemma TaggedFive(a: seq<string>, b: seq<string>, c: seq<string>, d: seq<string>, e: seq<string>, prefix: string)
    ensures Tagged(a + b + c + d + e, prefix)
         == Tagged(a, prefix) + Tagged(b, prefix) + Tagged(c, prefix) + Tagged(d, prefix) + Tagged(e, prefix)
  {
    TaggedConcat(a, b, prefix);
    TaggedConcat(a + b, c, prefix);
    TaggedConcat(a + b + c, d, prefix);
    TaggedConcat(a + b + c + d, e, prefix);
  }

  // What a reader finds under a name is what the policy says under that name.
  lemma RenderTagged(values: Values, keys: seq<string>, network: string, name: string)
    requires Storable(values, network) && Listing(keys, values) && Direct(name)
    ensures RenderLines(values, network, keys).Ok?
    ensures Tagged(RenderLines(values, network, keys).value, name + "=")
         == Printed(values, name) + I2pPrinted(values, name)
  {
    var bindings := ListenBindings(values, network).value;
    HeaderTagged(name);
    BlocksTagged(values, keys, name);
    OnionTagged(values, name);
    I2pTagged(values, name);
    ListenTagged(values, network, bindings, name);
    hide HEADER, Blocks, OnionLines, I2pLines, ListenLines, Tagged, Printed, I2pPrinted, Direct, Named, OptionKey;
    TaggedFive([HEADER], Blocks(values, keys), OnionLines(values), I2pLines(values),
               ListenLines(values, network, bindings), name + "=");
    MiddleParts(Printed(values, name), I2pPrinted(values, name));
  }

  lemma MiddleParts(a: seq<string>, b: seq<string>)
    ensures [] + a + [] + b + [] == a + b
  {
  }

  lemma RenderNamed(values: Values, keys: seq<string>, network: string, name: string, prefix: string)
    requires Storable(values, network) && Listing(keys, values) && Direct(name) && prefix == name + "="
    requires name !in ["i2psam", "i2pacceptincoming"]
    ensures RenderLines(values, network, keys).Ok?
    ensures Tagged(RenderLines(values, network, keys).value, prefix) == Printed(values, name)
  {
    hide RenderLines, Tagged, Printed, Direct, Storable, Listing;
    RenderTagged(values, keys, network, name);
    assert I2pPrinted(values, name) == [];
  }

  lemma RenderDerived(values: Values, keys: seq<string>, network: string, name: string, prefix: string)
    requires Storable(values, network) && Listing(keys, values) && Direct(name) && prefix == name + "="
    requires name in ["i2psam", "i2pacceptincoming"]
    ensures RenderLines(values, network, keys).Ok?
    ensures Tagged(RenderLines(values, network, keys).value, prefix) == I2pPrinted(values, name)
  {
    assert RESERVED[4] == "i2psam" && RESERVED[5] == "i2pacceptincoming";
    assert name in RESERVED;
    assert Printed(values, name) == [];
    hide RenderLines, Tagged, Printed, Direct, Storable, Listing, I2pPrinted;
    RenderTagged(values, keys, network, name);
  }

  lemma OutgoingTagged(values: Values, keys: seq<string>, network: string)
    requires Storable(values, network) && Listing(keys, values)
    ensures RenderLines(values, network, keys).Ok?
    ensures Tagged(RenderLines(values, network, keys).value, "onlynet=") == Printed(values, "onlynet")
  {
    hide RenderLines, Tagged, Printed, Storable, Listing;
    RenderNamed(values, keys, network, "onlynet", "onlynet=");
  }

  lemma ProxyTagged(values: Values, keys: seq<string>, network: string)
    requires Storable(values, network) && Listing(keys, values)
    ensures RenderLines(values, network, keys).Ok?
    ensures Tagged(RenderLines(values, network, keys).value, "proxy=") == Printed(values, "proxy")
  {
    hide RenderLines, Tagged, Printed, Storable, Listing;
    RenderNamed(values, keys, network, "proxy", "proxy=");
  }

  lemma SamTagged(values: Values, keys: seq<string>, network: string)
    requires Storable(values, network) && Listing(keys, values)
    ensures RenderLines(values, network, keys).Ok?
    ensures Tagged(RenderLines(values, network, keys).value, "i2psam=") == I2pPrinted(values, "i2psam")
  {
    hide RenderLines, Tagged, I2pPrinted, Storable, Listing;
    RenderDerived(values, keys, network, "i2psam", "i2psam=");
  }

  lemma AcceptTagged(values: Values, keys: seq<string>, network: string)
    requires Storable(values, network) && Listing(keys, values)
    ensures RenderLines(values, network, keys).Ok?
    ensures Tagged(RenderLines(values, network, keys).value, "i2pacceptincoming=")
         == I2pPrinted(values, "i2pacceptincoming")
  {
    hide RenderLines, Tagged, I2pPrinted, Storable, Listing;
    RenderDerived(values, keys, network, "i2pacceptincoming", "i2pacceptincoming=");
  }

  lemma RenderIncoming(values: Values, keys: seq<string>, network: string)
    requires Storable(values, network) && Listing(keys, values)
    ensures RenderLines(values, network, keys).Ok?
    ensures Tagged(RenderLines(values, network, keys).value, INCOMING_TAG) == Printed(values, "listen")
  {
    var bindings := ListenBindings(values, network).value;
    HeaderTagged("proxy");
    BlocksUntagged(values, keys);
    OnionTagged(values, "proxy");
    I2pTagged(values, "proxy");
    IncomingTagged(values, network, bindings);
    hide HEADER, Blocks, OnionLines, I2pLines, ListenLines, Tagged, Printed, I2pPrinted, Direct;
    TaggedFive([HEADER], Blocks(values, keys), OnionLines(values), I2pLines(values),
               ListenLines(values, network, bindings), INCOMING_TAG);
  }

  // --------------------------------------------------------------- the I2P reader

  lemma I2pFromTags(values: Values, lines: seq<string>)
    requires Tagged(lines, "onlynet=") == Printed(values, "onlynet")
    requires Tagged(lines, INCOMING_TAG) == Printed(values, "listen")
    requires Tagged(lines, "i2psam=") == I2pPrinted(values, "i2psam")
    requires Tagged(lines, "i2pacceptincoming=") == I2pPrinted(values, "i2pacceptincoming")
    ensures ReadI2p(lines) == Ok(I2pEnabled(values))
  {
    hide Tagged;
    assert "i2p" in Printed(values, "onlynet") <==> Selects(values, "onlynet", "i2p");
    var incoming := Printed(values, "listen");
    assert (exists v :: v in incoming && "i2p" in Split(v, ',')) <==> Selects(values, "listen", "i2p") by {
      if "listen" in values { assert incoming == [values["listen"]] && values["listen"] in incoming; }
    }
    hide Printed, Split, INCOMING_TAG;
  }

  // The I2P condition does not refuse a printed policy, and sees I2P exactly when the
  // policy enables it.
  lemma I2pReaderAgrees(values: Values, keys: seq<string>, network: string)
    requires Storable(values, network) && Listing(keys, values)
    ensures RenderLines(values, network, keys).Ok?
    ensures ReadI2p(SplitLines(Text(RenderLines(values, network, keys).value))) == Ok(I2pEnabled(values))
  {
    RenderIsPlain(values, keys, network);
    LinesOfText(RenderLines(values, network, keys).value);
    hide RenderLines, SplitLines, Text, Tagged, ReadI2p, Printed, I2pPrinted, Listing, Storable;
    OutgoingTagged(values, keys, network);
    RenderIncoming(values, keys, network);
    SamTagged(values, keys, network);
    AcceptTagged(values, keys, network);
    I2pFromTags(values, RenderLines(values, network, keys).value);
  }

  // ---------------------------------------------------------- the launcher's reader

  // What the policy says, with its implicit defaults.
  function Stated(values: Values, network: string): Announced {
    Announced(
      if "listen" in values then Elements(Split(values["listen"], ','))
      else if network == "regtest" then {"tor"} else {"clearnet", "tor"},
      if "onlynet" in values then Elements(Split(values["onlynet"], ',')) else {"ipv4", "ipv6", "onion"},
      "proxy" in values && values["proxy"] != "0")
  }

  // Values the launcher can read: reviewed selections and a reviewed proxy.
  ghost predicate Readable(values: Values) {
    && ("onlynet" in values ==> Selection(values["onlynet"], NETWORK_ORDER))
    && ("proxy" in values ==> values["proxy"] == "0" || values["proxy"] == TOR_ENDPOINT)
    && forall k :: k in ANNOUNCEMENTS ==> k !in values
  }

  lemma ListenReadable(values: Values, network: string)
    requires "listen" in values && ListenBindings(values, network).Ok?
    ensures IncomingReadable(values["listen"])
  {
    if values["listen"] == "none" {
      SplitSingle("none", ',');
      ElementsOfDistinct(["none"]);
    }
  }

  lemma AnnouncementNamed(name: string)
    requires name in ANNOUNCEMENTS
    ensures Direct(name) && name !in ["i2psam", "i2pacceptincoming"]
  {
  }

  lemma AnnouncementsListed()
    ensures "discover" in ANNOUNCEMENTS && "externalip" in ANNOUNCEMENTS
    ensures "nodiscover" in ANNOUNCEMENTS && "noexternalip" in ANNOUNCEMENTS
  {
    assert ANNOUNCEMENTS[0] == "discover" && ANNOUNCEMENTS[1] == "externalip";
    assert ANNOUNCEMENTS[2] == "nodiscover" && ANNOUNCEMENTS[3] == "noexternalip";
  }

  lemma NoneNamed(values: Values, keys: seq<string>, network: string, name: string, prefix: string)
    requires Storable(values, network) && Listing(keys, values) && Readable(values)
    requires name in ANNOUNCEMENTS && prefix == name + "="
    ensures RenderLines(values, network, keys).Ok?
    ensures forall l :: l in RenderLines(values, network, keys).value ==> !StartsWith(l, prefix)
  {
    hide RenderLines, Tagged, Direct, Storable, ANNOUNCEMENTS, Printed;
    AnnouncementNamed(name);
    RenderNamed(values, keys, network, name, prefix);
    NotPrinted(values, name);
    TaggedNone(RenderLines(values, network, keys).value, prefix);
  }

  lemma NotPrinted(values: Values, name: string)
    requires name !in values
    ensures Printed(values, name) == []
  {
  }

  lemma NoConflict(values: Values, keys: seq<string>, network: string)
    requires Storable(values, network) && Listing(keys, values) && Readable(values)
    ensures RenderLines(values, network, keys).Ok?
    ensures forall l :: l in RenderLines(values, network, keys).value ==> !AnnouncementConflict(l)
  {
    AnnouncementsListed();
    hide ANNOUNCEMENTS, Readable, RenderLines, Storable, Listing, StartsWith;
    NoneNamed(values, keys, network, "discover", "discover=");
    NoneNamed(values, keys, network, "externalip", "externalip=");
    NoneNamed(values, keys, network, "nodiscover", "nodiscover=");
    NoneNamed(values, keys, network, "noexternalip", "noexternalip=");
  }

  lemma LauncherFromTags(values: Values, network: string, lines: seq<string>)
    requires Readable(values) && ("listen" in values ==> IncomingReadable(values["listen"]))
    requires Tagged(lines, "onlynet=") == Printed(values, "onlynet")
    requires Tagged(lines, INCOMING_TAG) == Printed(values, "listen")
    requires Tagged(lines, "proxy=") == Printed(values, "proxy")
    requires forall l :: l in lines ==> !AnnouncementConflict(l)
    ensures ReadSelection(lines, network) == Ok(Stated(values, network))
  {
    hide Tagged, AnnouncementConflict, IncomingReadable;
    var incoming, outgoing, proxy := Printed(values, "listen"), Printed(values, "onlynet"), Printed(values, "proxy");
    assert "listen" in values ==> incoming == [values["listen"]];
    assert "listen" !in values ==> incoming == [];
    assert "proxy" in values ==> proxy == [values["proxy"]];
    assert "proxy" !in values ==> proxy == [];
    assert "onlynet" in values ==> outgoing == Split(values["onlynet"], ',') && outgoing != [];
    assert "onlynet" !in values ==> outgoing == [] && Elements(outgoing) == {};
    hide Printed, INCOMING_TAG, NETWORK_ORDER, Split;
  }

  // The launcher does not refuse a printed policy, and reads the sets and the proxy
  // flag that the policy states.
  lemma LauncherAgrees(values: Values, keys: seq<string>, network: string)
    requires Storable(values, network) && Listing(keys, values) && Readable(values)
    ensures RenderLines(values, network, keys).Ok?
    ensures ReadSelection(SplitLines(Text(RenderLines(values, network, keys).value)), network)
         == Ok(Stated(values, network))
  {
    RenderIsPlain(values, keys, network);
    LinesOfText(RenderLines(values, network, keys).value);
    if "listen" in values { ListenReadable(values, network); }
    hide RenderLines, SplitLines, Text, Tagged, ReadSelection, Printed, Listing, Storable, Readable;
    hide AnnouncementConflict, IncomingReadable, Stated, ListenBindings;
    OutgoingTagged(values, keys, network);
    ProxyTagged(values, keys, network);
    RenderIncoming(values, keys, network);
    NoConflict(values, keys, network);
    LauncherFromTags(values, network, RenderLines(values, network, keys).value);
  }

  lemma StableIsReadable(p: Policy, out: Values)
    requires Reviewed(p) && AllStable(p, out)
    ensures Readable(out)
  {
    forall k | k in out ensures k in p.entries && Canonical1(p, k, Shown(p.entries[k], out[k]).value) == Ok(out[k])
    {
      assert Stable(p, k, out[k]);
    }
    if "onlynet" in out { OnlynetSelection(p, out["onlynet"]); }
    if "proxy" in out { assert p.entries["proxy"].kind.TorProxy?; }
  }

  lemma OnlynetSelection(p: Policy, stored: string)
    requires Reviewed(p) && Stable(p, "onlynet", stored)
    ensures Selection(stored, NETWORK_ORDER)
  {
  }

  // Whatever validation accepts, both readers take from the printed file what the
  // validated values say.
  lemma OneWriterThreeReaders(p: Policy, input: Values, keys: seq<string>)
    requires Reviewed(p) && Validate(p, input).Ok? && Listing(keys, Validate(p, input).value)
    ensures var out := Validate(p, input).value;
      && RenderLines(out, p.network, keys).Ok?
      && var text := Text(RenderLines(out, p.network, keys).value);
         && Parse(text, p.network) == Ok(out)
         && ReadSelection(SplitLines(text), p.network) == Ok(Stated(out, p.network))
         && ReadI2p(SplitLines(text)) == Ok(I2pEnabled(out))
  {
    var out := Validate(p, input).value;
    ValidatedIsStable(p, input);
    StableIsReadable(p, out);
    ParseUndoesRender(out, keys, p.network);
    LauncherAgrees(out, keys, p.network);
    I2pReaderAgrees(out, keys, p.network);
  }
}
