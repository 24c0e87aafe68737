// The strict parser undoes the printer: for any order of the options, reading a
// rendered policy back returns exactly the values that were rendered.
module PolicyRoundTrip {
  import opened Common
  import opened Strings
  import opened Decimals
  import opened PolicyModel

  // Keys the printer derives and the parser takes away again.
  const RESERVED := ["bind", "nobind", "noasmap", "noonion", "i2psam", "i2pacceptincoming"]

  predicate OptionKey(key: string) {
    Plain(key) && '=' !in key && (key != "" ==> key[0] != '#') && key !in RESERVED
  }

  // Values that can be stored: printable, with a listener the network knows.
  ghost predicate Storable(values: Values, network: string) {
    && Port(network).Some?
    && (forall k :: k in values ==> OptionKey(k) && Plain(values[k]))
    && ListenBindings(values, network).Ok?
  }

  // ------------------------------------------------------------------ one line

  lemma NotPrefix(line: string, prefix: string, i: nat)
    requires i < |prefix| && (i < |line| ==> line[i] != prefix[i])
    ensures !StartsWith(line, prefix)
  {
    if |prefix| <= |line| {
      assert line[..|prefix|][i] == line[i];
    }
  }

  lemma MarksDiffer(rest: string)
    requires rest != ""
    ensures rest[0] != 'l' ==> !StartsWith(MARK + rest, LEGACY_TAG)
    ensures rest[0] != 'i' ==> !StartsWith(MARK + rest, INCOMING_TAG)
  {
    assert (MARK + rest)[|MARK|] == rest[0];
    assert LEGACY_TAG[|MARK|] == "legacy-maxorphantx="[0] == 'l';
    assert INCOMING_TAG[|MARK|] == "incoming="[0] == 'i';
    if rest[0] != 'l' { NotPrefix(MARK + rest, LEGACY_TAG, |MARK|); }
    if rest[0] != 'i' { NotPrefix(MARK + rest, INCOMING_TAG, |MARK|); }
  }

  lemma NotTagged(line: string)
    requires line != "" ==> line[0] != '#'
    ensures !StartsWith(line, LEGACY_TAG) && !StartsWith(line, INCOMING_TAG)
  {
    NotPrefix(line, LEGACY_TAG, 0);
    NotPrefix(line, INCOMING_TAG, 0);
  }

  lemma SectionHasNoValue(network: string)
    requires Port(network).Some?
    ensures '=' !in "[" + network + "]" && Plain("[" + network + "]")
  {
  }

  lemma AssignmentSplits(key: string, value: string, network: string)
    requires '=' !in key && (key != "" ==> key[0] != '#') && Port(network).Some?
    ensures var line := key + "=" + value;
      && line != "" && line[0] != '#' && line != "[" + network + "]"
      && !StartsWith(line, LEGACY_TAG) && !StartsWith(line, INCOMING_TAG)
      && SplitOnce(line, '=') == Some((key, value))
  {
    var line := key + "=" + value;
    assert line == key + ['='] + value;
    assert line[|key|] == '=';
    SplitOnceAt(key, '=', value);
    SectionHasNoValue(network);
    assert line[0] == if key == "" then '=' else key[0];
    NotTagged(line);
  }

  // An option on a line of its own.
  lemma AssignmentParsed(st: Parsed, key: string, value: string, network: string)
    requires '=' !in key && (key != "" ==> key[0] != '#') && Port(network).Some?
    requires !st.section && !MultiLine(key) && key !in ["bind", "nobind", "noasmap"] && key !in st.out
    ensures ParseLine(st, key + "=" + value, network) == Ok(st.(out := st.out[key := value]))
  {
    AssignmentSplits(key, value, network);
  }

  lemma {:induction false} ParseConcat(st: Parsed, a: seq<string>, b: seq<string>, network: string)
    ensures ParseLines(st, a + b, network) ==
      match ParseLines(st, a, network)
      case Err(e) => Err(e)
      case Ok(next) => ParseLines(next, b, network)
    decreases |a|
  {
    if a == [] {
      assert a + b == b;
    } else {
      assert (a + b)[1..] == a[1..] + b;
      match ParseLine(st, a[0], network)
      case Err(_) =>
      case Ok(next) => ParseConcat(next, a[1..], b, network);
    }
  }

  lemma ParseStep(st: Parsed, line: string, rest: seq<string>, network: string, next: Parsed)
    requires ParseLine(st, line, network) == Ok(next)
    ensures ParseLines(st, [line] + rest, network) == ParseLines(next, rest, network)
    ensures rest == [] ==> ParseLines(st, [line] + rest, network) == Ok(next)
  {
    hide ParseLine;
    assert ([line] + rest)[1..] == rest;
  }

  lemma ParseSingle(st: Parsed, line: string, network: string)
    ensures ParseLines(st, [line], network) == ParseLine(st, line, network)
  {
    match ParseLine(st, line, network)
    case Err(_) =>
    case Ok(next) => assert ParseLines(next, [], network) == Ok(next);
  }

  // ---------------------------------------------------------------- one option

  lemma FirstParsed(st: Parsed, key: string, value: string, network: string)
    requires Port(network).Some? && MultiLine(key) && !st.section && key !in st.out
    ensures ParseLine(st, key + "=" + value, network) == Ok(st.(out := st.out[key := value]))
  {
    AssignmentSplits(key, value, network);
  }

  lemma NextParsed(st: Parsed, key: string, value: string, network: string)
    requires Port(network).Some? && MultiLine(key) && !st.section && key in st.out
    ensures ParseLine(st, key + "=" + value, network)
         == Ok(st.(out := st.out[key := st.out[key] + "," + value]))
  {
    AssignmentSplits(key, value, network);
  }

  function Appended(before: string, parts: seq<string>): string
    requires parts != []
  {
    before + "," + Join(parts, ',')
  }

  lemma AppendedStep(before: string, parts: seq<string>)
    requires |parts| > 1
    ensures Appended(before + "," + parts[0], parts[1..]) == Appended(before, parts)
  {
  }

  lemma {:induction false} MoreParsed(st: Parsed, key: string, parts: seq<string>, network: string)
    requires Port(network).Some? && MultiLine(key) && !st.section && key in st.out && parts != []
    ensures ParseLines(st, Assignments(key, parts), network)
         == Ok(st.(out := st.out[key := Appended(st.out[key], parts)]))
    decreases |parts|
  {
    NextParsed(st, key, parts[0], network);
    var next := st.(out := st.out[key := st.out[key] + "," + parts[0]]);
    ParseStep(st, key + "=" + parts[0], Assignments(key, parts[1..]), network, next);
    if |parts| > 1 {
      MoreParsed(next, key, parts[1..], network);
      AppendedStep(st.out[key], parts);
      assert st.out[key := Appended(st.out[key], parts)] == next.out[key := Appended(next.out[key], parts[1..])];
    } else {
      assert Assignments(key, parts[1..]) == [];
    }
  }

  lemma ListParsed(st: Parsed, key: string, value: string, network: string)
    requires Port(network).Some? && MultiLine(key) && !st.section && key !in st.out
    ensures ParseLines(st, Assignments(key, Split(value, ',')), network) == Ok(st.(out := st.out[key := value]))
  {
    var parts := Split(value, ',');
    JoinOfSplit(value, ',');
    FirstParsed(st, key, parts[0], network);
    var next := st.(out := st.out[key := parts[0]]);
    ParseStep(st, key + "=" + parts[0], Assignments(key, parts[1..]), network, next);
    if |parts| > 1 {
      MoreParsed(next, key, parts[1..], network);
      assert Appended(parts[0], parts[1..]) == Join(parts, ',') == value;
      assert st.out[key := value] == next.out[key := Appended(parts[0], parts[1..])];
    } else {
      assert Assignments(key, parts[1..]) == [];
    }
  }

  lemma LegacyParsed(st: Parsed, value: string, network: string)
    requires "legacy_maxorphantx" !in st.out
    ensures ParseLine(st, LEGACY_TAG + value, network) == Ok(st.(out := st.out["legacy_maxorphantx" := value]))
  {
    StripOwnPrefix(LEGACY_TAG, value);
  }

  lemma IncomingParsed(st: Parsed, value: string, network: string)
    requires "listen" !in st.out
    ensures ParseLine(st, INCOMING_TAG + value, network) == Ok(st.(out := st.out["listen" := value]))
  {
    StripOwnPrefix(INCOMING_TAG, value);
    var line := INCOMING_TAG + value;
    assert line == MARK + ("incoming=" + value);
    MarksDiffer("incoming=" + value);
  }

  lemma NoAsmapParsed(st: Parsed, network: string)
    requires Port(network).Some? && "asmap" !in st.out && !st.section
    ensures ParseLine(st, "noasmap=1", network) == Ok(st.(out := st.out["asmap" := "0"]))
  {
    AssignmentSplits("noasmap", "1", network);
    assert "noasmap" + "=" + "1" == "noasmap=1";
  }

  lemma BlockParsed(st: Parsed, key: string, value: string, network: string)
    requires Port(network).Some? && OptionKey(key) && key != "listen" && key !in st.out && !st.section
    ensures ParseLines(st, Block(key, value), network) == Ok(st.(out := st.out[key := value]))
  {
    hide ParseLine, ParseLines, Port, LEGACY_TAG;
    if key == "legacy_maxorphantx" {
      LegacyParsed(st, value, network);
      ParseSingle(st, LEGACY_TAG + value, network);
    } else if key == "asmap" && value == "0" {
      NoAsmapParsed(st, network);
      ParseSingle(st, "noasmap=1", network);
    } else if MultiLine(key) {
      ListParsed(st, key, value, network);
    } else {
      AssignmentParsed(st, key, value, network);
      ParseSingle(st, key + "=" + value, network);
    }
  }

  // --------------------------------------------------------------- all options

  function Kept(values: Values, keys: seq<string>): Values {
    map k | k in values && k in keys && k != "listen" :: values[k]
  }

  lemma KeptHead(values: Values, keys: seq<string>)
    requires keys != [] && Distinct(keys) && keys[0] in values
    ensures keys[0] !in Kept(values, keys[1..])
    ensures Kept(values, keys) ==
      if keys[0] == "listen" then Kept(values, keys[1..]) else Kept(values, keys[1..])[keys[0] := values[keys[0]]]
  {
    assert forall k :: k in keys <==> k == keys[0] || k in keys[1..];
  }

  lemma AddKey(out: Values, rest: Values, key: string, value: string)
    requires key !in rest
    ensures out + rest[key := value] == out[key := value] + rest
  {
  }

  lemma {:induction false} BlocksParsed(st: Parsed, values: Values, keys: seq<string>, network: string)
    requires Port(network).Some? && !st.section && Distinct(keys)
    requires forall k :: k in keys ==> k in values && OptionKey(k) && k !in st.out
    ensures ParseLines(st, Blocks(values, keys), network) == Ok(st.(out := st.out + Kept(values, keys)))
    decreases |keys|
  {
    if keys == [] {
      assert st.out + Kept(values, keys) == st.out;
    } else {
      var key, rest := keys[0], keys[1..];
      KeptHead(values, keys);
      ParseConcat(st, Block(key, values[key]), Blocks(values, rest), network);
      if key == "listen" {
        BlocksParsed(st, values, rest, network);
      } else {
        AddKey(st.out, Kept(values, rest), key, values[key]);
        BlockParsed(st, key, values[key], network);
        BlocksParsed(st.(out := st.out[key := values[key]]), values, rest, network);
      }
    }
  }

  // ------------------------------------------------------------- derived lines

  function OnionMap(values: Values): Values {
    if OnionLines(values) == [] then map[] else map["noonion" := "1"]
  }

  function I2pMap(values: Values): Values {
    if I2pEnabled(values) then
      map["i2psam" := SAM_ENDPOINT, "i2pacceptincoming" := Flag(Selects(values, "listen", "i2p"))]
    else map[]
  }

  lemma OnionParsed(st: Parsed, values: Values, network: string)
    requires Port(network).Some? && !st.section && "noonion" !in st.out
    ensures ParseLines(st, OnionLines(values), network) == Ok(st.(out := st.out + OnionMap(values)))
  {
    if OnionLines(values) == [] {
      assert st.out + map[] == st.out;
    } else {
      assert "noonion" + "=" + "1" == "noonion=1";
      AssignmentParsed(st, "noonion", "1", network);
      ParseSingle(st, "noonion=1", network);
      assert st.out["noonion" := "1"] == st.out + map["noonion" := "1"];
    }
  }

  lemma I2pParsed(st: Parsed, values: Values, network: string)
    requires Port(network).Some? && !st.section && "i2psam" !in st.out && "i2pacceptincoming" !in st.out
    ensures ParseLines(st, I2pLines(values), network) == Ok(st.(out := st.out + I2pMap(values)))
  {
    if !I2pEnabled(values) {
      assert st.out + map[] == st.out;
    } else {
      var flag := Flag(Selects(values, "listen", "i2p"));
      var next := st.(out := st.out["i2psam" := SAM_ENDPOINT]);
      var first, second := "i2psam" + "=" + SAM_ENDPOINT, "i2pacceptincoming" + "=" + flag;
      assert I2pLines(values) == [first] + [second] by {
        assert first == "i2psam=" + SAM_ENDPOINT && second == "i2pacceptincoming=" + flag;
      }
      hide ParseLine, ParseLines, SAM_ENDPOINT, Port;
      AssignmentParsed(st, "i2psam", SAM_ENDPOINT, network);
      AssignmentParsed(next, "i2pacceptincoming", flag, network);
      ParseConcat(st, [first], [second], network);
      ParseSingle(st, first, network);
      ParseSingle(next, second, network);
      assert next.out["i2pacceptincoming" := flag] == st.out + I2pMap(values);
    }
  }

  // ------------------------------------------------------------ listener lines

  lemma {:induction false} BindsParsed(st: Parsed, bindings: seq<string>, network: string)
    requires Port(network).Some? && st.section
    ensures ParseLines(st, Assignments("bind", bindings), network) == Ok(st.(bindings := st.bindings + bindings))
    decreases |bindings|
  {
    if bindings == [] {
      assert st.bindings + bindings == st.bindings;
    } else {
      AssignmentSplits("bind", bindings[0], network);
      var next := st.(bindings := st.bindings + [bindings[0]]);
      assert ParseLine(st, "bind" + "=" + bindings[0], network) == Ok(next);
      BindsParsed(next, bindings[1..], network);
      assert next.bindings + bindings[1..] == st.bindings + bindings;
    }
  }

  lemma SectionParsed(st: Parsed, network: string)
    requires Port(network).Some? && !st.section && !st.cleared
    ensures ParseLines(st, ["[" + network + "]", "nobind=1"], network) == Ok(st.(section := true, cleared := true))
  {
    var line, next := "[" + network + "]", st.(section := true);
    NotTagged(line);
    assert "nobind" + "=" + "1" == "nobind=1";
    AssignmentSplits("nobind", "1", network);
    ParseConcat(st, [line], ["nobind=1"], network);
    assert [line] + ["nobind=1"] == [line, "nobind=1"];
    ParseSingle(st, line, network);
    ParseSingle(next, "nobind=1", network);
  }

  lemma ListenParsed(st: Parsed, values: Values, network: string, bindings: seq<string>)
    requires Port(network).Some? && "listen" in values && "listen" !in st.out
    requires !st.section && !st.cleared && st.bindings == []
    ensures ParseLines(st, ListenLines(values, network, bindings), network)
         == Ok(Parsed(st.out["listen" := values["listen"]], bindings, true, true))
  {
    var tag, head := INCOMING_TAG + values["listen"], ["[" + network + "]", "nobind=1"];
    var tagged := st.(out := st.out["listen" := values["listen"]]);
    IncomingParsed(st, values["listen"], network);
    ParseSingle(st, tag, network);
    SectionParsed(tagged, network);
    BindsParsed(tagged.(section := true, cleared := true), bindings, network);
    ParseConcat(st, [tag], head, network);
    ParseConcat(st, [tag] + head, Assignments("bind", bindings), network);
    assert [tag] + head == [tag, "[" + network + "]", "nobind=1"];
    assert [] + bindings == bindings;
  }

  // --------------------------------------------------------------- the theorem

  function Collected(values: Values, keys: seq<string>): Values {
    Kept(values, keys) + OnionMap(values) + I2pMap(values)
  }

  lemma CommentParsed(st: Parsed, rest: string, network: string)
    requires rest != "" && rest[0] != 'l' && rest[0] != 'i'
    ensures ParseLine(st, MARK + rest, network) == Ok(st)
  {
    MarksDiffer(rest);
    assert (MARK + rest)[0] == MARK[0] == '#';
  }

  lemma HeaderParsed(network: string)
    ensures ParseLines(NOTHING, [HEADER], network) == Ok(NOTHING)
  {
    var rest := "managed policy; " + "units are Bitcoin " + "Core native units";
    assert rest[0] == "managed policy; "[0] == 'm';
    CommentParsed(NOTHING, rest, network);
    ParseSingle(NOTHING, HEADER, network);
  }

  lemma NothingReserved(values: Values, keys: seq<string>)
    requires forall k :: k in values ==> OptionKey(k)
    ensures "noonion" !in Kept(values, keys)
    ensures var out := Kept(values, keys) + OnionMap(values); "i2psam" !in out && "i2pacceptincoming" !in out
  {
    assert RESERVED[3] == "noonion" && RESERVED[4] == "i2psam" && RESERVED[5] == "i2pacceptincoming";
  }

  lemma BlocksAfterHeader(values: Values, keys: seq<string>, network: string)
    requires Storable(values, network) && Listing(keys, values)
    ensures ParseLines(NOTHING, [HEADER] + Blocks(values, keys), network) == Ok(NOTHING.(out := Kept(values, keys)))
  {
    HeaderParsed(network);
    hide HEADER, Blocks, ParseLine, ParseLines, OptionKey;
    BlocksParsed(NOTHING, values, keys, network);
    assert map[] + Kept(values, keys) == Kept(values, keys);
    ParseConcat(NOTHING, [HEADER], Blocks(values, keys), network);
  }

  lemma OptionsParsed(values: Values, keys: seq<string>, network: string)
    requires Storable(values, network) && Listing(keys, values)
    ensures ParseLines(NOTHING, [HEADER] + Blocks(values, keys) + OnionLines(values) + I2pLines(values), network)
         == Ok(NOTHING.(out := Collected(values, keys)))
  {
    var kept := NOTHING.(out := Kept(values, keys));
    NothingReserved(values, keys);
    BlocksAfterHeader(values, keys, network);
    hide HEADER, Blocks, OnionLines, I2pLines, ParseLine, ParseLines, Kept, OnionMap, I2pMap, OptionKey;
    OnionParsed(kept, values, network);
    ParseConcat(NOTHING, [HEADER] + Blocks(values, keys), OnionLines(values), network);
    I2pParsed(kept.(out := kept.out + OnionMap(values)), values, network);
    ParseConcat(NOTHING, [HEADER] + Blocks(values, keys) + OnionLines(values), I2pLines(values), network);
  }

  lemma OnionTakenBack(values: Values, out: Values)
    requires out == values + OnionMap(values) + I2pMap(values) && "noonion" !in values
    ensures Removed(out, "noonion") == values + I2pMap(values)
    ensures "noonion" in out <==> OnionLines(values) != []
    ensures "noonion" in out ==> out["noonion"] == "1"
    ensures "listen" in out <==> "listen" in values
    ensures "listen" in out ==> out["listen"] == values["listen"]
  {
    hide OnionLines, I2pEnabled;
  }

  lemma I2pTakenBack(values: Values)
    requires "i2psam" !in values && "i2pacceptincoming" !in values
    ensures var out := values + I2pMap(values);
      && Removed(Removed(out, "i2psam"), "i2pacceptincoming") == values
      && (Find(out, "i2psam").Some? <==> I2pEnabled(values))
      && (Find(out, "i2pacceptincoming").Some? <==> I2pEnabled(values))
      && (I2pEnabled(values) ==> Find(out, "i2psam") == Some(SAM_ENDPOINT))
      && (I2pEnabled(values) ==> Find(out, "i2pacceptincoming") == Some(Flag(Selects(values, "listen", "i2p"))))
      && ("onlynet" in out <==> "onlynet" in values)
      && Selects(out, "onlynet", "onion") == Selects(values, "onlynet", "onion")
  {
    hide I2pEnabled;
  }

  lemma DerivedTakesBack(values: Values, network: string, st: Parsed)
    requires Storable(values, network)
    requires st.out == values + OnionMap(values) + I2pMap(values)
    requires st.cleared == ("listen" in values) && st.bindings == ListenBindings(values, network).value
    ensures Derived(st, network) == Ok(values)
  {
    assert RESERVED[3] == "noonion" && RESERVED[4] == "i2psam" && RESERVED[5] == "i2pacceptincoming";
    assert "noonion" !in values && "i2psam" !in values && "i2pacceptincoming" !in values;
    OnionTakenBack(values, st.out);
    I2pTakenBack(values);
  }

  // What the parser is left with after all the lines: the options, the derived
  // settings, and the listener section exactly when an incoming selection is set.
  lemma LinesParsed(values: Values, keys: seq<string>, network: string)
    requires Storable(values, network) && Listing(keys, values)
    ensures RenderLines(values, network, keys).Ok?
    ensures ParseLines(NOTHING, RenderLines(values, network, keys).value, network)
         == Ok(Parsed(values + OnionMap(values) + I2pMap(values), ListenBindings(values, network).value,
                      "listen" in values, "listen" in values))
  {
    hide ParseLine, ParseLines, IncomingBindings, I2pLines, OnionLines, Blocks;
    var bindings := ListenBindings(values, network).value;
    var st := NOTHING.(out := Collected(values, keys));
    OptionsParsed(values, keys, network);
    CollectedAll(values, keys);
    var lines := [HEADER] + Blocks(values, keys) + OnionLines(values) + I2pLines(values);
    ParseConcat(NOTHING, lines, ListenLines(values, network, bindings), network);
    if "listen" in values {
      ListenParsed(st, values, network, bindings);
    } else {
      ParseNone(st, network);
    }
  }

  lemma ParseNone(st: Parsed, network: string)
    ensures ParseLines(st, [], network) == Ok(st)
  {
  }

  lemma AddAfter(m: Values, a: Values, b: Values, key: string, value: string)
    requires key !in a && key !in b
    ensures m[key := value] + a + b == (m + a + b)[key := value]
  {
  }

  lemma CollectedAll(values: Values, keys: seq<string>)
    requires Listing(keys, values)
    ensures "listen" !in Collected(values, keys)
    ensures var out := values + OnionMap(values) + I2pMap(values);
      out == if "listen" in values then Collected(values, keys)["listen" := values["listen"]]
             else Collected(values, keys)
  {
    var onion, i2p, kept := OnionMap(values), I2pMap(values), Kept(values, keys);
    assert "listen" !in onion && "listen" !in i2p && "listen" !in kept;
    hide OnionLines, I2pEnabled, OnionMap, I2pMap;
    assert values == if "listen" in values then kept["listen" := values["listen"]] else kept;
    hide Kept;
    if "listen" in values {
      AddAfter(kept, onion, i2p, "listen", values["listen"]);
    }
  }

  // ------------------------------------------------------- the text is printable

  predicate PlainLines(lines: seq<string>) {
    forall l :: l in lines ==> Plain(l)
  }

  lemma {:induction false} AssignmentsPlain(key: string, parts: seq<string>)
    requires Plain(key) && PlainLines(parts)
    ensures PlainLines(Assignments(key, parts))
  {
    if parts != [] {
      assert parts[0] in parts;
      assert forall p :: p in parts[1..] ==> p in parts;
      AssignmentsPlain(key, parts[1..]);
    }
  }

  lemma SplitPlain(value: string)
    requires Plain(value)
    ensures PlainLines(Split(value, ','))
  {
    forall p | p in Split(value, ',') ensures Plain(p) {
      SplitParts(value, ',', p);
    }
  }

  lemma BlockPlain(key: string, value: string)
    requires OptionKey(key) && Plain(value)
    ensures PlainLines(Block(key, value))
  {
    SplitPlain(value);
    AssignmentsPlain(key, Split(value, ','));
  }

  lemma {:induction false} BlocksPlain(values: Values, keys: seq<string>)
    requires forall k :: k in keys ==> k in values && OptionKey(k) && Plain(values[k])
    ensures PlainLines(Blocks(values, keys))
  {
    if keys != [] {
      var key := keys[0];
      assert key in keys && forall k :: k in keys[1..] ==> k in keys;
      BlockPlain(key, values[key]);
      hide Block, Plain, OptionKey;
      BlocksPlain(values, keys[1..]);
    }
  }

  lemma DigitsPlain(s: string)
    requires AllDigits(s)
    ensures Plain(s)
  {
  }

  lemma BindingsPlain(network: string, selection: string)
    requires IncomingBindings(network, selection).Ok?
    ensures PlainLines(IncomingBindings(network, selection).value)
  {
    var port := Port(network).value;
    BindingPlain("0.0.0.0:", port, "");
    BindingPlain("[::]:", port, "");
    BindingPlain("127.0.0.1:", port, "");
    BindingPlain("127.0.0.1:", port + 1, "=onion");
    hide Plain, Digits, Selection, Split, Port;
  }

  lemma BindingPlain(host: string, port: nat, suffix: string)
    requires Plain(host) && Plain(suffix)
    ensures Plain(host + Digits(port)) && Plain(host + Digits(port) + suffix)
  {
    DigitsPlain(Digits(port));
  }

  lemma HeaderPlain()
    ensures Plain(HEADER)
  {
    assert Plain("managed policy; ") && Plain("units are Bitcoin ") && Plain("Core native units") && Plain(MARK);
  }

  lemma DerivedPlain(values: Values)
    ensures PlainLines(OnionLines(values)) && PlainLines(I2pLines(values))
  {
    hide I2pEnabled, Selects;
  }

  lemma ListenPlain(values: Values, network: string, bindings: seq<string>)
    requires Port(network).Some? && PlainLines(bindings) && ("listen" in values ==> Plain(values["listen"]))
    ensures PlainLines(ListenLines(values, network, bindings))
  {
    if "listen" in values {
      SectionHasNoValue(network);
      AssignmentsPlain("bind", bindings);
      assert Plain(INCOMING_TAG + values["listen"]);
    }
  }

  lemma ListenBindingsPlain(values: Values, network: string)
    requires ListenBindings(values, network).Ok?
    ensures PlainLines(ListenBindings(values, network).value)
  {
    if "listen" in values {
      BindingsPlain(network, values["listen"]);
    }
  }

  lemma RenderIsPlain(values: Values, keys: seq<string>, network: string)
    requires Storable(values, network) && Listing(keys, values)
    ensures RenderLines(values, network, keys).Ok?
    ensures PlainLines(RenderLines(values, network, keys).value)
  {
    BlocksPlain(values, keys);
    HeaderPlain();
    DerivedPlain(values);
    ListenBindingsPlain(values, network);
    ListenPlain(values, network, ListenBindings(values, network).value);
    hide HEADER, OnionLines, I2pLines, ListenLines, ListenBindings, Plain, Blocks;
  }

  // Reading a rendered policy returns exactly the values it was rendered from.
  lemma ParseUndoesRender(values: Values, keys: seq<string>, network: string)
    requires Storable(values, network) && Listing(keys, values)
    ensures RenderLines(values, network, keys).Ok?
    ensures Parse(Text(RenderLines(values, network, keys).value), network) == Ok(values)
  {
    RenderIsPlain(values, keys, network);
    LinesOfText(RenderLines(values, network, keys).value);
    LinesParsed(values, keys, network);
    DerivedTakesBack(values, network,
      Parsed(values + OnionMap(values) + I2pMap(values), ListenBindings(values, network).value,
             "listen" in values, "listen" in values));
  }
}
