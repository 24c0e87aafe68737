// The loops of src/policy.rs and scripts/core_service.py that print, parse, validate
// and read the policy, each proved to compute its specification function.
module PolicyText {
  import opened Common
  import opened Strings
  import opened Fees
  import opened PolicyModel
  import opened PolicyRoundTrip
  import opened PolicySaved
  import opened PolicyEditor
  import opened PolicyReaders

  // -------------------------------------------------------------------- printing

  lemma {:induction false} AssignmentsSnoc(key: string, parts: seq<string>, part: string)
    ensures Assignments(key, parts + [part]) == Assignments(key, parts) + [key + "=" + part]
  {
    if parts != [] {
      assert (parts + [part])[1..] == parts[1..] + [part];
      AssignmentsSnoc(key, parts[1..], part);
    }
  }

  lemma TextSnoc(lines: seq<string>, line: string)
    ensures Text(lines + [line]) == Text(lines) + line + "\n"
  {
    TextConcat(lines, [line]);
    assert Text([line]) == line + "\n";
  }

  method PrintParts(key: string, parts: seq<string>) returns (text: string)
    ensures text == Text(Assignments(key, parts))
  {
    text := "";
    for i := 0 to |parts|
      invariant text == Text(Assignments(key, parts[..i]))
    {
      AssignmentsSnoc(key, parts[..i], parts[i]);
      TextSnoc(Assignments(key, parts[..i]), key + "=" + parts[i]);
      assert parts[..i] + [parts[i]] == parts[..i + 1];
      text := text + key + "=" + parts[i] + "\n";
    }
    assert parts[..|parts|] == parts;
  }

  method PrintOption(key: string, value: string) returns (text: string)
    ensures text == Text(Block(key, value))
  {
    if key == "legacy_maxorphantx" {
      text := LEGACY_TAG + value + "\n";
    } else if key == "listen" {
      text := "";
    } else if key == "asmap" && value == "0" {
      text := "noasmap=1\n";
    } else if MultiLine(key) {
      text := PrintParts(key, Split(value, ','));
    } else {
      text := key + "=" + value + "\n";
    }
  }

  lemma {:induction false} BlocksSnoc(values: Values, keys: seq<string>, key: string)
    requires key in values && forall k :: k in keys ==> k in values
    ensures Blocks(values, keys + [key]) == Blocks(values, keys) + Block(key, values[key])
  {
    hide Block;
    if keys != [] {
      assert (keys + [key])[1..] == keys[1..] + [key];
      BlocksSnoc(values, keys[1..], key);
    } else {
      assert (keys + [key])[1..] == [];
    }
  }

  method PrintOptions(values: Values, keys: seq<string>) returns (text: string)
    requires forall k :: k in keys ==> k in values
    ensures text == Text(Blocks(values, keys))
  {
    text := "";
    for i := 0 to |keys|
      invariant text == Text(Blocks(values, keys[..i]))
    {
      hide Blocks, Block, Text;
      var part := PrintOption(keys[i], values[keys[i]]);
      BlocksSnoc(values, keys[..i], keys[i]);
      TextConcat(Blocks(values, keys[..i]), Block(keys[i], values[keys[i]]));
      assert keys[..i] + [keys[i]] == keys[..i + 1];
      text := text + part;
    }
    assert keys[..|keys|] == keys;
  }

  method PrintListener(values: Values, network: string, bindings: seq<string>) returns (text: string)
    ensures text == Text(ListenLines(values, network, bindings))
  {
    text := "";
    if "listen" in values {
      var tag, section := INCOMING_TAG + values["listen"], "[" + network + "]";
      var binds := PrintParts("bind", bindings);
      text := tag + "\n" + section + "\n" + "nobind=1\n" + binds;
      ListenText(tag, section, Assignments("bind", bindings));
    }
  }

  lemma ListenText(tag: string, section: string, rest: seq<string>)
    ensures Text([tag, section, "nobind=1"] + rest) == tag + "\n" + section + "\n" + "nobind=1\n" + Text(rest)
  {
    TextConcat([tag, section, "nobind=1"], rest);
    TextSnoc([tag, section], "nobind=1");
    TextSnoc([tag], section);
    TextSnoc([], tag);
    assert [] + [tag] == [tag] && [tag] + [section] == [tag, section];
    assert [tag, section] + ["nobind=1"] == [tag, section, "nobind=1"];
    assert "nobind=1" + "\n" == "nobind=1\n";
  }

  // `render`, walking the ordered map by its list of keys.
  method Render(values: Values, network: string, keys: seq<string>) returns (r: Result<string, Refusal>)
    requires Listing(keys, values)
    ensures r == match RenderLines(values, network, keys)
      case Err(e) => Err(e)
      case Ok(lines) => Ok(Text(lines))
  {
    var text := HEADER + "\n";
    var options := PrintOptions(values, keys);
    text := text + options;
    OnionText(values);
    I2pText(values);
    assert text + "" == text;
    if "onlynet" in values && !Selects(values, "onlynet", "onion") {
      text := text + "noonion=1\n";
    }
    assert text == HEADER + "\n" + options + Text(OnionLines(values));
    assert text + "" == text;
    if I2pEnabled(values) {
      text := text + ("i2psam=" + SAM_ENDPOINT + "\n" + "i2pacceptincoming=" + Flag(Selects(values, "listen", "i2p")) + "\n");
    }
    assert text == HEADER + "\n" + options + Text(OnionLines(values)) + Text(I2pLines(values));
    if ListenBindings(values, network).Err? { return Err(Refused); }
    var listener := PrintListener(values, network, ListenBindings(values, network).value);
    RenderedText(values, network, keys, options, listener);
    hide Text, HEADER, SAM_ENDPOINT, Flag, Selects, I2pEnabled, ListenBindings;
    return Ok(text + listener);
  }

  lemma RenderedText(values: Values, network: string, keys: seq<string>, options: string, listener: string)
    requires Listing(keys, values) && ListenBindings(values, network).Ok?
    requires options == Text(Blocks(values, keys))
    requires listener == Text(ListenLines(values, network, ListenBindings(values, network).value))
    ensures RenderLines(values, network, keys).Ok?
    ensures Text(RenderLines(values, network, keys).value)
         == HEADER + "\n" + options + Text(OnionLines(values)) + Text(I2pLines(values)) + listener
  {
    var bindings := ListenBindings(values, network).value;
    hide OnionLines, I2pLines, ListenLines, Blocks, Text, HEADER, Selects, I2pEnabled;
    var a, b, c, d, e := [HEADER], Blocks(values, keys), OnionLines(values), I2pLines(values),
                         ListenLines(values, network, bindings);
    TextConcat(a + b + c + d, e);
    TextConcat(a + b + c, d);
    TextConcat(a + b, c);
    TextConcat(a, b);
    LineText(HEADER);
  }

  lemma LineText(line: string)
    ensures Text([line]) == line + "\n"
  {
    assert Text([]) == "";
  }

  lemma OnionText(values: Values)
    ensures Text(OnionLines(values)) ==
      if "onlynet" in values && !Selects(values, "onlynet", "onion") then "noonion=1\n" else ""
  {
    LineText("noonion=1");
    assert "noonion=1" + "\n" == "noonion=1\n";
  }

  lemma I2pText(values: Values)
    ensures Text(I2pLines(values)) ==
      if I2pEnabled(values) then
        "i2psam=" + SAM_ENDPOINT + "\n" + "i2pacceptincoming=" + Flag(Selects(values, "listen", "i2p")) + "\n"
      else ""
  {
    if I2pEnabled(values) {
      var a, b := "i2psam=" + SAM_ENDPOINT, "i2pacceptincoming=" + Flag(Selects(values, "listen", "i2p"));
      LineText(a);
      TextSnoc([a], b);
      assert [a] + [b] == I2pLines(values);
    }
  }

  // --------------------------------------------------------------------- parsing

  // `parse_config`.
  method ParseConfig(text: string, network: string) returns (r: Checked)
    ensures r == Parse(text, network)
  {
    var lines := Lines(text);
    var out: Values, bindings: seq<string>, cleared, section := map[], [], false, false;
    var i := 0;
    while i < |lines|
      invariant i <= |lines|
      invariant ParseLines(NOTHING, lines, network)
             == ParseLines(Parsed(out, bindings, cleared, section), lines[i..], network)
    {
      var line := lines[i];
      assert lines[i..][0] == line && lines[i..][1..] == lines[i + 1..];
      i := i + 1;
      if StartsWith(line, LEGACY_TAG) {
        if "legacy_maxorphantx" in out { return Err(Refused); }
        out := out["legacy_maxorphantx" := line[|LEGACY_TAG|..]];
        continue;
      }
      if StartsWith(line, INCOMING_TAG) {
        if "listen" in out { return Err(Refused); }
        out := out["listen" := line[|INCOMING_TAG|..]];
        continue;
      }
      if line == "" || line[0] == '#' { continue; }
      if line == "[" + network + "]" && !section {
        section := true;
        continue;
      }
      if SplitOnce(line, '=').None? { return Err(Refused); }
      var (key, value) := SplitOnce(line, '=').value;
      if section != (key == "bind" || key == "nobind") { return Err(Refused); }
      if key == "noasmap" {
        if value != "1" || "asmap" in out { return Err(Refused); }
        out := out["asmap" := "0"];
      } else if key == "bind" {
        bindings := bindings + [value];
      } else if key == "nobind" {
        if value != "1" || cleared { return Err(Refused); }
        cleared := true;
      } else if MultiLine(key) {
        out := out[key := if key in out then out[key] + "," + value else value];
      } else {
        if key in out { return Err(Refused); }
        out := out[key := value];
      }
    }
    assert lines[i..] == [];
    return Derived(Parsed(out, bindings, cleared, section), network);
  }

  // ------------------------------------------------------------------ validation

  // The first loop of `validate`: every value in Core's units.
  method ValidateValues(p: Policy, input: Values, keys: seq<string>) returns (r: Checked)
    requires Listing(keys, input)
    ensures r == Validate(p, input)
  {
    hide Canonical1, Together, Completed;
    var out: Values := map[];
    var i := 0;
    while i < |keys|
      invariant i <= |keys|
      invariant forall k :: k in out <==> k in keys[..i]
      invariant forall k :: k in out ==> Canonical1(p, k, input[k]) == Ok(out[k])
    {
      var key := keys[i];
      var canonical := Canonical1(p, key, input[key]);
      if canonical.Err? { return Err(Refused); }
      out := out[key := canonical.value];
      assert keys[..i + 1] == keys[..i] + [key];
      i := i + 1;
    }
    assert out == Converted(p, input);
    out := Completed(out);
    if !Together(p, out) { return Err(Refused); }
    return Ok(out);
  }

  // `config_values`.
  method ReadConfigValues(p: Policy, saved: string, text: string) returns (r: Checked)
    ensures r == ConfigValues(p, saved, text)
  {
    if !TextAllowed(text) { return Err(Refused); }
    if Current(p, saved).Err? {
      assert Current(p, saved).error.Refused?;
      return Err(Refused);
    }
    var values := Retained(Current(p, saved).value);
    var seen: set<string> := {};
    var lines, i := Lines(text), 0;
    ghost var start := Edit(values, {});
    while i < |lines|
      invariant i <= |lines|
      invariant EditLines(p, start, lines) == EditLines(p, Edit(values, seen), lines[i..])
    {
      hide Trim, Split, SplitOnce, NativeFeeToInput, Protected, Validate, Current, Retained;
      var line := Trim(Split(lines[i], '#')[0]);
      assert lines[i..][0] == lines[i] && lines[i..][1..] == lines[i + 1..];
      i := i + 1;
      if line == "" { continue; }
      if SplitOnce(line, '=').None? { return Err(Refused); }
      var pair := SplitOnce(line, '=').value;
      var key, native := Trim(pair.0), Trim(pair.1);
      if Protected(key) || key !in p.entries { return Err(Refused); }
      if key in seen && !Repeats(key) { return Err(Refused); }
      seen := seen + {key};
      var value := native;
      if p.entries[key].kind.Decimal? {
        if NativeFeeToInput(native).Err? { return Err(Refused); }
        value := NativeFeeToInput(native).value;
      }
      if Repeats(key) && key in values {
        values := values[key := values[key] + "," + value];
      } else {
        values := values[key := value];
      }
    }
    assert lines[i..] == [];
    if Validate(p, values).Err? { return Err(Refused); }
    return Ok(values);
  }

  // ------------------------------------------------------- the launcher's reader

  lemma TaggedSnoc(lines: seq<string>, line: string, prefix: string)
    ensures Tagged(lines + [line], prefix)
         == if StartsWith(line, prefix) then Tagged(lines, prefix) + [line[|prefix|..]] else Tagged(lines, prefix)
  {
    TaggedConcat(lines, [line], prefix);
    TaggedSingle(line, prefix);
  }

  // A line has one of these forms at most.
  lemma FormsExclude(line: string)
    ensures StartsWith(line, INCOMING_TAG) ==> !StartsWith(line, "onlynet=") && !StartsWith(line, "proxy=")
    ensures AnnouncementConflict(line) ==>
              !StartsWith(line, INCOMING_TAG) && !StartsWith(line, "onlynet=") && !StartsWith(line, "proxy=")
    ensures StartsWith(line, "onlynet=") ==> !StartsWith(line, "proxy=")
  {
    TagFirst();
    hide INCOMING_TAG;
    FirstOf(line, INCOMING_TAG, '#');
    FirstOf(line, "onlynet=", 'o');
    FirstOf(line, "proxy=", 'p');
    FirstOf(line, "discover=", 'd');
    FirstOf(line, "externalip=", 'e');
    FirstOf(line, "nodiscover=", 'n');
    FirstOf(line, "noexternalip=", 'n');
  }

  lemma TagFirst()
    ensures INCOMING_TAG != "" && INCOMING_TAG[0] == '#'
  {
  }

  lemma FirstOf(line: string, prefix: string, c: char)
    requires prefix != "" && prefix[0] == c
    ensures StartsWith(line, prefix) ==> line != "" && line[0] == c
  {
    if line != "" && line[0] != c { NotPrefix(line, prefix, 0); }
  }

  // What the lines read so far have set.
  datatype Found = Found(incoming: Option<string>, outgoing: seq<string>, proxy: seq<string>)

  ghost predicate FoundIn(f: Found, lines: seq<string>) {
    && Tagged(lines, INCOMING_TAG) == (if f.incoming.Some? then [f.incoming.value] else [])
    && (f.incoming.Some? ==> IncomingReadable(f.incoming.value))
    && Tagged(lines, "onlynet=") == f.outgoing && Tagged(lines, "proxy=") == f.proxy
    && forall l :: l in lines ==> !AnnouncementConflict(l)
  }

  // Lines no continuation of which is accepted.
  ghost predicate Spoiled(lines: seq<string>) {
    || |Tagged(lines, INCOMING_TAG)| > 1
    || (exists v :: v in Tagged(lines, INCOMING_TAG) && !IncomingReadable(v))
    || exists l :: l in lines && AnnouncementConflict(l)
  }

  lemma SpoiledIsRefused(lines: seq<string>, rest: seq<string>, network: string)
    requires Spoiled(lines)
    ensures ReadSelection(lines + rest, network) == Err(Refused)
  {
    hide Tagged, IncomingReadable, AnnouncementConflict, INCOMING_TAG;
    TaggedConcat(lines, rest, INCOMING_TAG);
  }

  lemma NothingFound()
    ensures FoundIn(Found(None, [], []), [])
  {
  }

  method ReadLine(f: Found, line: string, ghost before: seq<string>) returns (r: Result<Found, Refusal>)
    requires FoundIn(f, before)
    ensures r.Ok? ==> FoundIn(r.value, before + [line])
    ensures r.Err? ==> r == Err(Refused) && Spoiled(before + [line])
  {
    hide Tagged, StartsWith, INCOMING_TAG, IncomingReadable, AnnouncementConflict;
    TaggedSnoc(before, line, INCOMING_TAG);
    TaggedSnoc(before, line, "onlynet=");
    TaggedSnoc(before, line, "proxy=");
    FormsExclude(line);
    if StartsWith(line, INCOMING_TAG) {
      var value := AfterPrefix(line, INCOMING_TAG);
      if f.incoming.Some? { return Err(Refused); }
      if !IncomingReadable(value) {
        assert value in Tagged(before + [line], INCOMING_TAG);
        return Err(Refused);
      }
      return Ok(f.(incoming := Some(value)));
    } else if StartsWith(line, "onlynet=") {
      return Ok(f.(outgoing := f.outgoing + [AfterPrefix(line, "onlynet=")]));
    } else if StartsWith(line, "proxy=") {
      return Ok(f.(proxy := f.proxy + [AfterPrefix(line, "proxy=")]));
    } else if AnnouncementConflict(line) {
      assert line in before + [line];
      return Err(Refused);
    }
    return Ok(f);
  }

  method Conclude(f: Found, network: string, ghost lines: seq<string>) returns (r: Result<Announced, Refusal>)
    requires FoundIn(f, lines)
    ensures r == ReadSelection(lines, network)
  {
    hide Tagged, IncomingReadable, AnnouncementConflict, INCOMING_TAG, NETWORK_ORDER, Split, Elements;
    if |Elements(f.outgoing)| != |f.outgoing| || exists v :: v in f.outgoing && v !in NETWORK_ORDER {
      return Err(Refused);
    }
    if |f.proxy| > 1 || (f.proxy != [] && f.proxy[0] != "0" && f.proxy[0] != TOR_ENDPOINT) { return Err(Refused); }
    var announced :=
      if f.incoming.Some? then Elements(Split(f.incoming.value, ','))
      else if network == "regtest" then {"tor"} else {"clearnet", "tor"};
    return Ok(Announced(announced,
                        if f.outgoing == [] then {"ipv4", "ipv6", "onion"} else Elements(f.outgoing),
                        f.proxy != [] && f.proxy[0] != "0"));
  }

  // `selection`.
  method ReadLauncherSelection(text: string, network: string) returns (r: Result<Announced, Refusal>)
    ensures r == ReadSelection(SplitLines(text), network)
  {
    var lines := SplitLines(text);
    var found := Found(None, [], []);
    NothingFound();
    hide ReadSelection, FoundIn, Spoiled, SplitLines;
    assert lines[..0] == [];
    for i := 0 to |lines|
      invariant FoundIn(found, lines[..i])
    {
      var next := ReadLine(found, lines[i], lines[..i]);
      assert lines[..i] + [lines[i]] == lines[..i + 1];
      if next.Err? {
        SpoiledIsRefused(lines[..i + 1], lines[i + 1..], network);
        assert lines[..i + 1] + lines[i + 1..] == lines;
        return Err(Refused);
      }
      found := next.value;
    }
    assert lines[..|lines|] == lines;
    r := Conclude(found, network, lines);
  }

  function AfterPrefix(line: string, prefix: string): string
    requires StartsWith(line, prefix)
  {
    line[|prefix|..]
  }
}
