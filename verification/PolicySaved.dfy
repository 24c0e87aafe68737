// Saving and reading: what was validated is what is read back from the managed file
// and validated again.
module PolicySaved {
  import opened Common
  import opened Strings
  import opened Decimals
  import opened Fees
  import opened PolicyModel
  import opened PolicyRoundTrip

  const ANNOUNCEMENTS := ["discover", "externalip", "nodiscover", "noexternalip"]

  // What the loaded catalogs have in common: printable keys that the printer does not
  // derive itself, and each special control under its own key.
  ghost predicate Reviewed(p: Policy) {
    && Port(p.network).Some?
    && (forall k :: k in p.entries ==> OptionKey(k) && Bare(k) && KindFits(k, p.entries[k]) && k !in ANNOUNCEMENTS)
    && (StartsWithMajor(p.version, "30") && "maxorphantx" in p.entries ==> !Usable(p.entries["maxorphantx"]))
  }

  // Printable, and neither a comment sign nor a space.
  predicate Bare(s: string) { forall c :: c in s ==> ' ' < c <= '~' && c != '#' }

  predicate Usable(entry: Entry) { entry.editable && !entry.ignored && entry.registered }

  predicate KindFits(key: string, entry: Entry) {
    && (entry.kind.IncomingSet? <==> key == "listen")
    && (entry.kind.NetworkSet? <==> key == "onlynet")
    && (key == "onlynet" ==> Usable(entry))
    && (entry.kind.TorProxy? <==> key == "proxy")
    && (entry.kind.DebugCategories? <==> key == "debug" || key == "debugexclude")
    && (key == "acceptnonstdtxn" ==> entry.kind.Boolean?)
    && (key == "blockversion" ==> entry.kind.Integer?)
  }

  // ------------------------------------------------------------------ reading back

  // From Core's units to the units of the form.
  function Shown(entry: Entry, value: string): Result<string, Refusal> {
    match entry.kind
    case TorProxy =>
      if value == TOR_ENDPOINT then Ok("1") else if value == "0" then Ok("0") else Err(Refused)
    case Decimal =>
      (match NativeFeeToInput(value)
       case Ok(text) => Ok(text)
       case Err(_) => Err(Refused))
    case _ => Ok(value)
  }

  predicate EachShown(p: Policy, native: Values) {
    forall k :: k in native ==> k in p.entries && Shown(p.entries[k], native[k]).Ok?
  }

  function Inputs(p: Policy, native: Values): Values
    requires EachShown(p, native)
  {
    map k | k in native :: Shown(p.entries[k], native[k]).value
  }

  // Core 30 ignores an option that older releases of the editor offered.
  function Effective(p: Policy, values: Values): Values {
    if StartsWithMajor(p.version, "30") then Removed(values, "maxorphantx") else values
  }

  function Current(p: Policy, text: string): Checked {
    match Parse(text, p.network)
    case Err(e) => Err(e)
    case Ok(native) =>
      if !EachShown(p, native) then Err(Refused)
      else if Validate(p, Effective(p, Inputs(p, native))).Err? then Err(Refused)
      else Ok(Inputs(p, native))
  }

  function CurrentEffective(p: Policy, text: string): Checked {
    match Current(p, text)
    case Err(e) => Err(e)
    case Ok(values) => Validate(p, Effective(p, values))
  }

  // ------------------------------------------------------------ sorted selections

  lemma {:induction false} ChosenMembers(order: seq<string>, parts: seq<string>, p: string)
    ensures p in Chosen(order, parts) <==> p in order && p in parts
  {
    if order != [] {
      ChosenMembers(order[1..], parts, p);
      assert order == [order[0]] + order[1..];
    }
  }

  lemma {:induction false} ChosenSame(order: seq<string>, a: seq<string>, b: seq<string>)
    requires forall p :: p in order ==> (p in a <==> p in b)
    ensures Chosen(order, a) == Chosen(order, b)
  {
    if order != [] {
      assert order[0] in order && forall p :: p in order[1..] ==> p in order;
      ChosenSame(order[1..], a, b);
    }
  }

  lemma {:induction false} ElementsOfDistinct(s: seq<string>)
    requires Distinct(s)
    ensures |Elements(s)| == |s|
  {
    if s != [] {
      ElementsOfDistinct(s[1..]);
      assert s == [s[0]] + s[1..];
      assert Elements(s) == {s[0]} + Elements(s[1..]);
      assert s[0] !in s[1..];
    }
  }

  lemma {:induction false} ChosenDistinct(order: seq<string>, parts: seq<string>)
    requires Distinct(order)
    ensures Distinct(Chosen(order, parts))
  {
    if order != [] {
      ChosenDistinct(order[1..], parts);
      ChosenMembers(order[1..], parts, order[0]);
      assert order[0] !in order[1..];
    }
  }

  ghost predicate Names(order: seq<string>) {
    Distinct(order) && forall p :: p in order ==> ',' !in p && Bare(p)
  }

  predicate BareAll(parts: seq<string>) { forall p :: p in parts ==> Bare(p) }

  // A selection written in canonical order: the same names, still a selection, and
  // sorting it again changes nothing.
  lemma SortedSelection(value: string, order: seq<string>)
    requires Names(order) && Selection(value, order)
    ensures var sorted := Sorted(value, order);
      && Selection(sorted, order) && Sorted(sorted, order) == sorted
      && Elements(Split(sorted, ',')) == Elements(Split(value, ','))
  {
    var parts := Split(value, ',');
    var chosen := Chosen(order, parts);
    forall p ensures p in chosen <==> p in order && p in parts { ChosenMembers(order, parts, p); }
    assert parts[0] in parts && parts[0] in order && parts[0] in chosen;
    SplitOfJoin(chosen, ',');
    ChosenDistinct(order, parts);
    ElementsOfDistinct(chosen);
    ChosenSame(order, chosen, parts);
  }

  lemma {:induction false} JoinBare(parts: seq<string>, c: char)
    requires parts != [] && BareAll(parts) && ' ' < c <= '~' && c != '#'
    ensures Bare(Join(parts, c))
    decreases |parts|
  {
    assert parts[0] in parts;
    if |parts| > 1 {
      assert forall p :: p in parts[1..] ==> p in parts;
      JoinBare(parts[1..], c);
    }
  }

  // A list drawn from bare choices is bare.
  lemma SelectionBare(value: string, choices: seq<string>)
    requires Selection(value, choices) && BareAll(choices)
    ensures Bare(value)
  {
    JoinOfSplit(value, ',');
    JoinBare(Split(value, ','), ',');
  }

  lemma IncomingNames()
    ensures Names(INCOMING_ORDER)
  {
  }

  lemma NetworkNames()
    ensures Names(NETWORK_ORDER)
  {
  }

  // --------------------------------------------------------------- one saved value

  // A stored value is bare, is shown in the units of the form, and validates
  // to itself.
  predicate Stable(p: Policy, key: string, stored: string) {
    && key in p.entries && Bare(stored)
    && Shown(p.entries[key], stored).Ok?
    && Canonical1(p, key, Shown(p.entries[key], stored).value) == Ok(stored)
  }

  lemma IncomingStable(p: Policy, value: string)
    requires Reviewed(p) && "listen" in p.entries && Canonical1(p, "listen", value).Ok?
    ensures Stable(p, "listen", Canonical1(p, "listen", value).value)
    ensures IncomingBindings(p.network, Canonical1(p, "listen", value).value).Ok?
  {
    IncomingNames();
    if value != "none" {
      SortedSelection(value, INCOMING_ORDER);
      SelectionBare(Sorted(value, INCOMING_ORDER), INCOMING_ORDER);
    }
  }

  lemma NetworkStable(p: Policy, value: string)
    requires Reviewed(p) && "onlynet" in p.entries && Canonical1(p, "onlynet", value).Ok?
    ensures Stable(p, "onlynet", Canonical1(p, "onlynet", value).value)
  {
    NetworkNames();
    SortedSelection(value, NETWORK_ORDER);
    SelectionBare(Sorted(value, NETWORK_ORDER), NETWORK_ORDER);
  }

  lemma NumberBare(s: string, places: nat)
    requires Number(s, places)
    ensures Bare(s)
  {
    SplitOnceNone(s, '.');
  }

  lemma DecimalStable(p: Policy, key: string, value: string)
    requires Reviewed(p) && key in p.entries && p.entries[key].kind.Decimal? && Canonical1(p, key, value).Ok?
    ensures Stable(p, key, Canonical1(p, key, value).value)
  {
    SavedFeeIsStable(value);
    NativeFeeToInputExact(FeeToCore(value).value);
    NumberBare(FeeToCore(value).value, 8);
  }

  lemma DigitsBare(s: string)
    requires AllDigits(s)
    ensures Bare(s)
  {
  }

  lemma DigitsParse(n: nat)
    requires n <= I64_MAX
    ensures ParseI64(Digits(n)) == Some(n)
  {
    ValueOfDigits(n);
  }

  lemma IntegerStable(p: Policy, key: string, value: string)
    requires Reviewed(p) && key in p.entries && p.entries[key].kind.Integer? && key != "blockversion"
    requires Canonical1(p, key, value).Ok?
    ensures Stable(p, key, Canonical1(p, key, value).value)
  {
    var n := ParseI64(value).value;
    DigitsParse(n);
    DigitsBare(Digits(n));
  }

  lemma I32Stable(value: string)
    requires CanonicalI32(value).Some?
    ensures CanonicalI32(CanonicalI32(value).value) == CanonicalI32(value)
    ensures Bare(CanonicalI32(value).value)
  {
    var signed := value != "" && (value[0] == '-' || value[0] == '+');
    var n := Value(if signed then value[1..] else value);
    SignedStable(n);
    SignedStable(0);
    assert Digits(0) == "0";
    hide Digits, Bare;
  }

  lemma SignedStable(n: nat)
    ensures n <= 0x7FFF_FFFF ==> CanonicalI32(Digits(n)) == Some(Digits(n))
    ensures 0 < n <= 0x8000_0000 ==> CanonicalI32("-" + Digits(n)) == Some("-" + Digits(n))
    ensures Bare(Digits(n)) && Bare("-" + Digits(n))
  {
    hide CanonicalI32, Digits, Value;
    ValueOfDigits(n);
    DigitsBare(Digits(n));
    if n <= 0x7FFF_FFFF { PlainNumber(Digits(n), n); }
    if 0 < n <= 0x8000_0000 { NegativeNumber(Digits(n), n); }
  }

  lemma PlainNumber(text: string, n: nat)
    requires text != "" && AllDigits(text) && Value(text) == n <= 0x7FFF_FFFF
    ensures CanonicalI32(text) == Some(Digits(n))
  {
    assert text[0] in text;
    hide Digits, Value;
  }

  lemma NegativeNumber(text: string, n: nat)
    requires text != "" && AllDigits(text) && Value(text) == n && 0 < n <= 0x8000_0000
    ensures CanonicalI32("-" + text) == Some("-" + Digits(n))
  {
    var minus := "-" + text;
    assert minus[0] == '-' && minus[1..] == text;
    hide Digits, Value;
  }

  lemma VersionStable(p: Policy, value: string)
    requires Reviewed(p) && "blockversion" in p.entries && Canonical1(p, "blockversion", value).Ok?
    ensures Stable(p, "blockversion", Canonical1(p, "blockversion", value).value)
  {
    I32Stable(value);
  }

  lemma CategoriesBare()
    ensures BareAll(CATEGORIES)
  {
    assert Bare("net") && Bare("mempool") && Bare("mempoolrej") && Bare("validation") && Bare("rpc");
    assert Bare("0") && Bare("1");
  }

  lemma OtherStable(p: Policy, key: string, value: string)
    requires Reviewed(p) && key in p.entries && Canonical1(p, key, value).Ok?
    requires var kind := p.entries[key].kind; kind.TorProxy? || kind.DebugCategories? || kind.Boolean?
    ensures Stable(p, key, Canonical1(p, key, value).value)
  {
    if p.entries[key].kind.DebugCategories? {
      CategoriesBare();
      SelectionBare(value, CATEGORIES);
    }
  }

  lemma CanonicalStable(p: Policy, key: string, value: string)
    requires Reviewed(p) && key in p.entries && Canonical1(p, key, value).Ok?
    ensures Stable(p, key, Canonical1(p, key, value).value)
  {
    if key == "blockversion" {
      VersionStable(p, value);
    } else {
      match p.entries[key].kind
      case IncomingSet => IncomingStable(p, value);
      case NetworkSet => NetworkStable(p, value);
      case Decimal => DecimalStable(p, key, value);
      case Integer(_) => IntegerStable(p, key, value);
      case _ => OtherStable(p, key, value);
    }
  }

  const DEFAULT_OUTGOING := "ipv4,ipv6,onion"

  const DEFAULT_NAMES := ["ipv4", "ipv6", "onion"]

  lemma DefaultSplits()
    ensures Split(DEFAULT_OUTGOING, ',') == DEFAULT_NAMES && Join(DEFAULT_NAMES, ',') == DEFAULT_OUTGOING
  {
    var names := DEFAULT_NAMES;
    assert Join(["onion"], ',') == "onion";
    assert names[1..] == ["ipv6", "onion"] && names[1..][1..] == ["onion"];
    assert Join(["ipv6", "onion"], ',') == "ipv6" + "," + "onion";
    assert Join(names, ',') == "ipv4" + "," + ("ipv6" + "," + "onion");
    assert "ipv4" + "," + ("ipv6" + "," + "onion") == DEFAULT_OUTGOING;
    SplitOfJoin(names, ',');
  }

  lemma DefaultNames()
    ensures Distinct(DEFAULT_NAMES) && forall p :: p in DEFAULT_NAMES ==> p in NETWORK_ORDER
  {
    assert NETWORK_ORDER[1..] == DEFAULT_NAMES;
    assert forall p :: p in NETWORK_ORDER[1..] ==> p in NETWORK_ORDER;
  }

  lemma {:induction false} ChosenAll(order: seq<string>, parts: seq<string>)
    requires forall p :: p in order ==> p in parts
    ensures Chosen(order, parts) == order
  {
    if order != [] {
      assert order[0] in order && forall p :: p in order[1..] ==> p in order;
      ChosenAll(order[1..], parts);
    }
  }

  lemma DefaultSorted()
    ensures Chosen(NETWORK_ORDER, DEFAULT_NAMES) == DEFAULT_NAMES
  {
    assert NETWORK_ORDER[1..] == DEFAULT_NAMES;
    assert NETWORK_ORDER[0] !in DEFAULT_NAMES;
    ChosenAll(NETWORK_ORDER[1..], DEFAULT_NAMES);
  }

  lemma DefaultStable(p: Policy)
    requires Reviewed(p) && "onlynet" in p.entries
    ensures Stable(p, "onlynet", DEFAULT_OUTGOING)
  {
    DefaultSplits();
    DefaultNames();
    DefaultSorted();
    ElementsOfDistinct(DEFAULT_NAMES);
    assert Selection(DEFAULT_OUTGOING, NETWORK_ORDER);
    NetworkNames();
    SelectionBare(DEFAULT_OUTGOING, NETWORK_ORDER);
  }

  // -------------------------------------------------------------------- all values

  ghost predicate AllStable(p: Policy, out: Values) {
    forall k :: k in out ==> Stable(p, k, out[k])
  }

  lemma ConvertedIsStable(p: Policy, input: Values)
    requires Reviewed(p) && EachAllowed(p, input)
    ensures AllStable(p, Converted(p, input))
  {
    hide Stable;
    forall k | k in input ensures Stable(p, k, Converted(p, input)[k]) { CanonicalStable(p, k, input[k]); }
  }

  lemma CompletedIsStable(p: Policy, out: Values)
    requires Reviewed(p) && AllStable(p, out) && Together(p, Completed(out))
    ensures AllStable(p, Completed(out))
  {
    hide Canonical1, Stable, Together;
    if Completed(out) != out {
      OnlynetReviewed(p, Completed(out));
      DefaultStable(p);
    }
  }

  lemma ListenIsStorable(p: Policy, input: Values)
    requires Reviewed(p) && EachAllowed(p, input)
    ensures ListenBindings(Completed(Converted(p, input)), p.network).Ok?
  {
    if "listen" in input {
      assert Canonical1(p, "listen", input["listen"]).Ok?;
      IncomingStable(p, input["listen"]);
    }
    hide Canonical1, Stable, IncomingBindings;
  }

  // Everything validation stores is stable, and can be printed.
  lemma ValidatedIsStable(p: Policy, input: Values)
    requires Reviewed(p) && Validate(p, input).Ok?
    ensures var out := Validate(p, input).value;
      AllStable(p, out) && Together(p, out) && Storable(out, p.network)
  {
    var out := Validate(p, input).value;
    hide Canonical1, Stable, Together, Selects;
    ConvertedIsStable(p, input);
    CompletedIsStable(p, Converted(p, input));
    StableIsStorable(p, out);
    ListenIsStorable(p, input);
  }

  lemma OnlynetReviewed(p: Policy, out: Values)
    requires Together(p, out) && Selects(out, "listen", "i2p")
    ensures "onlynet" in p.entries
  {
  }

  lemma StableIsStorable(p: Policy, out: Values)
    requires Reviewed(p) && AllStable(p, out)
    ensures forall k :: k in out ==> OptionKey(k) && Plain(out[k])
  {
    forall k | k in out ensures OptionKey(k) && Plain(out[k]) {
      assert Stable(p, k, out[k]);
    }
  }

  // Values shown in the form, each valid and standing for what is stored.
  ghost predicate StandsFor(p: Policy, input: Values, out: Values) {
    && (forall k :: k in input ==> k in out && Canonical1(p, k, input[k]) == Ok(out[k]))
    && (forall k :: k in out && k !in input ==>
          k == "onlynet" && out[k] == DEFAULT_OUTGOING && Selects(out, "listen", "i2p"))
  }

  // Such values validate to exactly what is stored.
  lemma StandsForValidates(p: Policy, input: Values, out: Values)
    requires StandsFor(p, input, out) && Together(p, out)
    requires Selects(out, "listen", "i2p") ==> "onlynet" in out
    ensures Validate(p, input) == Ok(out)
  {
    hide Canonical1, Together;
    var converted := Converted(p, input);
    assert forall k :: k in converted ==> converted[k] == out[k];
    assert "listen" in out <==> "listen" in converted;
    assert Completed(converted) == out;
  }

  lemma ValidatedStandsFor(p: Policy, input: Values)
    requires Validate(p, input).Ok?
    ensures StandsFor(p, input, Validate(p, input).value)
    ensures var out := Validate(p, input).value; Selects(out, "listen", "i2p") ==> "onlynet" in out
  {
    hide Canonical1, Together;
  }

  // What is stored is shown, and what is shown validates to what is stored.
  lemma ShownValidates(p: Policy, input: Values)
    requires Reviewed(p) && Validate(p, input).Ok?
    ensures var out := Validate(p, input).value;
      && EachShown(p, out)
      && Effective(p, Inputs(p, out)) == Inputs(p, out)
      && Validate(p, Inputs(p, out)) == Ok(out)
  {
    var out := Validate(p, input).value;
    ValidatedIsStable(p, input);
    ValidatedStandsFor(p, input);
    assert EachShown(p, out) by {
      forall k | k in out ensures k in p.entries && Shown(p.entries[k], out[k]).Ok? { assert Stable(p, k, out[k]); }
    }
    var shown := Inputs(p, out);
    assert StandsFor(p, shown, out) by {
      forall k | k in shown ensures Canonical1(p, k, shown[k]) == Ok(out[k]) { assert Stable(p, k, out[k]); }
    }
    StandsForValidates(p, shown, out);
    NothingObsolete(p, out);
  }

  lemma NothingObsolete(p: Policy, out: Values)
    requires Reviewed(p) && AllStable(p, out)
    ensures Effective(p, out) == out
  {
    forall k | k in out ensures k in p.entries && Usable(p.entries[k]) {
      assert Stable(p, k, out[k]);
    }
  }

  // Saving, then reading the file and validating again, gives the values that were
  // saved, whatever the order in which they were printed.
  lemma SavedIsFixed(p: Policy, input: Values, keys: seq<string>)
    requires Reviewed(p) && Validate(p, input).Ok? && Listing(keys, Validate(p, input).value)
    ensures var out := Validate(p, input).value;
      && RenderLines(out, p.network, keys).Ok?
      && var text := Text(RenderLines(out, p.network, keys).value);
         && Parse(text, p.network) == Ok(out)
         && EachShown(p, out) && Current(p, text) == Ok(Inputs(p, out))
         && CurrentEffective(p, text) == Ok(out)
  {
    var out := Validate(p, input).value;
    ValidatedIsStable(p, input);
    ParseUndoesRender(out, keys, p.network);
    ShownValidates(p, input);
  }

  // A small reviewed policy, with an input it accepts.
  function ExamplePolicy(): Policy {
    Policy("31.1", "main",
           map["txindex" := Entry(Boolean, true, false, true, false),
               "onlynet" := Entry(NetworkSet, true, false, true, true)], None)
  }

  lemma ExampleIsReviewed()
    ensures Reviewed(ExamplePolicy())
  {
    assert OptionKey("txindex") && OptionKey("onlynet") && Bare("txindex") && Bare("onlynet");
    assert "txindex" !in ANNOUNCEMENTS && "onlynet" !in ANNOUNCEMENTS;
    hide OptionKey, Bare, ANNOUNCEMENTS, StartsWith;
  }

  lemma ExampleIsAccepted()
    ensures Validate(ExamplePolicy(), map["txindex" := "1"]) == Ok(map["txindex" := "1"])
  {
    var input: Values := map["txindex" := "1"];
    assert Canonical1(ExamplePolicy(), "txindex", "1") == Ok("1");
    assert !Selects(input, "listen", "i2p") && !I2pEnabled(input);
    hide Canonical1;
    assert Converted(ExamplePolicy(), input) == input;
    hide Split, StartsWith;
  }
}
