// What validation accepts and what it stores, said of the input and of numbers.
module PolicyAcceptance {
  import opened Common
  import opened Strings
  import opened Decimals
  import opened Fees
  import opened PolicyModel
  import opened PolicyRoundTrip
  import opened PolicySaved
  import opened PolicyListeners

  // ------------------------------------------------------------------ one value

  // The largest value of each setting: its own limit, or what Core still multiplies
  // by the setting's unit in 64 bits.
  const CEILINGS: map<string, nat> := map[
    "maxmempool" := 9_223_372_036_854,
    "maxsendbuffer" := 9_223_372_036_854_775, "maxreceivebuffer" := 9_223_372_036_854_775,
    "limitancestorsize" := 9_223_372_036_854_775, "limitdescendantsize" := 9_223_372_036_854_775,
    "dbcache" := 8_796_093_022_207, "maxuploadtarget" := 8_796_093_022_207,
    "mempoolexpiry" := 2_562_047_788_015_215, "limitclustersize" := 2_305_843_009_213_693,
    "limitclustercount" := 64,
    "datacarriersize" := 4_294_967_295, "maxorphantx" := 4_294_967_295, "bytespersigop" := 4_294_967_295,
    "blockreservedweight" := 4_000_000]

  predicate IntegerFits(p: Policy, key: string, range: Option<(int, int)>, n: nat) {
    && (range.None? || (range.value.0 <= n && n <= range.value.1))
    && n <= (if key in CEILINGS then CEILINGS[key] else 9_223_372_036_854_775_807)
    && (key == "dbcache" && p.memory.Some? ==> 4 * n <= 3 * (p.memory.value / 1024))
    && (key == "blockreservedweight" ==> n >= 2000)
    && (key == "blockmaxweight" && "blockreservedweight" in p.entries ==> 2000 <= n && n <= 4_000_000)
    && (key == "blockmaxweight" && "blockreservedweight" !in p.entries ==> 4000 <= n && n <= 3_996_000)
  }

  const DIAGNOSTICS := {"net", "mempool", "mempoolrej", "validation", "rpc"}

  // A decimal number, with or without a sign, and its digits.
  predicate Writes(value: string, digits: string, n: int) {
    && digits != "" && AllDigits(digits)
    && (((value == digits || value == "+" + digits) && n == Value(digits))
        || (value == "-" + digits && n == 0 - Value(digits)))
  }

  // This number, in 32 bits.
  ghost predicate Signed(value: string, n: int) {
    -0x8000_0000 <= n < 0x8000_0000 && exists digits: string :: Writes(value, digits, n)
  }

  function IntText(n: int): string { if n < 0 then "-" + Digits(-n) else Digits(n) }

  ghost predicate UniqueOf(value: string, names: set<string>) {
    Distinct(Split(value, ',')) && forall p :: p in Split(value, ',') ==> p in names
  }

  ghost predicate Categories(key: string, value: string) {
    || (key != "debugexclude" && value in {"0", "1"})
    || UniqueOf(value, DIAGNOSTICS)
  }

  // The value can be saved under this key.
  ghost predicate Fits(p: Policy, key: string, value: string) {
    && key in p.entries && Usable(p.entries[key])
    && (key == "acceptnonstdtxn" && p.network == "main" ==> value == "0")
    && if key == "blockversion" then p.network == "regtest" && exists n :: Signed(value, n)
       else match p.entries[key].kind
         case IncomingSet => p.network in PORTS && Incoming(value)
         case NetworkSet => UniqueOf(value, {"ipv4", "ipv6", "onion", "i2p"})
         case TorProxy => value in {"0", "1"}
         case DebugCategories => Categories(key, value)
         case Boolean => value in {"0", "1"}
         case Decimal => Number(value, 3) && Scaled(value, 3) <= U64_MAX
         case Integer(range) => value != "" && AllDigits(value) && IntegerFits(p, key, range, Value(value))
         case Unreviewed => false
  }

  lemma IntegerExactly(p: Policy, key: string, range: Option<(int, int)>, n: nat)
    ensures n <= I64_MAX && IntegerAllowed(p, key, range, n) <==> IntegerFits(p, key, range, n)
  {
  }

  lemma UniqueExactly(value: string, order: seq<string>, names: set<string>)
    requires forall p :: p in order <==> p in names
    ensures Selection(value, order) <==> UniqueOf(value, names)
  {
    var parts := Split(value, ',');
    if Distinct(parts) { ElementsOfDistinct(parts); }
    if |Elements(parts)| == |parts| { DistinctOfElements(parts); }
  }

  lemma SignedParses(value: string, n: int)
    requires Signed(value, n)
    ensures CanonicalI32(value) == Some(IntText(n))
  {
    var digits := if value != "" && (value[0] == '-' || value[0] == '+') then value[1..] else value;
    var given: string :| Writes(value, given, n);
    assert given[0] in given && IsDigit(given[0]);
    assert digits == given;
    assert Digits(0) == "0";
  }

  lemma ParsedIsSigned(value: string)
    requires CanonicalI32(value).Some?
    ensures exists n :: Signed(value, n)
  {
    var negative := value[0] == '-';
    var digits := if value[0] == '-' || value[0] == '+' then value[1..] else value;
    var m := if negative then 0 - Value(digits) else Value(digits);
    assert value == digits || value == "+" + digits || value == "-" + digits;
    hide Digits, Value, IntText;
    assert Writes(value, digits, m);
    assert Signed(value, m);
  }

  lemma FiveAtMost(parts: seq<string>, names: set<string>)
    requires Distinct(parts) && |names| <= 5 && forall p :: p in parts ==> p in names
    ensures |parts| <= 5
  {
    ElementsOfDistinct(parts);
    SubsetSize(Elements(parts), names);
  }

  lemma {:induction false} SubsetSize(a: set<string>, b: set<string>)
    requires a <= b
    ensures |a| <= |b|
  {
    if a != {} {
      var x :| x in a;
      SubsetSize(a - {x}, b - {x});
    }
  }

  lemma CategoriesOf(value: string)
    ensures Selection(value, CATEGORIES) <==> UniqueOf(value, DIAGNOSTICS + {"0", "1"})
    ensures UniqueOf(value, DIAGNOSTICS) ==> |Split(value, ',')| <= 5
  {
    UniqueExactly(value, CATEGORIES, DIAGNOSTICS + {"0", "1"});
    if UniqueOf(value, DIAGNOSTICS) { FiveAtMost(Split(value, ','), DIAGNOSTICS); }
  }

  lemma OnePart(value: string)
    requires |Split(value, ',')| == 1
    ensures Split(value, ',') == [value]
  {
    JoinOfSplit(value, ',');
  }

  lemma CategoriesExactly(key: string, value: string)
    requires key == "debug" || key == "debugexclude"
    ensures DebugAllowed(key, value) <==> Categories(key, value)
  {
    hide CATEGORIES, Selection, Split, Join;
    var parts := Split(value, ',');
    CategoriesOf(value);
    SplitSingle("0", ',');
    SplitSingle("1", ',');
    if DebugAllowed(key, value) && |parts| == 1 {
      OnePart(value);
      assert parts[0] in DIAGNOSTICS + {"0", "1"};
    }
  }

  lemma SignedBounds(value: string)
    ensures CanonicalI32(value).Some? <==> exists n :: Signed(value, n)
  {
    if CanonicalI32(value).Some? { ParsedIsSigned(value); }
    forall n | Signed(value, n) ensures CanonicalI32(value).Some? { SignedParses(value, n); }
  }

  // A value is taken exactly if it fits.
  lemma FitsExactly(p: Policy, key: string, value: string)
    requires Reviewed(p)
    ensures Canonical1(p, key, value).Ok? <==> Fits(p, key, value)
  {
    hide Signed, CanonicalI32, DebugAllowed, Categories, IntegerAllowed, IntegerFits, IncomingBindings, Incoming;
    hide Selection, UniqueOf, FeeToCore, Number, Scaled, PORTS, Port, Bare, OptionKey, Value, Split, Sorted;
    hide INCOMING_ORDER;
    if key in p.entries {
      assert KindFits(key, p.entries[key]);
      if key == "blockversion" {
        SignedBounds(value);
      } else {
        match p.entries[key].kind
        case IncomingSet => IncomingExactly(p.network, value);
        case NetworkSet => UniqueExactly(value, NETWORK_ORDER, {"ipv4", "ipv6", "onion", "i2p"});
        case DebugCategories => CategoriesExactly(key, value);
        case Decimal => FeeToCoreExact(value);
        case Integer(range) =>
          if value != "" && AllDigits(value) { IntegerExactly(p, key, range, Value(value)); }
        case _ =>
      }
    }
  }

  // ------------------------------------------------------------------ what is stored

  ghost predicate Before(order: seq<string>, x: string, y: string) {
    exists a, b :: 0 <= a < b < |order| && order[a] == x && order[b] == y
  }

  // In the order of the names given.
  ghost predicate InOrder(parts: seq<string>, order: seq<string>) {
    forall i, j :: 0 <= i < j < |parts| ==> Before(order, parts[i], parts[j])
  }

  // The same names, in this order.
  ghost predicate SortedAs(value: string, stored: string, order: seq<string>) {
    && Distinct(Split(stored, ',')) && InOrder(Split(stored, ','), order)
    && forall p :: p in Split(stored, ',') <==> p in Split(value, ',')
  }

  // What is stored for a value that fits: the same number, the same names.
  ghost predicate StoredAs(p: Policy, key: string, value: string, stored: string)
    requires Fits(p, key, value)
  {
    if key == "blockversion" then exists n :: Signed(value, n) && stored == IntText(n)
    else match p.entries[key].kind
      case IncomingSet =>
        if value == "none" then stored == "none" else SortedAs(value, stored, ["clearnet", "i2p", "tor"])
      case NetworkSet => SortedAs(value, stored, ["i2p", "ipv4", "ipv6", "onion"])
      case TorProxy => stored == if value == "1" then "127.0.0.1:9050" else "0"
      case Decimal => Number(stored, 8) && Scaled(stored, 8) == Scaled(value, 3)
      case Integer(_) => stored == Digits(Value(value))
      case _ => stored == value
  }

  lemma BeforeLater(order: seq<string>, x: string, y: string)
    requires order != []
    ensures Before(order[1..], x, y) ==> Before(order, x, y)
    ensures y in order[1..] ==> Before(order, order[0], y)
  {
    if Before(order[1..], x, y) {
      var a, b :| 0 <= a < b < |order[1..]| && order[1..][a] == x && order[1..][b] == y;
      assert order[a + 1] == x && order[b + 1] == y;
    }
    if y in order[1..] {
      var b :| 0 <= b < |order[1..]| && order[1..][b] == y;
      assert order[0] == order[0] && order[b + 1] == y;
    }
  }

  lemma {:induction false} ChosenInOrder(order: seq<string>, parts: seq<string>)
    ensures InOrder(Chosen(order, parts), order)
  {
    if order != [] {
      var all, rest := Chosen(order, parts), Chosen(order[1..], parts);
      ChosenInOrder(order[1..], parts);
      hide Before;
      forall i, j | 0 <= i < j < |all| ensures Before(order, all[i], all[j]) {
        ChosenMembers(order[1..], parts, all[j]);
        BeforeLater(order, all[i], all[j]);
        if order[0] in parts {
          assert all == [order[0]] + rest && all[j] == rest[j - 1];
          assert i > 0 ==> all[i] == rest[i - 1];
        }
      }
    }
  }

  lemma SortedStored(value: string, order: seq<string>)
    requires Names(order) && Selection(value, order)
    ensures SortedAs(value, Sorted(value, order), order)
  {
    var parts := Split(value, ',');
    var chosen := Chosen(order, parts);
    forall p ensures p in chosen <==> p in order && p in parts { ChosenMembers(order, parts, p); }
    assert parts[0] in parts && parts[0] in order && parts[0] in chosen;
    SplitOfJoin(chosen, ',');
    ChosenDistinct(order, parts);
    ChosenInOrder(order, parts);
  }

  lemma StoredNumber(p: Policy, key: string, value: string)
    requires key in p.entries && p.entries[key].kind.Integer? && Canonical1(p, key, value).Ok?
    requires key != "blockversion"
    ensures value != "" && AllDigits(value) && Value(value) <= I64_MAX
    ensures Canonical1(p, key, value).value == Digits(Value(value))
  {
  }

  lemma StoredSigned(p: Policy, value: string)
    requires Canonical1(p, "blockversion", value).Ok?
    ensures exists n :: Signed(value, n) && Canonical1(p, "blockversion", value).value == IntText(n)
  {
    hide CanonicalI32, Signed, IntText;
    SignedBounds(value);
    var n :| Signed(value, n);
    SignedParses(value, n);
  }

  // What is stored stands for the value that was given.
  lemma StoredExactly(p: Policy, key: string, value: string)
    requires Reviewed(p) && Fits(p, key, value)
    ensures Canonical1(p, key, value).Ok? && StoredAs(p, key, value, Canonical1(p, key, value).value)
  {
    FitsExactly(p, key, value);
    assert KindFits(key, p.entries[key]);
    hide Fits, Signed, CanonicalI32, DebugAllowed, IntegerAllowed, IncomingBindings, Reviewed, SortedAs;
    hide Selection, FeeToCore, Number, Scaled, Split, Sorted, Value, AllDigits;
    if key == "blockversion" {
      StoredSigned(p, value);
    } else {
      match p.entries[key].kind
      case IncomingSet =>
        if value != "none" {
          IncomingNames();
          StoredIncoming(p.network, value);
        }
      case NetworkSet =>
        NetworkNames();
        SortedStored(value, NETWORK_ORDER);
      case Decimal =>
        FeeToCoreExact(value);
        CoreTextScaled(Scaled(value, 3));
      case Integer(_) => StoredNumber(p, key, value);
      case _ =>
    }
  }

  lemma StoredIncoming(network: string, value: string)
    requires IncomingBindings(network, value).Ok? && value != "none"
    ensures SortedAs(value, Sorted(value, INCOMING_ORDER), INCOMING_ORDER)
  {
    IncomingNames();
    SortedStored(value, INCOMING_ORDER);
  }

  // ---------------------------------------------------------------- values together

  const AMOUNTS := {"maxmempool", "limitclustersize", "limitdescendantsize", "blockmaxweight", "blockreservedweight"}
  const FLAGS := {"privatebroadcast", "peerblockfilters", "blockfilterindex"}

  // The types that the catalogs give the settings that are compared.
  ghost predicate Typed(p: Policy) {
    && (forall k :: k in AMOUNTS && k in p.entries ==> p.entries[k].kind.Integer?)
    && (forall k :: k in FLAGS && k in p.entries ==> p.entries[k].kind.Boolean?)
  }

  ghost predicate IsRelease(version: string, release: nat) {
    release <= U32_MAX && exists rest: string :: version == Digits(release) + "." + rest
  }

  function Networks(values: Values, key: string): seq<string> {
    if key in values then Split(values[key], ',') else []
  }

  function Amount(values: Values, key: string, default: nat): nat {
    if key in values && AllDigits(values[key]) then Value(values[key]) else default
  }

  predicate On(values: Values, key: string) { key in values && values[key] == "1" }

  // What Core 22 cannot enforce, and releases without I2P cannot do.
  predicate I2pFits(p: Policy, values: Values, release: nat) {
    && ("i2p" in Networks(values, "listen") && release == 22 ==> "i2p" in Networks(values, "onlynet"))
    && ("i2p" in Networks(values, "listen") || "i2p" in Networks(values, "onlynet") ==>
          "onlynet" in p.entries && p.entries["onlynet"].supportsI2p)
  }

  // Never on the leaking release or the isolated network, and over Tor only.
  predicate BroadcastFits(p: Policy, values: Values) {
    On(values, "privatebroadcast") ==>
      p.version != "31.0" && p.network != "regtest" && ("onlynet" in values ==> "onion" in Networks(values, "onlynet"))
  }

  predicate WeightsFit(p: Policy, values: Values) {
    "blockreservedweight" in p.entries ==>
      Amount(values, "blockreservedweight", 8_000) <= Amount(values, "blockmaxweight", 4_000_000)
  }

  // The mempool, in bytes, holds forty times the topology limit; since release 31 that
  // is the limit of a cluster, and no mempool at all is possible.
  predicate MempoolFits(values: Values, release: nat) {
    "maxmempool" in values ==>
      var size := Amount(values, "maxmempool", 0);
      var limit := Amount(values, if release >= 31 then "limitclustersize" else "limitdescendantsize", 101);
      && limit <= 230_584_300_921_369
      && (limit * 40_000 <= size * 1_000_000 || (release >= 31 && size == 0))
  }

  ghost predicate Combines(p: Policy, values: Values, release: nat) {
    && I2pFits(p, values, release) && BroadcastFits(p, values) && WeightsFit(p, values) && MempoolFits(values, release)
    && (On(values, "peerblockfilters") ==> On(values, "blockfilterindex"))
  }

  lemma ReleaseRead(version: string, release: nat)
    requires IsRelease(version, release)
    ensures Major(version) == Some(release)
    ensures StartsWithMajor(version, "22") <==> release == 22
  {
    var rest :| version == Digits(release) + "." + rest;
    var text := Digits(release);
    assert '.' !in text;
    assert version == text + ['.'] + rest;
    SplitHead(text, '.', rest);
    ValueOfDigits(release);
    assert Digits(22) == "22" by { assert Digits(2) == "2"; NextDigit(2, "2", 2, "22"); }
    var mark := "22" + ".";
    if StartsWithMajor(version, "22") {
      assert version == "22" + ['.'] + version[3..] by { assert version[..3] == mark; }
      SplitHead("22", '.', version[3..]);
      ValueOfDigits(22);
    }
    if release == 22 { assert version[..3] == mark; }
  }

  // Numbers of the input and of the map it is stored as.
  ghost predicate SameAmounts(p: Policy, input: Values, out: Values) {
    && (forall k :: k in AMOUNTS ==>
          (k in out <==> k in input)
          && (k in out ==> AllDigits(input[k]) && AllDigits(out[k]) && ParseI64(out[k]) == Some(Value(input[k]))))
    && (forall k :: k in FLAGS ==>
          (k in out <==> k in input) && (k in out ==> out[k] == input[k]))
  }

  lemma StoredAmount(p: Policy, key: string, value: string)
    requires Canonical1(p, key, value).Ok? && p.entries[key].kind.Integer? && key != "blockversion"
    ensures AllDigits(value) && AllDigits(Canonical1(p, key, value).value)
    ensures ParseI64(Canonical1(p, key, value).value) == Some(Value(value))
  {
    StoredNumber(p, key, value);
    ValueOfDigits(Value(value));
    hide Canonical1;
  }

  lemma AmountsKept(p: Policy, input: Values)
    requires Typed(p) && EachAllowed(p, input)
    ensures SameAmounts(p, input, Completed(Converted(p, input)))
  {
    var out := Completed(Converted(p, input));
    forall k | k in AMOUNTS && k in input
      ensures AllDigits(input[k]) && AllDigits(out[k]) && ParseI64(out[k]) == Some(Value(input[k]))
    {
      KnownEntry(p, k, input[k]);
      StoredAmount(p, k, input[k]);
      hide Canonical1, Selects;
    }
    forall k | k in FLAGS && k in input ensures out[k] == input[k] {
      StoredFlag(p, k, input[k]);
      hide Canonical1, Selects;
    }
  }

  lemma KnownEntry(p: Policy, key: string, value: string)
    requires Canonical1(p, key, value).Ok?
    ensures key in p.entries
  {
  }

  lemma StoredFlag(p: Policy, key: string, value: string)
    requires Canonical1(p, key, value).Ok? && (key in p.entries ==> p.entries[key].kind.Boolean?) && key != "blockversion"
    ensures key in p.entries && Canonical1(p, key, value).value == value
  {
  }

  // Names of the input and of the map it is stored as; the defaults are completed.
  ghost predicate SameNames(input: Values, out: Values) {
    && (forall n :: n in Networks(out, "listen") <==> n in Networks(input, "listen"))
    && ("onlynet" in input ==> "onlynet" in out)
    && ("onlynet" in input ==> forall n :: n in Networks(out, "onlynet") <==> n in Networks(input, "onlynet"))
    && ("onlynet" !in input ==> "i2p" !in Networks(out, "onlynet"))
    && ("onlynet" !in input && "onlynet" in out ==> "onion" in Networks(out, "onlynet"))
  }

  lemma ListenNames(p: Policy, value: string)
    requires Reviewed(p) && Canonical1(p, "listen", value).Ok?
    ensures forall n :: n in Split(Canonical1(p, "listen", value).value, ',') <==> n in Split(value, ',')
  {
    FitsExactly(p, "listen", value);
    StoredExactly(p, "listen", value);
    hide Canonical1, Split, Signed;
    assert KindFits("listen", p.entries["listen"]);
  }

  lemma OnlynetNames(p: Policy, value: string)
    requires Reviewed(p) && Canonical1(p, "onlynet", value).Ok?
    ensures forall n :: n in Split(Canonical1(p, "onlynet", value).value, ',') <==> n in Split(value, ',')
  {
    FitsExactly(p, "onlynet", value);
    StoredExactly(p, "onlynet", value);
    hide Canonical1, Split, Signed;
    assert KindFits("onlynet", p.entries["onlynet"]);
  }

  lemma ListenKept(p: Policy, input: Values)
    requires Reviewed(p) && EachAllowed(p, input)
    ensures var out := Completed(Converted(p, input));
      forall n :: n in Networks(out, "listen") <==> n in Networks(input, "listen")
  {
    if "listen" in input { ListenNames(p, input["listen"]); }
    hide Canonical1, Split, Reviewed, Selects;
  }

  lemma OutgoingKept(p: Policy, input: Values)
    requires Reviewed(p) && EachAllowed(p, input) && "onlynet" in input
    ensures var out := Completed(Converted(p, input));
      "onlynet" in out && forall n :: n in Networks(out, "onlynet") <==> n in Networks(input, "onlynet")
  {
    OnlynetNames(p, input["onlynet"]);
    hide Canonical1, Split, Reviewed, Selects;
  }

  lemma OutgoingCompleted(p: Policy, input: Values)
    requires EachAllowed(p, input) && "onlynet" !in input
    ensures var out := Completed(Converted(p, input));
      && "i2p" !in Networks(out, "onlynet")
      && ("onlynet" in out ==> "onion" in Networks(out, "onlynet"))
  {
    hide Canonical1, Selects, Split;
    DefaultOutgoing();
  }

  lemma DefaultOutgoing()
    ensures "i2p" !in Split("ipv4,ipv6,onion", ',') && "onion" in Split("ipv4,ipv6,onion", ',')
  {
    hide Split;
    DefaultSplits();
    assert DEFAULT_OUTGOING == "ipv4,ipv6,onion";
  }

  lemma NamesKept(p: Policy, input: Values)
    requires Reviewed(p) && EachAllowed(p, input)
    ensures SameNames(input, Completed(Converted(p, input)))
  {
    hide Canonical1, Networks, Completed, Converted, Reviewed;
    ListenKept(p, input);
    if "onlynet" in input { OutgoingKept(p, input); } else { OutgoingCompleted(p, input); }
  }

  lemma I2pExactly(p: Policy, input: Values, out: Values, release: nat)
    requires IsRelease(p.version, release) && SameNames(input, out)
    ensures I2pAllowed(p, out) <==> I2pFits(p, input, release)
  {
    ReleaseRead(p.version, release);
    hide Split, IsRelease, StartsWithMajor;
    assert forall k, n :: k in {"listen", "onlynet"} ==> (Selects(out, k, n) <==> n in Networks(out, k));
  }

  lemma DefaultAmounts()
    ensures ParseI64("8000") == Some(8_000) && ParseI64("4000000") == Some(4_000_000) && ParseI64("101") == Some(101)
  {
    assert Digits(8) == "8" && Digits(4) == "4" && Digits(1) == "1";
    NextDigit(8, "8", 0, "80");
    NextDigit(80, "80", 0, "800");
    NextDigit(800, "800", 0, "8000");
    NextDigit(4, "4", 0, "40");
    NextDigit(40, "40", 0, "400");
    NextDigit(400, "400", 0, "4000");
    NextDigit(4000, "4000", 0, "40000");
    NextDigit(40000, "40000", 0, "400000");
    NextDigit(400000, "400000", 0, "4000000");
    NextDigit(1, "1", 0, "10");
    NextDigit(10, "10", 1, "101");
    ValueOfDigits(8000);
    ValueOfDigits(4000000);
    ValueOfDigits(101);
    hide Digits, Value;
  }

  lemma WeightsExactly(p: Policy, input: Values, out: Values)
    requires SameAmounts(p, input, out)
    ensures WeightsAllowed(p, out) <==> WeightsFit(p, input)
  {
    DefaultAmounts();
    hide ParseI64, AllDigits, Value;
    assert "blockmaxweight" in AMOUNTS && "blockreservedweight" in AMOUNTS;
  }

  lemma MempoolExactly(p: Policy, input: Values, out: Values, release: nat)
    requires SameAmounts(p, input, out) && IsRelease(p.version, release)
    ensures MempoolAllowed(p, out) <==> MempoolFits(input, release)
  {
    DefaultAmounts();
    ReleaseRead(p.version, release);
    hide ParseI64, AllDigits, Value, Major, IsRelease;
    assert "maxmempool" in AMOUNTS && "limitclustersize" in AMOUNTS && "limitdescendantsize" in AMOUNTS;
  }

  lemma BroadcastExactly(p: Policy, input: Values, out: Values)
    requires SameAmounts(p, input, out) && SameNames(input, out)
    ensures PrivateBroadcastAllowed(p, out) <==> BroadcastFits(p, input)
  {
    hide ParseI64, AllDigits, Value, Split;
    assert "privatebroadcast" in FLAGS;
    assert Selects(out, "onlynet", "onion") <==> "onion" in Networks(out, "onlynet");
  }

  lemma CombinesExactly(p: Policy, input: Values, out: Values, release: nat)
    requires SameAmounts(p, input, out) && SameNames(input, out) && IsRelease(p.version, release)
    ensures Together(p, out) <==> Combines(p, input, release)
  {
    hide IsRelease;
    I2pExactly(p, input, out, release);
    WeightsExactly(p, input, out);
    MempoolExactly(p, input, out, release);
    BroadcastExactly(p, input, out);
    assert "peerblockfilters" in FLAGS && "blockfilterindex" in FLAGS;
    hide I2pAllowed, I2pFits, WeightsAllowed, WeightsFit, MempoolAllowed, MempoolFits, BroadcastFits, SameNames;
    hide PrivateBroadcastAllowed, ParseI64, AllDigits, Value;
  }

  lemma TogetherExactly(p: Policy, input: Values, release: nat)
    requires Reviewed(p) && Typed(p) && IsRelease(p.version, release) && EachAllowed(p, input)
    ensures Together(p, Completed(Converted(p, input))) <==> Combines(p, input, release)
  {
    var out := Completed(Converted(p, input));
    NamesKept(p, input);
    AmountsKept(p, input);
    hide Completed, Converted, EachAllowed, Typed, Reviewed, IsRelease, SameNames, SameAmounts;
    CombinesExactly(p, input, out, release);
  }

  // An input is accepted exactly if each value fits its option and the values fit together.
  lemma AcceptedExactly(p: Policy, input: Values, release: nat)
    requires Reviewed(p) && Typed(p) && IsRelease(p.version, release)
    ensures Validate(p, input).Ok? <==>
      (forall k :: k in input ==> Fits(p, k, input[k])) && Combines(p, input, release)
  {
    hide Fits, Combines, Canonical1, Together, IsRelease, Reviewed, Typed, Completed, Converted;
    forall k | k in input ensures Canonical1(p, k, input[k]).Ok? <==> Fits(p, k, input[k]) {
      FitsExactly(p, k, input[k]);
    }
    if EachAllowed(p, input) { TogetherExactly(p, input, release); }
  }

  lemma SameAsStored(p: Policy, input: Values, out: Values)
    requires SameAmounts(p, input, out)
    ensures SameAmounts(p, out, out)
  {
  }

  // What is stored fits together too.
  lemma StoredCombines(p: Policy, input: Values, release: nat)
    requires Reviewed(p) && Typed(p) && IsRelease(p.version, release) && Validate(p, input).Ok?
    ensures Combines(p, Validate(p, input).value, release)
  {
    var out := Validate(p, input).value;
    hide Completed, Converted, Typed, Reviewed, IsRelease, SameAmounts, Canonical1, Together, Combines, Split;
    AmountsKept(p, input);
    SameAsStored(p, input, out);
    CombinesExactly(p, out, out, release);
  }

  lemma I2pListens(p: Policy, input: Values)
    requires Reviewed(p) && EachAllowed(p, input)
    ensures Selects(Converted(p, input), "listen", "i2p") <==> "i2p" in Networks(input, "listen")
  {
    if "listen" in input { ListenNames(p, input["listen"]); }
    hide Canonical1, Split, Reviewed;
  }

  // The map that is stored has an option for each of the input and stands for its value;
  // the outgoing defaults are added exactly for incoming I2P alone.
  lemma AcceptedIsStored(p: Policy, input: Values)
    requires Reviewed(p) && Validate(p, input).Ok?
    ensures var out := Validate(p, input).value;
      && (forall k :: k in input ==> k in out && Fits(p, k, input[k]) && StoredAs(p, k, input[k], out[k]))
      && (forall k :: k in out && k !in input ==> k == "onlynet" && out[k] == "ipv4,ipv6,onion")
      && ("onlynet" in out && "onlynet" !in input <==> "i2p" in Networks(input, "listen") && "onlynet" !in input)
  {
    hide Fits, Canonical1, Together, Reviewed, StoredAs, Selects, Networks;
    var out := Validate(p, input).value;
    I2pListens(p, input);
    forall k | k in input ensures k in out && Fits(p, k, input[k]) && StoredAs(p, k, input[k], out[k]) {
      assert Canonical1(p, k, input[k]) == Ok(out[k]);
      FitsExactly(p, k, input[k]);
      StoredExactly(p, k, input[k]);
    }
  }
}
