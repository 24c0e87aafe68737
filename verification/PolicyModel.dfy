// The managed node policy of src/policy.rs: what is accepted, how it is printed, how
// it is read back, and the two independent Python readers of the printed text.
module PolicyModel {
  import opened Common
  import opened Strings
  import opened Decimals
  import opened Fees

  type Values = map<string, string>

  datatype Kind =
    | IncomingSet | NetworkSet | TorProxy | DebugCategories | Boolean | Decimal
    | Integer(range: Option<(int, int)>)
    | Unreviewed

  // One catalog row: its type, and whether the option may be set at all.
  datatype Entry = Entry(kind: Kind, editable: bool, ignored: bool, registered: bool, supportsI2p: bool)

  // A loaded catalog for one Core version and network; `memory` is the device's
  // MemTotal in KiB, where it can be read.
  datatype Policy = Policy(version: string, network: string, entries: map<string, Entry>, memory: Option<nat>)

  datatype Refusal = Refused

  type Checked = Result<Values, Refusal>

  const I64_MAX: nat := 0x7FFF_FFFF_FFFF_FFFF
  const U32_MAX: nat := 0xFFFF_FFFF
  const TOR_ENDPOINT := "127.0.0.1:9050"
  const SAM_ENDPOINT := "127.0.0.1:7656"

  const INCOMING_ORDER := ["clearnet", "i2p", "tor"]
  const NETWORK_ORDER := ["i2p", "ipv4", "ipv6", "onion"]
  const CATEGORIES := ["net", "mempool", "mempoolrej", "validation", "rpc", "0", "1"]

  // ---------------------------------------------------------------- selections

  function Elements(parts: seq<string>): set<string> {
    set p | p in parts
  }

  // Unique, and drawn from these choices.
  predicate Selection(value: string, choices: seq<string>) {
    var parts := Split(value, ',');
    |Elements(parts)| == |parts| && forall p :: p in parts ==> p in choices
  }

  // A sorted set of names, joined again: the order of the sorted choices.
  function Chosen(order: seq<string>, parts: seq<string>): seq<string> {
    if order == [] then []
    else (if order[0] in parts then [order[0]] else []) + Chosen(order[1..], parts)
  }

  function Sorted(value: string, order: seq<string>): string {
    var chosen := Chosen(order, Split(value, ','));
    if chosen == [] then "" else Join(chosen, ',')
  }

  predicate Selects(values: Values, key: string, name: string) {
    key in values && name in Split(values[key], ',')
  }

  predicate I2pEnabled(values: Values) {
    Selects(values, "listen", "i2p") || Selects(values, "onlynet", "i2p")
  }

  function Port(network: string): Option<nat> {
    if network == "main" then Some(8333)
    else if network == "test" then Some(18333)
    else if network == "testnet4" then Some(48333)
    else if network == "signet" then Some(38333)
    else if network == "regtest" then Some(18444)
    else None
  }

  // The derived listener addresses of an incoming selection.
  function IncomingBindings(network: string, selection: string): Result<seq<string>, Refusal> {
    if selection != "none" && !Selection(selection, INCOMING_ORDER) then Err(Refused)
    else match Port(network)
      case None => Err(Refused)
      case Some(port) =>
        var selected := Split(selection, ',');
        var base :=
          if "clearnet" in selected then ["0.0.0.0:" + Digits(port), "[::]:" + Digits(port)]
          else ["127.0.0.1:" + Digits(port)];
        Ok(if "tor" in selected then base + ["127.0.0.1:" + Digits(port + 1) + "=onion"] else base)
  }

  // --------------------------------------------------------------- validation

  function ParseI64(s: string): Option<nat> {
    if s != "" && AllDigits(s) && Value(s) <= I64_MAX then Some(Value(s)) else None
  }

  // A signed 32-bit number, as Rust parses it, and its canonical text.
  function CanonicalI32(s: string): Option<string> {
    var negative := s != "" && s[0] == '-';
    var digits := if s != "" && (s[0] == '-' || s[0] == '+') then s[1..] else s;
    if digits == "" || !AllDigits(digits) then None
    else
      var n := Value(digits);
      if negative then (if n > 0x8000_0000 then None else if n == 0 then Some("0") else Some("-" + Digits(n)))
      else if n > 0x7FFF_FFFF then None else Some(Digits(n))
  }

  // Core multiplies these settings in signed 64-bit arithmetic.
  function Multiplier(key: string): nat {
    if key == "maxmempool" then 1_000_000
    else if key == "maxsendbuffer" || key == "maxreceivebuffer" then 1000
    else if key == "dbcache" || key == "maxuploadtarget" then 1_048_576
    else if key == "mempoolexpiry" then 3600
    else if key == "limitclustersize" then 4000
    else if key == "limitancestorsize" || key == "limitdescendantsize" then 1000
    else 1
  }

  predicate IntegerAllowed(p: Policy, key: string, range: Option<(int, int)>, n: nat) {
    && (range.Some? ==> range.value.0 <= n <= range.value.1)
    && (key == "dbcache" && p.memory.Some? ==> n <= p.memory.value / 1024 * 3 / 4)
    && n * Multiplier(key) <= I64_MAX
    && (key == "limitclustercount" ==> n <= 64)
    && (key == "datacarriersize" || key == "maxorphantx" || key == "bytespersigop" ==> n <= U32_MAX)
    && (key == "blockmaxweight" ==>
          if "blockreservedweight" in p.entries then 2000 <= n <= 4_000_000 else 4000 <= n <= 3_996_000)
    && (key == "blockreservedweight" ==> 2000 <= n <= 4_000_000)
  }

  predicate DebugAllowed(key: string, value: string) {
    var parts := Split(value, ',');
    var switches := exists c :: c in parts && (c == "0" || c == "1");
    && |parts| <= 5
    && Selection(value, CATEGORIES)
    && !(|parts| > 1 && switches)
    && !(key == "debugexclude" && switches)
  }

  // The value as it is stored, in Core's own units.
  function Canonical1(p: Policy, key: string, value: string): Result<string, Refusal> {
    if key !in p.entries then Err(Refused) else
    var entry := p.entries[key];
    if !entry.editable || entry.ignored || !entry.registered then Err(Refused)
    else if key == "blockversion" && p.network != "regtest" then Err(Refused)
    else if key == "acceptnonstdtxn" && p.network == "main" && value != "0" then Err(Refused)
    else if key == "blockversion" then
      match CanonicalI32(value)
      case None => Err(Refused)
      case Some(text) => Ok(text)
    else match entry.kind
      case IncomingSet =>
        if IncomingBindings(p.network, value).Err? then Err(Refused)
        else Ok(if value == "none" then value else Sorted(value, INCOMING_ORDER))
      case NetworkSet =>
        if Selection(value, NETWORK_ORDER) then Ok(Sorted(value, NETWORK_ORDER)) else Err(Refused)
      case TorProxy =>
        if value == "0" then Ok("0") else if value == "1" then Ok(TOR_ENDPOINT) else Err(Refused)
      case DebugCategories => if DebugAllowed(key, value) then Ok(value) else Err(Refused)
      case Boolean => if value == "0" || value == "1" then Ok(value) else Err(Refused)
      case Decimal =>
        (match FeeToCore(value)
         case Ok(text) => Ok(text)
         case Err(_) => Err(Refused))
      case Integer(range) =>
        (match ParseI64(value)
         case None => Err(Refused)
         case Some(n) => if IntegerAllowed(p, key, range, n) then Ok(Digits(n)) else Err(Refused))
      case Unreviewed => Err(Refused)
  }

  predicate StartsWithMajor(version: string, major: string) {
    StartsWith(version, major + ".")
  }

  function Major(version: string): Option<nat> {
    var head := Split(version, '.')[0];
    if head != "" && AllDigits(head) && Value(head) <= U32_MAX then Some(Value(head)) else None
  }

  function Lookup(out: Values, key: string, default: string): string {
    if key in out then out[key] else default
  }

  // Incoming I2P alone must not add I2P outgoing: the defaults are saved with it.
  function Completed(out: Values): Values {
    if Selects(out, "listen", "i2p") && "onlynet" !in out then out["onlynet" := "ipv4,ipv6,onion"] else out
  }

  predicate I2pAllowed(p: Policy, out: Values) {
    && !(StartsWithMajor(p.version, "22") && Selects(out, "listen", "i2p") && !Selects(out, "onlynet", "i2p"))
    && (I2pEnabled(out) ==> "onlynet" in p.entries && p.entries["onlynet"].supportsI2p)
  }

  predicate WeightsAllowed(p: Policy, out: Values) {
    "blockreservedweight" in p.entries ==>
      var reserved, maximum :=
        ParseI64(Lookup(out, "blockreservedweight", "8000")), ParseI64(Lookup(out, "blockmaxweight", "4000000"));
      reserved.Some? && maximum.Some? && maximum.value >= reserved.value
  }

  predicate PrivateBroadcastAllowed(p: Policy, out: Values) {
    Lookup(out, "privatebroadcast", "") == "1" ==>
      && p.version != "31.0" && p.network != "regtest"
      && ("onlynet" in out ==> Selects(out, "onlynet", "onion"))
  }

  predicate FiltersAllowed(out: Values) {
    Lookup(out, "peerblockfilters", "") == "1" ==> Lookup(out, "blockfilterindex", "") == "1"
  }

  // The mempool must hold the topology limit of the release.
  predicate MempoolAllowed(p: Policy, out: Values) {
    "maxmempool" in out ==>
      && ParseI64(out["maxmempool"]).Some? && Major(p.version).Some?
      && var size, cluster := ParseI64(out["maxmempool"]).value, Major(p.version).value >= 31;
         var limit := ParseI64(Lookup(out, if cluster then "limitclustersize" else "limitdescendantsize", "101"));
         && limit.Some?
         && limit.value * 40_000 <= I64_MAX
         && ((cluster && size == 0) || size * 1_000_000 >= limit.value * 40_000)
  }

  predicate Together(p: Policy, out: Values) {
    && I2pAllowed(p, out) && WeightsAllowed(p, out) && PrivateBroadcastAllowed(p, out)
    && FiltersAllowed(out) && MempoolAllowed(p, out)
  }

  predicate EachAllowed(p: Policy, input: Values) {
    forall k :: k in input ==> Canonical1(p, k, input[k]).Ok?
  }

  function Converted(p: Policy, input: Values): Values
    requires EachAllowed(p, input)
  {
    map k | k in input :: Canonical1(p, k, input[k]).value
  }

  function Validate(p: Policy, input: Values): Checked {
    if !EachAllowed(p, input) then Err(Refused)
    else
      var out := Completed(Converted(p, input));
      if Together(p, out) then Ok(out) else Err(Refused)
  }

  // ------------------------------------------------------------------ printing

  // In pieces: the verifier follows the characters of short literals only.
  const MARK := "# JustVerify "
  const HEADER := MARK + ("managed policy; " + "units are Bitcoin " + "Core native units")
  const LEGACY_TAG := MARK + "legacy-maxorphantx="
  const INCOMING_TAG := MARK + "incoming="

  predicate MultiLine(key: string) { key == "onlynet" || key == "debug" || key == "debugexclude" }

  function Assignments(key: string, parts: seq<string>): seq<string> {
    if parts == [] then [] else [key + "=" + parts[0]] + Assignments(key, parts[1..])
  }

  // The lines for one option.
  function Block(key: string, value: string): seq<string> {
    if key == "legacy_maxorphantx" then [LEGACY_TAG + value]
    else if key == "listen" then []
    else if key == "asmap" && value == "0" then ["noasmap=1"]
    else if MultiLine(key) then Assignments(key, Split(value, ','))
    else [key + "=" + value]
  }

  // The lines for these options in this order.
  function Blocks(values: Values, keys: seq<string>): seq<string>
    requires forall k :: k in keys ==> k in values
  {
    if keys == [] then [] else Block(keys[0], values[keys[0]]) + Blocks(values, keys[1..])
  }

  function OnionLines(values: Values): seq<string> {
    if "onlynet" in values && !Selects(values, "onlynet", "onion") then ["noonion=1"] else []
  }

  function Flag(b: bool): string { if b then "1" else "0" }

  function I2pLines(values: Values): seq<string> {
    if I2pEnabled(values) then
      ["i2psam=" + SAM_ENDPOINT, "i2pacceptincoming=" + Flag(Selects(values, "listen", "i2p"))]
    else []
  }

  function ListenLines(values: Values, network: string, bindings: seq<string>): seq<string> {
    if "listen" in values then
      [INCOMING_TAG + values["listen"], "[" + network + "]", "nobind=1"] + Assignments("bind", bindings)
    else []
  }

  // The keys of a map, each once: the order in which the ordered map is walked.
  ghost predicate Listing(keys: seq<string>, values: Values) {
    && (forall i, j :: 0 <= i < j < |keys| ==> keys[i] != keys[j])
    && (forall k :: k in keys <==> k in values)
  }

  function ListenBindings(values: Values, network: string): Result<seq<string>, Refusal> {
    if "listen" in values then IncomingBindings(network, values["listen"]) else Ok([])
  }

  function RenderLines(values: Values, network: string, keys: seq<string>): Result<seq<string>, Refusal>
    requires forall k :: k in keys ==> k in values
  {
    match ListenBindings(values, network)
    case Err(e) => Err(e)
    case Ok(bindings) =>
      Ok([HEADER] + Blocks(values, keys) + OnionLines(values) + I2pLines(values)
         + ListenLines(values, network, bindings))
  }

  // ------------------------------------------------------------------- parsing

  // What the strict parser has collected.
  datatype Parsed = Parsed(out: Values, bindings: seq<string>, cleared: bool, section: bool)

  const NOTHING := Parsed(map[], [], false, false)

  type Reading = Result<Parsed, Refusal>

  function ParseOnce(st: Parsed, key: string, value: string): Reading {
    if key in st.out then Err(Refused) else Ok(st.(out := st.out[key := value]))
  }

  function ParseLine(st: Parsed, line: string, network: string): Reading {
    if StartsWith(line, LEGACY_TAG) then ParseOnce(st, "legacy_maxorphantx", line[|LEGACY_TAG|..])
    else if StartsWith(line, INCOMING_TAG) then ParseOnce(st, "listen", line[|INCOMING_TAG|..])
    else if line == "" || line[0] == '#' then Ok(st)
    else if line == "[" + network + "]" && !st.section then Ok(st.(section := true))
    else match SplitOnce(line, '=')
      case None => Err(Refused)
      case Some((k, v)) =>
        if st.section != (k == "bind" || k == "nobind") then Err(Refused)
        else if k == "noasmap" then (if v != "1" then Err(Refused) else ParseOnce(st, "asmap", "0"))
        else if k == "bind" then Ok(st.(bindings := st.bindings + [v]))
        else if k == "nobind" then (if v != "1" || st.cleared then Err(Refused) else Ok(st.(cleared := true)))
        else if MultiLine(k) then
          Ok(st.(out := st.out[k := if k in st.out then st.out[k] + "," + v else v]))
        else ParseOnce(st, k, v)
  }

  function ParseLines(st: Parsed, lines: seq<string>, network: string): Reading
    decreases |lines|
  {
    if lines == [] then Ok(st)
    else match ParseLine(st, lines[0], network)
      case Err(e) => Err(e)
      case Ok(next) => ParseLines(next, lines[1..], network)
  }

  // The derived lines must be exactly the ones the reviewed selection implies.
  function Derived(st: Parsed, network: string): Checked {
    if "listen" in st.out && (!st.cleared || Ok(st.bindings) != IncomingBindings(network, st.out["listen"])) then
      Err(Refused)
    else if "listen" !in st.out && (st.cleared || st.bindings != []) then Err(Refused)
    else
      var noonion := Removed(st.out, "noonion");
      if "noonion" in st.out
         && (st.out["noonion"] != "1" || "onlynet" !in noonion || Selects(noonion, "onlynet", "onion")) then
        Err(Refused)
      else
        var out := Removed(Removed(noonion, "i2psam"), "i2pacceptincoming");
        var sam, accept := Find(noonion, "i2psam"), Find(noonion, "i2pacceptincoming");
        if I2pEnabled(out) then
          if sam != Some(SAM_ENDPOINT) || accept != Some(Flag(Selects(out, "listen", "i2p"))) then Err(Refused)
          else Ok(out)
        else if sam.Some? || accept.Some? then Err(Refused)
        else Ok(out)
  }

  function Removed(m: Values, key: string): Values { m - {key} }

  function Find(m: Values, key: string): Option<string> {
    if key in m then Some(m[key]) else None
  }

  function Parse(text: string, network: string): Checked {
    match ParseLines(NOTHING, Lines(text), network)
    case Err(e) => Err(e)
    case Ok(st) => Derived(st, network)
  }

  // ----------------------------------------------------------- the Python readers

  // What follows this prefix, on the lines that start with it.
  function Tagged(lines: seq<string>, prefix: string): seq<string> {
    if lines == [] then []
    else (if StartsWith(lines[0], prefix) then [lines[0][|prefix|..]] else []) + Tagged(lines[1..], prefix)
  }

  // The launcher's view of a policy: incoming and outgoing networks, and the proxy.
  datatype Announced = Announced(incoming: set<string>, outgoing: set<string>, proxied: bool)

  predicate AnnouncementConflict(line: string) {
    StartsWith(line, "discover=") || StartsWith(line, "externalip=")
    || StartsWith(line, "nodiscover=") || StartsWith(line, "noexternalip=")
  }

  predicate IncomingReadable(value: string) {
    var parts := Split(value, ',');
    |Elements(parts)| == |parts|
    && (parts == ["none"] || forall p :: p in parts ==> p == "clearnet" || p == "tor" || p == "i2p")
  }

  // `selection` of scripts/core_service.py on the lines it reads.
  function ReadSelection(lines: seq<string>, network: string): Result<Announced, Refusal> {
    var incoming := Tagged(lines, INCOMING_TAG);
    var outgoing, proxy := Tagged(lines, "onlynet="), Tagged(lines, "proxy=");
    if |incoming| > 1 || exists v :: v in incoming && !IncomingReadable(v) then Err(Refused)
    else if exists l :: l in lines && AnnouncementConflict(l) then Err(Refused)
    else if |Elements(outgoing)| != |outgoing|
            || exists v :: v in outgoing && v !in NETWORK_ORDER then Err(Refused)
    else if |proxy| > 1 || (|proxy| == 1 && proxy[0] != "0" && proxy[0] != TOR_ENDPOINT) then Err(Refused)
    else
      Ok(Announced(
        if incoming == [] then (if network == "regtest" then {"tor"} else {"clearnet", "tor"})
        else Elements(Split(incoming[0], ',')),
        if outgoing == [] then {"ipv4", "ipv6", "onion"} else Elements(outgoing),
        proxy != [] && proxy[0] != "0"))
  }

  // The policy part of `enabled` of scripts/i2p_service.py.
  function ReadI2p(lines: seq<string>): Result<bool, Refusal> {
    var outgoing := "i2p" in Tagged(lines, "onlynet=");
    var incoming := exists v :: v in Tagged(lines, INCOMING_TAG) && "i2p" in Split(v, ',');
    var sam, accept := Tagged(lines, "i2psam="), Tagged(lines, "i2pacceptincoming=");
    if incoming || outgoing then
      if sam != [SAM_ENDPOINT] || accept != [Flag(incoming)] then Err(Refused) else Ok(true)
    else if sam != [] || accept != [] then Err(Refused)
    else Ok(false)
  }
}
