// The text editor of the policy: the text it shows for a managed file, and what it
// makes of a text.
module PolicyEditor {
  import opened Common
  import opened Strings
  import opened Decimals
  import opened Fees
  import opened PolicyModel
  import opened PolicyRoundTrip
  import opened PolicySaved

  const LIMIT := 8192

  // Options with a control of their own.
  predicate Protected(key: string) {
    key == "listen" || key == "onlynet" || key == "proxy" || key == "legacy_maxorphantx"
  }

  predicate Repeats(key: string) { key == "debug" || key == "debugexclude" }

  // ---------------------------------------------------------------- the shown text

  // In pieces: the verifier follows the characters of short literals only.
  const NOTE1 := "# " + "Bitcoin Core native units: " + "fees are BTC/kvB."
  const NOTE2 := "# " + "Network, RPC and data " + "paths are managed " + "separately."

  function EditorBlock(key: string, value: string): seq<string> {
    if Protected(key) then []
    else if Repeats(key) then Assignments(key, Split(value, ','))
    else [key + "=" + value]
  }

  function EditorBlocks(values: Values, keys: seq<string>): seq<string>
    requires forall k :: k in keys ==> k in values
  {
    if keys == [] then [] else EditorBlock(keys[0], values[keys[0]]) + EditorBlocks(values, keys[1..])
  }

  function ConfigLines(values: Values, keys: seq<string>): seq<string>
    requires forall k :: k in keys ==> k in values
  {
    [NOTE1, NOTE2] + EditorBlocks(values, keys)
  }

  // ----------------------------------------------------------------- an edited text

  function Utf8Width(c: char): nat {
    if c < '\U{80}' then 1 else if c < '\U{800}' then 2 else if c < '\U{10000}' then 3 else 4
  }

  function Utf8Length(s: string): nat {
    if s == "" then 0 else Utf8Width(s[0]) + Utf8Length(s[1..])
  }

  predicate Control(c: char) { c < ' ' || '\U{7F}' <= c <= '\U{9F}' }

  predicate TextAllowed(text: string) {
    Utf8Length(text) <= LIMIT && forall c :: c in text && Control(c) ==> c == '\n' || c == '\r' || c == '\t'
  }

  datatype Edit = Edit(values: Values, seen: set<string>)

  function EditLine(p: Policy, st: Edit, raw: string): Result<Edit, Refusal> {
    var line := Trim(Split(raw, '#')[0]);
    if line == "" then Ok(st)
    else match SplitOnce(line, '=')
      case None => Err(Refused)
      case Some(pair) =>
        var key, native := Trim(pair.0), Trim(pair.1);
        if Protected(key) || key !in p.entries || (key in st.seen && !Repeats(key)) then Err(Refused)
        else
          var value := if p.entries[key].kind.Decimal? then NativeFeeToInput(native) else Ok(native);
          match value
          case Err(_) => Err(Refused)
          case Ok(v) =>
            var merged := if Repeats(key) && key in st.values then st.values[key] + "," + v else v;
            Ok(Edit(st.values[key := merged], st.seen + {key}))
  }

  function EditLines(p: Policy, st: Edit, lines: seq<string>): Result<Edit, Refusal>
    decreases |lines|
  {
    if lines == [] then Ok(st)
    else match EditLine(p, st, lines[0])
      case Err(e) => Err(e)
      case Ok(next) => EditLines(p, next, lines[1..])
  }

  function Retained(values: Values): Values {
    map k | k in values && Protected(k) :: values[k]
  }

  // The values an edited text stands for, beside the ones with their own controls.
  function ConfigValues(p: Policy, saved: string, text: string): Checked {
    if !TextAllowed(text) then Err(Refused)
    else match Current(p, saved)
      case Err(e) => Err(e)
      case Ok(values) =>
        match EditLines(p, Edit(Retained(values), {}), Lines(text))
        case Err(e) => Err(e)
        case Ok(edit) => if Validate(p, edit.values).Err? then Err(Refused) else Ok(edit.values)
  }

  // -------------------------------------------------------------------- one line

  lemma {:induction false} EditConcat(p: Policy, st: Edit, a: seq<string>, b: seq<string>)
    ensures EditLines(p, st, a + b) ==
      match EditLines(p, st, a)
      case Err(e) => Err(e)
      case Ok(next) => EditLines(p, next, b)
    decreases |a|
  {
    hide EditLine;
    if a == [] {
      assert a + b == b;
    } else {
      assert (a + b)[1..] == a[1..] + b;
      match EditLine(p, st, a[0])
      case Err(_) =>
      case Ok(next) => EditConcat(p, next, a[1..], b);
    }
  }

  lemma EditStep(p: Policy, st: Edit, line: string, rest: seq<string>, next: Edit)
    requires EditLine(p, st, line) == Ok(next)
    ensures EditLines(p, st, [line] + rest) == EditLines(p, next, rest)
  {
    hide EditLine;
    assert ([line] + rest)[1..] == rest;
  }

  lemma BareLine(key: string, value: string)
    requires Bare(key) && Bare(value) && '=' !in key
    ensures var line := key + "=" + value;
      && Split(line, '#') == [line] && Trim(line) == line && line != ""
      && SplitOnce(line, '=') == Some((key, value)) && Trim(key) == key && Trim(value) == value
  {
    var line := key + "=" + value;
    assert line == key + ['='] + value;
    SplitSingle(line, '#');
    SplitOnceAt(key, '=', value);
    TrimNothing(line);
    TrimNothing(key);
    TrimNothing(value);
  }

  // A line the editor shows is read as the option in the units of the form.
  lemma LineEdited(p: Policy, st: Edit, key: string, value: string, shown: string)
    requires Bare(key) && Bare(value) && '=' !in key && key in p.entries && !Protected(key)
    requires key in st.seen ==> Repeats(key)
    requires p.entries[key].kind.Decimal? ==> NativeFeeToInput(value) == Ok(shown)
    requires !p.entries[key].kind.Decimal? ==> shown == value
    ensures EditLine(p, st, key + "=" + value) ==
      Ok(Edit(st.values[key := if Repeats(key) && key in st.values then st.values[key] + "," + shown else shown],
              st.seen + {key}))
  {
    BareLine(key, value);
    hide Split, Trim, SplitOnce;
  }

  // --------------------------------------------------------------- one shown option

  lemma {:induction false} MoreEdited(p: Policy, st: Edit, key: string, parts: seq<string>)
    requires Reviewed(p) && key in p.entries && Repeats(key) && parts != [] && BareAll(parts)
    requires key in st.values && key in st.seen
    ensures EditLines(p, st, Assignments(key, parts))
         == Ok(Edit(st.values[key := Appended(st.values[key], parts)], st.seen))
    decreases |parts|
  {
    assert parts[0] in parts && forall x :: x in parts[1..] ==> x in parts;
    LineEdited(p, st, key, parts[0], parts[0]);
    var next := Edit(st.values[key := st.values[key] + "," + parts[0]], st.seen);
    assert st.seen + {key} == st.seen;
    hide EditLine;
    EditStep(p, st, key + "=" + parts[0], Assignments(key, parts[1..]), next);
    if |parts| > 1 {
      MoreEdited(p, next, key, parts[1..]);
      AppendedStep(st.values[key], parts);
      assert st.values[key := Appended(st.values[key], parts)]
          == next.values[key := Appended(next.values[key], parts[1..])];
    } else {
      assert Assignments(key, parts[1..]) == [];
    }
  }

  lemma SplitBare(value: string)
    requires Bare(value)
    ensures BareAll(Split(value, ',')) && Bare(Split(value, ',')[0])
  {
    var parts := Split(value, ',');
    forall x | x in parts ensures Bare(x) { SplitParts(value, ',', x); }
    assert parts[0] in parts;
  }

  lemma FirstEdited(p: Policy, st: Edit, key: string, value: string)
    requires Reviewed(p) && key in p.entries && Repeats(key) && Bare(value)
    requires key !in st.values && key !in st.seen
    ensures EditLine(p, st, key + "=" + value) == Ok(Edit(st.values[key := value], st.seen + {key}))
  {
    LineEdited(p, st, key, value, value);
  }

  lemma ListEdited(p: Policy, st: Edit, key: string, value: string)
    requires Reviewed(p) && key in p.entries && Repeats(key) && Bare(value)
    requires key !in st.values && key !in st.seen
    ensures EditLines(p, st, Assignments(key, Split(value, ',')))
         == Ok(Edit(st.values[key := value], st.seen + {key}))
  {
    var parts := Split(value, ',');
    JoinOfSplit(value, ',');
    SplitBare(value);
    FirstEdited(p, st, key, parts[0]);
    var next := Edit(st.values[key := parts[0]], st.seen + {key});
    AssignmentsFirst(key, parts);
    hide EditLine, EditLines, Assignments, Split, Reviewed, Bare, Repeats;
    EditStep(p, st, key + "=" + parts[0], Assignments(key, parts[1..]), next);
    if |parts| > 1 {
      RestEdited(p, next, key, parts);
      OverwriteKey(st.values, key, parts[0], value);
    } else {
      EditNothing(p, next);
    }
  }

  lemma AssignmentsFirst(key: string, parts: seq<string>)
    requires parts != []
    ensures Assignments(key, parts) == [key + "=" + parts[0]] + Assignments(key, parts[1..])
    ensures |parts| == 1 ==> Assignments(key, parts[1..]) == []
  {
  }

  lemma EditNothing(p: Policy, st: Edit)
    ensures EditLines(p, st, []) == Ok(st)
  {
  }

  lemma OverwriteKey(m: Values, key: string, a: string, b: string)
    ensures m[key := a][key := b] == m[key := b]
  {
  }

  lemma RestEdited(p: Policy, st: Edit, key: string, parts: seq<string>)
    requires Reviewed(p) && key in p.entries && Repeats(key) && |parts| > 1 && BareAll(parts)
    requires key in st.values && key in st.seen && st.values[key] == parts[0]
    ensures EditLines(p, st, Assignments(key, parts[1..]))
         == Ok(Edit(st.values[key := Join(parts, ',')], st.seen))
  {
    hide EditLines, Assignments, Reviewed, Bare, Repeats;
    assert forall x :: x in parts[1..] ==> x in parts;
    MoreEdited(p, st, key, parts[1..]);
    assert Appended(parts[0], parts[1..]) == Join(parts, ',');
  }

  lemma BlockEdited(p: Policy, st: Edit, key: string, stored: string)
    requires Reviewed(p) && Stable(p, key, stored) && !Protected(key)
    requires key !in st.values && key !in st.seen
    ensures EditLines(p, st, EditorBlock(key, stored))
         == Ok(Edit(st.values[key := Shown(p.entries[key], stored).value], st.seen + {key}))
  {
    hide Canonical1;
    if Repeats(key) {
      ListEdited(p, st, key, stored);
    } else {
      var shown := Shown(p.entries[key], stored).value;
      LineEdited(p, st, key, stored, shown);
      hide EditLine;
      EditStep(p, st, key + "=" + stored, [], Edit(st.values[key := shown], st.seen + {key}));
      assert [key + "=" + stored] + [] == [key + "=" + stored];
    }
  }

  // ------------------------------------------------------------ all shown options

  function ShownOf(p: Policy, out: Values, keys: seq<string>): Values
    requires EachShown(p, out)
  {
    map k | k in out && k in keys && !Protected(k) :: Shown(p.entries[k], out[k]).value
  }

  function SeenOf(keys: seq<string>): set<string> {
    set k | k in keys && !Protected(k)
  }

  lemma ShownHead(p: Policy, out: Values, keys: seq<string>)
    requires EachShown(p, out) && keys != [] && Distinct(keys) && keys[0] in out
    ensures keys[0] !in ShownOf(p, out, keys[1..])
    ensures ShownOf(p, out, keys) ==
      if Protected(keys[0]) then ShownOf(p, out, keys[1..])
      else ShownOf(p, out, keys[1..])[keys[0] := Shown(p.entries[keys[0]], out[keys[0]]).value]
    ensures SeenOf(keys) == if Protected(keys[0]) then SeenOf(keys[1..]) else {keys[0]} + SeenOf(keys[1..])
  {
    hide Shown, Protected;
    assert keys == [keys[0]] + keys[1..];
  }

  lemma {:induction false} BlocksEdited(p: Policy, st: Edit, out: Values, keys: seq<string>)
    requires Reviewed(p) && AllStable(p, out) && EachShown(p, out)
    requires Distinct(keys) && forall k :: k in keys ==> k in out
    requires forall k :: k in keys && !Protected(k) ==> k !in st.values && k !in st.seen
    ensures EditLines(p, st, EditorBlocks(out, keys))
         == Ok(Edit(st.values + ShownOf(p, out, keys), st.seen + SeenOf(keys)))
    decreases |keys|
  {
    hide EditLine, Stable, Shown, Reviewed, Protected;
    if keys == [] {
      assert st.values + ShownOf(p, out, keys) == st.values && st.seen + SeenOf(keys) == st.seen;
    } else {
      var key, rest := keys[0], keys[1..];
      assert key in keys && key !in rest && forall k :: k in rest ==> k in keys;
      ShownHead(p, out, keys);
      EditConcat(p, st, EditorBlock(key, out[key]), EditorBlocks(out, rest));
      if Protected(key) {
        assert EditLines(p, st, EditorBlock(key, out[key])) == Ok(st);
        BlocksEdited(p, st, out, rest);
      } else {
        var shown := Shown(p.entries[key], out[key]).value;
        var next := Edit(st.values[key := shown], st.seen + {key});
        hide EditorBlock;
        AddKey(st.values, ShownOf(p, out, rest), key, shown);
        BlockEdited(p, st, key, out[key]);
        BlocksEdited(p, next, out, rest);
        assert next.seen + SeenOf(rest) == st.seen + SeenOf(keys);
      }
    }
  }

  lemma NoteEdited(p: Policy, st: Edit, note: string)
    requires note != "" && note[0] == '#'
    ensures EditLine(p, st, note) == Ok(st)
  {
    assert Split(note, '#')[0] == "";
  }

  lemma NotesEdited(p: Policy, st: Edit, rest: seq<string>)
    ensures EditLines(p, st, [NOTE1, NOTE2] + rest) == EditLines(p, st, rest)
  {
    assert NOTE1[0] == "# "[0] == '#' && NOTE2[0] == "# "[0] == '#';
    hide EditLine;
    NoteEdited(p, st, NOTE1);
    NoteEdited(p, st, NOTE2);
    EditStep(p, st, NOTE1, [NOTE2] + rest, st);
    EditStep(p, st, NOTE2, rest, st);
    assert [NOTE1, NOTE2] + rest == [NOTE1] + ([NOTE2] + rest);
  }

  // ------------------------------------------------------------------ plain text

  lemma {:induction false} EditorPlain(p: Policy, out: Values, keys: seq<string>)
    requires Reviewed(p) && AllStable(p, out) && forall k :: k in keys ==> k in out
    ensures PlainLines(EditorBlocks(out, keys))
  {
    if keys != [] {
      var key := keys[0];
      assert key in keys && forall k :: k in keys[1..] ==> k in keys;
      assert Stable(p, key, out[key]);
      SplitPlain(out[key]);
      AssignmentsPlain(key, Split(out[key], ','));
      assert PlainLines(EditorBlock(key, out[key]));
      EditorPlain(p, out, keys[1..]);
    }
  }

  lemma PlainConcat(a: string, b: string)
    requires Plain(a) && Plain(b)
    ensures Plain(a + b)
  {
  }

  lemma NotesPlain()
    ensures Plain(NOTE1) && Plain(NOTE2)
  {
    FirstNotePlain();
    SecondNotePlain();
  }

  lemma FirstNotePlain()
    ensures Plain(NOTE1)
  {
    assert Plain("# ") && Plain("Bitcoin Core native units: ") && Plain("fees are BTC/kvB.");
    hide Plain;
    PlainConcat("# ", "Bitcoin Core native units: ");
    PlainConcat("# " + "Bitcoin Core native units: ", "fees are BTC/kvB.");
  }

  lemma SecondNotePlain()
    ensures Plain(NOTE2)
  {
    assert Plain("# ") && Plain("Network, RPC and data ") && Plain("paths are managed ") && Plain("separately.");
    hide Plain;
    PlainConcat("# ", "Network, RPC and data ");
    PlainConcat("# " + "Network, RPC and data ", "paths are managed ");
    PlainConcat("# " + "Network, RPC and data " + "paths are managed ", "separately.");
  }

  lemma {:induction false} TextChars(lines: seq<string>)
    requires PlainLines(lines)
    ensures forall c :: c in Text(lines) ==> c == '\n' || ' ' <= c <= '~'
  {
    if lines != [] {
      assert lines[0] in lines && forall l :: l in lines[1..] ==> l in lines;
      TextChars(lines[1..]);
    }
  }

  lemma {:induction false} AsciiLength(s: string)
    requires forall c :: c in s ==> c < '\U{80}'
    ensures Utf8Length(s) == |s|
  {
    if s != "" {
      assert s[0] in s && forall c :: c in s[1..] ==> c in s;
      AsciiLength(s[1..]);
    }
  }

  lemma PlainAllowed(lines: seq<string>)
    requires PlainLines(lines)
    ensures TextAllowed(Text(lines)) <==> |Text(lines)| <= LIMIT
  {
    TextChars(lines);
    AsciiLength(Text(lines));
  }

  // ------------------------------------------------------------------ the theorem

  lemma UneditedLines(p: Policy, values: Values, out: Values, keys: seq<string>)
    requires Reviewed(p) && AllStable(p, out) && EachShown(p, out) && Listing(keys, out)
    ensures PlainLines(ConfigLines(out, keys))
    ensures var edit := EditLines(p, Edit(Retained(values), {}), Lines(Text(ConfigLines(out, keys))));
      edit.Ok? && edit.value.values == Retained(values) + ShownOf(p, out, keys)
  {
    EditorPlain(p, out, keys);
    NotesPlain();
    LinesOfText(ConfigLines(out, keys));
    hide EditLine, Stable, Plain, NOTE1, NOTE2, Text, Lines;
    NotesEdited(p, Edit(Retained(values), {}), EditorBlocks(out, keys));
    BlocksEdited(p, Edit(Retained(values), {}), out, keys);
  }

  lemma RetainedStands(p: Policy, values: Values, out: Values, key: string)
    requires StandsFor(p, Effective(p, values), out) && key in Retained(values)
    ensures key in out && Canonical1(p, key, Retained(values)[key]) == Ok(out[key])
  {
    hide Canonical1;
    assert Protected(key) && key in Effective(p, values);
  }

  lemma ShownStands(p: Policy, out: Values, keys: seq<string>, key: string)
    requires AllStable(p, out) && EachShown(p, out) && key in ShownOf(p, out, keys)
    ensures key in out && Canonical1(p, key, ShownOf(p, out, keys)[key]) == Ok(out[key])
  {
    hide Canonical1, Shown;
    assert Stable(p, key, out[key]);
  }

  lemma MissingStands(p: Policy, values: Values, out: Values, keys: seq<string>, key: string)
    requires EachShown(p, out) && Listing(keys, out) && StandsFor(p, Effective(p, values), out)
    requires key in out && key !in Retained(values) && key !in ShownOf(p, out, keys)
    ensures key == "onlynet" && out[key] == DEFAULT_OUTGOING && Selects(out, "listen", "i2p")
  {
    hide Canonical1, Shown, Selects, DEFAULT_OUTGOING;
    assert Protected(key);
    EffectiveKeys(p, values, key);
  }

  lemma EditedStandsFor(p: Policy, values: Values, out: Values, keys: seq<string>)
    requires Reviewed(p) && AllStable(p, out) && EachShown(p, out) && Listing(keys, out)
    requires StandsFor(p, Effective(p, values), out)
    ensures StandsFor(p, Retained(values) + ShownOf(p, out, keys), out)
  {
    var kept, shown := Retained(values), ShownOf(p, out, keys);
    hide Canonical1, Effective, Reviewed, AllStable, EachShown, Listing, Retained, ShownOf, Selects;
    forall k | k in kept + shown ensures k in out && Canonical1(p, k, (kept + shown)[k]) == Ok(out[k]) {
      if k in shown { ShownStands(p, out, keys, k); } else { RetainedStands(p, values, out, k); }
    }
    forall k | k in out && k !in kept + shown
      ensures k == "onlynet" && out[k] == DEFAULT_OUTGOING && Selects(out, "listen", "i2p")
    {
      MissingStands(p, values, out, keys, k);
    }
  }

  lemma EffectiveKeys(p: Policy, values: Values, key: string)
    ensures key in Effective(p, values) ==> key in values
  {
  }

  // The text shown for a managed file, fed back unchanged, stands for the same policy;
  // whatever the catalog, it is accepted exactly when it fits the editor's limit.
  lemma UneditedTextKeepsPolicy(p: Policy, saved: string, keys: seq<string>)
    requires Reviewed(p) && CurrentEffective(p, saved).Ok?
    requires Listing(keys, CurrentEffective(p, saved).value)
    ensures var out := CurrentEffective(p, saved).value;
      var text := Text(ConfigLines(out, keys));
      && (ConfigValues(p, saved, text).Ok? <==> |text| <= LIMIT)
      && (|text| <= LIMIT ==> Validate(p, ConfigValues(p, saved, text).value) == Ok(out))
  {
    var values, out := Current(p, saved).value, CurrentEffective(p, saved).value;
    ValidatedIsStable(p, Effective(p, values));
    ValidatedStandsFor(p, Effective(p, values));
    ShownValidates(p, Effective(p, values));
    UneditedLines(p, values, out, keys);
    PlainAllowed(ConfigLines(out, keys));
    EditedStandsFor(p, values, out, keys);
    hide Validate, EditLines, Retained, ShownOf, Current, CurrentEffective, TextAllowed;
    StandsForValidates(p, Retained(values) + ShownOf(p, out, keys), out);
  }

  // -------------------------------------------------------------------- the limit

  // As the shipped catalogs are: at most 60 options, with names of at most 32
  // characters.
  predicate Compact(p: Policy) {
    |p.entries| <= 60 && forall k :: k in p.entries ==> |k| <= 32
  }

  lemma PowersOfTen()
    ensures Pow10(10) == 10_000_000_000 && Pow10(12) == 1_000_000_000_000
    ensures Pow10(20) == 100_000_000_000_000_000_000
  {
    assert Pow10(5) == 100_000 && Pow10(2) == 100;
    Pow10Add(5, 5);
    Pow10Add(10, 2);
    Pow10Add(10, 10);
  }

  lemma FeeShort(units: nat)
    requires units <= U64_MAX
    ensures |CoreText(units)| <= 21
  {
    PowersOfTen();
    DigitsShort(units / 100_000_000, 12);
  }

  lemma SignedShort(text: string)
    requires CanonicalI32(text).Some?
    ensures |CanonicalI32(text).value| <= 11
  {
    PowersOfTen();
    var signed := text != "" && (text[0] == '-' || text[0] == '+');
    DigitsShort(Value(if signed then text[1..] else text), 10);
    assert |"0"| == 1;
    hide Digits, Value, Pow10;
  }

  lemma NumberShort(text: string)
    requires ParseI64(text).Some?
    ensures |Digits(ParseI64(text).value)| <= 20
  {
    PowersOfTen();
    DigitsShort(ParseI64(text).value, 20);
  }

  lemma StoredShort(p: Policy, key: string, stored: string)
    requires Reviewed(p) && Stable(p, key, stored) && !Protected(key) && !Repeats(key)
    ensures |stored| <= 21
  {
    var shown := Shown(p.entries[key], stored).value;
    assert Canonical1(p, key, shown) == Ok(stored);
    if key == "blockversion" {
      SignedShort(shown);
    } else if p.entries[key].kind.Decimal? {
      FeeToCoreExact(shown);
      FeeShort(Scaled(shown, 3));
    } else if p.entries[key].kind.Integer? {
      NumberShort(shown);
    }
    hide FeeToCore, CanonicalI32, ParseI64, Digits;
  }

  lemma CategoryShort(name: string)
    requires name in CATEGORIES
    ensures |name| <= 10
  {
  }

  lemma StoredList(p: Policy, key: string, stored: string)
    requires Reviewed(p) && Stable(p, key, stored) && Repeats(key)
    ensures |Split(stored, ',')| <= 5 && forall x :: x in Split(stored, ',') ==> |x| <= 10
  {
    assert DebugAllowed(key, stored);
    hide Split;
    forall x | x in Split(stored, ',') ensures |x| <= 10 { CategoryShort(x); }
  }

  lemma {:induction false} ListLength(key: string, parts: seq<string>)
    requires |key| <= 12 && forall x :: x in parts ==> |x| <= 10
    ensures |Text(Assignments(key, parts))| <= 24 * |parts|
  {
    if parts != [] {
      assert parts[0] in parts && forall x :: x in parts[1..] ==> x in parts;
      ListLength(key, parts[1..]);
    }
  }

  lemma BlockLength(p: Policy, key: string, stored: string)
    requires Reviewed(p) && Compact(p) && Stable(p, key, stored)
    ensures |Text(EditorBlock(key, stored))| <= 128
  {
    if !Protected(key) && Repeats(key) {
      StoredList(p, key, stored);
      assert |"debug"| == 5 && |"debugexclude"| == 12;
      ListLength(key, Split(stored, ','));
    } else if !Protected(key) {
      StoredShort(p, key, stored);
      assert |key| <= 32;
      assert Text([]) == "";
    }
  }

  lemma {:induction false} BlocksLength(p: Policy, out: Values, keys: seq<string>)
    requires Reviewed(p) && Compact(p) && AllStable(p, out) && forall k :: k in keys ==> k in out
    ensures |Text(EditorBlocks(out, keys))| <= 128 * |keys|
  {
    if keys != [] {
      hide EditorBlock, Stable, Reviewed, Compact;
      assert keys[0] in keys && forall k :: k in keys[1..] ==> k in keys;
      BlockLength(p, keys[0], out[keys[0]]);
      BlocksLength(p, out, keys[1..]);
      TextConcat(EditorBlock(keys[0], out[keys[0]]), EditorBlocks(out, keys[1..]));
    }
  }

  lemma KeysCounted(p: Policy, out: Values, keys: seq<string>)
    requires AllStable(p, out) && Listing(keys, out)
    ensures |keys| <= |p.entries|
  {
    ElementsOfDistinct(keys);
    forall k | k in Elements(keys) ensures k in p.entries.Keys { assert Stable(p, k, out[k]); }
    assert p.entries.Keys == Elements(keys) + (p.entries.Keys - Elements(keys));
  }

  lemma NotesLength()
    ensures |Text([NOTE1, NOTE2])| <= 128
  {
    var notes := [NOTE1, NOTE2];
    assert notes[1..] == [NOTE2] && Text([NOTE2][1..]) == "";
    assert |Text([NOTE2])| == |NOTE2| + 1;
  }

  // With such a catalog the editor's text always fits.
  lemma UneditedTextFits(p: Policy, out: Values, keys: seq<string>)
    requires Reviewed(p) && Compact(p) && AllStable(p, out) && Listing(keys, out)
    ensures |Text(ConfigLines(out, keys))| <= LIMIT
  {
    hide Stable, Reviewed, NOTE1, NOTE2, Text, EditorBlocks;
    KeysCounted(p, out, keys);
    BlocksLength(p, out, keys);
    NotesLength();
    TextConcat([NOTE1, NOTE2], EditorBlocks(out, keys));
  }

  // The editor's text for any readable managed file, fed back unchanged, is accepted
  // and validates to the current effective values.
  lemma UneditedTextIsAccepted(p: Policy, saved: string, keys: seq<string>)
    requires Reviewed(p) && Compact(p) && CurrentEffective(p, saved).Ok?
    requires Listing(keys, CurrentEffective(p, saved).value)
    ensures var out := CurrentEffective(p, saved).value;
      var edited := ConfigValues(p, saved, Text(ConfigLines(out, keys)));
      edited.Ok? && Validate(p, edited.value) == Ok(out)
  {
    var values, out := Current(p, saved).value, CurrentEffective(p, saved).value;
    ValidatedIsStable(p, Effective(p, values));
    UneditedTextFits(p, out, keys);
    UneditedTextKeepsPolicy(p, saved, keys);
    hide ConfigValues, ConfigLines, Text, CurrentEffective, Current, Reviewed, Validate;
  }
}
