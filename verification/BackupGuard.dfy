// The root boundary of a restore: exact configurations, older layouts brought up to the
// installed one, and nothing else taken from an archive.
module BackupGuard {
  import opened Common
  import opened Strings
  import opened Decimals
  import B = BackupRestore

  type Bytes = B.Bytes

  datatype Fault = Refused

  // ------------------------------------------------------------- byte operations

  function RemoveSuffix(s: Bytes, suffix: Bytes): Bytes {
    if |suffix| <= |s| && s[|s| - |suffix|..] == suffix then s[..|s| - |suffix|] else s
  }

  // Every occurrence, from the left, without overlap.
  function Replace(s: Bytes, what: Bytes, by_: Bytes): Bytes
    requires what != ""
    decreases |s|
  {
    if s == "" then ""
    else if StartsWith(s, what) then by_ + Replace(s[|what|..], what, by_)
    else [s[0]] + Replace(s[1..], what, by_)
  }

  predicate Contains(s: Bytes, what: Bytes) {
    exists i :: 0 <= i <= |s| && StartsWith(s[i..], what)
  }

  // ------------------------------------------------------------- the Tor template

  const PEER_LINE := "HiddenServicePort 8333 127.0.0.1:"

  predicate PeerLine(line: string) {
    StartsWith(line, PEER_LINE) && line[|PEER_LINE|..] != "" && AllDigits(line[|PEER_LINE|..])
  }

  function WithPort(line: string, port: nat): string {
    if PeerLine(line) then PEER_LINE + Digits(port) else line
  }

  function WithPorts(lines: seq<string>, port: nat): (r: seq<string>)
    ensures |r| == |lines|
  {
    seq(|lines|, i requires 0 <= i < |lines| => WithPort(lines[i], port))
  }

  // The template with its peer listener on this port.
  function TorFor(template: Bytes, p2p: nat): Bytes {
    Join(WithPorts(Split(template, '\n'), p2p + 1), '\n')
  }

  const EXPLORER := "HiddenServicePort 3006 127.0.0.1:28445\n"
  const WEB := "HiddenServiceDir /var/lib/justverify-tor/web\nHiddenServiceVersion 3\nHiddenServicePort 80 127.0.0.1:28444\n"
  const WALLET_NOW := "HiddenServicePort 50001 127.0.0.1:50001\n"
  const WALLET_THEN := "HiddenServicePort 50001 127.0.0.1:50003\n"

  function Layouts(tor: Bytes): seq<Bytes> {
    var beforeExplorer := RemoveSuffix(tor, EXPLORER);
    [tor, beforeExplorer, RemoveSuffix(beforeExplorer, WEB)]
  }

  function Historical(tor: Bytes): seq<Bytes> {
    var layouts := Layouts(tor);
    [Replace(layouts[0], WALLET_NOW, WALLET_THEN), Replace(layouts[1], WALLET_NOW, WALLET_THEN),
     Replace(layouts[2], WALLET_NOW, WALLET_THEN)]
  }

  function CanonicalTor(value: Bytes, template: Bytes, p2p: nat): Result<Bytes, Fault> {
    var tor := TorFor(template, p2p);
    if value in Layouts(tor) || value in Historical(tor) then Ok(tor) else Err(Refused)
  }

  // A line of the template that sets a peer listener.
  ghost predicate PeerListener(line: string) {
    exists n: string :: n != "" && AllDigits(n) && line == "HiddenServicePort 8333 127.0.0.1:" + n
  }

  lemma PeerExactly(line: string)
    ensures PeerLine(line) <==> PeerListener(line)
  {
    if PeerLine(line) {
      assert line == PEER_LINE + line[|PEER_LINE|..] by { assert line[..|PEER_LINE|] == PEER_LINE; }
    }
    forall n: string | n != "" && AllDigits(n) && line == PEER_LINE + n ensures PeerLine(line) {
      assert line[..|PEER_LINE|] == PEER_LINE && line[|PEER_LINE|..] == n;
    }
  }

  // Every peer listener of the restored configuration is on the selected network's port,
  // and every other line is the installed template's.
  lemma TorListens(template: Bytes, p2p: nat)
    ensures var lines, now := Split(template, '\n'), Split(TorFor(template, p2p), '\n');
      && |now| == |lines|
      && forall i :: 0 <= i < |lines| ==>
           now[i] == if PeerListener(lines[i]) then "HiddenServicePort 8333 127.0.0.1:" + Digits(p2p + 1) else lines[i]
  {
    var lines := Split(template, '\n');
    var now := WithPorts(lines, p2p + 1);
    forall line | line in now ensures '\n' !in line {
      var i :| 0 <= i < |now| && now[i] == line;
      assert lines[i] in lines;
      SplitParts(template, '\n', lines[i]);
      assert AllDigits(Digits(p2p + 1));
      assert '\n' !in PEER_LINE;
    }
    SplitOfJoin(now, '\n');
    hide PeerLine, PEER_LINE, PeerListener, Split;
    assert PEER_LINE == "HiddenServicePort 8333 127.0.0.1:" by { PeerText(); }
    forall i | 0 <= i < |lines|
      ensures now[i] == if PeerListener(lines[i]) then PEER_LINE + Digits(p2p + 1) else lines[i]
    {
      PeerExactly(lines[i]);
    }
  }

  lemma PeerText()
    ensures PEER_LINE == "HiddenServicePort 8333 127.0.0.1:"
  {
  }

  // -------------------------------------------------------- indexer and launcher

  const RPC_NOW := "electrum_rpc_addr = \"127.0.0.1:50003\"\n"
  const RPC_THEN := "electrum_rpc_addr = \"127.0.0.1:50001\"\n"

  function CanonicalElectrs(value: Bytes, expected: Bytes): Result<Bytes, Fault> {
    if value == expected || value == Replace(expected, RPC_NOW, RPC_THEN) then Ok(expected) else Err(Refused)
  }

  const LAUNCHER := "ExecStart=/usr/bin/python3 -I /opt/justverify/scripts/core_service.py\n"

  function OldLauncher(binary: string, folder: string): Bytes {
    "ExecStart=" + binary + " -datadir=" + folder + "/core -conf=/etc/justverify/bitcoin.conf\n"
  }

  function CanonicalLauncher(value: Bytes, expected: Bytes, binary: string, folder: string): Result<Bytes, Fault> {
    if !Contains(expected, LAUNCHER) then Err(Refused)
    else if value != expected && value != Replace(expected, LAUNCHER, OldLauncher(binary, folder)) then Err(Refused)
    else Ok(expected)
  }

  // ------------------------------------------------------------------ the guard

  // The registration record: what it must agree with, and the configuration hashes. Its
  // text is either the one the guard writes or some other layout of the same record.
  datatype Ready = Ready(context: string, configs: map<string, B.Digest>, written: bool)

  // The files of an archive that the guard looks at, and the registration record.
  datatype Snapshot = Snapshot(files: map<string, Bytes>, ready: Ready)

  // What the device itself says: the selected instance, its rendered profile, and the
  // texts of the two records, and of the policies, that an archive may hold.
  datatype Guard = Guard(context: string, profile: map<string, Bytes>, template: Bytes, p2p: nat,
                         binary: string, folder: string, versions: set<Bytes>, active: set<Bytes>,
                         policies: set<Bytes>)

  const TORRC := "etc/torrc"
  const ELECTRS := "etc/electrs.toml"
  const CORE := "systemd/core-profile.conf"
  const VERSIONS := "etc/versions.json"
  const ACTIVE := "versions/active.json"
  const POLICY := "config/managed.conf"

  function At(s: Snapshot, key: string): Bytes {
    if key in s.files then s.files[key] else ""
  }

  predicate Repeats(g: Guard, s: Snapshot) {
    && s.ready.context == g.context
    && (forall key :: key in g.profile && key != ELECTRS && key != CORE ==>
          key in s.files && s.files[key] == g.profile[key])
    && VERSIONS in s.files && s.files[VERSIONS] in g.versions
    && ACTIVE in s.files && s.files[ACTIVE] in g.active
    && POLICY in s.files && s.files[POLICY] in g.policies
  }

  predicate Complete(g: Guard) {
    ELECTRS in g.profile && CORE in g.profile && TORRC !in g.profile
  }

  // `Guard.validate`: a refusal, or the values that will be installed.
  function Validate(g: Guard, s: Snapshot): Result<Snapshot, Fault>
    requires Complete(g)
  {
    if !Repeats(g, s) || TORRC !in s.files || ELECTRS !in s.files || CORE !in s.files then Err(Refused)
    else
      var electrs := CanonicalElectrs(s.files[ELECTRS], g.profile[ELECTRS]);
      var core := CanonicalLauncher(s.files[CORE], g.profile[CORE], g.binary, g.folder);
      var tor := CanonicalTor(s.files[TORRC], g.template, g.p2p);
      if electrs.Err? || core.Err? || tor.Err? then Err(Refused)
      else
        Ok(Snapshot(s.files[TORRC := tor.value][ELECTRS := electrs.value][CORE := core.value],
                    Ready(s.ready.context, s.ready.configs["electrs.toml" := B.Sha(electrs.value)], true)))
  }

  // The configuration hashes that a snapshot must register correctly.
  predicate HashesHold(s: Snapshot) {
    forall name :: name in {"bitcoin.conf", "electrs.toml", "profile.json"} ==>
      name in s.ready.configs && s.ready.configs[name] == B.Sha(At(s, "etc/" + name))
  }

  lemma KeysDiffer()
    ensures TORRC != ELECTRS && TORRC != CORE && ELECTRS != CORE
    ensures VERSIONS !in {TORRC, ELECTRS, CORE} && ACTIVE !in {TORRC, ELECTRS, CORE} && POLICY !in {TORRC, ELECTRS, CORE}
  {
  }

  lemma HashedKeys()
    ensures "etc/" + "electrs.toml" == ELECTRS
    ensures "etc/" + "bitcoin.conf" !in {TORRC, ELECTRS, CORE} && "etc/" + "profile.json" !in {TORRC, ELECTRS, CORE}
  {
    var bitcoin, profile := "etc/" + "bitcoin.conf", "etc/" + "profile.json";
    assert bitcoin[4] == "bitcoin.conf"[0] == 'b' && profile[4] == "profile.json"[0] == 'p';
    assert TORRC[4] == 't' && ELECTRS[4] == 'e' && CORE[0] == 's' && bitcoin[0] == 'e' && profile[0] == 'e';
  }

  // What is installed of these three files is the device's own, whatever was archived;
  // all other files are the archived ones.
  lemma OnlyInstalledListeners(g: Guard, s: Snapshot)
    requires Complete(g) && Validate(g, s).Ok?
    ensures var n := Validate(g, s).value;
      && n.files.Keys == s.files.Keys
      && n.files[TORRC] == TorFor(g.template, g.p2p)
      && n.files[ELECTRS] == g.profile[ELECTRS] && n.files[CORE] == g.profile[CORE]
      && (forall key :: key in s.files && key !in {TORRC, ELECTRS, CORE} ==> n.files[key] == s.files[key])
      && (forall key :: key in g.profile ==> key in n.files && n.files[key] == g.profile[key])
  {
    KeysDiffer();
    hide TorFor, Replace, RemoveSuffix, TORRC, ELECTRS, CORE, VERSIONS, ACTIVE, POLICY, Layouts, Historical, Contains;
  }

  lemma NormalisedRepeats(g: Guard, s: Snapshot)
    requires Complete(g) && Validate(g, s).Ok?
    ensures Repeats(g, Validate(g, s).value)
  {
    KeysDiffer();
    OnlyInstalledListeners(g, s);
    hide TORRC, ELECTRS, CORE, VERSIONS, ACTIVE, POLICY, CanonicalTor, CanonicalElectrs, CanonicalLauncher;
  }

  lemma InstalledIsCanonical(g: Guard, s: Snapshot)
    requires Complete(g) && Validate(g, s).Ok?
    ensures CanonicalTor(TorFor(g.template, g.p2p), g.template, g.p2p) == Ok(TorFor(g.template, g.p2p))
    ensures CanonicalElectrs(g.profile[ELECTRS], g.profile[ELECTRS]) == Ok(g.profile[ELECTRS])
    ensures CanonicalLauncher(g.profile[CORE], g.profile[CORE], g.binary, g.folder) == Ok(g.profile[CORE])
  {
    hide TorFor, Replace, RemoveSuffix, Contains, ELECTRS, CORE, TORRC;
    assert Layouts(TorFor(g.template, g.p2p))[0] == TorFor(g.template, g.p2p);
  }

  // Normalising twice accepts and changes nothing more.
  lemma NormalisationIsStable(g: Guard, s: Snapshot)
    requires Complete(g) && Validate(g, s).Ok?
    ensures Validate(g, Validate(g, s).value) == Validate(g, s)
  {
    var n := Validate(g, s).value;
    OnlyInstalledListeners(g, s);
    NormalisedRepeats(g, s);
    InstalledIsCanonical(g, s);
    assert n.ready.configs["electrs.toml" := B.Sha(g.profile[ELECTRS])] == n.ready.configs by {
      assert n.ready.configs == s.ready.configs["electrs.toml" := B.Sha(g.profile[ELECTRS])];
    }
    hide TORRC, ELECTRS, CORE, Repeats, CanonicalTor, CanonicalElectrs, CanonicalLauncher, TorFor;
    assert n.files[TORRC := TorFor(g.template, g.p2p)] == n.files;
    assert n.files[ELECTRS := g.profile[ELECTRS]] == n.files && n.files[CORE := g.profile[CORE]] == n.files;
  }

  // A snapshot that registered its configuration correctly still does so once it is
  // normalised, so it passes the check made after it was installed.
  lemma NormalisedHashesHold(g: Guard, s: Snapshot)
    requires Complete(g) && Validate(g, s).Ok? && HashesHold(s)
    ensures HashesHold(Validate(g, s).value)
  {
    KeysDiffer();
    HashedKeys();
    hide TorFor, Replace, RemoveSuffix, TORRC, ELECTRS, CORE, CanonicalTor, CanonicalElectrs, CanonicalLauncher, Repeats;
  }

  // ---------------------------------------------------------------- what is accepted

  // An archive is accepted exactly if it was made on this device under its current
  // selection: context, versions, active record and policy are the device's own, and
  // every rendered file is, up to the older layouts of three of them.
  lemma AcceptedIsOwn(g: Guard, s: Snapshot)
    requires Complete(g)
    ensures Validate(g, s).Ok? <==>
      && s.ready.context == g.context
      && (VERSIONS in s.files && s.files[VERSIONS] in g.versions)
      && (ACTIVE in s.files && s.files[ACTIVE] in g.active)
      && (POLICY in s.files && s.files[POLICY] in g.policies)
      && (forall key :: key in g.profile && key != ELECTRS && key != CORE ==>
            key in s.files && s.files[key] == g.profile[key])
      && (TORRC in s.files && CanonicalTor(s.files[TORRC], g.template, g.p2p).Ok?)
      && (ELECTRS in s.files
          && s.files[ELECTRS] in {g.profile[ELECTRS], Replace(g.profile[ELECTRS], RPC_NOW, RPC_THEN)})
      && Contains(g.profile[CORE], LAUNCHER)
      && (CORE in s.files
          && s.files[CORE]
             in {g.profile[CORE], Replace(g.profile[CORE], LAUNCHER, OldLauncher(g.binary, g.folder))})
    ensures Validate(g, s).Ok? ==> Validate(g, s).value.ready.context == g.context
  {
    hide CanonicalTor, Replace, Contains, OldLauncher, TORRC, ELECTRS, CORE, VERSIONS, ACTIVE, POLICY, RPC_NOW;
    hide RPC_THEN, LAUNCHER;
  }

  lemma {:induction false} ReplaceNothing(s: Bytes, what: Bytes, by_: Bytes)
    requires what != "" && !Contains(s, what)
    ensures Replace(s, what, by_) == s
  {
    if s != "" {
      assert s[0..] == s;
      forall i | 0 <= i <= |s[1..]| ensures !StartsWith(s[1..][i..], what) {
        assert s[1..][i..] == s[i + 1..];
      }
      ReplaceNothing(s[1..], what, by_);
    }
  }

  // Where it first occurs, a text is replaced, and then in what follows.
  lemma {:induction false} ReplaceFirst(a: Bytes, what: Bytes, b: Bytes, by_: Bytes)
    requires what != "" && forall i :: 0 <= i < |a| ==> !StartsWith((a + what + b)[i..], what)
    ensures Replace(a + what + b, what, by_) == a + by_ + Replace(b, what, by_)
  {
    var s := a + what + b;
    if a == "" {
      assert s == what + b && s[..|what|] == what && s[|what|..] == b;
    } else {
      assert s[0..] == s && s[1..] == a[1..] + what + b;
      forall i | 0 <= i < |a[1..]| ensures !StartsWith((a[1..] + what + b)[i..], what) {
        assert s[i + 1..] == s[1..][i..];
      }
      ReplaceFirst(a[1..], what, b, by_);
      assert [s[0]] + (a[1..] + by_ + Replace(b, what, by_)) == a + by_ + Replace(b, what, by_);
    }
  }

  lemma SuffixRemoved(s: Bytes, suffix: Bytes)
    ensures RemoveSuffix(s + suffix, suffix) == s
  {
    assert (s + suffix)[|s|..] == suffix && (s + suffix)[..|s|] == s;
  }

  lemma SuffixKept(s: Bytes, suffix: Bytes)
    requires forall t: Bytes :: s != t + suffix
    ensures RemoveSuffix(s, suffix) == s
  {
    if |suffix| <= |s| {
      var t := s[..|s| - |suffix|];
      assert t + s[|s| - |suffix|..] == s;
      assert s != t + suffix;
    }
  }

  // What one replacement makes of a text that occurs in it just once.
  ghost predicate OccursOnce(a: Bytes, what: Bytes, b: Bytes) {
    && (forall i :: 0 <= i < |a| ==> !StartsWith((a + what + b)[i..], what))
    && !Contains(b, what)
  }

  lemma ReplacedOnce(a: Bytes, what: Bytes, b: Bytes, by_: Bytes)
    requires what != "" && OccursOnce(a, what, b)
    ensures Replace(a + what + b, what, by_) == a + by_ + b
  {
    ReplaceFirst(a, what, b, by_);
    ReplaceNothing(b, what, by_);
  }

  // The text ends earlier, and still contains what it contained once.
  lemma OccursOnceBefore(a: Bytes, what: Bytes, b: Bytes, more: Bytes)
    requires OccursOnce(a, what, b + more)
    ensures OccursOnce(a, what, b)
  {
    var s, t := a + what + b, a + what + (b + more);
    assert t == s + more;
    forall i | 0 <= i < |a| ensures !StartsWith(s[i..], what) { StartsMore(s, more, what, i); }
    forall i | 0 <= i <= |b| ensures !StartsWith(b[i..], what) { StartsMore(b, more, what, i); }
  }

  lemma StartsMore(s: Bytes, more: Bytes, what: Bytes, i: nat)
    requires i <= |s|
    ensures StartsWith(s[i..], what) ==> StartsWith((s + more)[i..], what)
  {
    assert (s + more)[i..] == s[i..] + more;
    assert |what| <= |s[i..]| ==> (s[i..] + more)[..|what|] == s[i..][..|what|];
  }

  lemma TorForms(tor: Bytes, a: Bytes, b: Bytes)
    requires tor == a + WALLET_NOW + (b + WEB + EXPLORER) && OccursOnce(a, WALLET_NOW, b + WEB + EXPLORER)
    ensures Layouts(tor) == [tor, a + WALLET_NOW + (b + WEB), a + WALLET_NOW + b]
    ensures Historical(tor) ==
      [a + WALLET_THEN + (b + WEB + EXPLORER), a + WALLET_THEN + (b + WEB), a + WALLET_THEN + b]
  {
    var one, two := a + WALLET_NOW + (b + WEB), a + WALLET_NOW + b;
    assert |WALLET_NOW| > 0;
    hide WALLET_NOW, WALLET_THEN, WEB, EXPLORER, Replace, RemoveSuffix, OccursOnce;
    assert tor == one + EXPLORER && one == two + WEB;
    SuffixRemoved(one, EXPLORER);
    SuffixRemoved(two, WEB);
    OccursOnceBefore(a, WALLET_NOW, b + WEB, EXPLORER);
    OccursOnceBefore(a, WALLET_NOW, b, WEB);
    ReplacedOnce(a, WALLET_NOW, b + WEB + EXPLORER, WALLET_THEN);
    ReplacedOnce(a, WALLET_NOW, b + WEB, WALLET_THEN);
    ReplacedOnce(a, WALLET_NOW, b, WALLET_THEN);
  }

  // A rendered Tor configuration with the web and the explorer service, and one wallet
  // port, is accepted in exactly six forms: with both services, without the explorer,
  // without either, each with the present or the former wallet port.
  lemma SixTorForms(template: Bytes, p2p: nat, value: Bytes, a: Bytes, b: Bytes)
    requires TorFor(template, p2p) == a + WALLET_NOW + (b + WEB + EXPLORER)
    requires OccursOnce(a, WALLET_NOW, b + WEB + EXPLORER)
    ensures CanonicalTor(value, template, p2p).Ok? <==>
      exists wallet, rest :: wallet in {WALLET_NOW, WALLET_THEN} && rest in {b, b + WEB, b + WEB + EXPLORER}
        && value == a + wallet + rest
    ensures CanonicalTor(value, template, p2p).Ok? ==>
      CanonicalTor(value, template, p2p).value == a + WALLET_NOW + (b + WEB + EXPLORER)
  {
    hide WALLET_NOW, WALLET_THEN, WEB, EXPLORER, TorFor, OccursOnce, Layouts, Historical;
    TorForms(TorFor(template, p2p), a, b);
  }
}
