// What the streaming rewriter of web/electrum_features.py should do to a whole byte
// stream: every object at the top level, or directly inside a top-level array, of
// at most 65536 bytes is replaced by its rewrite; every other byte is kept.
module FeatureModel {
  import opened Common

  type byte = bv8
  type bytes = seq<byte>

  const BACKSLASH: byte := 92
  const QUOTE: byte := 34
  const OPEN_BRACE: byte := 123
  const CLOSE_BRACE: byte := 125
  const OPEN_BRACKET: byte := 91
  const CLOSE_BRACKET: byte := 93
  const LIMIT := 65536

  // ------------------------------------------------------------------ scanning

  // The lexical state after some bytes: open brackets outside strings, inside a
  // string or not, and whether the last byte was a backslash that escapes the next.
  datatype Scan = Scan(stack: bytes, quoted: bool, escaped: bool)

  function ScanByte(s: Scan, b: byte): Scan {
    if s.escaped then s.(escaped := false)
    else if b == BACKSLASH then s.(escaped := true)
    else if b == QUOTE then s.(quoted := !s.quoted)
    else if s.quoted then s
    else if b == OPEN_BRACE || b == OPEN_BRACKET then s.(stack := s.stack + [b])
    else if (b == CLOSE_BRACE || b == CLOSE_BRACKET) && s.stack != [] then s.(stack := s.stack[..|s.stack| - 1])
    else s
  }

  // The state after the first q bytes of h.
  function ScanAt(h: bytes, q: nat): Scan
    requires q <= |h|
  {
    if q == 0 then Scan([], false, false) else ScanByte(ScanAt(h, q - 1), h[q - 1])
  }

  // How many brackets are open there.
  function DepthAt(h: bytes, q: nat): nat
    requires q <= |h|
  {
    |ScanAt(h, q).stack|
  }

  // A record opens at a brace outside strings, at the top level or in a batch.
  predicate Opens(s: Scan, b: byte) {
    !s.escaped && !s.quoted && b == OPEN_BRACE && (s.stack == [] || s.stack == [OPEN_BRACKET])
  }

  // ----------------------------------------------------- whole-stream reference

  // Between positions p and q (exclusive, inclusive) the stack is never at `depth`.
  predicate Deeper(h: bytes, depth: nat, p: nat, q: nat)
    requires q <= |h|
  {
    forall x :: p < x <= q ==> DepthAt(h, x) != depth
  }

  // The record that opens at p ends at e: the first position where as many brackets
  // are open as before it.
  predicate Ends(h: bytes, p: nat, e: nat)
    requires p <= |h|
  {
    p < e <= |h| && DepthAt(h, e) == DepthAt(h, p) && Deeper(h, DepthAt(h, p), p, e - 1)
  }

  lemma {:induction false} NeverEnds(h: bytes, p: nat, q: nat)
    requires p <= q <= |h| && forall e :: !Ends(h, p, e)
    ensures Deeper(h, DepthAt(h, p), p, q)
    decreases q
  {
    if p < q {
      NeverEnds(h, p, q - 1);
      assert !Ends(h, p, q);
    }
  }

  function Replaced(rewrite: bytes -> bytes, record: bytes): bytes {
    if |record| <= LIMIT then rewrite(record) else record
  }

  // The reference output for the bytes from position p on; a record that is never
  // closed is kept as it is.
  ghost function ReferenceFrom(rewrite: bytes -> bytes, h: bytes, p: nat): bytes
    requires p <= |h|
    decreases |h| - p
  {
    if p == |h| then []
    else if !Opens(ScanAt(h, p), h[p]) then [h[p]] + ReferenceFrom(rewrite, h, p + 1)
    else if e: nat :| Ends(h, p, e) then Replaced(rewrite, h[p..e]) + ReferenceFrom(rewrite, h, e)
    else h[p..|h|]
  }

  ghost function Reference(rewrite: bytes -> bytes, h: bytes): bytes {
    ReferenceFrom(rewrite, h, 0)
  }

  // ------------------------------------------------------------ byte by byte

  // The same, one byte at a time: what is settled, and the record still open.
  datatype Machine = Machine(scan: Scan, settled: bytes, open: Option<bytes>, depth: nat)

  const START := Machine(Scan([], false, false), [], None, 0)

  function Step(rewrite: bytes -> bytes, m: Machine, b: byte): Machine {
    var s := ScanByte(m.scan, b);
    match m.open
    case None =>
      if Opens(m.scan, b) then Machine(s, m.settled, Some([b]), |m.scan.stack|)
      else Machine(s, m.settled + [b], None, m.depth)
    case Some(r) =>
      if |s.stack| == m.depth then Machine(s, m.settled + Replaced(rewrite, r + [b]), None, m.depth)
      else Machine(s, m.settled, Some(r + [b]), m.depth)
  }

  // The machine after the first q bytes of data.
  function StepsTo(rewrite: bytes -> bytes, m: Machine, data: bytes, q: nat): Machine
    requires q <= |data|
  {
    if q == 0 then m else Step(rewrite, StepsTo(rewrite, m, data, q - 1), data[q - 1])
  }

  function Steps(rewrite: bytes -> bytes, m: Machine, data: bytes): Machine {
    StepsTo(rewrite, m, data, |data|)
  }

  // What a bounded implementation has sent so far, and what it still holds back.
  function Sent(m: Machine): bytes {
    if m.open.Some? && |m.open.value| > LIMIT then m.settled + m.open.value else m.settled
  }

  function Held(m: Machine): bytes {
    if m.open.Some? && |m.open.value| <= LIMIT then m.open.value else []
  }

  // An open record starts with the brace at its depth, so no record opens inside it.
  predicate Coherent(m: Machine) {
    m.open.Some? ==>
      && |m.scan.stack| > m.depth
      && m.scan.stack[m.depth] == OPEN_BRACE
      && (m.depth == 0 || (m.depth == 1 && m.scan.stack[0] == OPEN_BRACKET))
  }

  lemma StepKeepsCoherent(rewrite: bytes -> bytes, m: Machine, b: byte)
    requires Coherent(m)
    ensures Coherent(Step(rewrite, m, b))
    ensures m.open.Some? ==> !Opens(m.scan, b)
  {
  }

  lemma {:induction false} StepsScan(rewrite: bytes -> bytes, h: bytes, q: nat)
    requires q <= |h|
    ensures StepsTo(rewrite, START, h, q).scan == ScanAt(h, q)
  {
    if q > 0 {
      StepsScan(rewrite, h, q - 1);
    }
  }

  lemma {:induction false} StepsConcat(rewrite: bytes -> bytes, m: Machine, a: bytes, b: bytes, q: nat)
    requires q <= |b|
    ensures StepsTo(rewrite, m, a + b, |a| + q) == StepsTo(rewrite, Steps(rewrite, m, a), b, q)
  {
    if q == 0 {
      StepsPrefix(rewrite, m, a, b, |a|);
    } else {
      StepsConcat(rewrite, m, a, b, q - 1);
      assert (a + b)[|a| + q - 1] == b[q - 1];
    }
  }

  lemma {:induction false} StepsPrefix(rewrite: bytes -> bytes, m: Machine, a: bytes, b: bytes, q: nat)
    requires q <= |a|
    ensures StepsTo(rewrite, m, a + b, q) == StepsTo(rewrite, m, a, q)
  {
    if q > 0 {
      StepsPrefix(rewrite, m, a, b, q - 1);
      assert (a + b)[q - 1] == a[q - 1];
    }
  }

  // Until its end, a record that opened at p is what lies between p and q.
  lemma {:induction false} RecordGrows(rewrite: bytes -> bytes, h: bytes, p: nat, q: nat)
    requires p < q <= |h|
    requires StepsTo(rewrite, START, h, p).open.None? && Opens(ScanAt(h, p), h[p])
    requires Deeper(h, DepthAt(h, p), p, q)
    ensures var m := StepsTo(rewrite, START, h, p);
      StepsTo(rewrite, START, h, q) == Machine(ScanAt(h, q), m.settled, Some(h[p..q]), DepthAt(h, p))
    decreases q
  {
    assert DepthAt(h, q) != DepthAt(h, p);
    if q > p + 1 {
      RecordGrows(rewrite, h, p, q - 1);
      assert h[p..q] == h[p..q - 1] + [h[q - 1]];
    } else {
      StepsScan(rewrite, h, p);
      assert h[p..q] == [h[p]];
    }
  }

  // The three ways the reference goes on from a point between records, and the
  // machine with it.
  lemma ByteKept(rewrite: bytes -> bytes, h: bytes, p: nat)
    requires p < |h| && StepsTo(rewrite, START, h, p).open.None? && !Opens(ScanAt(h, p), h[p])
    ensures ReferenceFrom(rewrite, h, p) == [h[p]] + ReferenceFrom(rewrite, h, p + 1)
    ensures var m, n := StepsTo(rewrite, START, h, p), StepsTo(rewrite, START, h, p + 1);
      n.open.None? && n.settled == m.settled + [h[p]]
  {
    StepsScan(rewrite, h, p);
  }

  lemma OneStep(rewrite: bytes -> bytes, h: bytes, q: nat)
    requires 0 < q <= |h|
    ensures StepsTo(rewrite, START, h, q) == Step(rewrite, StepsTo(rewrite, START, h, q - 1), h[q - 1])
    ensures ScanAt(h, q) == ScanByte(ScanAt(h, q - 1), h[q - 1])
  {
  }

  lemma RecordReplaced(rewrite: bytes -> bytes, h: bytes, p: nat, e: nat)
    requires p < |h| && StepsTo(rewrite, START, h, p).open.None? && Opens(ScanAt(h, p), h[p])
    requires Ends(h, p, e)
    ensures var m, n := StepsTo(rewrite, START, h, p), StepsTo(rewrite, START, h, e);
      n.open.None? && n.settled == m.settled + Replaced(rewrite, h[p..e])
  {
    hide ScanAt, StepsTo;
    OneStep(rewrite, h, p + 1);
    OneStep(rewrite, h, e);
    RecordGrows(rewrite, h, p, e - 1);
    var m := StepsTo(rewrite, START, h, e - 1);
    assert m.open == Some(h[p..e - 1]) && |ScanByte(m.scan, h[e - 1]).stack| == m.depth;
    assert h[p..e] == h[p..e - 1] + [h[e - 1]];
  }

  lemma RecordUnclosed(rewrite: bytes -> bytes, h: bytes, p: nat)
    requires p < |h| && StepsTo(rewrite, START, h, p).open.None? && Opens(ScanAt(h, p), h[p])
    requires forall e :: !Ends(h, p, e)
    ensures var m, n := StepsTo(rewrite, START, h, p), StepsTo(rewrite, START, h, |h|);
      n.open == Some(h[p..|h|]) && n.settled == m.settled
  {
    hide ScanAt, StepsTo, Ends;
    NeverEnds(h, p, |h|);
    RecordGrows(rewrite, h, p, |h|);
  }

  // From any point between records, the machine ends where the reference says.
  lemma {:induction false} MachineFollowsReference(rewrite: bytes -> bytes, h: bytes, p: nat)
    requires p <= |h| && StepsTo(rewrite, START, h, p).open.None?
    ensures var m := Steps(rewrite, START, h);
      Sent(m) + Held(m) == StepsTo(rewrite, START, h, p).settled + ReferenceFrom(rewrite, h, p)
    decreases |h| - p
  {
    hide ScanAt, StepsTo, Step, Deeper;
    var before := StepsTo(rewrite, START, h, p).settled;
    if p < |h| {
      if !Opens(ScanAt(h, p), h[p]) {
        ByteKept(rewrite, h, p);
        MachineFollowsReference(rewrite, h, p + 1);
        Associates(before, [h[p]], ReferenceFrom(rewrite, h, p + 1));
      } else if exists e: nat :: Ends(h, p, e) {
        var e: nat :| Ends(h, p, e)
          && ReferenceFrom(rewrite, h, p) == Replaced(rewrite, h[p..e]) + ReferenceFrom(rewrite, h, e);
        RecordReplaced(rewrite, h, p, e);
        MachineFollowsReference(rewrite, h, e);
        Associates(before, Replaced(rewrite, h[p..e]), ReferenceFrom(rewrite, h, e));
      } else {
        RecordUnclosed(rewrite, h, p);
      }
    }
  }

  lemma Associates(a: bytes, b: bytes, c: bytes)
    ensures (a + b) + c == a + (b + c)
  {
  }

  // Byte by byte or as a whole, the output is the same.
  lemma MachineRefinesReference(rewrite: bytes -> bytes, h: bytes)
    ensures var m := Steps(rewrite, START, h); Sent(m) + Held(m) == Reference(rewrite, h)
  {
    MachineFollowsReference(rewrite, h, 0);
  }

  // ------------------------------------------------------------------- chunks

  function Join(chunks: seq<bytes>): bytes {
    if chunks == [] then [] else chunks[0] + Join(chunks[1..])
  }

  // The implementation carries an escape across a chunk end only inside a string.
  function Carried(m: Machine): Machine {
    m.(scan := m.scan.(escaped := m.scan.escaped && m.scan.quoted))
  }

  function Fed(rewrite: bytes -> bytes, m: Machine, chunks: seq<bytes>): Machine
    decreases |chunks|
  {
    if chunks == [] then m else Fed(rewrite, Steps(rewrite, Carried(m), chunks[0]), chunks[1..])
  }

  predicate EscapeQuoted(h: bytes, q: nat)
    requires q <= |h|
  {
    ScanAt(h, q).escaped ==> ScanAt(h, q).quoted
  }

  // Bytes that mean something outside strings: an escape in front of one matters.
  predicate Significant(stack: bytes, b: byte) {
    || b == BACKSLASH || b == QUOTE || b == OPEN_BRACE || b == OPEN_BRACKET
    || ((b == CLOSE_BRACE || b == CLOSE_BRACKET) && stack != [])
  }

  // A chunk may end in this state and the next begin with this byte.
  predicate Harmless(s: Scan, b: byte) {
    s.escaped && !s.quoted ==> !Significant(s.stack, b)
  }

  // At a chunk end exactly the harmless next bytes lead where the unsplit stream does:
  // elsewhere the machines differ right after that byte.
  lemma BoundaryMatters(rewrite: bytes -> bytes, m: Machine, b: byte)
    requires Coherent(m)
    ensures Step(rewrite, Carried(m), b) == Step(rewrite, m, b) <==> Harmless(m.scan, b)
  {
    var unsplit, split := ScanByte(m.scan, b), ScanByte(Carried(m).scan, b);
    if !Harmless(m.scan, b) {
      if b == OPEN_BRACE || b == OPEN_BRACKET {
        assert |split.stack| != |unsplit.stack|;
      }
      assert split != unsplit;
    }
  }

  // Which chunk ends are harmless after the bytes h.
  predicate CleanSplit(h: bytes, chunks: seq<bytes>)
    decreases |chunks|
  {
    chunks != [] ==>
      && (EscapeQuoted(h, |h|) || (chunks[0] != [] && Harmless(ScanAt(h, |h|), chunks[0][0])))
      && CleanSplit(h + chunks[0], chunks[1..])
  }

  lemma {:induction false} SameAfterFirst(rewrite: bytes -> bytes, m: Machine, m': Machine, data: bytes, q: nat)
    requires 0 < q <= |data| && Step(rewrite, m, data[0]) == Step(rewrite, m', data[0])
    ensures StepsTo(rewrite, m, data, q) == StepsTo(rewrite, m', data, q)
  {
    hide Step;
    if q > 1 {
      SameAfterFirst(rewrite, m, m', data, q - 1);
    } else {
      assert StepsTo(rewrite, m, data, 0) == m && StepsTo(rewrite, m', data, 0) == m';
    }
  }

  lemma {:induction false} StepsCoherent(rewrite: bytes -> bytes, h: bytes, q: nat)
    requires q <= |h|
    ensures Coherent(StepsTo(rewrite, START, h, q))
  {
    if q > 0 {
      StepsCoherent(rewrite, h, q - 1);
      StepKeepsCoherent(rewrite, StepsTo(rewrite, START, h, q - 1), h[q - 1]);
    }
  }

  // A harmless chunk end.
  lemma ChunkContinues(rewrite: bytes -> bytes, h: bytes, chunk: bytes)
    requires EscapeQuoted(h, |h|) || (chunk != [] && Harmless(ScanAt(h, |h|), chunk[0]))
    ensures Steps(rewrite, Carried(Steps(rewrite, START, h)), chunk) == Steps(rewrite, START, h + chunk)
  {
    hide ScanAt, StepsTo, Step, Coherent, Harmless;
    var m := Steps(rewrite, START, h);
    StepsScan(rewrite, h, |h|);
    StepsConcat(rewrite, START, h, chunk, |chunk|);
    if EscapeQuoted(h, |h|) {
      assert Carried(m) == m;
    } else {
      StepsCoherent(rewrite, h, |h|);
      BoundaryMatters(rewrite, m, chunk[0]);
      SameAfterFirst(rewrite, Carried(m), m, chunk, |chunk|);
    }
  }

  // With every chunk end harmless, the chunks lead where the unsplit stream does.
  lemma {:induction false} SplitDoesNotMatter(rewrite: bytes -> bytes, h: bytes, chunks: seq<bytes>)
    requires CleanSplit(h, chunks)
    ensures Fed(rewrite, Steps(rewrite, START, h), chunks) == Steps(rewrite, START, h + Join(chunks))
    decreases |chunks|
  {
    hide ScanAt, StepsTo, Harmless, EscapeQuoted;
    if chunks == [] {
      assert h + Join(chunks) == h;
    } else {
      ChunkContinues(rewrite, h, chunks[0]);
      SplitDoesNotMatter(rewrite, h + chunks[0], chunks[1..]);
      assert h + Join(chunks) == (h + chunks[0]) + Join(chunks[1..]);
    }
  }

  // JSON text has backslashes inside strings only.
  predicate QuotedBackslashes(h: bytes) {
    forall i :: 0 <= i < |h| ==> BackslashQuoted(h, i)
  }

  predicate BackslashQuoted(h: bytes, i: nat)
    requires i < |h|
  {
    h[i] == BACKSLASH ==> ScanAt(h, i).quoted
  }

  lemma {:induction false} EscapesAreQuoted(h: bytes, q: nat)
    requires QuotedBackslashes(h) && q <= |h|
    ensures EscapeQuoted(h, q)
  {
    if q > 0 {
      EscapesAreQuoted(h, q - 1);
      assert BackslashQuoted(h, q - 1);
    }
  }

  lemma {:induction false} ScanPrefix(a: bytes, b: bytes, q: nat)
    requires q <= |a|
    ensures ScanAt(a + b, q) == ScanAt(a, q)
  {
    if q > 0 {
      ScanPrefix(a, b, q - 1);
    }
  }

  // So every split of JSON text is clean.
  lemma {:induction false} JsonSplitsCleanly(h: bytes, chunks: seq<bytes>)
    requires QuotedBackslashes(h + Join(chunks))
    ensures CleanSplit(h, chunks)
    decreases |chunks|
  {
    if chunks != [] {
      EscapesAreQuoted(h + Join(chunks), |h|);
      ScanPrefix(h, Join(chunks), |h|);
      assert (h + chunks[0]) + Join(chunks[1..]) == h + Join(chunks);
      JsonSplitsCleanly(h + chunks[0], chunks[1..]);
    }
  }

  // Without that, the split does matter: an escape outside a string is lost at a
  // chunk end, and the brace after it opens a record it should not open.
  lemma UnquotedBackslashIsLost(rewrite: bytes -> bytes)
    ensures var chunks := [[BACKSLASH], [OPEN_BRACE, CLOSE_BRACE]];
      && !CleanSplit([], chunks)
      && Reference(rewrite, Join(chunks)) == Join(chunks)
      && Sent(Fed(rewrite, START, chunks)) == [BACKSLASH] + rewrite([OPEN_BRACE, CLOSE_BRACE])
  {
    var c0, c1 := [BACKSLASH], [OPEN_BRACE, CLOSE_BRACE];
    var rest := [c1];
    var chunks := [c0, c1];
    assert chunks[1..] == rest;
    assert Join(rest) == c1;
    var h := Join(chunks);
    assert h == [BACKSLASH, OPEN_BRACE, CLOSE_BRACE];
    assert ScanAt(c0, 1) == Scan([], false, true);
    assert [] + c0 == c0;
    // The whole stream: the brace is escaped, so no record ever opens.
    assert StepsTo(rewrite, START, h, 1) == Machine(Scan([], false, true), [BACKSLASH], None, 0);
    assert StepsTo(rewrite, START, h, 2) == Machine(Scan([], false, false), [BACKSLASH, OPEN_BRACE], None, 0);
    MachineRefinesReference(rewrite, h);
    // In two chunks the escape is gone.
    var m := Steps(rewrite, Carried(START), c0);
    assert Carried(START) == START && StepsTo(rewrite, START, c0, 0) == START;
    assert m == StepsTo(rewrite, START, c0, 1) == Step(rewrite, START, c0[0]);
    assert m == Machine(Scan([], false, true), [BACKSLASH], None, 0);
    assert StepsTo(rewrite, Carried(m), c1, 1)
        == Machine(Scan([OPEN_BRACE], false, false), [BACKSLASH], Some([OPEN_BRACE]), 0);
    assert [OPEN_BRACE] + [CLOSE_BRACE] == c1;
    var last := Steps(rewrite, Carried(m), c1);
    assert last.open.None? && last.settled == [BACKSLASH] + rewrite(c1);
    assert Fed(rewrite, START, chunks) == Fed(rewrite, m, rest) == Fed(rewrite, last, rest[1..]) == last;
  }
}
