// A chunk end that is not harmless shows: after it some continuation, with some rewrite,
// gives a client something else than the whole-stream reference.
module FeatureSplits {
  import opened Common
  import opened FeatureModel

  const SPACE: byte := 32
  const EMPTY: bytes := [OPEN_BRACE, CLOSE_BRACE]

  // A rewrite that changes the empty object and nothing else.
  function Marked(record: bytes): bytes {
    if record == EMPTY then [OPEN_BRACE, SPACE, CLOSE_BRACE] else record
  }

  function Output(m: Machine): bytes { Sent(m) + Held(m) }

  // Outside escapes, with an open record that is no beginning of the empty object.
  predicate Ready(m: Machine) {
    Coherent(m) && !m.scan.escaped && (m.open.Some? ==> |m.open.value| >= 2)
  }

  lemma StepsOne(m: Machine, b: byte)
    ensures Steps(Marked, m, [b]) == Step(Marked, m, b)
  {
    assert StepsTo(Marked, m, [b], 0) == m;
    hide Step;
  }

  lemma StepsJoin(m: Machine, a: bytes, b: bytes)
    ensures Steps(Marked, m, a + b) == Steps(Marked, Steps(Marked, m, a), b)
  {
    StepsConcat(Marked, m, a, b, |b|);
    hide StepsTo;
  }

  // A byte adds itself to the output; completing the empty object adds the mark.
  lemma StepLength(m: Machine, b: byte)
    ensures |Output(Step(Marked, m, b))| == |Output(m)| + 1 +
      if m.open.Some? && |ScanByte(m.scan, b).stack| == m.depth && m.open.value + [b] == EMPTY then 1 else 0
  {
    hide ScanByte;
  }

  // A space readies a machine and changes nothing else.
  lemma SpaceStep(m: Machine)
    requires Coherent(m) && !m.scan.escaped && (m.open.Some? ==> m.open.value != [])
    ensures var n := Steps(Marked, m, [SPACE]);
      Ready(n) && n.scan == m.scan && |Output(n)| == |Output(m)| + 1
  {
    StepsOne(m, SPACE);
    StepLength(m, SPACE);
    StepKeepsCoherent(Marked, m, SPACE);
    hide Output;
  }

  function Closers(k: nat): bytes { seq(k, _ => CLOSE_BRACE) }

  lemma CloserStep(m: Machine)
    requires Ready(m) && !m.scan.quoted && m.scan.stack != []
    ensures var n := Step(Marked, m, CLOSE_BRACE);
      && Ready(n) && !n.scan.quoted && n.scan.stack == m.scan.stack[..|m.scan.stack| - 1]
      && |Output(n)| == |Output(m)| + 1
  {
    StepLength(m, CLOSE_BRACE);
    StepKeepsCoherent(Marked, m, CLOSE_BRACE);
    hide Output;
  }

  // Closing brackets, one by one.
  lemma {:induction false} Unwound(m: Machine, k: nat)
    requires Ready(m) && !m.scan.quoted && k <= |m.scan.stack|
    ensures var n := Steps(Marked, m, Closers(k));
      && Ready(n) && !n.scan.quoted && n.scan.stack == m.scan.stack[..|m.scan.stack| - k]
      && |Output(n)| == |Output(m)| + k
  {
    if k > 0 {
      hide Step, Output, Ready;
      Unwound(m, k - 1);
      var before := Steps(Marked, m, Closers(k - 1));
      CloserStep(before);
      StepsOne(before, CLOSE_BRACE);
      StepsJoin(m, Closers(k - 1), [CLOSE_BRACE]);
      assert Closers(k) == Closers(k - 1) + [CLOSE_BRACE];
    }
  }

  predicate Inert(data: bytes) {
    forall i :: 0 <= i < |data| ==> data[i] != QUOTE && data[i] != BACKSLASH
  }

  lemma QuotedStep(m: Machine, b: byte)
    requires Ready(m) && m.scan.quoted && b != QUOTE && b != BACKSLASH
    ensures var n := Step(Marked, m, b); Ready(n) && n.scan == m.scan && |Output(n)| == |Output(m)| + 1
  {
    StepLength(m, b);
    StepKeepsCoherent(Marked, m, b);
    hide Output;
  }

  // Inside a string nothing else has a meaning.
  lemma {:induction false} Quoted(m: Machine, data: bytes)
    requires Ready(m) && m.scan.quoted && Inert(data)
    ensures var n := Steps(Marked, m, data);
      Ready(n) && n.scan == m.scan && |Output(n)| == |Output(m)| + |data|
  {
    if data == [] {
      assert Steps(Marked, m, data) == m;
    } else {
      hide Step, Output, Ready;
      var shorter, last := data[..|data| - 1], data[|data| - 1];
      Quoted(m, shorter);
      var before := Steps(Marked, m, shorter);
      QuotedStep(before, last);
      StepsOne(before, last);
      StepsJoin(m, shorter, [last]);
      assert data == shorter + [last];
    }
  }

  const BATCH: bytes := [OPEN_BRACKET, OPEN_BRACE, CLOSE_BRACE, CLOSE_BRACKET]

  lemma StepsTwo(m: Machine)
    ensures Steps(Marked, m, EMPTY) == Step(Marked, Step(Marked, m, OPEN_BRACE), CLOSE_BRACE)
  {
    hide Step;
    StepsOne(m, OPEN_BRACE);
    StepsOne(Step(Marked, m, OPEN_BRACE), CLOSE_BRACE);
    StepsJoin(m, [OPEN_BRACE], [CLOSE_BRACE]);
    assert EMPTY == [OPEN_BRACE] + [CLOSE_BRACE];
  }

  // The empty object is marked at the top level and in a batch, and not inside a record
  // or deeper.
  lemma EmptyObject(m: Machine)
    requires Ready(m) && !m.scan.quoted && |m.scan.stack| <= 2
    ensures var n := Steps(Marked, m, EMPTY);
      && Coherent(n) && !n.scan.escaped && !n.scan.quoted && n.scan.stack == m.scan.stack
      && (n.open.Some? ==> |n.open.value| >= 2)
      && |Output(n)| == |Output(m)| + 2 +
           if m.scan.stack == [] || m.scan.stack == [OPEN_BRACKET] then 1 else 0
  {
    StepsTwo(m);
    var opened_ := Step(Marked, m, OPEN_BRACE);
    StepLength(m, OPEN_BRACE);
    StepLength(opened_, CLOSE_BRACE);
    StepKeepsCoherent(Marked, m, OPEN_BRACE);
    StepKeepsCoherent(Marked, opened_, CLOSE_BRACE);
    hide Output;
  }

  lemma StepsBatch(m: Machine)
    ensures Steps(Marked, m, BATCH)
         == Step(Marked, Steps(Marked, Step(Marked, m, OPEN_BRACKET), EMPTY), CLOSE_BRACKET)
  {
    hide Step;
    StepsOne(m, OPEN_BRACKET);
    StepsJoin(m, [OPEN_BRACKET], EMPTY);
    var inner := Steps(Marked, Step(Marked, m, OPEN_BRACKET), EMPTY);
    StepsOne(inner, CLOSE_BRACKET);
    StepsJoin(m, [OPEN_BRACKET] + EMPTY, [CLOSE_BRACKET]);
    assert BATCH == [OPEN_BRACKET] + EMPTY + [CLOSE_BRACKET];
  }

  // A batch with an empty object is marked at the top level, and not inside an array.
  lemma Batch(m: Machine)
    requires Ready(m) && !m.scan.quoted && |m.scan.stack| <= 1
    requires m.scan.stack != [] ==> m.scan.stack[0] != OPEN_BRACE
    ensures |Output(Steps(Marked, m, BATCH))| == |Output(m)| + 4 + if m.scan.stack == [] then 1 else 0
  {
    StepsBatch(m);
    var inside := Step(Marked, m, OPEN_BRACKET);
    StepLength(m, OPEN_BRACKET);
    StepKeepsCoherent(Marked, m, OPEN_BRACKET);
    assert Ready(inside) && inside.scan.stack == m.scan.stack + [OPEN_BRACKET];
    assert inside.scan.stack == [OPEN_BRACKET] <==> m.scan.stack == [];
    EmptyObject(inside);
    StepLength(Steps(Marked, inside, EMPTY), CLOSE_BRACKET);
    hide Output, Steps, Step;
  }

  // Out of a string at depth k, against inside a string or one bracket deeper.
  predicate Differ(near: Machine, far: Machine, k: nat) {
    && Coherent(near) && !near.scan.escaped && (near.open.Some? ==> near.open.value != [])
    && Coherent(far) && !far.scan.escaped && (far.open.Some? ==> far.open.value != [])
    && !near.scan.quoted && |near.scan.stack| == k
    && (far.scan.quoted || |far.scan.stack| == k + 1)
  }

  function Tail(far: Scan): bytes {
    if far.quoted || (far.stack != [] && far.stack[0] == OPEN_BRACE) then EMPTY else BATCH
  }

  function Telling(far: Scan, k: nat): bytes { [SPACE] + Closers(k) + Tail(far) }

  lemma NearMarks(m: Machine, far: Scan, k: nat)
    requires Coherent(m) && !m.scan.escaped && (m.open.Some? ==> m.open.value != [])
    requires !m.scan.quoted && |m.scan.stack| == k
    ensures |Output(Steps(Marked, m, Telling(far, k)))| == |Output(m)| + |Telling(far, k)| + 1
  {
    hide Step, Output;
    SpaceStep(m);
    var spaced := Steps(Marked, m, [SPACE]);
    StepsJoin(m, [SPACE], Closers(k));
    Unwound(spaced, k);
    var top := Steps(Marked, spaced, Closers(k));
    assert top.scan.stack == [];
    StepsJoin(m, [SPACE] + Closers(k), Tail(far));
    EmptyObject(top);
    Batch(top);
  }

  lemma FarDoesNot(m: Machine, k: nat)
    requires Coherent(m) && !m.scan.escaped && (m.open.Some? ==> m.open.value != [])
    requires m.scan.quoted || |m.scan.stack| == k + 1
    ensures |Output(Steps(Marked, m, Telling(m.scan, k)))| == |Output(m)| + |Telling(m.scan, k)|
  {
    hide Step, Output;
    SpaceStep(m);
    var spaced := Steps(Marked, m, [SPACE]);
    if m.scan.quoted {
      Quoted(spaced, Closers(k) + Tail(m.scan));
      StepsJoin(m, [SPACE], Closers(k) + Tail(m.scan));
      assert [SPACE] + (Closers(k) + Tail(m.scan)) == Telling(m.scan, k);
    } else {
      StepsJoin(m, [SPACE], Closers(k));
      Unwound(spaced, k);
      var deep := Steps(Marked, spaced, Closers(k));
      assert deep.scan.stack == m.scan.stack[..1] == [m.scan.stack[0]];
      StepsJoin(m, [SPACE] + Closers(k), Tail(m.scan));
      if m.scan.stack[0] == OPEN_BRACE { EmptyObject(deep); } else { Batch(deep); }
    }
  }

  lemma Told(near: Machine, far: Machine, k: nat)
    requires Differ(near, far, k) && |Output(near)| == |Output(far)|
    ensures var rest := Telling(far.scan, k);
      |Output(Steps(Marked, near, rest))| != |Output(Steps(Marked, far, rest))|
  {
    NearMarks(near, far.scan, k);
    FarDoesNot(far, k);
  }

  // -------------------------------------------------------------- at a chunk end

  // A backslash is only ever the second byte of a record, or later.
  predicate Filled(m: Machine) {
    m.open.Some? ==> m.open.value != [] && (m.scan.escaped ==> |m.open.value| >= 2)
  }

  lemma {:induction false} StepsFilled(h: bytes, q: nat)
    requires q <= |h|
    ensures Filled(StepsTo(Marked, START, h, q))
  {
    if q > 0 { StepsFilled(h, q - 1); }
  }

  // The machines right after a byte that is not harmless: one of them is out of a string
  // and higher up, or one is in a string, or one still escapes.
  lemma AfterByte(m: Machine, b: byte)
    requires Coherent(m) && Filled(m) && m.scan.escaped && !m.scan.quoted && Significant(m.scan.stack, b)
    ensures var unsplit, split := Step(Marked, m, b), Step(Marked, Carried(m), b);
      var n := |m.scan.stack|;
      && |Output(unsplit)| == |Output(split)| == |Output(m)| + 1
      && (b == QUOTE || b == OPEN_BRACE || b == OPEN_BRACKET ==> Differ(unsplit, split, n))
      && (b == CLOSE_BRACE || b == CLOSE_BRACKET ==> n > 0 && Differ(split, unsplit, n - 1))
  {
    StepLength(m, b);
    StepLength(Carried(m), b);
    StepKeepsCoherent(Marked, m, b);
    StepKeepsCoherent(Marked, Carried(m), b);
    assert Output(Carried(m)) == Output(m);
    hide Output;
  }

  // Behind a second backslash the next quote opens a string for one of them only.
  lemma AfterBackslash(m: Machine)
    requires Coherent(m) && Filled(m) && m.scan.escaped && !m.scan.quoted
    ensures var unsplit, split := Steps(Marked, m, [BACKSLASH, QUOTE]), Steps(Marked, Carried(m), [BACKSLASH, QUOTE]);
      |Output(unsplit)| == |Output(split)| && Differ(split, unsplit, |m.scan.stack|)
  {
    var u, v := Step(Marked, m, BACKSLASH), Step(Marked, Carried(m), BACKSLASH);
    AfterByte(m, BACKSLASH);
    StepKeepsCoherent(Marked, m, BACKSLASH);
    StepKeepsCoherent(Marked, Carried(m), BACKSLASH);
    StepKeepsCoherent(Marked, u, QUOTE);
    StepKeepsCoherent(Marked, v, QUOTE);
    StepLength(u, QUOTE);
    StepLength(v, QUOTE);
    StepsOne(m, BACKSLASH);
    StepsOne(Carried(m), BACKSLASH);
    StepsOne(u, QUOTE);
    StepsOne(v, QUOTE);
    assert [BACKSLASH, QUOTE] == [BACKSLASH] + [QUOTE];
    StepsJoin(m, [BACKSLASH], [QUOTE]);
    StepsJoin(Carried(m), [BACKSLASH], [QUOTE]);
    hide Output, Steps;
  }

  // A continuation that tells the machines apart.
  function Witness(m: Machine, b: byte): bytes
    requires Significant(m.scan.stack, b)
  {
    var n := |m.scan.stack|;
    if b == BACKSLASH then [QUOTE] + Telling(Steps(Marked, m, [BACKSLASH, QUOTE]).scan, n)
    else if b == CLOSE_BRACE || b == CLOSE_BRACKET then Telling(Step(Marked, m, b).scan, n - 1)
    else Telling(Step(Marked, Carried(m), b).scan, n)
  }

  lemma WitnessTells(m: Machine, b: byte)
    requires Coherent(m) && Filled(m) && m.scan.escaped && !m.scan.quoted && Significant(m.scan.stack, b)
    ensures var data := [b] + Witness(m, b);
      |Output(Steps(Marked, m, data))| != |Output(Steps(Marked, Carried(m), data))|
  {
    hide Step, Steps, Output, Telling, Carried, Differ;
    var rest, n := Witness(m, b), |m.scan.stack|;
    if b == BACKSLASH {
      AfterBackslash(m);
      var pair := [BACKSLASH, QUOTE];
      var unsplit := Steps(Marked, m, pair);
      Told(Steps(Marked, Carried(m), pair), unsplit, n);
      StepsJoin(m, pair, Telling(unsplit.scan, n));
      StepsJoin(Carried(m), pair, Telling(unsplit.scan, n));
      assert [b] + rest == pair + Telling(unsplit.scan, n);
    } else {
      AfterByte(m, b);
      StepsOne(m, b);
      StepsOne(Carried(m), b);
      StepsJoin(m, [b], rest);
      StepsJoin(Carried(m), [b], rest);
      if b == CLOSE_BRACE || b == CLOSE_BRACKET {
        Told(Step(Marked, Carried(m), b), Step(Marked, m, b), n - 1);
      } else {
        Told(Step(Marked, m, b), Step(Marked, Carried(m), b), n);
      }
    }
  }

  // At every chunk end that is not harmless, some continuation of the stream gives the
  // client, with this rewrite, something else than the reference.
  lemma HarmShows(h: bytes, b: byte)
    requires !Harmless(ScanAt(h, |h|), b)
    ensures exists rest: bytes ::
      Output(Fed(Marked, Steps(Marked, START, h), [[b] + rest])) != Reference(Marked, h + ([b] + rest))
  {
    var m := Steps(Marked, START, h);
    StepsScan(Marked, h, |h|);
    StepsCoherent(Marked, h, |h|);
    StepsFilled(h, |h|);
    var rest := Witness(m, b);
    var data := [b] + rest;
    WitnessTells(m, b);
    StepsJoin(START, h, data);
    MachineRefinesReference(Marked, h + data);
    FedOne(m, data);
    assert Output(Fed(Marked, Steps(Marked, START, h), [[b] + rest])) != Reference(Marked, h + ([b] + rest));
  }

  lemma FedOne(m: Machine, chunk: bytes)
    ensures Fed(Marked, m, [chunk]) == Steps(Marked, Carried(m), chunk)
  {
    assert Fed(Marked, Steps(Marked, Carried(m), chunk), [chunk][1..]) == Steps(Marked, Carried(m), chunk);
  }
}
