// The chunk-by-chunk rewriter of web/electrum_features.py, with its bounded record
// buffer, proved against the byte-by-byte machine and so against the whole-stream
// reference. `rewrite` is any function on records.
module FeatureReplies {
  import opened Common
  import opened FeatureModel

  // The record buffer: the bytes held back, the stack depth the record opened at,
  // and whether it outgrew the limit and is passed through.
  datatype Buffer = Buffer(record: Option<bytes>, depth: Option<nat>, passthrough: bool)

  // With `sent` written out and `gap` read but not yet appended, the buffer is at m.
  ghost predicate BufferAt(u: Buffer, m: Machine, sent: bytes, gap: bytes) {
    match m.open
    case None => u.record.None? && sent + gap == m.settled
    case Some(r) =>
      && u.record.Some? && u.depth == Some(m.depth) && |u.record.value| <= LIMIT
      && if u.passthrough then u.record.value == [] && sent + gap == m.settled + r && |r| - |gap| > LIMIT
         else sent == m.settled && u.record.value + gap == r
  }

  // The byte b neither opens nor closes a record at m.
  predicate Inner(m: Machine, b: byte) {
    if m.open.None? then !Opens(m.scan, b) else |ScanByte(m.scan, b).stack| != m.depth
  }

  // An inner byte only makes the gap longer.
  lemma GapGrows(rewrite: bytes -> bytes, u: Buffer, m: Machine, sent: bytes, gap: bytes, b: byte)
    requires BufferAt(u, m, sent, gap) && Inner(m, b)
    ensures BufferAt(u, Step(rewrite, m, b), sent, gap + [b])
  {
    assert sent + (gap + [b]) == (sent + gap) + [b];
    if m.open.Some? {
      var r := m.open.value;
      assert m.settled + (r + [b]) == (m.settled + r) + [b];
      if !u.passthrough {
        assert u.record.value + (gap + [b]) == (u.record.value + gap) + [b];
      }
    }
  }

  // The gap takes in the byte that closes the record.
  lemma GapStretches(u: Buffer, m: Machine, sent: bytes, gap: bytes, b: byte)
    requires m.open.Some? && BufferAt(u, m, sent, gap)
    ensures BufferAt(u, m.(open := Some(m.open.value + [b])), sent, gap + [b])
  {
    var r := m.open.value;
    assert sent + (gap + [b]) == (sent + gap) + [b];
    assert m.settled + (r + [b]) == (m.settled + r) + [b];
    if !u.passthrough {
      assert u.record.value + (gap + [b]) == (u.record.value + gap) + [b];
    }
  }

  lemma TwoSteps(rewrite: bytes -> bytes, m: Machine, data: bytes, pos: nat)
    requires pos < |data|
    ensures StepsTo(rewrite, m, data, pos + 1) == Step(rewrite, StepsTo(rewrite, m, data, pos), data[pos])
    ensures pos + 2 <= |data| ==>
      StepsTo(rewrite, m, data, pos + 2)
        == Step(rewrite, Step(rewrite, StepsTo(rewrite, m, data, pos), data[pos]), data[pos + 1])
  {
    hide Step;
  }

  class Rewriter {
    const rewrite: bytes -> bytes

    var stack: bytes
    var quoted: bool
    var escaped: bool
    var record: Option<bytes>
    var recordDepth: Option<nat>
    var passthrough: bool

    // The machine for everything fed so far.
    ghost var fed: Machine

    constructor (rewrite: bytes -> bytes)
      ensures Valid() && this.rewrite == rewrite && fed == START
    {
      this.rewrite := rewrite;
      stack, quoted, escaped := [], false, false;
      record, recordDepth, passthrough := None, None, false;
      fed := START;
    }

    // The lexical fields after m; an escape is remembered only inside a string.
    ghost predicate Scanned(m: Machine)
      reads this
    {
      stack == m.scan.stack && quoted == m.scan.quoted && escaped == (m.scan.escaped && m.scan.quoted)
    }

    ghost predicate Buffered(m: Machine, sent: bytes, gap: bytes)
      reads this
    {
      BufferAt(Buffer(record, recordDepth, passthrough), m, sent, gap)
    }

    ghost predicate Valid()
      reads this
    {
      Coherent(fed) && Scanned(fed) && Buffered(fed, Sent(fed), [])
    }

    // Appending the gap settles it: what is sent is all the machine has sent.
    method Append(data: bytes, output: bytes, ghost m: Machine, ghost before: bytes) returns (out: bytes)
      requires Buffered(m, before + output, data)
      modifies this`record, this`passthrough
      ensures Buffered(m, before + out, []) && before + out == Sent(m)
      ensures record.Some? ==> |record.value| <= LIMIT
    {
      if record.None? || passthrough {
        out := output + data;
        assert before + out == (before + output) + data;
      } else if |record.value| + |data| <= LIMIT {
        out := output;
        record := Some(record.value + data);
      } else {
        out := output + record.value + data;
        assert before + out == (before + output) + (record.value + data);
        record := Some([]);
        passthrough := true;
      }
    }

    // An opening bracket outside strings.
    method OpenBracket(b: byte, data: bytes, start: nat, pos: nat, output: bytes, ghost m: Machine,
                       ghost before: bytes)
      returns (next: nat, out: bytes)
      requires start <= pos < |data| && data[pos] == b && (b == OPEN_BRACE || b == OPEN_BRACKET)
      requires Coherent(m) && Scanned(m) && !m.scan.escaped && !m.scan.quoted
      requires Buffered(m, before + output, data[start..pos])
      modifies this
      ensures start <= next <= pos
      ensures var n := Step(rewrite, m, b);
        Scanned(n) && Buffered(n, before + out, data[next..pos + 1])
      ensures fed == old(fed)
    {
      next, out := start, output;
      if b == OPEN_BRACE && (stack == [] || stack == [OPEN_BRACKET]) {
        StepKeepsCoherent(rewrite, m, b);
        out := Append(data[start..pos], output, m, before);
        next := pos;
        record, recordDepth, passthrough := Some([]), Some(|stack|), false;
        assert data[pos..pos + 1] == [b];
      } else {
        GapGrows(rewrite, Buffer(record, recordDepth, passthrough), m, before + output, data[start..pos], b);
        assert data[start..pos] + [b] == data[start..pos + 1];
      }
      stack := stack + [b];
    }

    // A closing bracket outside strings, with some bracket open.
    method CloseBracket(b: byte, data: bytes, start: nat, pos: nat, output: bytes, ghost m: Machine,
                        ghost before: bytes)
      returns (next: nat, out: bytes)
      requires start <= pos < |data| && data[pos] == b && (b == CLOSE_BRACE || b == CLOSE_BRACKET)
      requires Coherent(m) && Scanned(m) && !m.scan.escaped && !m.scan.quoted && stack != []
      requires Buffered(m, before + output, data[start..pos])
      modifies this
      ensures start <= next <= pos + 1
      ensures var n := Step(rewrite, m, b);
        Scanned(n) && Buffered(n, before + out, data[next..pos + 1])
      ensures fed == old(fed)
    {
      next, out := start, output;
      stack := stack[..|stack| - 1];
      ghost var gap := data[start..pos];
      assert data[start..pos + 1] == gap + [b];
      if record.Some? && |stack| == recordDepth.value {
        GapStretches(Buffer(record, recordDepth, passthrough), m, before + output, gap, b);
        out := CloseRecord(data[start..pos + 1], output, m, b, before);
        next := pos + 1;
        assert data[next..pos + 1] == [];
      } else {
        GapGrows(rewrite, Buffer(record, recordDepth, passthrough), m, before + output, gap, b);
      }
    }

    // The record is complete: its rewrite is sent, or the rest of one passed through.
    method CloseRecord(data: bytes, output: bytes, ghost m: Machine, b: byte, ghost before: bytes)
      returns (out: bytes)
      requires m.open.Some? && |ScanByte(m.scan, b).stack| == m.depth
      requires Buffered(m.(open := Some(m.open.value + [b])), before + output, data)
      modifies this`record, this`recordDepth, this`passthrough
      ensures Buffered(Step(rewrite, m, b), before + out, [])
    {
      ghost var grown := m.(open := Some(m.open.value + [b]));
      out := Append(data, output, grown, before);
      if !passthrough {
        assert record.value == record.value + [] == m.open.value + [b];
        var written, replaced := out, rewrite(record.value);
        out := written + replaced;
        assert before + out == (before + written) + replaced;
      }
      record, recordDepth, passthrough := None, None, false;
      assert before + out + [] == before + out;
    }

    // A byte that opens and closes nothing: only the gap grows.
    ghost method SkipByte(data: bytes, start: nat, pos: nat, output: bytes, m: Machine, before: bytes)
      returns (n: Machine)
      requires start <= pos < |data|
      requires Coherent(m) && Buffered(m, before + output, data[start..pos])
      requires var b := data[pos];
        || m.scan.escaped || m.scan.quoted
        || !(b == OPEN_BRACE || b == OPEN_BRACKET || b == CLOSE_BRACE || b == CLOSE_BRACKET)
        || (b != OPEN_BRACE && b != OPEN_BRACKET && m.scan.stack == [])
      ensures n == Step(rewrite, m, data[pos])
      ensures Coherent(n) && Buffered(n, before + output, data[start..pos + 1])
    {
      n := Step(rewrite, m, data[pos]);
      StepKeepsCoherent(rewrite, m, data[pos]);
      GapGrows(rewrite, Buffer(record, recordDepth, passthrough), m, before + output, data[start..pos], data[pos]);
      assert data[start..pos] + [data[pos]] == data[start..pos + 1];
    }

    // A token of two bytes, or a lone backslash at the end of the chunk.
    method Escape(data: bytes, start: nat, pos: nat, output: bytes, ghost now: Machine, ghost before: bytes)
      returns (end: nat, ghost then_: Machine)
      requires start <= pos < |data| && data[pos] == BACKSLASH
      requires Coherent(now) && Scanned(now) && !now.scan.escaped
      requires Buffered(now, before + output, data[start..pos])
      modifies this`escaped
      ensures pos < end <= |data| && end <= pos + 2
      ensures then_ == (if end == pos + 1 then Step(rewrite, now, data[pos])
                        else Step(rewrite, Step(rewrite, now, data[pos]), data[pos + 1]))
      ensures Coherent(then_) && Scanned(then_)
      ensures end < |data| ==> !then_.scan.escaped
      ensures Buffered(then_, before + output, data[start..end])
    {
      end := pos + 1;
      then_ := SkipByte(data, start, pos, output, now, before);
      if end < |data| {
        then_ := SkipByte(data, start, end, output, then_, before);
        end := end + 1;
      } else {
        escaped := quoted;
      }
    }


    // One token: an escaped pair, or a single byte. `now` is the machine at pos.
    method Token(data: bytes, start: nat, pos: nat, output: bytes, ghost now: Machine, ghost before: bytes)
      returns (next: nat, end: nat, out: bytes, ghost then_: Machine)
      requires start <= pos < |data|
      requires Coherent(now) && Scanned(now) && !now.scan.escaped
      requires Buffered(now, before + output, data[start..pos])
      modifies this
      ensures start <= next <= end && pos < end <= |data| && end <= pos + 2
      ensures then_ == (if end == pos + 1 then Step(rewrite, now, data[pos])
                        else Step(rewrite, Step(rewrite, now, data[pos]), data[pos + 1]))
      ensures Coherent(then_) && Scanned(then_)
      ensures end < |data| ==> !then_.scan.escaped
      ensures Buffered(then_, before + out, data[next..end])
      ensures fed == old(fed)
    {
      hide Step, BufferAt, Coherent;
      if data[pos] == BACKSLASH {
        next, out := start, output;
        end, then_ := Escape(data, start, pos, output, now, before);
      } else {
        end := pos + 1;
        next, out, then_ := Unescaped(data, start, pos, output, now, before);
      }
    }

    // Any token but a backslash, or a byte between tokens.
    method Unescaped(data: bytes, start: nat, pos: nat, output: bytes, ghost now: Machine, ghost before: bytes)
      returns (next: nat, out: bytes, ghost then_: Machine)
      requires start <= pos < |data| && data[pos] != BACKSLASH
      requires Coherent(now) && Scanned(now) && !now.scan.escaped
      requires Buffered(now, before + output, data[start..pos])
      modifies this
      ensures start <= next <= pos + 1
      ensures then_ == Step(rewrite, now, data[pos])
      ensures Coherent(then_) && Scanned(then_) && !then_.scan.escaped
      ensures Buffered(then_, before + out, data[next..pos + 1])
      ensures fed == old(fed)
    {
      var b := data[pos];
      next, out := start, output;
      StepKeepsCoherent(rewrite, now, b);
      if !quoted && (b == OPEN_BRACE || b == OPEN_BRACKET) {
        next, out := OpenBracket(b, data, start, pos, output, now, before);
        then_ := Step(rewrite, now, b);
      } else if !quoted && (b == CLOSE_BRACE || b == CLOSE_BRACKET) && stack != [] {
        next, out := CloseBracket(b, data, start, pos, output, now, before);
        then_ := Step(rewrite, now, b);
      } else {
        then_ := SkipByte(data, start, pos, output, now, before);
        if b == QUOTE {
          quoted := !quoted;
        }
      }
    }


    // A chunk that starts behind an escape has its first byte skipped.
    method Resume(data: bytes) returns (pos: nat, ghost now: Machine)
      requires Valid() && data != []
      modifies this`escaped
      ensures pos <= 1 && now == StepsTo(rewrite, Carried(fed), data, pos)
      ensures Coherent(now) && Scanned(now) && !now.scan.escaped
      ensures Buffered(now, Sent(fed) + [], data[0..pos])
    {
      pos, now := 0, Carried(fed);
      assert Sent(fed) + [] == Sent(fed) && data[0..0] == [];
      if escaped {
        now := SkipByte(data, 0, 0, [], now, Sent(fed));
        pos := 1;
        assert now == StepsTo(rewrite, Carried(fed), data, 1);
      }
      escaped := false;
    }

    // The token at pos, counted from the start of the chunk.
    method Advance(data: bytes, start: nat, pos: nat, output: bytes, ghost now: Machine, ghost before: bytes,
                   ghost m0: Machine)
      returns (next: nat, end: nat, out: bytes, ghost then_: Machine)
      requires start <= pos < |data| && now == StepsTo(rewrite, m0, data, pos)
      requires Coherent(now) && Scanned(now) && !now.scan.escaped
      requires Buffered(now, before + output, data[start..pos])
      modifies this
      ensures start <= next <= end && pos < end <= |data|
      ensures then_ == StepsTo(rewrite, m0, data, end)
      ensures Coherent(then_) && Scanned(then_)
      ensures end < |data| ==> !then_.scan.escaped
      ensures Buffered(then_, before + out, data[next..end])
      ensures fed == old(fed)
    {
      next, end, out, then_ := Token(data, start, pos, output, now, before);
      hide Step, Coherent;
      TwoSteps(rewrite, m0, data, pos);
    }


    // A chunk brings the output exactly to what a byte-by-byte machine has sent, and
    // the buffer never holds more than LIMIT bytes. The relay never feeds an empty chunk.
    method Feed(data: bytes) returns (output: bytes)
      requires Valid() && data != []
      modifies this
      ensures Valid()
      ensures fed == Steps(rewrite, Carried(old(fed)), data)
      ensures Sent(fed) == Sent(old(fed)) + output
      ensures record.Some? ==> |record.value| <= LIMIT
    {
      hide Coherent, BufferAt, Sent, Step, StepsTo;
      ghost var m0, before := Carried(fed), Sent(fed);
      output := [];
      ghost var now;
      var start, pos := 0, 0;
      pos, now := Resume(data);
      while pos < |data|
        invariant 0 <= start <= pos <= |data|
        invariant now == StepsTo(rewrite, m0, data, pos)
        invariant Coherent(now) && Scanned(now)
        invariant pos < |data| ==> !now.scan.escaped
        invariant Buffered(now, before + output, data[start..pos])
        invariant fed == old(fed)
      {
        start, pos, output, now := Advance(data, start, pos, output, now, before, m0);
      }
      assert data[start..pos] == data[start..];
      output := Append(data[start..], output, now, before);
      fed := now;
    }

    // At the end of the stream an unfinished record is sent as it is.
    method Finish() returns (remaining: bytes)
      requires Valid()
      modifies this`record
      ensures remaining == Held(fed) && record.None?
    {
      remaining := if record.Some? then record.value else [];
      record := None;
      assert fed.open.Some? && !passthrough ==> remaining + [] == remaining;
    }
  }

  // The relay of web/electrum_tls.py: whatever the chunks, the client receives the
  // whole-stream reference, as long as every chunk end is harmless, which in JSON text
  // it is.
  method Relay(rewrite: bytes -> bytes, chunks: seq<bytes>) returns (sent: bytes)
    requires forall i :: 0 <= i < |chunks| ==> chunks[i] != []
    ensures CleanSplit([], chunks) ==> sent == Reference(rewrite, Join(chunks))
    ensures QuotedBackslashes(Join(chunks)) ==> sent == Reference(rewrite, Join(chunks))
  {
    var features := new Rewriter(rewrite);
    sent := [];
    for i := 0 to |chunks|
      invariant features.Valid() && features.rewrite == rewrite
      invariant Sent(features.fed) == sent
      invariant Fed(rewrite, START, chunks) == Fed(rewrite, features.fed, chunks[i..])
      modifies features
    {
      assert chunks[i..][0] == chunks[i] && chunks[i..][1..] == chunks[i + 1..];
      var output := features.Feed(chunks[i]);
      sent := sent + output;
    }
    assert chunks[|chunks|..] == [];
    var remaining := features.Finish();
    sent := sent + remaining;
    RelayedIsReference(rewrite, chunks);
  }

  lemma RelayedIsReference(rewrite: bytes -> bytes, chunks: seq<bytes>)
    requires forall i :: 0 <= i < |chunks| ==> chunks[i] != []
    ensures CleanSplit([], chunks) || QuotedBackslashes(Join(chunks)) ==>
      Sent(Fed(rewrite, START, chunks)) + Held(Fed(rewrite, START, chunks)) == Reference(rewrite, Join(chunks))
  {
    if QuotedBackslashes(Join(chunks)) {
      assert [] + Join(chunks) == Join(chunks);
      JsonSplitsCleanly([], chunks);
    }
    if CleanSplit([], chunks) {
      SplitDoesNotMatter(rewrite, [], chunks);
      assert [] + Join(chunks) == Join(chunks);
      MachineRefinesReference(rewrite, Join(chunks));
    }
  }
}
