/**
 Delta programs of the pack format (gitformat-pack, "Deltified representation").
 `ApplyDelta` is proved against a byte-level machine, and the machine against the
 meaning of a program: the concatenation of base slices and literals in order.
 The copy bound is computed in 32 bits, so a copy reaching past 2^32 passes the
 bound and then slices with swapped ends; that outcome is kept as `Panicked`.
 */
module Delta {
  import opened Octets
  import opened Varint

  datatype Op = Copy(offset: nat, length: nat) | Insert(literal: Bytes)

  datatype Outcome = Applied(target: Bytes) | Rejected | Panicked

  // ----- Meaning of a program -----

  /** What the operations produce from `base`; `None` if a copy leaves the base. */
  function Denote(base: Bytes, ops: seq<Op>): (r: Option<Bytes>) {
    if ops == [] then Some([])
    else
      var rest := Denote(base, ops[1..]);
      if rest.None? then None
      else
        match ops[0]
        case Insert(s) => Some(s + rest.value)
        case Copy(o, n) => if o + n <= |base| then Some(base[o..o + n] + rest.value) else None
  }

  /** The 32-bit sum of offset and length does not wrap. */
  predicate Safe32(op: Op) {
    op.Copy? ==> op.offset + op.length < 0x1_0000_0000
  }

  ghost predicate AllSafe(ops: seq<Op>) {
    forall i :: 0 <= i < |ops| ==> Safe32(ops[i])
  }

  // ----- Byte format -----

  /** The shifts of four offset bytes and three length bytes, each present when its command bit is set. */
  const SHIFTS: seq<nat> := [0, 8, 16, 24, 0, 8, 16]

  const COPY_ARGS: nat := |SHIFTS|

  /** The flagged argument bytes of a copy, absent ones being zero, and what follows them. */
  function Args(bits: nat, n: nat, delta: Bytes): (r: Option<(Bytes, Bytes)>)
    ensures r.Some? ==> |r.value.0| == n && |r.value.1| <= |delta|
    decreases n
  {
    if n == 0 then Some(([], delta))
    else if bits % 2 == 0 then
      var rest := Args(bits / 2, n - 1, delta);
      if rest.None? then None else Some(([0] + rest.value.0, rest.value.1))
    else if delta == [] then None
    else
      var rest := Args(bits / 2, n - 1, delta[1..]);
      if rest.None? then None else Some(([delta[0]] + rest.value.0, rest.value.1))
  }

  function CopyOffset(a: Bytes): (o: nat)
    requires |a| == 7
    ensures o < 0x1_0000_0000
  {
    a[0] + 256 * (a[1] + 256 * (a[2] + 256 * (a[3] as int)))
  }

  /** A zero length field stands for 65536. */
  function CopyLength(a: Bytes): (n: nat)
    requires |a| == 7
    ensures 0 < n < 0x100_0000
  {
    var n := a[4] + 256 * (a[5] + 256 * (a[6] as int));
    if n == 0 then 0x1_0000 else n
  }

  /** A copy with its argument flags, and what follows it. */
  function CopyAt(bits: nat, delta: Bytes): (r: Option<(Op, Bytes)>)
    ensures r.Some? ==> |r.value.1| <= |delta|
    ensures r.Some? ==> r.value.0.Copy? && r.value.0.offset < 0x1_0000_0000 && 0 < r.value.0.length < 0x100_0000
  {
    var args := Args(bits, COPY_ARGS, delta);
    if args.None? then None else Some((Copy(CopyOffset(args.value.0), CopyLength(args.value.0)), args.value.1))
  }

  /** The operation at the head of a non-empty program and the rest of it. */
  function NextOp(delta: Bytes): (r: Option<(Op, Bytes)>)
    requires delta != []
    ensures r.Some? ==> |r.value.1| < |delta|
    ensures r.Some? && r.value.0.Copy? ==> r.value.0.offset < 0x1_0000_0000 && 0 < r.value.0.length < 0x100_0000
  {
    var cmd := delta[0];
    if cmd >= 128 then CopyAt(cmd - 128, delta[1..])
    else if 0 < cmd < |delta| then Some((Insert(delta[1..1 + cmd]), delta[1 + cmd..]))
    else None
  }

  /** All operations up to the first malformed one, and whether there was none. */
  function Decode(delta: Bytes): (r: (seq<Op>, bool))
    decreases |delta|
  {
    if delta == [] then ([], true)
    else
      var next := NextOp(delta);
      if next.None? then ([], false)
      else
        var rest := Decode(next.value.1);
        ([next.value.0] + rest.0, rest.1)
  }

  // ----- The machine -----

  /** Sum of two `uint32` values. */
  function Sum32(a: nat, b: nat): (r: nat)
    requires a < 0x1_0000_0000 && b < 0x1_0000_0000
  {
    if a + b < 0x1_0000_0000 then a + b else a + b - 0x1_0000_0000
  }

  /** The piece one operation appends when `used` bytes of `size` are filled. */
  function Piece(base: Bytes, size: nat, op: Op, used: nat): (r: Outcome)
    requires op.Copy? ==> op.offset < 0x1_0000_0000 && op.length < 0x1_0000_0000
  {
    match op
    case Insert(s) => if used + |s| > size then Rejected else Applied(s)
    case Copy(o, n) =>
      var end := Sum32(o, n);
      if end > |base| || used + n > size then Rejected
      else if end < o then Panicked
      else Applied(base[o..end])
  }

  /** Execute the rest of a program after `out` has been produced. */
  function Run(base: Bytes, size: nat, delta: Bytes, out: Bytes): (r: Outcome)
    decreases |delta|
  {
    if delta == [] then (if |out| == size then Applied(out) else Rejected)
    else
      var next := NextOp(delta);
      if next.None? then Rejected
      else
        var piece := Piece(base, size, next.value.0, |out|);
        if piece.Applied? then Run(base, size, next.value.1, out + piece.target) else piece
  }

  /** The two sizes at the head of a delta and the program behind them. */
  datatype Sized = Sized(src: nat, size: nat, body: Bytes)

  function Sizes(delta: Bytes): (r: Option<Sized>) {
    var (src, n) := DecodeLeb(delta);
    if n == 0 then None
    else
      var (size, m) := DecodeLeb(delta[n..]);
      if m == 0 then None else Some(Sized(src, size, delta[n + m..]))
  }

  /** `limit` is the largest slice the runtime allocates; asking for more panics. */
  function Apply(limit: nat, base: Bytes, delta: Bytes): (r: Outcome) {
    match Sizes(delta)
    case None => Rejected
    case Some(z) =>
      if z.src != |base| then Rejected else if z.size > limit then Panicked else Run(base, z.size, z.body, [])
  }

  method CopyInto(target: array<byte>, pos: nat, src: Bytes)
    requires pos + |src| <= target.Length
    modifies target
    ensures target[..] == old(target[..pos]) + src + old(target[pos + |src|..])
  {
    forall i | 0 <= i < |src| {
      target[pos + i] := src[i];
    }
  }

  /** Carry out one operation on the target buffer, filled up to `targetPos`. */
  method Perform(base: Bytes, target: array<byte>, targetPos: nat, op: Op) returns (r: Outcome)
    requires targetPos <= target.Length
    requires op.Copy? ==> op.offset < 0x1_0000_0000 && op.length < 0x1_0000_0000
    modifies target
    ensures r == Piece(base, target.Length, op, targetPos)
    ensures r.Applied? ==> targetPos + |r.target| <= target.Length
    ensures r.Applied? ==> target[..targetPos + |r.target|] == old(target[..targetPos]) + r.target
  {
    match op {
      case Copy(offset, length) =>
        var end := Sum32(offset, length);
        if end > |base| || targetPos + length > target.Length {
          return Rejected;
        }
        if end < offset {
          return Panicked;
        }
        r := Applied(base[offset..end]);
      case Insert(s) =>
        if targetPos + |s| > target.Length {
          return Rejected;
        }
        r := Applied(s);
    }
    CopyInto(target, targetPos, r.target);
  }

  lemma RunStep(base: Bytes, size: nat, delta: Bytes, out: Bytes, next: Option<(Op, Bytes)>)
    requires delta != [] && next == NextOp(delta)
    ensures next.None? ==> Run(base, size, delta, out) == Rejected
    ensures next.Some? ==>
      var p := Piece(base, size, next.value.0, |out|);
      Run(base, size, delta, out) == if p.Applied? then Run(base, size, next.value.1, out + p.target) else p
  {
  }

  /** Argument bytes `a` in front of what is still to be read. */
  function Joined(a: Bytes, r: Option<(Bytes, Bytes)>): (t: Option<(Bytes, Bytes)>) {
    if r.None? then None else Some((a + r.value.0, r.value.1))
  }

  lemma JoinStep(a: Bytes, bits: nat, n: nat, delta: Bytes, next: Option<(byte, Bytes)>)
    requires n > 0
    requires next ==
      if bits % 2 == 0 then Some((0, delta)) else if delta == [] then None else Some((delta[0], delta[1..]))
    ensures next.None? ==> Joined(a, Args(bits, n, delta)) == None
    ensures next.Some? ==>
      Joined(a, Args(bits, n, delta)) == Joined(a + [next.value.0], Args(bits / 2, n - 1, next.value.1))
  {
    if next.Some? {
      var rest := Args(bits / 2, n - 1, next.value.1);
      if rest.Some? { Assoc(a, [next.value.0], rest.value.0); }
    }
  }

  /** One flagged argument byte, zero when its flag is clear; None at the end of the delta. */
  method TakeByte(flag: bool, delta: Bytes) returns (next: Option<(byte, Bytes)>)
    ensures next == if !flag then Some((0, delta)) else if delta == [] then None else Some((delta[0], delta[1..]))
  {
    if !flag {
      return Some((0, delta));
    }
    if |delta| == 0 {
      return None;
    }
    return Some((delta[0], delta[1..]));
  }

  /** The four offset bytes, lowest first. */
  method ReadOffset(bits: nat, d: Bytes, ghost n: nat) returns (r: Option<(nat, Bytes)>, ghost a: Bytes)
    requires n >= 4
    ensures r.None? ==> Args(bits, n, d) == None
    ensures r.Some? ==> |a| == 4 && r.value.0 == a[0] + 256 * (a[1] + 256 * (a[2] + 256 * (a[3] as int)))
    ensures r.Some? ==> Args(bits, n, d) == Joined(a, Args(bits / 2 / 2 / 2 / 2, n - 4, r.value.1))
  {
    a := [];
    assert Joined(a, Args(bits, n, d)) == Args(bits, n, d) by {
      if Args(bits, n, d).Some? { assert [] + Args(bits, n, d).value.0 == Args(bits, n, d).value.0; }
    }
    var b0 := TakeByte(bits % 2 == 1, d);
    JoinStep(a, bits, n, d, b0);
    if b0.None? { return None, []; }
    a := a + [b0.value.0];
    var b1 := TakeByte(bits / 2 % 2 == 1, b0.value.1);
    JoinStep(a, bits / 2, n - 1, b0.value.1, b1);
    if b1.None? { return None, []; }
    a := a + [b1.value.0];
    var b2 := TakeByte(bits / 2 / 2 % 2 == 1, b1.value.1);
    JoinStep(a, bits / 2 / 2, n - 2, b1.value.1, b2);
    if b2.None? { return None, []; }
    a := a + [b2.value.0];
    var b3 := TakeByte(bits / 2 / 2 / 2 % 2 == 1, b2.value.1);
    JoinStep(a, bits / 2 / 2 / 2, n - 3, b2.value.1, b3);
    if b3.None? { return None, []; }
    a := a + [b3.value.0];
    var offset := b0.value.0 + 0x100 * (b1.value.0 as int) + 0x1_0000 * (b2.value.0 as int)
      + 0x100_0000 * (b3.value.0 as int);
    return Some((offset, b3.value.1)), a;
  }

  /** The three length bytes, lowest first. */
  method ReadLength(bits: nat, d: Bytes, ghost n: nat) returns (r: Option<(nat, Bytes)>, ghost a: Bytes)
    requires n >= 3
    ensures r.None? ==> Args(bits, n, d) == None
    ensures r.Some? ==> |a| == 3 && r.value.0 == a[0] + 256 * (a[1] + 256 * (a[2] as int))
    ensures r.Some? ==> Args(bits, n, d) == Joined(a, Args(bits / 2 / 2 / 2, n - 3, r.value.1))
  {
    a := [];
    assert Joined(a, Args(bits, n, d)) == Args(bits, n, d) by {
      if Args(bits, n, d).Some? { assert [] + Args(bits, n, d).value.0 == Args(bits, n, d).value.0; }
    }
    var b0 := TakeByte(bits % 2 == 1, d);
    JoinStep(a, bits, n, d, b0);
    if b0.None? { return None, []; }
    a := a + [b0.value.0];
    var b1 := TakeByte(bits / 2 % 2 == 1, b0.value.1);
    JoinStep(a, bits / 2, n - 1, b0.value.1, b1);
    if b1.None? { return None, []; }
    a := a + [b1.value.0];
    var b2 := TakeByte(bits / 2 / 2 % 2 == 1, b1.value.1);
    JoinStep(a, bits / 2 / 2, n - 2, b1.value.1, b2);
    if b2.None? { return None, []; }
    a := a + [b2.value.0];
    var length := b0.value.0 + 0x100 * (b1.value.0 as int) + 0x1_0000 * (b2.value.0 as int);
    return Some((length, b2.value.1)), a;
  }

  /** A copy: up to four offset bytes and three length bytes, a zero length meaning 65536. */
  method ReadCopy(bits: nat, d: Bytes) returns (next: Option<(Op, Bytes)>)
    ensures next == CopyAt(bits, d)
  {
    var offset, a := ReadOffset(bits, d, COPY_ARGS);
    if offset.None? { return None; }
    var length, b := ReadLength(bits / 2 / 2 / 2 / 2, offset.value.1, COPY_ARGS - 4);
    if length.None? { return None; }
    CopyRead(bits, d, a, offset.value.1, b, length.value.1);
    return Some((Copy(offset.value.0, if length.value.0 == 0 then 0x1_0000 else length.value.0), length.value.1));
  }

  /** A literal of `d[0]` bytes. */
  method ReadInsert(d: Bytes) returns (next: Option<(Op, Bytes)>)
    requires d != [] && 0 < d[0] < 128
    ensures next == NextOp(d)
  {
    InsertRead(d);
    var length, delta := d[0], d[1..];
    if length > |delta| {
      return None;
    }
    return Some((Insert(delta[..length]), delta[length..]));
  }

  /** One instruction: the command byte, then its flagged bytes or its literal. */
  method ReadOp(d: Bytes) returns (next: Option<(Op, Bytes)>)
    requires d != []
    ensures next == NextOp(d)
  {
    var cmd := d[0];
    if cmd >= 128 {
      CopyNext(d);
      next := ReadCopy(cmd - 128, d[1..]);
    } else if cmd > 0 {
      next := ReadInsert(d);
    } else {
      next := None;
    }
  }

  lemma CopyNext(d: Bytes)
    requires d != [] && d[0] >= 128
    ensures NextOp(d) == CopyAt(d[0] - 128, d[1..])
  {
  }

  lemma InsertRead(d: Bytes)
    requires d != [] && 0 < d[0] < 128
    ensures NextOp(d) == if d[0] > |d[1..]| then None else Some((Insert(d[1..][..d[0]]), d[1..][d[0]..]))
  {
    if d[0] <= |d[1..]| {
      DropSlice(d, 1, 0, d[0]);
      DropDrop(d, 1, d[0]);
    }
  }

  lemma CopyRead(bits: nat, delta: Bytes, a: Bytes, mid: Bytes, b: Bytes, rest: Bytes)
    requires Args(bits, COPY_ARGS, delta) == Joined(a, Args(bits / 2 / 2 / 2 / 2, COPY_ARGS - 4, mid))
    requires Args(bits / 2 / 2 / 2 / 2, COPY_ARGS - 4, mid)
          == Joined(b, Args(bits / 2 / 2 / 2 / 2 / 2 / 2 / 2, COPY_ARGS - 4 - 3, rest))
    ensures Args(bits, COPY_ARGS, delta) == Some((a + b, rest))
  {
    assert b + [] == b;
  }

  method RunProgram(base: Bytes, targetSize: nat, body: Bytes) returns (r: Outcome)
    ensures r == Run(base, targetSize, body, [])
  {
    var target := new byte[targetSize](_ => 0);
    var targetPos: nat := 0;
    var d := body;
    ghost var result := Run(base, targetSize, body, []);
    ghost var out: Bytes := [];
    while |d| > 0
      invariant targetPos <= targetSize == target.Length
      invariant out == target[..targetPos]
      invariant result == Run(base, targetSize, d, out)
      decreases |d|
    {
      var next := ReadOp(d);
      RunStep(base, targetSize, d, out, next);
      if next.None? {
        return Rejected;
      }
      var done := Perform(base, target, targetPos, next.value.0);
      if !done.Applied? {
        return done;
      }
      targetPos := targetPos + |done.target|;
      out := out + done.target;
      d := next.value.1;
    }
    if targetPos != targetSize {
      return Rejected;
    }
    return Applied(target[..targetPos]);
  }

  method ApplyDelta(limit: nat, base: Bytes, delta: Bytes) returns (r: Outcome)
    ensures r == Apply(limit, base, delta)
  {
    if |delta| == 0 {
      return Rejected;
    }
    var srcSize, n := ReadLEB128(delta);
    if n <= 0 || srcSize != |base| {
      return Rejected;
    }
    var rest := delta[n..];
    var targetSize, m := ReadLEB128(rest);
    if m <= 0 {
      return Rejected;
    }
    assert rest[m..] == delta[n + m..];
    assert Sizes(delta) == Some(Sized(srcSize, targetSize, rest[m..]));
    if targetSize > limit {
      return Panicked;
    }
    r := RunProgram(base, targetSize, rest[m..]);
  }

  // ----- The machine computes the meaning -----

  /** The machine on decoded operations, without the final size test. */
  function Exec(base: Bytes, size: nat, ops: seq<Op>, out: Bytes): (r: Outcome)
    requires Fields32(ops)
  {
    if ops == [] then Applied(out)
    else
      var piece := Piece(base, size, ops[0], |out|);
      if piece.Applied? then Exec(base, size, ops[1..], out + piece.target) else piece
  }

  /** Copy fields fit the widths they are stored in. */
  ghost predicate Fields32(ops: seq<Op>) {
    forall i :: 0 <= i < |ops| && ops[i].Copy? ==> ops[i].offset < 0x1_0000_0000 && 0 < ops[i].length < 0x100_0000
  }

  function Finish(r: Outcome, size: nat, complete: bool): (f: Outcome) {
    if r.Applied? && !(complete && |r.target| == size) then Rejected else r
  }

  lemma {:induction false} DecodeFields(delta: Bytes)
    ensures Fields32(Decode(delta).0)
    decreases |delta|
  {
    if delta != [] && NextOp(delta).Some? {
      DecodeFields(NextOp(delta).value.1);
    }
  }

  /** Decoding while running is decoding first and then running. */
  lemma {:induction false} RunExec(base: Bytes, size: nat, delta: Bytes, out: Bytes)
    ensures Fields32(Decode(delta).0)
    ensures Run(base, size, delta, out) == Finish(Exec(base, size, Decode(delta).0, out), size, Decode(delta).1)
    decreases |delta|
  {
    DecodeFields(delta);
    if delta != [] && NextOp(delta).Some? {
      var op, rest := NextOp(delta).value.0, NextOp(delta).value.1;
      assert Decode(delta).0[1..] == Decode(rest).0;
      match Piece(base, size, op, |out|)
      case Applied(s) => RunExec(base, size, rest, out + s);
      case _ =>
    }
  }

  lemma DenoteHead(base: Bytes, op: Op)
    ensures Denote(base, [op]) ==
      if op.Insert? then Some(op.literal)
      else if op.offset + op.length <= |base| then Some(base[op.offset..op.offset + op.length]) else None
  {
    assert [op][1..] == [];
    match op
    case Insert(s) => assert s + [] == s;
    case Copy(o, n) => if o + n <= |base| { assert base[o..o + n] + [] == base[o..o + n]; }
  }

  lemma DenoteStep(base: Bytes, ops: seq<Op>)
    requires ops != []
    ensures
      var s, t := Denote(base, [ops[0]]), Denote(base, ops[1..]);
      Denote(base, ops) == if s.Some? && t.Some? then Some(s.value + t.value) else None
  {
    DenoteHead(base, ops[0]);
  }

  /** An operation yields exactly its meaning, if it is safe, in bounds and fits. */
  lemma PieceMeans(base: Bytes, size: nat, op: Op, used: nat)
    requires op.Copy? ==> op.offset < 0x1_0000_0000 && 0 < op.length < 0x100_0000
    ensures Piece(base, size, op, used).Applied? <==>
      Safe32(op) && Denote(base, [op]).Some? && used + |Denote(base, [op]).value| <= size
    ensures Piece(base, size, op, used).Applied? ==> Denote(base, [op]) == Some(Piece(base, size, op, used).target)
  {
    DenoteHead(base, op);
  }

  lemma AllSafeStep(ops: seq<Op>)
    requires ops != []
    ensures AllSafe(ops) <==> Safe32(ops[0]) && AllSafe(ops[1..])
    ensures Fields32(ops) ==> Fields32(ops[1..])
  {
    if Safe32(ops[0]) && AllSafe(ops[1..]) {
      forall i | 0 <= i < |ops| ensures Safe32(ops[i]) {
        if i > 0 { assert ops[i] == ops[1..][i - 1]; }
      }
    }
  }

  /** Operations succeed exactly when they are safe and mean something that fits, and then produce it. */
  lemma {:induction false} ExecMeans(base: Bytes, size: nat, ops: seq<Op>, out: Bytes)
    requires Fields32(ops) && |out| <= size
    ensures Exec(base, size, ops, out).Applied? <==>
      AllSafe(ops) && Denote(base, ops).Some? && |out| + |Denote(base, ops).value| <= size
    ensures Exec(base, size, ops, out).Applied? ==> Exec(base, size, ops, out).target == out + Denote(base, ops).value
  {
    if ops == [] {
      assert out + [] == out;
    } else {
      AllSafeStep(ops);
      DenoteStep(base, ops);
      PieceMeans(base, size, ops[0], |out|);
      var p := Piece(base, size, ops[0], |out|);
      if p.Applied? {
        ExecMeans(base, size, ops[1..], out + p.target);
        var t := Denote(base, ops[1..]);
        if t.Some? {
          assert (out + p.target) + t.value == out + (p.target + t.value);
        }
      }
    }
  }

  /** A delta as announced sizes and operations, `complete` when no operation is malformed. */
  datatype Script = Script(src: nat, size: nat, ops: seq<Op>, complete: bool)

  function Parse(delta: Bytes): (r: Option<Script>) {
    match Sizes(delta)
    case None => None
    case Some(z) => var d := Decode(z.body); Some(Script(z.src, z.size, d.0, d.1))
  }

  lemma ApplyExec(limit: nat, base: Bytes, delta: Bytes)
    ensures Parse(delta).Some? ==> Fields32(Parse(delta).value.ops)
    ensures Parse(delta).None? ==> Apply(limit, base, delta) == Rejected
    ensures Parse(delta).Some? ==>
      var p := Parse(delta).value;
      Apply(limit, base, delta) ==
      if p.src != |base| then Rejected
      else if p.size > limit then Panicked
      else Finish(Exec(base, p.size, p.ops, []), p.size, p.complete)
  {
    var z := Sizes(delta);
    if z.Some? {
      RunExec(base, z.value.size, z.value.body, []);
    }
  }

  /** Exactly the safe, in-bounds programs of the announced sizes apply, and they give their meaning. */
  lemma ApplyMeaning(limit: nat, base: Bytes, delta: Bytes, t: Bytes)
    ensures Apply(limit, base, delta) == Applied(t) <==>
      && Parse(delta).Some?
      && var p := Parse(delta).value;
      && p.src == |base| && p.size == |t| <= limit && p.complete
      && AllSafe(p.ops) && Denote(base, p.ops) == Some(t)
  {
    ApplyExec(limit, base, delta);
    if Parse(delta).Some? {
      var p := Parse(delta).value;
      ExecMeans(base, p.size, p.ops, []);
      if Denote(base, p.ops).Some? {
        assert [] + Denote(base, p.ops).value == Denote(base, p.ops).value;
      }
    }
  }

  // ----- When the 32-bit sum bites -----

  /** Operation `k` is reached and is a copy whose wrapped end passes both bounds. */
  ghost predicate WrapsAt(base: Bytes, size: nat, ops: seq<Op>, used: nat, k: nat)
    requires k < |ops|
  {
    && ops[k].Copy?
    && AllSafe(ops[..k])
    && Denote(base, ops[..k]).Some?
    && used + |Denote(base, ops[..k]).value| + ops[k].length <= size
    && 0x1_0000_0000 <= ops[k].offset + ops[k].length <= 0x1_0000_0000 + |base|
  }

  lemma WrapsAtShift(base: Bytes, size: nat, ops: seq<Op>, used: nat, k: nat)
    requires 0 < k < |ops|
    ensures WrapsAt(base, size, ops, used, k) <==>
      && Safe32(ops[0]) && Denote(base, [ops[0]]).Some?
      && WrapsAt(base, size, ops[1..], used + |Denote(base, [ops[0]]).value|, k - 1)
  {
    var pre := ops[..k];
    assert pre[1..] == ops[1..][..k - 1] && pre[0] == ops[0];
    AllSafeStep(pre);
    DenoteStep(base, pre);
  }

  lemma {:induction false} ExecPanics(base: Bytes, size: nat, ops: seq<Op>, out: Bytes)
    requires Fields32(ops)
    ensures Exec(base, size, ops, out) == Panicked ==> exists k :: 0 <= k < |ops| && WrapsAt(base, size, ops, |out|, k)
  {
    if ops != [] && Exec(base, size, ops, out) == Panicked {
      AllSafeStep(ops);
      PieceMeans(base, size, ops[0], |out|);
      var p := Piece(base, size, ops[0], |out|);
      if p.Applied? {
        ExecPanics(base, size, ops[1..], out + p.target);
        var k :| 0 <= k < |ops[1..]| && WrapsAt(base, size, ops[1..], |out + p.target|, k);
        WrapsAtShift(base, size, ops, |out|, k + 1);
        assert WrapsAt(base, size, ops, |out|, k + 1);
      } else {
        assert ops[..0] == [];
        assert WrapsAt(base, size, ops, |out|, 0);
      }
    }
  }

  lemma {:induction false} WrapPanics(base: Bytes, size: nat, ops: seq<Op>, out: Bytes, k: nat)
    requires Fields32(ops) && k < |ops| && WrapsAt(base, size, ops, |out|, k)
    ensures Exec(base, size, ops, out) == Panicked
    decreases k
  {
    AllSafeStep(ops);
    if k > 0 {
      WrapsAtShift(base, size, ops, |out|, k);
      PieceMeans(base, size, ops[0], |out|);
      var p := Piece(base, size, ops[0], |out|);
      assert p.Applied?;
      WrapPanics(base, size, ops[1..], out + p.target, k - 1);
    }
  }

  /**
   Applying panics exactly when the announced target is larger than the runtime allocates, or a reached copy wraps
   32 bits onto an in-bounds end.
   */
  lemma ApplyPanics(limit: nat, base: Bytes, delta: Bytes)
    ensures Apply(limit, base, delta) == Panicked <==>
      && Parse(delta).Some? && Parse(delta).value.src == |base|
      && var p := Parse(delta).value;
      p.size > limit || exists k :: 0 <= k < |p.ops| && WrapsAt(base, p.size, p.ops, 0, k)
  {
    ApplyExec(limit, base, delta);
    if Parse(delta).Some? {
      var p := Parse(delta).value;
      ExecPanics(base, p.size, p.ops, []);
      if k :| 0 <= k < |p.ops| && WrapsAt(base, p.size, p.ops, 0, k) {
        WrapPanics(base, p.size, p.ops, [], k);
      }
    }
  }

  // ----- Encoding -----

  /** Operations the format can express. */
  predicate Encodable(op: Op) {
    match op
    case Insert(s) => 0 < |s| < 128
    case Copy(o, n) => o < 0x1_0000_0000 && 0 < n < 0x100_0000
  }

  function Bits(a: Bytes): (r: nat) {
    if a == [] then 0 else (if a[0] != 0 then 1 else 0) + 2 * Bits(a[1..])
  }

  function NonZero(a: Bytes): (r: Bytes) {
    if a == [] then [] else Keep(a[0]) + NonZero(a[1..])
  }

  function Keep(b: byte): (r: Bytes) {
    if b == 0 then [] else [b]
  }

  function CopyArgs(o: nat, n: nat): (a: Bytes)
    requires o < 0x1_0000_0000 && 0 < n < 0x100_0000
    ensures |a| == 7
  {
    var len := if n == 0x1_0000 then 0 else n;
    [o % 256, o / 256 % 256, o / 256 / 256 % 256, o / 256 / 256 / 256] + [len % 256, len / 256 % 256, len / 256 / 256]
  }

  function EncodeOp(op: Op): (e: Bytes)
    requires Encodable(op)
  {
    match op
    case Insert(s) => [|s|] + s
    case Copy(o, n) =>
      var a := CopyArgs(o, n);
      BitsBound(a);
      [128 + Bits(a)] + NonZero(a)
  }

  lemma {:induction false} BitsBound(a: Bytes)
    ensures Bits(a) < Pow2(|a|)
    ensures |a| == 7 ==> Bits(a) < 128
  {
    if a != [] {
      BitsBound(a[1..]);
    }
    assert Pow2(7) == 128;
  }

  lemma {:induction false} ArgsRoundTrip(a: Bytes, rest: Bytes)
    ensures Args(Bits(a), |a|, NonZero(a) + rest) == Some((a, rest))
  {
    if a == [] {
      assert NonZero(a) + rest == rest;
    } else {
      var tail := a[1..];
      ArgsRoundTrip(tail, rest);
      BitsStep(a);
      assert NonZero(a) + rest == Keep(a[0]) + (NonZero(tail) + rest);
      assert a[0] != 0 ==> (NonZero(a) + rest)[1..] == NonZero(tail) + rest;
      assert a[0] == 0 ==> NonZero(a) + rest == NonZero(tail) + rest;
      assert a == [a[0]] + tail;
    }
  }

  lemma BitsStep(a: Bytes)
    requires a != []
    ensures Bits(a) / 2 == Bits(a[1..]) && Bits(a) % 2 == if a[0] == 0 then 0 else 1
  {
  }

  lemma CopyArgsRoundTrip(o: nat, n: nat)
    requires o < 0x1_0000_0000 && 0 < n < 0x100_0000
    ensures CopyOffset(CopyArgs(o, n)) == o && CopyLength(CopyArgs(o, n)) == n
  {
  }

  lemma NextCopy(d: Bytes, a: Bytes, rest: Bytes)
    requires d != [] && d[0] >= 128 && Args(d[0] - 128, COPY_ARGS, d[1..]) == Some((a, rest))
    ensures NextOp(d) == Some((Copy(CopyOffset(a), CopyLength(a)), rest))
  {
  }

  lemma CopyRoundTrip(o: nat, n: nat, d: Bytes, rest: Bytes)
    requires o < 0x1_0000_0000 && 0 < n < 0x100_0000
    requires d != [] && d[0] == 128 + Bits(CopyArgs(o, n)) && d[1..] == NonZero(CopyArgs(o, n)) + rest
    ensures NextOp(d) == Some((Copy(o, n), rest))
  {
    ArgsRoundTrip(CopyArgs(o, n), rest);
    NextCopy(d, CopyArgs(o, n), rest);
    CopyArgsRoundTrip(o, n);
  }

  lemma OpRoundTrip(op: Op, rest: Bytes)
    requires Encodable(op)
    ensures EncodeOp(op) + rest != [] && NextOp(EncodeOp(op) + rest) == Some((op, rest))
  {
    var e := EncodeOp(op);
    var d := e + rest;
    assert d[1..] == e[1..] + rest && d[0] == e[0];
    match op {
      case Insert(s) =>
        assert e[1..] == s;
        assert d[1..1 + |s|] == s && d[1 + |s|..] == rest;
      case Copy(o, n) =>
        BitsBound(CopyArgs(o, n));
        assert e[1..] == NonZero(CopyArgs(o, n));
        CopyRoundTrip(o, n, d, rest);
    }
  }

  function EncodeOps(ops: seq<Op>): (e: Bytes)
    requires forall i :: 0 <= i < |ops| ==> Encodable(ops[i])
  {
    if ops == [] then [] else EncodeOp(ops[0]) + EncodeOps(ops[1..])
  }

  lemma {:induction false} OpsRoundTrip(ops: seq<Op>)
    requires forall i :: 0 <= i < |ops| ==> Encodable(ops[i])
    ensures Decode(EncodeOps(ops)) == (ops, true)
  {
    if ops != [] {
      var op, rest := ops[0], ops[1..];
      OpRoundTrip(op, EncodeOps(rest));
      DecodeCons(EncodeOp(op) + EncodeOps(rest), op, EncodeOps(rest));
      OpsRoundTrip(rest);
      assert ops == [op] + rest;
    }
  }

  lemma DecodeCons(delta: Bytes, op: Op, rest: Bytes)
    requires delta != [] && NextOp(delta) == Some((op, rest))
    ensures Decode(delta) == ([op] + Decode(rest).0, Decode(rest).1)
  {
  }

  function EncodeDelta(src: nat, size: nat, ops: seq<Op>): (e: Bytes)
    requires forall i :: 0 <= i < |ops| ==> Encodable(ops[i])
  {
    EncodeGroups(src) + (EncodeGroups(size) + EncodeOps(ops))
  }

  lemma SizesRead(e: Bytes, f: Bytes, body: Bytes, src: nat, size: nat)
    requires e != [] && f != []
    requires DecodeLeb(e + (f + body)) == (src, |e|) && DecodeLeb(f + body) == (size, |f|)
    ensures Sizes(e + (f + body)) == Some(Sized(src, size, body))
  {
    DropAppend(e, f + body);
    DropAppend(f, body);
    DropDrop(e + (f + body), |e|, |f|);
  }

  lemma SizesRoundTrip(src: nat, size: nat, body: Bytes)
    requires src < 0x1_0000_0000_0000_0000 && size < 0x1_0000_0000_0000_0000
    ensures Sizes(EncodeGroups(src) + (EncodeGroups(size) + body)) == Some(Sized(src, size, body))
  {
    LebRoundTrip(src, EncodeGroups(size) + body);
    LebRoundTrip(size, body);
    SizesRead(EncodeGroups(src), EncodeGroups(size), body, src, size);
  }

  /** Encoding any operation list and applying it gives its meaning. */
  lemma ApplyEncoded(limit: nat, base: Bytes, ops: seq<Op>, t: Bytes)
    requires forall i :: 0 <= i < |ops| ==> Encodable(ops[i]) && Safe32(ops[i])
    requires |base| < 0x1_0000_0000_0000_0000 && |t| < 0x1_0000_0000_0000_0000 && |t| <= limit
    requires Denote(base, ops) == Some(t)
    ensures Apply(limit, base, EncodeDelta(|base|, |t|, ops)) == Applied(t)
  {
    SizesRoundTrip(|base|, |t|, EncodeOps(ops));
    OpsRoundTrip(ops);
    ApplyMeaning(limit, base, EncodeDelta(|base|, |t|, ops), t);
  }

  /** A delta that asks for no more than the runtime allocates and whose copies are 32-bit safe. */
  ghost predicate SafeDelta(limit: nat, delta: Bytes) {
    Parse(delta).Some? ==> Parse(delta).value.size <= limit && AllSafe(Parse(delta).value.ops)
  }

  /** For such a delta the outcome is an error or exactly the announced bytes. */
  lemma SafeApply(limit: nat, base: Bytes, delta: Bytes)
    requires SafeDelta(limit, delta)
    ensures Apply(limit, base, delta) != Panicked
    ensures Apply(limit, base, delta).Applied? ==>
      Parse(delta).Some? && |Apply(limit, base, delta).target| == Parse(delta).value.size
      && Denote(base, Parse(delta).value.ops) == Some(Apply(limit, base, delta).target)
  {
    ApplyPanics(limit, base, delta);
    if Apply(limit, base, delta).Applied? {
      ApplyMeaning(limit, base, delta, Apply(limit, base, delta).target);
    }
  }

  /** A two-byte copy from offset 2^32 - 1 of a one-byte base: the wrapped end is 1. */
  lemma WrapExample(limit: nat, base: Bytes)
    requires |base| == 1 && limit >= 2
    ensures Apply(limit, base, EncodeDelta(1, 2, [Copy(0xFFFF_FFFF, 2)])) == Panicked
  {
    var ops := [Copy(0xFFFF_FFFF, 2)];
    SizesRoundTrip(1, 2, EncodeOps(ops));
    OpsRoundTrip(ops);
    assert ops[..0] == [];
    assert WrapsAt(base, 2, ops, 0, 0);
    ApplyPanics(limit, base, EncodeDelta(1, 2, ops));
  }

  /** An empty program that announces one byte more than the runtime allocates. */
  lemma AllocationExample(limit: nat, base: Bytes)
    requires |base| < 0x1_0000_0000_0000_0000 && limit < 0xFFFF_FFFF_FFFF_FFFF
    ensures Apply(limit, base, EncodeDelta(|base|, limit + 1, [])) == Panicked
  {
    SizesRoundTrip(|base|, limit + 1, EncodeOps([]));
  }
}
