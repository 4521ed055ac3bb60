/**
 The variable-length integers of the pack format (gitformat-pack, "Size encoding"):
 the 4+7-bit object header, the LEB128 sizes of a delta and the biased offset of an
 offset delta.  Each reader loop is proved equal to a specification without shifts,
 and each specification is shown to invert its encoding.
 */
module Varint {
  import opened Octets

  /** Little-endian 7-bit groups read from `pos`, never at or past `limit`: value and next position. */
  function Groups(data: Bytes, pos: nat, limit: nat): (r: Option<(nat, nat)>)
    requires limit <= |data|
    ensures r.Some? ==> pos < r.value.1 <= limit
    decreases limit - pos
  {
    if pos >= limit then None
    else if data[pos] < 128 then Some((data[pos], pos + 1))
    else
      var rest := Groups(data, pos + 1, limit);
      if rest.None? then None else Some((data[pos] - 128 + 128 * rest.value.0, rest.value.1))
  }

  /** The minimal encoding of `v` in 7-bit groups. */
  function EncodeGroups(v: nat): (e: Bytes)
    ensures |e| >= 1
  {
    if v < 128 then [v] else [128 + v % 128] + EncodeGroups(v / 128)
  }

  lemma {:induction false} GroupsRoundTrip(pre: Bytes, v: nat, suf: Bytes, limit: nat)
    requires |pre| + |EncodeGroups(v)| <= limit <= |pre| + |EncodeGroups(v)| + |suf|
    ensures Groups(pre + EncodeGroups(v) + suf, |pre|, limit) == Some((v, |pre| + |EncodeGroups(v)|))
    decreases v
  {
    var data := pre + EncodeGroups(v) + suf;
    if v >= 128 {
      var b := 128 + v % 128;
      assert data == (pre + [b]) + EncodeGroups(v / 128) + suf;
      GroupsRoundTrip(pre + [b], v / 128, suf, limit);
      assert data[|pre|] == b;
    } else {
      assert data[|pre|] == v;
    }
  }

  lemma {:induction false} GroupCount(v: nat, k: nat)
    requires k >= 1 && v < Pow2(7 * k)
    ensures |EncodeGroups(v)| <= k
    decreases v
  {
    Pow2Seven(7 * (k - 1));
    if v >= 128 {
      GroupCount(v / 128, k - 1);
    }
  }

  lemma Pow2Seven(n: nat)
    ensures Pow2(n + 7) == 128 * Pow2(n)
  {
    assert Pow2(n + 7) == 2 * Pow2(n + 6) == 4 * Pow2(n + 5) == 8 * Pow2(n + 4);
    assert Pow2(n + 4) == 2 * Pow2(n + 3) == 4 * Pow2(n + 2) == 8 * Pow2(n + 1) == 16 * Pow2(n);
  }

  /** Nine 7-bit groups hold 63 bits, ten hold every 64-bit value. */
  lemma Pow2OfGroups(n: nat)
    requires n == 7
    ensures Pow2(9 * n) == 0x8000_0000_0000_0000 && Pow2(10 * n) > 0xFFFF_FFFF_FFFF_FFFF
  {
    assert Pow2(n) == 128;
    Pow2Seven(n); Pow2Seven(2 * n); Pow2Seven(3 * n); Pow2Seven(4 * n);
    assert Pow2(5 * n) == 0x8_0000_0000;
    Pow2Seven(5 * n); Pow2Seven(6 * n); Pow2Seven(7 * n); Pow2Seven(8 * n); Pow2Seven(9 * n);
  }

  /** One loop step `acc |= uint64(b & 0x7f) << shift`; `acc` has no bit at or above `shift`. */
  function OrGroup(acc: nat, b: byte, shift: nat): (r: nat)
    ensures r < 0x1_0000_0000_0000_0000
  {
    Wrap64(acc + b % 128 * Pow2(shift))
  }

  lemma OrGroupStep(acc: nat, b: byte, shift: nat, v: nat)
    requires acc < Pow2(shift)
    ensures Wrap64(OrGroup(acc, b, shift) + Pow2(shift + 7) * v) == Wrap64(acc + Pow2(shift) * (b % 128 + 128 * v))
    ensures OrGroup(acc, b, shift) < Pow2(shift + 7)
  {
    var p, g := Pow2(shift), b % 128;
    Pow2Seven(shift);
    WrapAdd(acc + g * p, 128 * p * v);
    Distribute(p, g, v);
    assert acc + g * p < 128 * p;
  }

  lemma Distribute(p: nat, g: nat, v: nat)
    requires g < 128
    ensures p * (g + 128 * v) == g * p + 128 * p * v
    ensures g * p <= 127 * p
  {
    assert p * (g + 128 * v) == p * g + p * (128 * v);
    assert p * (128 * v) == 128 * (p * v) == 128 * p * v;
  }

  // ----- Object header -----

  datatype Header = Header(kind: nat, size: nat, next: nat)

  /** The header at `pos`: three type bits, four size bits, then 7-bit groups; size modulo 2^64. */
  function DecodeHeader(data: Bytes, pos: nat, limit: nat): (r: Option<Header>)
    requires pos < limit <= |data|
    ensures r.Some? ==> r.value.kind < 8 && r.value.size < 0x1_0000_0000_0000_0000 && pos < r.value.next <= limit
  {
    var b := data[pos];
    if b < 128 then Some(Header(b / 16, b % 16, pos + 1))
    else
      var rest := Groups(data, pos + 1, limit);
      if rest.None? then None else Some(Header(b / 16 % 8, Wrap64(b % 16 + 16 * rest.value.0), rest.value.1))
  }

  /** The header loop: continue with `acc` read so far and the next group at bit `shift`. */
  function SizeFrom(data: Bytes, pos: nat, limit: nat, acc: nat, shift: nat): (r: Option<(nat, nat)>)
    requires limit <= |data|
    decreases limit - pos
  {
    if pos >= limit then None
    else
      var size := OrGroup(acc, data[pos], shift);
      if data[pos] < 128 then Some((size, pos + 1)) else SizeFrom(data, pos + 1, limit, size, shift + 7)
  }

  /** Shifting groups into place is the value of the group list, modulo 2^64. */
  lemma {:induction false} SizeFromGroups(data: Bytes, pos: nat, limit: nat, acc: nat, shift: nat)
    requires limit <= |data| && acc < Pow2(shift)
    ensures
      var groups := Groups(data, pos, limit);
      SizeFrom(data, pos, limit, acc, shift) ==
      if groups.None? then None else Some((Wrap64(acc + Pow2(shift) * groups.value.0), groups.value.1))
    decreases limit - pos
  {
    if pos < limit {
      var b := data[pos];
      if b < 128 {
        OrGroupStep(acc, b, shift, 0);
        assert Pow2(shift + 7) * 0 == 0;
      } else {
        var rest := Groups(data, pos + 1, limit);
        OrGroupStep(acc, b, shift, if rest.Some? then rest.value.0 else 0);
        SizeFromGroups(data, pos + 1, limit, OrGroup(acc, b, shift), shift + 7);
      }
    }
  }

  method ReadObjectHeader(data: Bytes, start: nat, limit: nat) returns (r: Option<Header>)
    requires start < limit <= |data|
    ensures r == DecodeHeader(data, start, limit)
  {
    var pos := start;
    var b := data[pos];
    pos := pos + 1;
    var kind, size, shift := b / 16 % 8, b % 16, 4;
    ghost var sized := if b < 128 then Some((size, pos)) else SizeFrom(data, pos, limit, size, shift);
    HeaderSize(data, start, limit);
    while b >= 128
      invariant start < pos <= limit && size >= 0
      invariant sized == if b < 128 then Some((size, pos)) else SizeFrom(data, pos, limit, size, shift)
      decreases limit - pos, b
    {
      if pos >= limit {
        return None;
      }
      b := data[pos];
      pos := pos + 1;
      size := OrGroup(size, b, shift);
      shift := shift + 7;
    }
    return Some(Header(kind, size, pos));
  }

  lemma HeaderSize(data: Bytes, pos: nat, limit: nat)
    requires pos < limit <= |data|
    ensures data[pos] >= 128 ==>
      var size := SizeFrom(data, pos + 1, limit, data[pos] % 16, 4);
      DecodeHeader(data, pos, limit) ==
      if size.None? then None else Some(Header(data[pos] / 16 % 8, size.value.0, size.value.1))
  {
    assert Pow2(4) == 16;
    SizeFromGroups(data, pos + 1, limit, data[pos] % 16, 4);
  }

  function EncodeHeader(kind: nat, size: nat): (e: Bytes)
    requires kind < 8
  {
    if size < 16 then [kind * 16 + size]
    else [128 + kind * 16 + size % 16] + EncodeGroups(size / 16)
  }

  method WriteObjectHeader(kind: nat, len: nat) returns (e: Bytes)
    requires kind < 8
    ensures e == EncodeHeader(kind, len)
  {
    var size := len / 16;
    var b: byte := if size > 0 then 128 + kind * 16 + len % 16 else kind * 16 + len % 16;
    e := [b];
    ghost var rest: Bytes := if size > 0 then EncodeGroups(size) else [];
    while size > 0
      invariant EncodeHeader(kind, len) == e + rest
      invariant rest == if size > 0 then EncodeGroups(size) else []
    {
      EncodeGroupsStep(size);
      rest := rest[1..];
      b := if size / 128 > 0 then 128 + size % 128 else size % 128;
      size := size / 128;
      e := e + [b];
    }
  }

  lemma EncodeGroupsStep(v: nat)
    ensures EncodeGroups(v) ==
      [if v / 128 > 0 then 128 + v % 128 else v % 128] + (if v / 128 > 0 then EncodeGroups(v / 128) else [])
  {
  }

  /** Every 64-bit size survives the header, whatever surrounds it. */
  lemma HeaderRoundTrip(pre: Bytes, kind: nat, size: nat, suf: Bytes, limit: nat)
    requires kind < 8 && size < 0x1_0000_0000_0000_0000
    requires |pre| + |EncodeHeader(kind, size)| <= limit <= |pre| + |EncodeHeader(kind, size)| + |suf|
    ensures DecodeHeader(pre + EncodeHeader(kind, size) + suf, |pre|, limit)
         == Some(Header(kind, size, |pre| + |EncodeHeader(kind, size)|))
  {
    var e := EncodeHeader(kind, size);
    var data := pre + e + suf;
    assert data[|pre|] == e[0];
    if size >= 16 {
      assert data == (pre + [e[0]]) + EncodeGroups(size / 16) + suf;
      GroupsRoundTrip(pre + [e[0]], size / 16, suf, limit);
    }
  }

  // ----- LEB128 -----

  /** `(value, count)`; a count of zero reports a truncated or over-long number. */
  function DecodeLeb(data: Bytes): (r: (nat, nat))
    ensures r.0 < 0x1_0000_0000_0000_0000 && r.1 <= |data| && r.1 <= 10
  {
    var groups := Groups(data, 0, if |data| < 10 then |data| else 10);
    if groups.None? then (0, 0) else (Wrap64(groups.value.0), groups.value.1)
  }

  method ReadLEB128(data: Bytes) returns (val: nat, n: nat)
    ensures (val, n) == DecodeLeb(data)
  {
    ghost var limit := if |data| < 10 then |data| else 10;
    var i, shift := 0, 0;
    val := 0;
    LebSize(data, limit);
    ghost var sized := SizeFrom(data, 0, limit, 0, 0);
    while i < |data|
      invariant i <= limit && shift == 7 * i && (i == 10 ==> i == |data|)
      invariant sized == SizeFrom(data, i, limit, val, shift)
    {
      var b := data[i];
      val := OrGroup(val, b, shift);
      shift := shift + 7;
      if b < 128 {
        return val, i + 1;
      }
      if shift >= 64 {
        return 0, 0;
      }
      i := i + 1;
    }
    return 0, 0;
  }

  lemma LebSize(data: Bytes, limit: nat)
    requires limit == if |data| < 10 then |data| else 10
    ensures
      var size := SizeFrom(data, 0, limit, 0, 0);
      DecodeLeb(data) == if size.None? then (0, 0) else size.value
  {
    assert Pow2(0) == 1;
    SizeFromGroups(data, 0, limit, 0, 0);
  }

  /** The minimal LEB128 form of every 64-bit value is read back with its exact byte count. */
  lemma LebRoundTrip(v: nat, suf: Bytes)
    requires v < 0x1_0000_0000_0000_0000
    ensures DecodeLeb(EncodeGroups(v) + suf) == (v, |EncodeGroups(v)|)
  {
    var e := EncodeGroups(v);
    Pow2OfGroups(7);
    GroupCount(v, 10);
    var data := e + suf;
    assert data == [] + e + suf;
    GroupsRoundTrip([], v, suf, if |data| < 10 then |data| else 10);
  }

  // ----- Biased offsets -----

  /** Continue reading a biased offset whose groups so far give `acc`. */
  function OfsFrom(data: Bytes, pos: nat, limit: nat, acc: nat): (r: Option<(nat, nat)>)
    requires limit <= |data|
    ensures r.Some? ==> pos < r.value.1 <= limit && r.value.0 < 0x1_0000_0000_0000_0000
    decreases limit - pos
  {
    if pos >= limit then None
    else
      var ofs := Wrap64((acc + 1) * 128 + data[pos] % 128);
      if data[pos] < 128 then Some((ofs, pos + 1)) else OfsFrom(data, pos + 1, limit, ofs)
  }

  function DecodeOfs(data: Bytes, pos: nat, limit: nat): (r: Option<(nat, nat)>)
    requires limit <= |data|
    ensures r.Some? ==> pos < r.value.1 <= limit && r.value.0 < 0x1_0000_0000_0000_0000
  {
    if pos >= limit then None
    else if data[pos] < 128 then Some((data[pos], pos + 1))
    else OfsFrom(data, pos + 1, limit, data[pos] % 128)
  }

  method ReadOfs(data: Bytes, start: nat, limit: nat) returns (r: Option<(nat, nat)>)
    requires limit <= |data|
    ensures r == DecodeOfs(data, start, limit)
  {
    if start >= limit {
      return None;
    }
    var pos := start;
    var b := data[pos];
    pos := pos + 1;
    var ofs := b % 128;
    while b >= 128
      invariant start < pos <= limit && ofs >= 0
      invariant DecodeOfs(data, start, limit) ==
        if b < 128 then Some((ofs, pos)) else OfsFrom(data, pos, limit, ofs)
      decreases limit - pos, b
    {
      if pos >= limit {
        return None;
      }
      b := data[pos];
      pos := pos + 1;
      ofs := Wrap64((ofs + 1) * 128 + b % 128);
    }
    return Some((ofs, pos));
  }

  /** All groups of a biased offset but the last, each with its continuation bit. */
  function OfsHigh(v: nat): (e: Bytes)
    ensures |e| >= 1 && forall i :: 0 <= i < |e| ==> e[i] >= 128
  {
    if v < 128 then [128 + v] else OfsHigh(v / 128 - 1) + [128 + v % 128]
  }

  function EncodeOfs(v: nat): (e: Bytes) {
    if v < 128 then [v] else OfsHigh(v / 128 - 1) + [v % 128]
  }

  /** The unbounded value of a group list: big-endian with a bias of one per continuation. */
  function OfsValue(e: Bytes): (v: nat)
    requires |e| >= 1
  {
    if |e| == 1 then e[0] % 128 else (OfsValue(e[..|e| - 1]) + 1) * 128 + e[|e| - 1] % 128
  }

  ghost predicate OfsForm(e: Bytes) {
    |e| >= 1 && e[|e| - 1] < 128 && forall i :: 0 <= i < |e| - 1 ==> e[i] >= 128
  }

  lemma {:induction false} OfsHighInverts(e: Bytes)
    requires |e| >= 1 && forall i :: 0 <= i < |e| ==> e[i] >= 128
    ensures OfsHigh(OfsValue(e)) == e
  {
    if |e| > 1 {
      var front, last := e[..|e| - 1], e[|e| - 1];
      OfsHighInverts(front);
      OfsHighStep(OfsValue(front), last);
      assert e == front + [last];
    }
  }

  lemma OfsHighStep(v: nat, b: byte)
    requires b >= 128
    ensures OfsHigh((v + 1) * 128 + b % 128) == OfsHigh(v) + [b]
  {
    var w := (v + 1) * 128 + b % 128;
    assert w / 128 - 1 == v && w % 128 == b - 128;
  }

  /** Nine groups stay below 2^64: the value of `n` groups is below 128^n + ... + 128. */
  lemma {:induction false} OfsValueBound(e: Bytes)
    requires |e| >= 1
    ensures 127 * (OfsValue(e) + 1) <= 128 * (Pow2(7 * |e|) - 1)
  {
    if |e| == 1 {
      assert Pow2(0) == 1;
      Pow2Seven(0);
    } else {
      OfsValueBound(e[..|e| - 1]);
      Pow2Seven(7 * (|e| - 1));
      assert 7 * (|e| - 1) + 7 == 7 * |e|;
    }
  }

  lemma {:induction false} OfsValueMonotone(e: Bytes, k: nat)
    requires 1 <= k <= |e|
    ensures OfsValue(e[..k]) <= OfsValue(e)
  {
    if k < |e| {
      var front := e[..|e| - 1];
      OfsValueMonotone(front, k);
      assert front[..k] == e[..k];
    } else {
      assert e[..k] == e;
    }
  }

  lemma {:induction false} OfsFromValue(pre: Bytes, e: Bytes, suf: Bytes, limit: nat, k: nat)
    requires OfsForm(e) && 1 <= k < |e| && OfsValue(e) < 0x1_0000_0000_0000_0000
    requires |pre| + |e| <= limit <= |pre| + |e| + |suf|
    ensures OfsFrom(pre + e + suf, |pre| + k, limit, OfsValue(e[..k])) == Some((OfsValue(e), |pre| + |e|))
    decreases |e| - k
  {
    var data := pre + e + suf;
    assert data[|pre| + k] == e[k];
    var next := e[..k + 1];
    assert next[..k] == e[..k];
    OfsValueMonotone(e, k + 1);
    if k + 1 == |e| {
      assert next == e;
    } else {
      OfsFromValue(pre, e, suf, limit, k + 1);
    }
  }

  /** The reader computes the biased value of any well-formed group list that fits 64 bits. */
  lemma DecodeOfsValue(pre: Bytes, e: Bytes, suf: Bytes, limit: nat)
    requires OfsForm(e) && OfsValue(e) < 0x1_0000_0000_0000_0000
    requires |pre| + |e| <= limit <= |pre| + |e| + |suf|
    ensures DecodeOfs(pre + e + suf, |pre|, limit) == Some((OfsValue(e), |pre| + |e|))
  {
    assert (pre + e + suf)[|pre|] == e[0];
    if |e| > 1 {
      assert e[..1] == [e[0]];
      OfsFromValue(pre, e, suf, limit, 1);
    }
  }

  lemma {:induction false} OfsHighValue(v: nat)
    ensures OfsValue(OfsHigh(v)) == v
  {
    if v >= 128 {
      OfsHighValue(v / 128 - 1);
      assert OfsHigh(v)[..|OfsHigh(v)| - 1] == OfsHigh(v / 128 - 1);
    }
  }

  lemma EncodeOfsForm(v: nat)
    ensures OfsForm(EncodeOfs(v)) && OfsValue(EncodeOfs(v)) == v
  {
    if v >= 128 {
      var e := EncodeOfs(v);
      OfsHighValue(v / 128 - 1);
      assert e[..|e| - 1] == OfsHigh(v / 128 - 1);
    }
  }

  /** Every 64-bit offset survives its biased encoding. */
  lemma OfsRoundTrip(pre: Bytes, v: nat, suf: Bytes, limit: nat)
    requires v < 0x1_0000_0000_0000_0000
    requires |pre| + |EncodeOfs(v)| <= limit <= |pre| + |EncodeOfs(v)| + |suf|
    ensures DecodeOfs(pre + EncodeOfs(v) + suf, |pre|, limit) == Some((v, |pre| + |EncodeOfs(v)|))
  {
    EncodeOfsForm(v);
    DecodeOfsValue(pre, EncodeOfs(v), suf, limit);
  }

  lemma OfsFits(e: Bytes)
    requires 1 <= |e| <= 9
    ensures OfsValue(e) < 0x1_0000_0000_0000_0000
  {
    OfsValueBound(e);
    Pow2Monotone(7 * |e|, 63);
    Pow2OfGroups(7);
  }

  lemma EncodeOfsValue(e: Bytes)
    requires OfsForm(e)
    ensures EncodeOfs(OfsValue(e)) == e
  {
    if |e| > 1 {
      var front, last := e[..|e| - 1], e[|e| - 1];
      assert OfsHigh(OfsValue(front)) == front by { OfsHighInverts(front); }
      EncodeOfsStep(OfsValue(front), last);
      assert e == front + [last];
    }
  }

  lemma EncodeOfsStep(v: nat, b: byte)
    requires b < 128
    ensures EncodeOfs((v + 1) * 128 + b % 128) == OfsHigh(v) + [b]
  {
    var w := (v + 1) * 128 + b % 128;
    assert w / 128 - 1 == v && w % 128 == b;
  }

  /** Up to nine groups, the biased form is a bijection: the value determines the bytes. */
  lemma OfsCanonical(e: Bytes)
    requires OfsForm(e) && |e| <= 9
    ensures DecodeOfs(e, 0, |e|) == Some((OfsValue(e), |e|))
    ensures EncodeOfs(OfsValue(e)) == e
  {
    assert DecodeOfs(e, 0, |e|) == Some((OfsValue(e), |e|)) by {
      OfsFits(e);
      assert e == [] + e + [];
      DecodeOfsValue([], e, [], |e|);
    }
    EncodeOfsValue(e);
  }

  lemma {:induction false} Pow2Monotone(a: nat, b: nat)
    requires a <= b
    ensures Pow2(a) <= Pow2(b)
  {
    if a < b {
      Pow2Monotone(a, b - 1);
    }
  }

  /** Two encodings of at most nine bytes that decode to the same offset are the same bytes. */
  lemma OfsInjective(e: Bytes, f: Bytes)
    requires OfsForm(e) && OfsForm(f) && |e| <= 9 && |f| <= 9
    requires DecodeOfs(e, 0, |e|).Some? && DecodeOfs(f, 0, |f|).Some?
    requires DecodeOfs(e, 0, |e|).value.0 == DecodeOfs(f, 0, |f|).value.0
    ensures e == f
  {
    OfsCanonical(e);
    OfsCanonical(f);
  }
}
