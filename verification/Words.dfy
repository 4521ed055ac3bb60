/** The text helpers of Go's `strings` package that the Git modules use, on ASCII white space. */
module Words {
  import opened Octets

  predicate IsSpace(c: byte) {
    9 <= c <= 13 || c == 32
  }

  function TrimLeft(s: Bytes): (r: Bytes)
    ensures |r| <= |s|
  {
    if s != [] && IsSpace(s[0]) then TrimLeft(s[1..]) else s
  }

  function TrimRight(s: Bytes): (r: Bytes) {
    if s != [] && IsSpace(s[|s| - 1]) then TrimRight(s[..|s| - 1]) else s
  }

  function Trim(s: Bytes): (r: Bytes) {
    TrimRight(TrimLeft(s))
  }

  /** Length of the leading word. */
  function WordLen(s: Bytes): (n: nat)
    ensures n <= |s|
  {
    if s == [] || IsSpace(s[0]) then 0 else 1 + WordLen(s[1..])
  }

  /** `strings.Fields`. */
  function Fields(s: Bytes): (ws: seq<Bytes>)
    decreases |s|
  {
    var t := TrimLeft(s);
    if WordLen(t) == 0 then [] else [t[..WordLen(t)]] + Fields(t[WordLen(t)..])
  }

  lemma {:induction false} TrimRightIdle(s: Bytes)
    requires s != [] && !IsSpace(s[|s| - 1])
    ensures TrimRight(s + [10]) == s
  {
    var t := s + [10];
    assert t[..|t| - 1] == s;
  }

  /** Trimming a terminated line removes exactly the newline. */
  lemma TrimLine(s: Bytes)
    requires s != [] && !IsSpace(s[0]) && !IsSpace(s[|s| - 1])
    ensures Trim(s + [10]) == s
  {
    TrimRightIdle(s);
  }

  /** A non-empty word without white space. */
  predicate IsWord(w: Bytes) {
    w != [] && forall i :: 0 <= i < |w| ==> !IsSpace(w[i])
  }

  lemma {:induction false} WordLenIs(w: Bytes, rest: Bytes)
    requires forall i :: 0 <= i < |w| ==> !IsSpace(w[i])
    requires rest == [] || IsSpace(rest[0])
    ensures WordLen(w + rest) == |w|
  {
    if w == [] {
      assert w + rest == rest;
    } else {
      WordLenIs(w[1..], rest);
      assert (w + rest)[1..] == w[1..] + rest;
    }
  }

  lemma FieldsWord(w: Bytes, rest: Bytes)
    requires IsWord(w) && (rest == [] || IsSpace(rest[0]))
    ensures Fields(w + rest) == [w] + Fields(rest)
  {
    WordLenIs(w, rest);
    DropAppend(w, rest);
  }

  lemma FieldsLast(w: Bytes)
    requires IsWord(w)
    ensures Fields(w) == [w]
  {
    assert w + [] == w;
    FieldsWord(w, []);
  }

  lemma FieldsSpace(rest: Bytes)
    ensures Fields([32] + rest) == Fields(rest)
  {
    assert ([32] + rest)[1..] == rest;
  }
}
