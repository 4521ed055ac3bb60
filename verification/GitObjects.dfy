/** Reading commits and trees. */
module GitObjects {
  import opened Octets
  import opened Words

  // ----- Commits -----

  datatype Commit = Commit(oid: Bytes, tree: Bytes, parents: seq<Bytes>, author: Bytes, message: Bytes)

  /** Everything before the first empty line. */
  function HeaderOf(data: Bytes): (h: Bytes) {
    if data == [] || (|data| >= 2 && data[0] == 10 && data[1] == 10) then [] else [data[0]] + HeaderOf(data[1..])
  }

  /** Everything after it. */
  function MessageOf(data: Bytes): (m: Bytes) {
    var n := |HeaderOf(data)|;
    if n + 2 <= |data| then data[n + 2..] else []
  }

  /** Length of the first line. */
  function LineLen(s: Bytes): (n: nat)
    ensures n <= |s| && (n < |s| ==> s[n] == 10)
  {
    if s == [] || s[0] == 10 then 0 else 1 + LineLen(s[1..])
  }

  /** `strings.Split(s, "\n")`. */
  function SplitLines(s: Bytes): (ls: seq<Bytes>)
    decreases |s|
  {
    var n := LineLen(s);
    if n == |s| then [s] else [s[..n]] + SplitLines(s[n + 1..])
  }

  function AddHeader(c: Commit, line: Bytes): (r: Commit) {
    if HasPrefix(line, Ascii("tree ")) then c.(tree := Trim(line[5..]))
    else if HasPrefix(line, Ascii("parent ")) then
      var p := Trim(line[7..]);
      if p == [] then c else c.(parents := c.parents + [p])
    else if HasPrefix(line, Ascii("author ")) then c.(author := Trim(line[7..]))
    else c
  }

  function AddHeaders(c: Commit, lines: seq<Bytes>): (r: Commit)
    decreases |lines|
  {
    if lines == [] then c else AddHeaders(AddHeader(c, lines[0]), lines[1..])
  }

  function ParseCommit(oid: Bytes, data: Bytes): (c: Commit) {
    AddHeaders(Commit(oid, [], [], [], MessageOf(data)), SplitLines(HeaderOf(data)))
  }

  method ParseCommitObject(oid: Bytes, data: Bytes) returns (info: Commit)
    ensures info == ParseCommit(oid, data)
  {
    info := Commit(oid, [], [], [], MessageOf(data));
    var lines := SplitLines(HeaderOf(data));
    assert lines[0..] == lines;
    for i := 0 to |lines|
      invariant ParseCommit(oid, data) == AddHeaders(info, lines[i..])
    {
      assert lines[i..][0] == lines[i] && lines[i..][1..] == lines[i + 1..];
      var line := lines[i];
      if HasPrefix(line, Ascii("tree ")) {
        info := info.(tree := Trim(line[5..]));
      } else if HasPrefix(line, Ascii("parent ")) {
        var parent := Trim(line[7..]);
        if parent != [] {
          info := info.(parents := info.parents + [parent]);
        }
      } else if HasPrefix(line, Ascii("author ")) {
        info := info.(author := Trim(line[7..]));
      }
    }
  }

  // ----- Trees -----

  /** Length of the part before the first NUL. */
  function NulLen(s: Bytes): (n: nat)
    ensures n <= |s| && (n < |s| ==> s[n] == 0)
  {
    if s == [] || s[0] == 0 then 0 else 1 + NulLen(s[1..])
  }

  /** The identifiers a tree refers to, up to the first incomplete entry. */
  function TreeEntries(data: Bytes): (oids: seq<Bytes>)
    decreases |data|
  {
    var n := NulLen(data);
    if n + 21 > |data| then [] else [Hex(data[n + 1..n + 21])] + TreeEntries(data[n + 21..])
  }

  method ParseTreeEntries(data: Bytes) returns (oids: seq<Bytes>)
    ensures oids == TreeEntries(data)
  {
    oids := [];
    var pos := 0;
    ghost var rest := TreeEntries(data);
    assert data[0..] == data && oids + rest == rest;
    while pos < |data|
      invariant 0 <= pos <= |data|
      invariant rest == TreeEntries(data[pos..]) && oids + rest == TreeEntries(data)
    {
      var nullIdx := NulLen(data[pos..]);
      if nullIdx == |data| - pos || pos + nullIdx + 1 + 20 > |data| {
        break;
      }
      var start := pos + nullIdx + 1;
      TreeStep(data, pos, nullIdx);
      rest := TreeEntries(data[start + 20..]);
      Assoc(oids, [Hex(data[start..start + 20])], rest);
      oids := oids + [Hex(data[start..start + 20])];
      pos := start + 20;
    }
    assert rest == [];
    assert oids + [] == oids;
  }

  lemma TreeCons(d: Bytes, n: nat, sha: Bytes, rest: Bytes)
    requires n + 21 <= |d| && n == NulLen(d) && sha == d[n + 1..n + 21] && rest == d[n + 21..]
    ensures TreeEntries(d) == [Hex(sha)] + TreeEntries(rest)
  {
  }

  lemma TreeStep(data: Bytes, pos: nat, n: nat)
    requires pos + n + 21 <= |data| && n == NulLen(data[pos..])
    ensures TreeEntries(data[pos..]) == [Hex(data[pos + n + 1..pos + n + 21])] + TreeEntries(data[pos + n + 21..])
  {
    var sha, rest := data[pos + n + 1..pos + n + 21], data[pos + n + 21..];
    DropDrop(data, pos, n + 21);
    DropSlice(data, pos, n + 1, n + 21);
    TreeCons(data[pos..], n, sha, rest);
  }

  // ----- Writing and reading back -----

  /** A tree entry: mode and name, without NUL, and a 20-byte identifier. */
  datatype Item = Item(name: Bytes, sha: Bytes)

  ghost predicate GoodItem(e: Item) {
    |e.sha| == 20 && forall i :: 0 <= i < |e.name| ==> e.name[i] != 0
  }

  function WriteTree(items: seq<Item>): (data: Bytes) {
    if items == [] then [] else items[0].name + [0] + items[0].sha + WriteTree(items[1..])
  }

  function ItemIds(items: seq<Item>): (oids: seq<Bytes>) {
    if items == [] then [] else [Hex(items[0].sha)] + ItemIds(items[1..])
  }

  lemma {:induction false} NulLenIs(a: Bytes, rest: Bytes)
    requires forall i :: 0 <= i < |a| ==> a[i] != 0
    ensures NulLen(a + [0] + rest) == |a|
  {
    if a != [] {
      NulLenIs(a[1..], rest);
      assert (a + [0] + rest)[1..] == a[1..] + [0] + rest;
    }
  }

  /** A written tree reads back as the identifiers of its entries, in order. */
  lemma {:induction false} TreeRoundTrip(items: seq<Item>)
    requires forall i :: 0 <= i < |items| ==> GoodItem(items[i])
    ensures TreeEntries(WriteTree(items)) == ItemIds(items)
  {
    if items != [] {
      var e, rest := items[0], WriteTree(items[1..]);
      var data := e.name + [0] + e.sha + rest;
      assert GoodItem(items[0]);
      NulLenIs(e.name, e.sha + rest);
      assert data == e.name + [0] + (e.sha + rest);
      var n := |e.name|;
      assert data[n + 1..n + 21] == e.sha && data[n + 21..] == rest;
      TreeRoundTrip(items[1..]);
    }
  }

  /** Lines joined by newlines, as a commit header stores them. */
  function Join(lines: seq<Bytes>): (s: Bytes)
    requires lines != []
  {
    if |lines| == 1 then lines[0] else lines[0] + [10] + Join(lines[1..])
  }

  ghost predicate PlainLine(l: Bytes) {
    l != [] && forall i :: 0 <= i < |l| ==> l[i] != 10
  }

  lemma {:induction false} LineLenIs(a: Bytes, rest: Bytes)
    requires forall i :: 0 <= i < |a| ==> a[i] != 10
    requires rest == [] || rest[0] == 10
    ensures LineLen(a + rest) == |a|
  {
    if a == [] {
      assert a + rest == rest;
    } else {
      LineLenIs(a[1..], rest);
      assert (a + rest)[1..] == a[1..] + rest;
    }
  }

  lemma SplitStep(a: Bytes, rest: Bytes)
    requires forall i :: 0 <= i < |a| ==> a[i] != 10
    ensures SplitLines(a + [10] + rest) == [a] + SplitLines(rest)
  {
    Assoc(a, [10], rest);
    LineLenIs(a, [10] + rest);
    var s := a + [10] + rest;
    assert s[..|a|] == a && s[|a| + 1..] == rest;
  }

  lemma {:induction false} SplitJoin(lines: seq<Bytes>)
    requires lines != [] && forall i :: 0 <= i < |lines| ==> PlainLine(lines[i])
    ensures SplitLines(Join(lines)) == lines
    decreases |lines|
  {
    var a := lines[0];
    assert PlainLine(a);
    if |lines| == 1 {
      assert a + [] == a;
      LineLenIs(a, []);
    } else {
      SplitStep(a, Join(lines[1..]));
      SplitJoin(lines[1..]);
      assert lines == [a] + lines[1..];
    }
  }

  lemma {:induction false} HeaderLine(a: Bytes, rest: Bytes)
    requires forall i :: 0 <= i < |a| ==> a[i] != 10
    ensures HeaderOf(a + rest) == a + HeaderOf(rest)
  {
    if a == [] {
      assert a + rest == rest;
    } else {
      HeaderLine(a[1..], rest);
      assert (a + rest)[1..] == a[1..] + rest;
    }
  }

  /** The header ends at the first empty line, so plain lines are kept whole. */
  lemma {:induction false} HeaderOfJoin(lines: seq<Bytes>, message: Bytes)
    requires lines != [] && forall i :: 0 <= i < |lines| ==> PlainLine(lines[i])
    ensures HeaderOf(Join(lines) + [10, 10] + message) == Join(lines)
    decreases |lines|
  {
    var a := lines[0];
    assert PlainLine(a);
    if |lines| == 1 {
      assert a + [10, 10] + message == a + ([10, 10] + message);
      HeaderLine(a, [10, 10] + message);
    } else {
      var tail := Join(lines[1..]) + [10, 10] + message;
      assert Join(lines) + [10, 10] + message == a + ([10] + tail);
      HeaderLine(a, [10] + tail);
      HeaderOfJoin(lines[1..], message);
      assert PlainLine(lines[1]);
      assert tail[0] == lines[1][0];
      assert ([10] + tail)[1..] == tail;
    }
  }

  // ----- Whole commits -----

  function ParentLines(parents: seq<Bytes>): (ls: seq<Bytes>)
    ensures |ls| == |parents| && forall i :: 0 <= i < |ls| ==> ls[i] == Ascii("parent ") + parents[i]
  {
    seq(|parents|, i requires 0 <= i < |parents| => Ascii("parent ") + parents[i])
  }

  /** The header lines of a commit as Git writes them. */
  function CommitLines(tree: Bytes, parents: seq<Bytes>, author: Bytes, more: seq<Bytes>): (ls: seq<Bytes>) {
    [Ascii("tree ") + tree] + (ParentLines(parents) + ([Ascii("author ") + author] + more))
  }

  /** A commit: its header lines, an empty line, the message. */
  function WriteCommit(tree: Bytes, parents: seq<Bytes>, author: Bytes, more: seq<Bytes>, message: Bytes)
    : (data: Bytes)
  {
    Join(CommitLines(tree, parents, author, more)) + [10, 10] + message
  }

  /** A further header line: plain, and none of the three that are read. */
  ghost predicate OtherLine(l: Bytes) {
    PlainLine(l) && !HasPrefix(l, Ascii("tree ")) && !HasPrefix(l, Ascii("parent ")) && !HasPrefix(l, Ascii("author "))
  }

  lemma {:induction false} TrimWord(w: Bytes)
    requires IsWord(w)
    ensures Trim(w) == w
  {
  }

  lemma AddTree(c: Commit, tree: Bytes)
    requires IsWord(tree)
    ensures AddHeader(c, Ascii("tree ") + tree) == c.(tree := tree)
  {
    DropAppend(Ascii("tree "), tree);
    TrimWord(tree);
  }

  lemma AddParent(c: Commit, p: Bytes)
    requires IsWord(p)
    ensures AddHeader(c, Ascii("parent ") + p) == c.(parents := c.parents + [p])
  {
    var l := Ascii("parent ") + p;
    DropAppend(Ascii("parent "), p);
    TrimWord(p);
    assert l[..5][0] == 112;
  }

  lemma {:induction false} AddParents(c: Commit, parents: seq<Bytes>, more: seq<Bytes>)
    requires forall i :: 0 <= i < |parents| ==> IsWord(parents[i])
    ensures AddHeaders(c, ParentLines(parents) + more) == AddHeaders(c.(parents := c.parents + parents), more)
    decreases |parents|
  {
    if parents == [] {
      assert c.parents + [] == c.parents && ParentLines([]) + more == more;
    } else {
      var p, rest := parents[0], parents[1..];
      var lines := ParentLines(parents) + more;
      assert lines[1..] == ParentLines(rest) + more;
      AddParent(c, p);
      AddParents(c.(parents := c.parents + [p]), rest, more);
      assert (c.parents + [p]) + rest == c.parents + parents;
    }
  }

  lemma AddAuthor(c: Commit, author: Bytes)
    requires Trim(author) == author
    ensures AddHeader(c, Ascii("author ") + author) == c.(author := author)
  {
    var l := Ascii("author ") + author;
    DropAppend(Ascii("author "), author);
    assert l[..5][0] == 97 && l[..7][0] == 97;
  }

  lemma {:induction false} AddOthers(c: Commit, more: seq<Bytes>)
    requires forall i :: 0 <= i < |more| ==> OtherLine(more[i])
    ensures AddHeaders(c, more) == c
    decreases |more|
  {
    if more != [] {
      assert OtherLine(more[0]);
      AddOthers(c, more[1..]);
    }
  }

  /** What a commit's parts must be like to be read back. */
  ghost predicate PlainCommit(tree: Bytes, parents: seq<Bytes>, author: Bytes, more: seq<Bytes>) {
    && IsWord(tree) && (forall i :: 0 <= i < |parents| ==> IsWord(parents[i]))
    && Trim(author) == author && (forall i :: 0 <= i < |author| ==> author[i] != 10)
    && forall i :: 0 <= i < |more| ==> OtherLine(more[i])
  }

  lemma PlainHeader(tree: Bytes, parents: seq<Bytes>, author: Bytes, more: seq<Bytes>)
    requires PlainCommit(tree, parents, author, more)
    ensures
      var lines := CommitLines(tree, parents, author, more);
      forall i :: 0 <= i < |lines| ==> PlainLine(lines[i])
  {
    var lines := CommitLines(tree, parents, author, more);
    forall i | 0 <= i < |lines| ensures PlainLine(lines[i]) {
      if i > |parents| + 1 {
        assert OtherLine(more[i - 2 - |parents|]);
      } else if 0 < i <= |parents| {
        assert IsWord(parents[i - 1]);
      }
    }
  }

  /** What follows the header and its empty line is the message. */
  lemma MessageIs(header: Bytes, message: Bytes)
    requires HeaderOf(header + [10, 10] + message) == header
    ensures MessageOf(header + [10, 10] + message) == message
  {
    DropAppend(header + [10, 10], message);
  }

  /** A written commit reads back with its tree, its parents in order, its author and its message. */
  lemma CommitRoundTrip(
      oid: Bytes, tree: Bytes, parents: seq<Bytes>, author: Bytes, more: seq<Bytes>, message: Bytes)
    requires PlainCommit(tree, parents, author, more)
    ensures ParseCommit(oid, WriteCommit(tree, parents, author, more, message))
         == Commit(oid, tree, parents, author, message)
  {
    var tail := [Ascii("author ") + author] + more;
    var rest, lines := ParentLines(parents) + tail, CommitLines(tree, parents, author, more);
    PlainHeader(tree, parents, author, more);
    HeaderOfJoin(lines, message);
    MessageIs(Join(lines), message);
    SplitJoin(lines);
    AddTree(Commit(oid, [], [], [], message), tree);
    AddParents(Commit(oid, tree, [], [], message), parents, tail);
    assert [] + parents == parents && lines[1..] == rest && tail[1..] == more;
    AddAuthor(Commit(oid, tree, parents, [], message), author);
    AddOthers(Commit(oid, tree, parents, author, message), more);
  }
}
