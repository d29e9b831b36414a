/**
 * What the bracket skippers consume, stated against an independent
 * description of a bracketed JSON value: a tree of plain text runs, quoted
 * strings and bracketed groups.  For any such tree the scan of
 * `skip_class`/`skip_array` stops exactly after the group's own closing
 * bracket, whatever brackets its quoted strings contain.
 */
module Nesting {
  import opened Bytes
  import opened Scanner

  /** A bracketed value, seen only through the bytes the bracket scan reacts to. */
  datatype Nested =
    | Plain(s: Text)                  // bytes with no bracket, quote or backslash
    | Quoted(s: Text)                 // a string literal: '"' s '"'
    | Group(children: seq<Nested>)    // open, the children one after another, close

  /** The two bytes of a bracket pair are distinct and neither is a quote or a backslash. */
  predicate BracketPair(open: Byte, close: Byte) {
    open != close && open != '"' && close != '"' && open != '\\' && close != '\\'
  }

  /** A byte the scan passes over without changing the count or the flags. */
  predicate Inert(c: Byte, open: Byte, close: Byte) {
    c != open && c != close && c != '"' && c != '\\'
  }

  function Encode(t: Nested, open: Byte, close: Byte): Text
    decreases t, if t.Group? then |t.children| + 1 else 0, 1
  {
    match t
    case Plain(s) => s
    case Quoted(s) => ['"'] + s + ['"']
    case Group(cs) => [open] + EncodeChildren(t, 0, open, close) + [close]
  }

  /** The encodings of the children of a group from the `k`-th one on. */
  function EncodeChildren(t: Nested, k: nat, open: Byte, close: Byte): Text
    requires t.Group? && k <= |t.children|
    decreases t, |t.children| - k
  {
    if k == |t.children| then []
    else Encode(t.children[k], open, close) + EncodeChildren(t, k + 1, open, close)
  }

  predicate WellFormed(t: Nested, open: Byte, close: Byte)
    decreases t
  {
    match t
    case Plain(s) => forall c :: c in s ==> Inert(c, open, close)
    case Quoted(s) => '"' !in s
    case Group(cs) => forall k :: 0 <= k < |cs| ==> WellFormed(cs[k], open, close)
  }

  /** Outside quotes at a positive depth, a plain run leaves the scan where it was. */
  lemma {:induction false} PlainRun(text: Text, i: nat, s: Text, open: Byte, close: Byte, d: nat)
    requires d > 0 && i + |s| <= |text| && text[i..i + |s|] == s
    requires forall c :: c in s ==> Inert(c, open, close)
    ensures ScanEnd(text, i, open, close, ScanState(d, false, false))
         == ScanEnd(text, i + |s|, open, close, ScanState(d, false, false))
    decreases |s|
  {
    if |s| > 0 {
      assert text[i] == s[0];
      assert s[0] in s;
      assert Step(ScanState(d, false, false), text[i], open, close) == ScanState(d, false, false);
      assert text[i + 1..i + 1 + |s[1..]|] == s[1..];
      PlainRun(text, i + 1, s[1..], open, close, d);
    }
  }

  /** Inside quotes, every byte but '"' leaves the count alone, brackets and backslashes included. */
  lemma {:induction false} QuotedRun(text: Text, i: nat, s: Text, open: Byte, close: Byte, d: nat)
    requires d > 0 && i + |s| <= |text| && text[i..i + |s|] == s && '"' !in s
    ensures ScanEnd(text, i, open, close, ScanState(d, true, false))
         == ScanEnd(text, i + |s|, open, close, ScanState(d, true, false))
    decreases |s|
  {
    if |s| > 0 {
      assert text[i] == s[0];
      assert Step(ScanState(d, true, false), text[i], open, close) == ScanState(d, true, false);
      assert text[i + 1..i + 1 + |s[1..]|] == s[1..];
      PlainRunHelper(s);
      QuotedRun(text, i + 1, s[1..], open, close, d);
    }
  }

  /** A slice of a matched slice is matched by the corresponding slice of the buffer. */
  lemma SubSlice(text: Text, i: nat, e: Text, a: nat, b: nat)
    requires i + |e| <= |text| && text[i..i + |e|] == e && a <= b <= |e|
    ensures text[i + a..i + b] == e[a..b]
  {
    forall k | 0 <= k < b - a
      ensures text[i + a..i + b][k] == e[a..b][k]
    {
      assert text[i..i + |e|][a + k] == e[a + k];
    }
  }

  /** A matched concatenation is matched part by part. */
  lemma SplitSlice(text: Text, i: nat, a: Text, b: Text)
    requires i + |a| + |b| <= |text| && text[i..i + |a| + |b|] == a + b
    ensures text[i..i + |a|] == a && text[i + |a|..i + |a| + |b|] == b
  {
    SubSlice(text, i, a + b, 0, |a|);
    assert (a + b)[0..|a|] == a;
    SubSlice(text, i, a + b, |a|, |a| + |b|);
    assert (a + b)[|a|..|a| + |b|] == b;
  }

  lemma PlainRunHelper(s: Text)
    requires |s| > 0 && '"' !in s
    ensures '"' !in s[1..]
  {
  }

  /** A well-formed value scanned at a positive depth returns to that depth and never reaches zero on the way. */
  lemma {:induction false} ValueScan(text: Text, i: nat, t: Nested, open: Byte, close: Byte, d: nat)
    requires BracketPair(open, close) && WellFormed(t, open, close) && d > 0
    requires i + |Encode(t, open, close)| <= |text| && text[i..i + |Encode(t, open, close)|] == Encode(t, open, close)
    ensures ScanEnd(text, i, open, close, ScanState(d, false, false))
         == ScanEnd(text, i + |Encode(t, open, close)|, open, close, ScanState(d, false, false))
    decreases t, if t.Group? then |t.children| + 1 else 0, 1
  {
    match t
    case Plain(s) =>
      PlainRun(text, i, s, open, close, d);
    case Quoted(s) =>
      QuotedValue(text, i, s, open, close, d);
    case Group(cs) =>
      GroupScan(text, i, t, open, close, d);
  }

  /** A string literal: the opening quote enters quotes, the closing one leaves them. */
  lemma QuotedValue(text: Text, i: nat, s: Text, open: Byte, close: Byte, d: nat)
    requires BracketPair(open, close) && '"' !in s && d > 0
    requires i + |s| + 2 <= |text| && text[i..i + |s| + 2] == ['"'] + s + ['"']
    ensures ScanEnd(text, i, open, close, ScanState(d, false, false))
         == ScanEnd(text, i + |s| + 2, open, close, ScanState(d, false, false))
  {
    var e := ['"'] + s + ['"'];
    assert text[i] == e[0] == '"';
    assert Step(ScanState(d, false, false), text[i], open, close) == ScanState(d, true, false);
    SubSlice(text, i, e, 1, 1 + |s|);
    assert e[1..1 + |s|] == s;
    QuotedRun(text, i + 1, s, open, close, d);
    assert text[i + 1 + |s|] == e[1 + |s|] == '"';
    assert Step(ScanState(d, true, false), text[i + 1 + |s|], open, close) == ScanState(d, false, false);
  }

  /** A group: its opening bracket raises the count, its children keep it, its closing bracket restores it. */
  lemma {:induction false} GroupScan(text: Text, i: nat, t: Nested, open: Byte, close: Byte, d: nat)
    requires BracketPair(open, close) && t.Group? && WellFormed(t, open, close) && d > 0
    requires i + |Encode(t, open, close)| <= |text| && text[i..i + |Encode(t, open, close)|] == Encode(t, open, close)
    ensures ScanEnd(text, i, open, close, ScanState(d, false, false))
         == ScanEnd(text, i + |Encode(t, open, close)|, open, close, ScanState(d, false, false))
    decreases t, |t.children| + 1, 0
  {
    var e := Encode(t, open, close);
    var inner := EncodeChildren(t, 0, open, close);
    assert e == [open] + inner + [close];
    assert text[i] == e[0] == open;
    assert Step(ScanState(d, false, false), text[i], open, close) == ScanState(d + 1, false, false);
    SubSlice(text, i, e, 1, 1 + |inner|);
    assert e[1..1 + |inner|] == inner;
    ChildrenScan(text, i + 1, t, 0, open, close, d + 1);
    assert text[i + 1 + |inner|] == e[1 + |inner|] == close;
    assert Step(ScanState(d + 1, false, false), text[i + 1 + |inner|], open, close) == ScanState(d, false, false);
  }

  lemma {:induction false} ChildrenScan(text: Text, i: nat, t: Nested, k: nat, open: Byte, close: Byte, d: nat)
    requires BracketPair(open, close) && t.Group? && k <= |t.children| && WellFormed(t, open, close) && d > 0
    requires i + |EncodeChildren(t, k, open, close)| <= |text|
    requires text[i..i + |EncodeChildren(t, k, open, close)|] == EncodeChildren(t, k, open, close)
    ensures ScanEnd(text, i, open, close, ScanState(d, false, false))
         == ScanEnd(text, i + |EncodeChildren(t, k, open, close)|, open, close, ScanState(d, false, false))
    decreases t, |t.children| - k, 0
  {
    if k < |t.children| {
      var c := t.children[k];
      var ec := Encode(c, open, close);
      var rest := EncodeChildren(t, k + 1, open, close);
      assert EncodeChildren(t, k, open, close) == ec + rest;
      SplitSlice(text, i, ec, rest);
      ValueScan(text, i, c, open, close, d);
      ChildrenScan(text, i + |ec|, t, k + 1, open, close, d);
    }
  }

  /** The scan of a well-formed group, started after its opening bracket at `pos`, stops right after its closing bracket. */
  lemma {:induction false} GroupEnd(text: Text, pos: nat, t: Nested, open: Byte, close: Byte)
    requires BracketPair(open, close) && t.Group? && WellFormed(t, open, close)
    requires pos + |Encode(t, open, close)| <= |text|
    requires text[pos..pos + |Encode(t, open, close)|] == Encode(t, open, close)
    ensures ScanEnd(text, pos + 1, open, close, Start) == pos + |Encode(t, open, close)|
  {
    var e := Encode(t, open, close);
    var inner := EncodeChildren(t, 0, open, close);
    assert e == [open] + inner + [close];
    SubSlice(text, pos, e, 1, 1 + |inner|);
    assert e[1..1 + |inner|] == inner;
    ChildrenScan(text, pos + 1, t, 0, open, close, 1);
    assert text[pos + 1 + |inner|] == e[1 + |inner|] == close;
    assert Step(ScanState(1, false, false), text[pos + 1 + |inner|], open, close) == ScanState(0, false, false);
  }

  /**
   * For a well-formed group at `pos` followed somewhere by a separator, the
   * bracket skipper returns exactly the group's text (opening through
   * matching closing bracket) and leaves the cursor one byte past it, trimmed.
   */
  lemma BracketedTokenOfGroup(text: Text, pos: nat, t: Nested, open: Byte, close: Byte, err: Error)
    requires BracketPair(open, close) && t.Group? && WellFormed(t, open, close)
    requires pos + |Encode(t, open, close)| <= |text|
    requires text[pos..pos + |Encode(t, open, close)|] == Encode(t, open, close)
    requires exists k :: pos + |Encode(t, open, close)| <= k < |text| && text[k] in Separators
    ensures pos < |text|
    ensures BracketedToken(text, pos, open, close, err)
         == Ok(Token(Encode(t, open, close), TrimLeft(text, pos + |Encode(t, open, close)| + 1)))
  {
    GroupEnd(text, pos, t, open, close);
    FindFirstOfFirst(text, pos + |Encode(t, open, close)|, Separators);
  }

  /** The bracket tree of `[1,"a,b}c",2]`: two plain runs around a string holding a comma and a brace. */
  const ArrayExampleGroup := Group([Plain("1,"), Quoted("a,b}c"), Plain(",2")])

  lemma ArrayExampleWellFormed()
    ensures WellFormed(ArrayExampleGroup, '[', ']')
  {
    var t := ArrayExampleGroup;
    assert WellFormed(t.children[0], '[', ']') && WellFormed(t.children[2], '[', ']');
    assert WellFormed(t.children[1], '[', ']');
  }

  lemma ArrayExampleTree()
    ensures Encode(ArrayExampleGroup, '[', ']') == "[1,\"a,b}c\",2]"
  {
    var t := ArrayExampleGroup;
    var last := EncodeChildren(t, 2, '[', ']');
    assert last == ",2";
    var mid := EncodeChildren(t, 1, '[', ']');
    assert mid == "\"a,b}c\"" + last;
    assert mid == "\"a,b}c\",2";
    var all := EncodeChildren(t, 0, '[', ']');
    assert all == "1," + mid;
    assert all == "1,\"a,b}c\",2";
  }

  /** The array case, on the quote-aware example `[1,"a,b}c",2]` followed by a comma. */
  lemma ArrayExample()
    ensures ArrayToken("[1,\"a,b}c\",2],", 0) == Ok(Token("[1,\"a,b}c\",2]", 14))
  {
    var t := ArrayExampleGroup;
    var text: Text := "[1,\"a,b}c\",2],";
    ArrayExampleWellFormed();
    ArrayExampleTree();
    assert text[0..13] == Encode(t, '[', ']');
    assert text[13] in Separators;
    BracketedTokenOfGroup(text, 0, t, '[', ']', InvalidArray);
  }
}
