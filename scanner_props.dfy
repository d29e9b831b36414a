/**
 * Properties of the structural scanner: where the bracket scan stops, what
 * quotes and escapes do to it, when the skippers fail, and what
 * `parse_name` does on a well-formed and on a malformed key.
 */
module ScannerProps {
  import opened Bytes
  import opened Scanner

  /** Scanning `s + [c]` is scanning `s` and then stepping over `c`. */
  lemma {:induction false} FoldSnoc(st: ScanState, s: Text, c: Byte, open: Byte, close: Byte)
    ensures Fold(st, s + [c], open, close) == Step(Fold(st, s, open, close), c, open, close)
    decreases |s|
  {
    if s == [] {
      assert [] + [c] == [c];
    } else {
      assert (s + [c])[1..] == s[1..] + [c];
      FoldSnoc(Step(st, s[0], open, close), s[1..], c, open, close);
    }
  }

  /**
   * The scan stops at the first position where the count is zero: the count
   * is positive after every proper prefix of the scanned bytes, and it is zero
   * at the stop unless the buffer ran out first.
   */
  lemma {:induction false} ScanEndFirstZero(text: Text, i: nat, open: Byte, close: Byte, st: ScanState)
    requires i <= |text| && st.depth > 0
    ensures var e := ScanEnd(text, i, open, close, st);
      && (forall j :: i <= j < e ==> Fold(st, text[i..j], open, close).depth > 0)
      && (e == |text| || Fold(st, text[i..e], open, close).depth == 0)
    decreases |text| - i
  {
    var e := ScanEnd(text, i, open, close, st);
    if i < |text| {
      var st' := Step(st, text[i], open, close);
      forall j | i < j <= e
        ensures Fold(st, text[i..j], open, close) == Fold(st', text[i + 1..j], open, close)
      {
        assert text[i..j][0] == text[i];
        assert text[i..j][1..] == text[i + 1..j];
      }
      assert text[i..i] == [];
      if st'.depth > 0 {
        ScanEndFirstZero(text, i + 1, open, close, st');
      } else {
        assert text[i + 1..i + 1] == [];
      }
    } else {
      assert text[i..i] == [];
    }
  }

  /** Only a closing bracket outside quotes and not escaped lowers the count. */
  lemma StepLowersOnlyOnClose(st: ScanState, c: Byte, open: Byte, close: Byte)
    requires open != close && close != '"' && close != '\\'
    ensures Step(st, c, open, close).depth < st.depth <==>
      c == close && !st.inQuotes && !st.escaped && st.depth > 0
  {
  }

  /** A byte read inside quotes (other than '"') changes neither the count nor the quote flag. */
  lemma StepInQuotes(st: ScanState, c: Byte, open: Byte, close: Byte)
    requires st.inQuotes && c != '"'
    ensures Step(st, c, open, close) == st.(escaped := false)
  {
  }

  /**
   * '\' escapes the next byte only outside quotes and when not itself
   * escaped; every other byte leaves the escape flag cleared.
   */
  lemma StepEscapes(st: ScanState, c: Byte, open: Byte, close: Byte)
    ensures Step(st, c, open, close).escaped <==> c == '\\' && !st.inQuotes && !st.escaped
  {
  }

  /** An unescaped '"' toggles the quote flag and nothing else. */
  lemma StepQuote(st: ScanState, open: Byte, close: Byte)
    requires !st.escaped
    ensures Step(st, '"', open, close) == st.(inQuotes := !st.inQuotes)
  {
  }

  /** A run of bytes inside quotes with no '"' in it leaves the count alone, brackets included. */
  lemma {:induction false} QuotedRunKeepsDepth(st: ScanState, s: Text, open: Byte, close: Byte)
    requires st.inQuotes && '"' !in s
    ensures Fold(st, s, open, close).depth == st.depth && Fold(st, s, open, close).inQuotes
    decreases |s|
  {
    if s != [] {
      assert s[0] in s;
      assert forall c :: c in s[1..] ==> c in s;
      QuotedRunKeepsDepth(Step(st, s[0], open, close), s[1..], open, close);
    }
  }

  /**
   * On success a bracket skipper's span runs from the opening bracket at
   * `pos` to the closing bracket that brought the count from one to zero:
   * the count stays positive inside and the last byte is `close`.
   */
  lemma BracketedSpan(text: Text, pos: nat, open: Byte, close: Byte, err: Error)
    requires pos < |text| && open != close && close != '"' && close != '\\'
    requires BracketedToken(text, pos, open, close, err).Ok?
    ensures var s := BracketedToken(text, pos, open, close, err).value.span;
      && |s| >= 2 && s[0] == text[pos] && s[|s| - 1] == close
      && Fold(Start, s[1..], open, close).depth == 0
      && forall j :: 1 <= j < |s| ==> Fold(Start, s[1..j], open, close).depth > 0
  {
    var e := ScanEnd(text, pos + 1, open, close, Start);
    var s := BracketedToken(text, pos, open, close, err).value.span;
    assert s == text[pos..e];
    ScanEndFirstZero(text, pos + 1, open, close, Start);
    assert e < |text|;
    assert text[pos + 1..pos + 1] == [];
    assert e > pos + 1;
    var before := text[pos + 1..e - 1];
    assert text[pos + 1..e] == before + [text[e - 1]];
    FoldSnoc(Start, before, text[e - 1], open, close);
    StepLowersOnlyOnClose(Fold(Start, before, open, close), text[e - 1], open, close);
    assert s[1..] == text[pos + 1..e];
    forall j | 1 <= j < |s|
      ensures Fold(Start, s[1..j], open, close).depth > 0
    {
      assert s[1..j] == text[pos + 1..pos + j];
    }
  }

  /**
   * An unterminated object or array (the count never returns to zero before
   * the buffer ends) fails with the skipper's error.
   */
  lemma UnterminatedFails(text: Text, pos: nat, open: Byte, close: Byte, err: Error)
    requires pos < |text|
    requires forall j :: pos + 1 <= j <= |text| ==> DepthAfter(text, pos, j, open, close) > 0
    ensures BracketedToken(text, pos, open, close, err) == Err(err)
  {
    ScanEndFirstZero(text, pos + 1, open, close, Start);
    var e := ScanEnd(text, pos + 1, open, close, Start);
    assert DepthAfter(text, pos, e, open, close) > 0;
  }

  /** The count after scanning the bytes after the bracket at `pos` up to `j`. */
  function DepthAfter(text: Text, pos: nat, j: nat, open: Byte, close: Byte): nat
    requires pos + 1 <= j <= |text|
  {
    Fold(Start, text[pos + 1..j], open, close).depth
  }

  /** Whatever the value, a skipper fails when no separator follows where it stopped. */
  lemma NoSeparatorFails(text: Text, i: nat)
    requires i <= |text|
    requires forall k :: i <= k < |text| ==> text[k] !in Separators
    ensures ValueToken(text, i).Err?
  {
    var j := TrimLeft(text, i);
    if j < |text| && text[j] == '"' {
      assert PopFront(text, j + 1, '"').1 >= i;
    } else if j < |text| && (text[j] == '[' || text[j] == '{') {
      assert ScanEnd(text, j + 1, text[j], if text[j] == '[' then ']' else '}', Start) >= i;
    }
  }

  /**
   * The scan only honours '\' outside quotes, so an escaped quote inside a
   * string ends the string: in `{"a":"x\"}"}` the object is taken to end at
   * the first '}', which sits inside the string value.
   */
  lemma EscapedQuoteEndsString()
    ensures ClassToken("{\"a\":\"x\\\"}\"},", 0) == Ok(Token("{\"a\":\"x\\\"}", 11))
  {
    var text: Text := "{\"a\":\"x\\\"}\"},";
    EscapedQuoteKey(text);
    EscapedQuoteValue(text);
    assert FindFirstOf(text, 10, Separators) == Some(11);
    assert text[0..10] == "{\"a\":\"x\\\"}";
  }

  /** The key `"a":` of the example leaves the scan outside quotes at depth one. */
  lemma EscapedQuoteKey(text: Text)
    requires text == "{\"a\":\"x\\\"}\"},"
    ensures ScanEnd(text, 1, '{', '}', Start) == ScanEnd(text, 5, '{', '}', Start)
  {
    var o, c := '{', '}';
    assert ScanEnd(text, 1, o, c, Start) == ScanEnd(text, 2, o, c, ScanState(1, true, false));
    assert ScanEnd(text, 2, o, c, ScanState(1, true, false)) == ScanEnd(text, 3, o, c, ScanState(1, true, false));
    assert ScanEnd(text, 3, o, c, ScanState(1, true, false)) == ScanEnd(text, 4, o, c, Start);
  }

  /**
   * In the value `"x\"}`, the backslash sits inside quotes and so does not
   * escape the next quote, which closes the string; the '}' after it closes
   * the object.
   */
  lemma EscapedQuoteValue(text: Text)
    requires text == "{\"a\":\"x\\\"}\"},"
    ensures ScanEnd(text, 5, '{', '}', Start) == 10
  {
    var o, c := '{', '}';
    assert ScanEnd(text, 5, o, c, Start) == ScanEnd(text, 6, o, c, ScanState(1, true, false));
    assert ScanEnd(text, 6, o, c, ScanState(1, true, false)) == ScanEnd(text, 7, o, c, ScanState(1, true, false));
    assert ScanEnd(text, 7, o, c, ScanState(1, true, false)) == ScanEnd(text, 8, o, c, ScanState(1, true, false));
    assert ScanEnd(text, 8, o, c, ScanState(1, true, false)) == ScanEnd(text, 9, o, c, Start);
    assert ScanEnd(text, 9, o, c, Start) == ScanEnd(text, 10, o, c, ScanState(0, false, false));
  }

  /** Every byte of `s` is white space. */
  predicate AllSpace(s: Text) {
    forall k :: 0 <= k < |s| ==> IsSpace(s[k])
  }

  /** The white space of a slice is the white space of the buffer at those positions. */
  lemma AllSpaceSlice(text: Text, a: nat, b: nat)
    requires a <= b <= |text| && AllSpace(text[a..b])
    ensures forall k :: a <= k < b ==> IsSpace(text[k])
  {
    forall k | a <= k < b
      ensures IsSpace(text[k])
    {
      assert text[a..b][k - a] == text[k];
    }
  }

  /**
   * A key laid out at known offsets from `i`: white space up to `q`, the
   * quoted name of length `n`, white space up to the ':' at `c`, white space
   * up to `e`, then the end or a non-space.
   */
  predicate KeyAt(text: Text, i: nat, q: nat, n: nat, c: nat, e: nat) {
    && i <= q && q + n + 2 <= c < e <= |text|
    && (forall k :: i <= k < q ==> IsSpace(text[k]))
    && text[q] == '"' && text[q + 1 + n] == '"'
    && (forall k :: q + 1 <= k < q + 1 + n ==> text[k] != '"')
    && (forall k :: q + n + 2 <= k < c ==> IsSpace(text[k]))
    && text[c] == ':'
    && (forall k :: c + 1 <= k < e ==> IsSpace(text[k]))
    && (e == |text| || !IsSpace(text[e]))
  }

  /**
   * `parse_name` from `i` on a key laid out at known offsets: white space up
   * to `q`, the quoted name of length `n`, white space up to the ':' at `c`,
   * white space up to `e`.
   */
  lemma ParseNameAt(text: Text, i: nat, q: nat, n: nat, c: nat, e: nat)
    requires KeyAt(text, i, q, n, c, e)
    ensures ParseName(text, i) == Ok(Token(text[q + 1..q + 1 + n], e))
  {
    TrimLeftSkips(text, i, q - i);
    PopFrontAt(text, q + 1, '"', n);
    AfterColonAt(text, q + n + 2, c, e);
    ParseNameQuoted(text, i, q, text[q + 1..q + 1 + n], q + n + 2, e);
  }

  /**
   * `parse_name` on a view whose trimmed front is '"' at `q`, whose name runs
   * up to the next '"' and whose ':' is passed at `e`.
   */
  lemma ParseNameQuoted(text: Text, i: nat, q: nat, name: Text, after: nat, e: nat)
    requires i <= q < |text| && TrimLeft(text, i) == q && text[q] == '"'
    requires PopFront(text, q + 1, '"') == (name, after) && after <= |text|
    requires AfterColon(text, after) == e
    ensures ParseName(text, i) == Ok(Token(name, e))
  {
  }

  lemma AfterColonAt(text: Text, i: nat, c: nat, e: nat)
    requires i <= c < e <= |text|
    requires forall k :: i <= k < c ==> IsSpace(text[k])
    requires text[c] == ':'
    requires forall k :: c + 1 <= k < e ==> IsSpace(text[k])
    requires e == |text| || !IsSpace(text[e])
    ensures AfterColon(text, i) == e
  {
    TrimLeftSkips(text, i, c - i);
    PopFrontAt(text, c, ':', 0);
    TrimLeftSkips(text, c + 1, e - (c + 1));
  }

  /** The positions of the parts of a key `ws1 "name" ws2 : ws3 rest`. */
  lemma KeyLayout(ws1: Text, name: Text, ws2: Text, ws3: Text, rest: Text)
    requires AllSpace(ws1) && AllSpace(ws2) && AllSpace(ws3) && '"' !in name
    requires rest == [] || !IsSpace(rest[0])
    ensures var text := ws1 + ['"'] + name + ['"'] + ws2 + [':'] + ws3 + rest;
      var q, n := |ws1|, |name|;
      var c := q + n + 2 + |ws2|;
      var e := c + 1 + |ws3|;
      && e == |text| - |rest|
      && text[q + 1..q + 1 + n] == name
      && KeyAt(text, 0, q, n, c, e)
  {
    var text := ws1 + ['"'] + name + ['"'] + ws2 + [':'] + ws3 + rest;
    var q, n := |ws1|, |name|;
    var c := q + n + 2 + |ws2|;
    var e := c + 1 + |ws3|;
    assert text[0..q] == ws1;
    AllSpaceSlice(text, 0, q);
    assert text[q + 1..q + 1 + n] == name;
    forall k | q + 1 <= k < q + 1 + n
      ensures text[k] != '"'
    {
      assert text[k] == name[k - (q + 1)];
    }
    assert text[q + n + 2..c] == ws2;
    AllSpaceSlice(text, q + n + 2, c);
    assert text[c + 1..e] == ws3;
    AllSpaceSlice(text, c + 1, e);
    if rest != [] {
      assert text[e] == rest[0];
    }
  }

  /** A key written as `ws "name" ws : ws` is read as `name`, leaving the cursor at what follows. */
  lemma ParseNameWellFormed(ws1: Text, name: Text, ws2: Text, ws3: Text, rest: Text)
    requires AllSpace(ws1) && AllSpace(ws2) && AllSpace(ws3)
    requires '"' !in name
    requires rest == [] || !IsSpace(rest[0])
    ensures var text := ws1 + ['"'] + name + ['"'] + ws2 + [':'] + ws3 + rest;
      ParseName(text, 0) == Ok(Token(name, |text| - |rest|))
  {
    var text := ws1 + ['"'] + name + ['"'] + ws2 + [':'] + ws3 + rest;
    var c := |ws1| + |name| + 2 + |ws2|;
    KeyLayout(ws1, name, ws2, ws3, rest);
    ParseNameAt(text, 0, |ws1|, |name|, c, c + 1 + |ws3|);
  }

  /**
   * The white-space diagnostics of `parse_name` ("newline", "space", "tab")
   * can never be raised: the view was trimmed just before the check.
   */
  lemma ParseNameNoWhitespaceDiagnostic(text: Text, i: nat)
    requires i <= |text|
    ensures ParseName(text, i).Err? ==> ParseName(text, i).error !in {Newline, Space, Tab}
  {
  }

  /** A key whose first byte is a lower-case letter, or a digit, is rejected for that reason. */
  lemma ParseNameUnquotedKey(text: Text, i: nat)
    requires i < |text| && !IsSpace(text[i])
    ensures 'a' <= text[i] <= 'z' ==> ParseName(text, i) == Err(LowerCase)
    ensures '0' <= text[i] <= '9' ==> ParseName(text, i) == Err(Number)
    ensures text[i] == ':' ==> ParseName(text, i) == Err(Colon)
    ensures text[i] == ',' ==> ParseName(text, i) == Err(Comma)
  {
    assert TrimLeft(text, i) == i;
  }
}
