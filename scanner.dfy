/**
 * The structural scanner of `daw_json_link_v3.h`: the key reader
 * `parse_name` and the value skippers `skip_string`, `skip_other`,
 * `skip_class`, `skip_array` and their dispatcher `skip_value`.
 *
 * Every one of them takes the cursor (a string view) by reference; here the
 * cursor is an index `i` into the buffer and each operation returns, beside
 * the span it read, the index the cursor is left at (`Token.next`).  Spans
 * are slices of the buffer.  The operations that fail in the source (a thrown
 * diagnostic or a failed `precondition_check`) return `Err`.
 *
 * The four skippers `skip_string`, `skip_other`, `skip_class` and
 * `skip_array` are `noexcept`, so their failed precondition check does not
 * reach a caller: the program terminates.  Their `InvalidClass` and
 * `InvalidArray` results stand for that termination; no caller in this model
 * handles an error, so such a result becomes the result of the whole decode.
 */
module Scanner {
  import opened Bytes

  /** Failure kinds of a decode.  The first eight are the diagnostics of `parse_name`. */
  datatype Error =
    | LowerCase | Number | Newline | Space | Colon | Tab | Comma | NoQuote
    | InvalidClass          // "Invalid class": no separator after a value (ends the program, see below)
    | InvalidArray          // "Invalid array": no separator after an array (ends the program, see below)
    | UnexpectedEnd         // the model's result where the source reads `front()` of an empty view
    | InvalidClassStart     // an object does not start with '{'
    | MissingMember         // a declared, non-nullable member was not found

  datatype Result<T> = Ok(value: T) | Err(error: Error)

  /** What a scanner returns: the span it read and the new cursor position. */
  datatype Token = Token(span: Text, next: nat)

  /** The bytes `find_first_of(",}]")` looks for after a value. */
  const Separators: set<Byte> := {',', '}', ']'}

  /**
   * The diagnostic `parse_name` raises for a byte that is not the opening
   * quote: each of the seven named classes of byte has its own, and every
   * other byte is "no quote".
   */
  function KeyError(c: Byte): (r: Error)
    ensures r == LowerCase <==> 'a' <= c <= 'z'
    ensures r == Number <==> '0' <= c <= '9'
    ensures r == Newline <==> c == '\n'
    ensures r == Space <==> c == ' '
    ensures r == Colon <==> c == ':'
    ensures r == Tab <==> c == '\t'
    ensures r == Comma <==> c == ','
    ensures r == NoQuote <==> !('a' <= c <= 'z') && !('0' <= c <= '9') && c !in {'\n', ' ', ':', '\t', ','}
  {
    if 'a' <= c <= 'z' then LowerCase
    else if '0' <= c <= '9' then Number
    else if c == '\n' then Newline
    else if c == ' ' then Space
    else if c == ':' then Colon
    else if c == '\t' then Tab
    else if c == ',' then Comma
    else NoQuote
  }

  /**
   * `parse_name`: read a quoted member name.  The view is trimmed (the code
   * skips the trim when the front is already '"', where trimming would change
   * nothing); a byte other than '"' at the front fails with
   * its diagnostic; otherwise the name is the text up to the next '"', and
   * the cursor is left past white space, the next ':' and white space again.
   */
  function ParseName(text: Text, i: nat): (r: Result<Token>)
    requires i <= |text|
    ensures r.Ok? ==> i < r.value.next <= |text|
  {
    var j := TrimLeft(text, i);
    if j == |text| then Err(UnexpectedEnd)
    else if text[j] != '"' then Err(KeyError(text[j]))
    else
      var name := PopFront(text, j + 1, '"');
      Ok(Token(name.0, AfterColon(text, name.1)))
  }

  /**
   * What `parse_name` reads: it fails on an empty (trimmed) view and with the
   * byte's diagnostic on a front other than '"'; otherwise the name is the
   * text after the quote up to the next '"', the closing quote follows it (if
   * the view did not run out), and the cursor is left past the first ':'
   * after that quote and its white space, then trimmed.
   */
  lemma ParseNameSpec(text: Text, i: nat)
    requires i <= |text|
    ensures var r := ParseName(text, i);
      && (r == Err(UnexpectedEnd) <==> TrimLeft(text, i) == |text|)
      && (r.Err? ==> TrimLeft(text, i) == |text| || text[TrimLeft(text, i)] != '"')
    ensures var r := ParseName(text, i);
      var j := TrimLeft(text, i);
      j < |text| && text[j] != '"' ==> r == Err(KeyError(text[j]))
    ensures var r := ParseName(text, i);
      var j := TrimLeft(text, i);
      j < |text| && text[j] == '"' ==> r.Ok? && QuotedNameAt(text, j, r.value.span, r.value.next)
  {
    var j := TrimLeft(text, i);
    if j < |text| && text[j] == '"' {
      var name := PopFront(text, j + 1, '"');
      assert ParseName(text, i) == Ok(Token(name.0, AfterColon(text, name.1)));
      QuotedNameSpan(text, j, name.0, name.1);
    }
  }

  /**
   * `name` is what `parse_name` reads after the opening quote at `j`: the
   * buffer's own bytes up to the next '"', which follows it unless the view
   * ran out.  The cursor `next` lies beyond that quote: just past the first
   * ':' after the quote and its white space, then trimmed, or at the end
   * when no ':' is left.
   */
  ghost predicate QuotedNameAt(text: Text, j: nat, name: Text, next: nat) {
    && j + 1 + |name| <= |text|
    && text[j + 1..j + 1 + |name|] == name
    && '"' !in name
    && (j + 1 + |name| < |text| ==> text[j + 1 + |name|] == '"' && j + 1 + |name| < next)
    && (next < |text| ==> !IsSpace(text[next]))
    && var q := j + 1 + |name|;
       var t := TrimLeft(text, if q < |text| then q + 1 else |text|);
       PassesFirstColon(text, t, t + |PopFront(text, t, ':').0|, next)
  }

  /** The name `pop_front` returns after the quote at `j`, with the cursor left past the ':' after it. */
  lemma QuotedNameSpan(text: Text, j: nat, name: Text, after: nat)
    requires j < |text| && PopFront(text, j + 1, '"') == (name, after)
    ensures QuotedNameAt(text, j, name, AfterColon(text, after))
  {
    PopFrontSpan(text, j + 1, '"');
    ColonAfterName(text, j, name, after);
  }

  /** `pop_front(":")` after the name read from the quote at `j` starts from the byte after its closing quote. */
  lemma ColonAfterName(text: Text, j: nat, name: Text, after: nat)
    requires j < |text| && PopFront(text, j + 1, '"') == (name, after)
    ensures var q := j + 1 + |name|;
      var t := TrimLeft(text, if q < |text| then q + 1 else |text|);
      PassesFirstColon(text, t, t + |PopFront(text, t, ':').0|, AfterColon(text, after))
  {
    var q := j + 1 + |name|;
    assert after == if q < |text| then q + 1 else |text|;
    AfterColonSpec(text, after);
  }

  /** Where `parse_name` leaves the cursor once the name is read: past white space, the next ':' and white space. */
  function AfterColon(text: Text, i: nat): (r: nat)
    requires i <= |text|
    ensures i <= r <= |text|
    ensures r < |text| ==> !IsSpace(text[r])
  {
    TrimLeft(text, PopFront(text, TrimLeft(text, i), ':').1)
  }

  /**
   * `k` is the first ':' at or after `t` (`|text|` when there is none), and
   * `next` is the view just past it, trimmed, or the end when no ':' is left:
   * the view after `pop_front(":")` from `t` and a trim.
   */
  ghost predicate PassesFirstColon(text: Text, t: nat, k: nat, next: nat) {
    && t <= k <= |text|
    && (forall m :: t <= m < k ==> text[m] != ':')
    && (k < |text| ==> text[k] == ':' && next == TrimLeft(text, k + 1))
    && (k == |text| ==> next == |text|)
  }

  /**
   * Which ':' `parse_name` passes: the first one after the white space that
   * follows the name, after which the view is trimmed; with no ':' left the
   * view ends up empty.
   */
  lemma AfterColonSpec(text: Text, i: nat)
    requires i <= |text|
    ensures var t := TrimLeft(text, i);
      PassesFirstColon(text, t, t + |PopFront(text, t, ':').0|, AfterColon(text, i))
  {
    PopFrontSpan(text, TrimLeft(text, i), ':');
  }

  /**
   * `skip_string`: the bytes strictly between the opening quote at `i` and
   * the next '"' (escapes are not looked at), after which the cursor moves
   * past the first separator that follows and past white space.
   */
  function SkipString(text: Text, i: nat): (r: Result<Token>)
    requires i < |text|
    ensures r.Ok? ==> i < r.value.next <= |text| && (r.value.next < |text| ==> !IsSpace(text[r.value.next]))
  {
    var (result, afterQuote) := PopFront(text, i + 1, '"');
    match FindFirstOf(text, afterQuote, Separators)
    case None => Err(InvalidClass)
    case Some(pos) => Ok(Token(result, TrimLeft(text, pos + 1)))
  }

  /**
   * What `skip_string` reads: the bytes after the quote up to the next '"';
   * it fails with "Invalid class" exactly when no separator follows that
   * quote; otherwise the cursor ends trimmed past the first such separator.
   */
  lemma SkipStringSpec(text: Text, i: nat)
    requires i < |text|
    ensures var r := SkipString(text, i);
      var (result, after) := PopFront(text, i + 1, '"');
      && (r.Err? <==> forall k :: after <= k < |text| ==> text[k] !in Separators)
      && (r.Err? ==> r.error == InvalidClass)
      && (r.Ok? ==>
        && r.value.span == result
        && i + 1 + |result| <= |text|
        && text[i + 1..i + 1 + |result|] == result
        && '"' !in result
        && (i + 1 + |result| < |text| ==> text[i + 1 + |result|] == '"')
        && i + 1 + |result| < r.value.next
        && PassesFirstSeparator(text, after, r.value.next))
  {
    var (result, after) := PopFront(text, i + 1, '"');
    PopFrontSpan(text, i + 1, '"');
    SeparatorCursor(text, after);
    assert SkipString(text, i) == match FindFirstOf(text, after, Separators)
      case None => Err(InvalidClass)
      case Some(pos) => Ok(Token(result, TrimLeft(text, pos + 1)));
  }

  /**
   * `next` is the view after `find_first_of(",}]")` from `from`, the removal
   * of everything up to and including the separator found, and a trim.
   */
  ghost predicate PassesFirstSeparator(text: Text, from: nat, next: nat) {
    exists k :: from <= k < |text| && text[k] in Separators
      && (forall m :: from <= m < k ==> text[m] !in Separators)
      && next == TrimLeft(text, k + 1)
  }

  /** The separator search shared by `skip_string` and `skip_other`: it fails exactly when no separator is left. */
  lemma SeparatorCursor(text: Text, from: nat)
    requires from <= |text|
    ensures FindFirstOf(text, from, Separators).None? <==> forall k :: from <= k < |text| ==> text[k] !in Separators
    ensures FindFirstOf(text, from, Separators).Some? ==>
      PassesFirstSeparator(text, from, TrimLeft(text, FindFirstOf(text, from, Separators).value + 1))
  {
    FindFirstOfFirst(text, from, Separators);
    if FindFirstOf(text, from, Separators).Some? {
      var pos := FindFirstOf(text, from, Separators).value;
      assert from <= pos < |text| && text[pos] in Separators;
    }
  }

  /**
   * `skip_other`: a number, literal or other bare value is exactly the prefix
   * before the first separator; that one separator is consumed and the
   * cursor is trimmed.  Without a separator it fails.
   */
  function SkipOther(text: Text, i: nat): (r: Result<Token>)
    requires i <= |text|
    ensures r.Ok? ==> i < r.value.next <= |text| && (r.value.next < |text| ==> !IsSpace(text[r.value.next]))
  {
    match FindFirstOf(text, i, Separators)
    case None => Err(InvalidClass)
    case Some(pos) => Ok(Token(text[i..pos], TrimLeft(text, pos + 1)))
  }

  /**
   * What `skip_other` reads: exactly the prefix before the first separator,
   * which is consumed; without a separator it fails with "Invalid class".
   */
  lemma SkipOtherSpec(text: Text, i: nat)
    requires i <= |text|
    ensures var r := SkipOther(text, i);
      && (r.Err? <==> forall k :: i <= k < |text| ==> text[k] !in Separators)
      && (r.Err? ==> r.error == InvalidClass)
      && (r.Ok? ==>
        && i + |r.value.span| < |text|
        && r.value.span == text[i..i + |r.value.span|]
        && (forall k :: 0 <= k < |r.value.span| ==> r.value.span[k] !in Separators)
        && text[i + |r.value.span|] in Separators
        && r.value.next == TrimLeft(text, i + |r.value.span| + 1))
  {
    FindFirstOfFirst(text, i, Separators);
  }

  /*
   * The bracket skippers `skip_class` and `skip_array` are one algorithm over
   * a pair of brackets.  Its state is the nesting count and the `in_quotes`
   * and `is_escaped` flags.
   */

  datatype ScanState = ScanState(depth: nat, inQuotes: bool, escaped: bool)

  /** The state before the first byte after the opening bracket. */
  const Start := ScanState(1, false, false)

  /**
   * One byte of the bracket scan: an unescaped '\' outside quotes sets the
   * escape flag; an unescaped '"' toggles `in_quotes`; an opening or closing
   * bracket outside quotes and not escaped moves the count; every other byte,
   * and every byte after the first two cases, clears the escape flag.
   */
  function Step(st: ScanState, c: Byte, open: Byte, close: Byte): (r: ScanState)
    ensures r.depth <= st.depth + 1 && st.depth <= r.depth + 1
    ensures r.escaped ==> c == '\\'
  {
    if c == '\\' && !st.inQuotes && !st.escaped then st.(escaped := true)
    else if c == '"' && !st.escaped then st.(inQuotes := !st.inQuotes)
    else if c == open && !st.inQuotes && !st.escaped then ScanState(st.depth + 1, st.inQuotes, false)
    else if c == close && !st.inQuotes && !st.escaped && st.depth > 0 then ScanState(st.depth - 1, st.inQuotes, false)
    else st.(escaped := false)
  }

  /** The state after scanning all of `s` from `st`; each byte moves the count by at most one. */
  function Fold(st: ScanState, s: Text, open: Byte, close: Byte): (r: ScanState)
    ensures r.depth <= st.depth + |s| && st.depth <= r.depth + |s|
    decreases |s|
  {
    if s == [] then st else Fold(Step(st, s[0], open, close), s[1..], open, close)
  }

  /** Where the scan loop stops: at the end of the buffer or once the count is zero. */
  function ScanEnd(text: Text, i: nat, open: Byte, close: Byte, st: ScanState): (e: nat)
    requires i <= |text|
    ensures i <= e <= |text|
    decreases |text| - i
  {
    if i < |text| && st.depth > 0 then ScanEnd(text, i + 1, open, close, Step(st, text[i], open, close))
    else i
  }

  /**
   * What `skip_class`/`skip_array` return for the bracket at `pos`: the span
   * from that bracket to where the scan stopped.  They then demand that a
   * separator remains somewhere in the view, but remove only ONE byte before
   * trimming, not everything up to that separator.
   */
  function BracketedToken(text: Text, pos: nat, open: Byte, close: Byte, err: Error): (r: Result<Token>)
    requires pos < |text|
    ensures r.Ok? ==> pos < r.value.next <= |text| && (r.value.next < |text| ==> !IsSpace(text[r.value.next]))
  {
    var e := ScanEnd(text, pos + 1, open, close, Start);
    match FindFirstOf(text, e, Separators)
    case None => Err(err)
    case Some(_) => Ok(Token(text[pos..e], TrimLeft(text, e + 1)))
  }

  /**
   * What a bracket skipper reads: the span from the bracket at `pos` to where
   * the scan stopped; it fails with its own error exactly when no separator
   * remains from there; otherwise only the one byte after the span is dropped
   * before trimming.
   */
  lemma BracketedTokenSpec(text: Text, pos: nat, open: Byte, close: Byte, err: Error)
    requires pos < |text|
    ensures var r := BracketedToken(text, pos, open, close, err);
      var e := ScanEnd(text, pos + 1, open, close, Start);
      && (r.Err? <==> forall k :: e <= k < |text| ==> text[k] !in Separators)
      && (r.Err? ==> r.error == err)
      && (r.Ok? ==> r.value == Token(text[pos..e], TrimLeft(text, e + 1)) && pos < e < |text|)
  {
    FindFirstOfFirst(text, ScanEnd(text, pos + 1, open, close, Start), Separators);
  }

  /** `skip_class`'s result for the '{' at `pos`: its span starts there, and its failure is "Invalid class". */
  function ClassToken(text: Text, pos: nat): (r: Result<Token>)
    requires pos < |text|
    ensures r.Err? ==> r.error == InvalidClass
    ensures r.Ok? ==> 0 < |r.value.span| && pos + |r.value.span| <= |text| && r.value.span == text[pos..pos + |r.value.span|]
  {
    BracketedToken(text, pos, '{', '}', InvalidClass)
  }

  /** `skip_array`'s result for the '[' at `pos`: its span starts there, and its failure is "Invalid array". */
  function ArrayToken(text: Text, pos: nat): (r: Result<Token>)
    requires pos < |text|
    ensures r.Err? ==> r.error == InvalidArray
    ensures r.Ok? ==> 0 < |r.value.span| && pos + |r.value.span| <= |text| && r.value.span == text[pos..pos + |r.value.span|]
  {
    BracketedToken(text, pos, '[', ']', InvalidArray)
  }

  /** The loop shared by `skip_class` and `skip_array`, written as the source writes it. */
  method SkipBracketed(text: Text, pos: nat, open: Byte, close: Byte, err: Error) returns (r: Result<Token>)
    requires pos < |text|
    ensures r == BracketedToken(text, pos, open, close, err)
  {
    var bracketCount: nat := 1;
    var isEscaped := false;
    var inQuotes := false;
    var cur := pos + 1;
    while cur < |text| && bracketCount > 0
      invariant pos + 1 <= cur <= |text|
      invariant ScanEnd(text, cur, open, close, ScanState(bracketCount, inQuotes, isEscaped))
             == ScanEnd(text, pos + 1, open, close, Start)
      decreases |text| - cur
    {
      var c := text[cur];
      if c == '\\' && !inQuotes && !isEscaped {
        isEscaped := true;
        cur := cur + 1;
        continue;
      }
      if c == '"' && !isEscaped {
        inQuotes := !inQuotes;
        cur := cur + 1;
        continue;
      }
      if c == open && !inQuotes && !isEscaped {
        bracketCount := bracketCount + 1;
      } else if c == close && !inQuotes && !isEscaped {
        bracketCount := bracketCount - 1;
      }
      isEscaped := false;
      cur := cur + 1;
    }
    var sep := FindFirstOf(text, cur, Separators);
    if sep.None? {
      return Err(err);
    }
    r := Ok(Token(text[pos..cur], TrimLeft(text, cur + 1)));
  }

  /** `skip_class`, for the '{' at `pos`. */
  method SkipClass(text: Text, pos: nat) returns (r: Result<Token>)
    requires pos < |text|
    ensures r == ClassToken(text, pos)
  {
    r := SkipBracketed(text, pos, '{', '}', InvalidClass);
  }

  /** `skip_array`, for the '[' at `pos`. */
  method SkipArray(text: Text, pos: nat) returns (r: Result<Token>)
    requires pos < |text|
    ensures r == ArrayToken(text, pos)
  {
    r := SkipBracketed(text, pos, '[', ']', InvalidArray);
  }

  /**
   * What `skip_value` returns: after trimming, the first byte picks the
   * skipper ('"' string, '[' array, '{' object, anything else a bare value).
   */
  function ValueToken(text: Text, i: nat): (r: Result<Token>)
    requires i <= |text|
    ensures r.Ok? ==>
      && i < r.value.next <= |text|
      && (r.value.next < |text| ==> !IsSpace(text[r.value.next]))
  {
    var j := TrimLeft(text, i);
    if j == |text| then Err(UnexpectedEnd)
    else if text[j] == '"' then SkipString(text, j)
    else if text[j] == '[' then ArrayToken(text, j)
    else if text[j] == '{' then ClassToken(text, j)
    else SkipOther(text, j)
  }

  /** `skip_value`. */
  method SkipValue(text: Text, i: nat) returns (r: Result<Token>)
    requires i <= |text|
    ensures r == ValueToken(text, i)
  {
    var j := TrimLeft(text, i);
    if j == |text| {
      return Err(UnexpectedEnd);
    }
    if text[j] == '"' {
      r := SkipString(text, j);
    } else if text[j] == '[' {
      r := SkipArray(text, j);
    } else if text[j] == '{' {
      r := SkipClass(text, j);
    } else {
      r := SkipOther(text, j);
    }
  }
}
