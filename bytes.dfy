/**
 * Bytes and the text-view helpers the decoder leans on.
 *
 * The decoder works on a `char` buffer through a string view (a pointer and a
 * length).  Here a character of that buffer is a `Byte`, the buffer is a
 * `Text`, and a view over its tail is an index into the buffer: the view only
 * ever moves forward, so advancing it is returning a larger index.
 *
 * `TrimLeft`, `FindFirstOf` and `PopFront` stand for the string-view library
 * routines `trim_left`, `find_first_of` and `pop_front(delimiter)`; their code
 * is not part of this model, so each one is given the behaviour its name
 * promises, stated in its contract.
 */
module Bytes {

  /** A C++ `char` is one byte. */
  type Byte = c: char | c as int < 256 witness '\0'

  type Text = seq<Byte>

  datatype Option<T> = None | Some(value: T)

  /** The ASCII white-space characters: space, tab, newline, vertical tab, form feed, carriage return. */
  predicate IsSpace(c: Byte) {
    c == ' ' || c == '\t' || c == '\n' || c == '\r' || c as int == 11 || c as int == 12
  }

  /**
   * `trim_left`: the view that starts at the first non-white-space byte at or
   * after `i` (that every byte it skips is white space is `TrimLeftSpaces`).
   */
  function TrimLeft(text: Text, i: nat): (j: nat)
    requires i <= |text|
    ensures i <= j <= |text|
    ensures j < |text| ==> !IsSpace(text[j])
    decreases |text| - i
  {
    if i < |text| && IsSpace(text[i]) then TrimLeft(text, i + 1) else i
  }

  /** Every byte `trim_left` skips is white space. */
  lemma {:induction false} TrimLeftSpaces(text: Text, i: nat)
    requires i <= |text|
    ensures forall k :: i <= k < TrimLeft(text, i) ==> IsSpace(text[k])
    decreases |text| - i
  {
    if i < |text| && IsSpace(text[i]) {
      TrimLeftSpaces(text, i + 1);
    }
  }

  /** Trimming an already trimmed view changes nothing. */
  lemma TrimLeftIdempotent(text: Text, i: nat)
    requires i <= |text|
    ensures TrimLeft(text, TrimLeft(text, i)) == TrimLeft(text, i)
  {
  }

  /**
   * `find_first_of`: the first index at or after `i` whose byte is in `chars`,
   * or none (`npos`); that no earlier byte is in `chars` is `FindFirstOfFirst`.
   */
  function FindFirstOf(text: Text, i: nat, chars: set<Byte>): (r: Option<nat>)
    requires i <= |text|
    ensures r.Some? ==> i <= r.value < |text| && text[r.value] in chars
    decreases |text| - i
  {
    if i == |text| then None
    else if text[i] in chars then Some(i)
    else FindFirstOf(text, i + 1, chars)
  }

  /** No byte before the one found (or, when none is found, no byte at all from `i`) is in `chars`. */
  lemma {:induction false} FindFirstOfFirst(text: Text, i: nat, chars: set<Byte>)
    requires i <= |text|
    ensures var r := FindFirstOf(text, i, chars);
      forall k :: i <= k < (if r.Some? then r.value else |text|) ==> text[k] !in chars
    decreases |text| - i
  {
    if i < |text| && text[i] !in chars {
      FindFirstOfFirst(text, i + 1, chars);
    }
  }

  /**
   * `pop_front(delimiter)`: the bytes before the first `delim` at or after `i`,
   * and the view just past that delimiter.  When there is no delimiter the
   * whole rest is returned and the view becomes empty.
   */
  function PopFront(text: Text, i: nat, delim: Byte): (r: (Text, nat))
    requires i <= |text|
    ensures i + |r.0| <= |text|
    ensures i + |r.0| < |text| ==> text[i + |r.0|] == delim && r.1 == i + |r.0| + 1
    ensures i + |r.0| == |text| ==> r.1 == |text|
  {
    match FindFirstOf(text, i, {delim})
    case Some(k) => (text[i..k], k + 1)
    case None => (text[i..], |text|)
  }

  /** The bytes `pop_front` returns are the view's own, and hold no delimiter. */
  lemma PopFrontSpan(text: Text, i: nat, delim: Byte)
    requires i <= |text|
    ensures var r := PopFront(text, i, delim);
      text[i..i + |r.0|] == r.0 && delim !in r.0
  {
    FindFirstOfFirst(text, i, {delim});
  }

  /** A view that starts with `n` white-space bytes followed by a non-space (or the end) is trimmed by exactly `n`. */
  lemma {:induction false} TrimLeftSkips(text: Text, i: nat, n: nat)
    requires i + n <= |text|
    requires forall k :: i <= k < i + n ==> IsSpace(text[k])
    requires i + n == |text| || !IsSpace(text[i + n])
    ensures TrimLeft(text, i) == i + n
    decreases n
  {
    if n > 0 {
      TrimLeftSkips(text, i + 1, n - 1);
    }
  }

  /** `pop_front(delim)` on a view whose first `delim` is at offset `n`. */
  lemma PopFrontAt(text: Text, i: nat, delim: Byte, n: nat)
    requires i + n < |text| && text[i + n] == delim
    requires forall k :: i <= k < i + n ==> text[k] != delim
    ensures PopFront(text, i, delim) == (text[i..i + n], i + n + 1)
  {
    FindFirstOfAt(text, i, {delim}, n);
  }

  /** `find_first_of` on a view whose first byte in `chars` is at offset `n`. */
  lemma {:induction false} FindFirstOfAt(text: Text, i: nat, chars: set<Byte>, n: nat)
    requires i + n < |text| && text[i + n] in chars
    requires forall k :: i <= k < i + n ==> text[k] !in chars
    ensures FindFirstOf(text, i, chars) == Some(i + n)
    decreases n
  {
    if n > 0 {
      FindFirstOfAt(text, i + 1, chars, n - 1);
    }
  }

  /** A slice is a given text when it matches it byte by byte. */
  lemma SliceIs(text: Text, a: nat, s: Text)
    requires a + |s| <= |text| && forall k :: 0 <= k < |s| ==> text[a + k] == s[k]
    ensures text[a..a + |s|] == s
  {
    forall k | 0 <= k < |s|
      ensures text[a..a + |s|][k] == s[k]
    {
      assert text[a..a + |s|][k] == text[a + k];
    }
  }
}
