/**
 * Properties of the object decoder.  The location loop is described a second
 * way: first as the list of key/value spans it reads (`Pairs`, which does not
 * depend on the schema), then as binding those spans to slots one after the
 * other (`Apply`).  From that description: an unknown key changes no slot, a
 * known key overwrites only its own slot, the last occurrence of a key wins,
 * and a required member whose key never occurs fails the decode.
 */
module JsonParserProps {
  import opened Bytes
  import opened Scanner
  import opened JsonParser
  import Nesting
  import ScannerProps

  /** The key and value spans a member-location loop reads from cursor `i`, whatever the schema. */
  function Pairs(text: Text, i: nat): (r: Result<seq<(Text, Text)>>)
    requires i <= |text|
    decreases |text| - i
  {
    if i == |text| || text[i] == '}' then Ok([])
    else match ParseName(text, i)
      case Err(e) => Err(e)
      case Ok(name) =>
        match ValueToken(text, name.next)
        case Err(e) => Err(e)
        case Ok(value) =>
          match Pairs(text, value.next)
          case Err(e) => Err(e)
          case Ok(ps) => Ok([(name.span, value.span)] + ps)
  }

  /** Store `span` in the slot of `key`, if the table knows it. */
  function Bind(table: seq<Entry>, key: Text, span: Text, slots: seq<ValuePos>): seq<ValuePos>
    requires |slots| == |table|
  {
    match FindName(table, key)
    case None => slots
    case Some(p) => slots[p := slots[p].(valueStr := span)]
  }

  /** Bind every pair in order. */
  function Apply(table: seq<Entry>, ps: seq<(Text, Text)>, slots: seq<ValuePos>): (r: seq<ValuePos>)
    requires |slots| == |table|
    ensures |r| == |table|
    decreases |ps|
  {
    if ps == [] then slots else Apply(table, ps[1..], Bind(table, ps[0].0, ps[0].1, slots))
  }

  /** The location loop is the pairs it reads bound in order, and it fails exactly when reading them fails. */
  lemma {:induction false} LocationsIsApply(table: seq<Entry>, text: Text, i: nat, slots: seq<ValuePos>)
    requires i <= |text| && |slots| == |table|
    ensures Locations(table, text, i, slots) ==
      match Pairs(text, i)
      case Err(e) => Err(e)
      case Ok(ps) => Ok(Apply(table, ps, slots))
    decreases |text| - i
  {
    if i == |text| || text[i] == '}' {
    } else if ParseName(text, i).Ok? {
      var name := ParseName(text, i).value;
      var v := ValueToken(text, name.next);
      if v.Ok? {
        var value := v.value;
        TrimLeftSkips(text, value.next, 0);
        var bound := Bind(table, name.span, value.span, slots);
        LocationsIsApply(table, text, value.next, bound);
        match Pairs(text, value.next)
        case Err(e) =>
        case Ok(ps) =>
          var all := [(name.span, value.span)] + ps;
          assert all[1..] == ps;
      }
    }
  }

  /** A slot no key resolves to keeps its initial contents: unknown keys and other members' keys leave it alone. */
  lemma {:induction false} ApplyUntouched(table: seq<Entry>, ps: seq<(Text, Text)>, slots: seq<ValuePos>, n: nat)
    requires |slots| == |table| && n < |table|
    requires forall j :: 0 <= j < |ps| ==> FindName(table, ps[j].0) != Some(n)
    ensures Apply(table, ps, slots)[n] == slots[n]
    decreases |ps|
  {
    if ps != [] {
      var bound := Bind(table, ps[0].0, ps[0].1, slots);
      assert FindName(table, ps[0].0) != Some(n);
      assert bound[n] == slots[n];
      forall j | 0 <= j < |ps[1..]|
        ensures FindName(table, ps[1..][j].0) != Some(n)
      {
        assert ps[1..][j] == ps[j + 1];
      }
      ApplyUntouched(table, ps[1..], bound, n);
    }
  }

  /** The last pair whose key resolves to slot `n` decides that slot's span; its nullability never changes. */
  lemma {:induction false} ApplyLast(table: seq<Entry>, ps: seq<(Text, Text)>, slots: seq<ValuePos>, n: nat, j: nat)
    requires |slots| == |table| && n < |table| && j < |ps|
    requires FindName(table, ps[j].0) == Some(n)
    requires forall k :: j < k < |ps| ==> FindName(table, ps[k].0) != Some(n)
    ensures Apply(table, ps, slots)[n] == ValuePos(ps[j].1, slots[n].isNullable)
    decreases |ps|
  {
    var bound := Bind(table, ps[0].0, ps[0].1, slots);
    if j == 0 {
      assert bound[n] == ValuePos(ps[0].1, slots[n].isNullable);
      forall k | 0 <= k < |ps[1..]|
        ensures FindName(table, ps[1..][k].0) != Some(n)
      {
        assert ps[1..][k] == ps[k + 1];
      }
      ApplyUntouched(table, ps[1..], bound, n);
    } else {
      assert bound[n].isNullable == slots[n].isNullable;
      assert ps[1..][j - 1] == ps[j];
      forall k | j - 1 < k < |ps[1..]|
        ensures FindName(table, ps[1..][k].0) != Some(n)
      {
        assert ps[1..][k] == ps[k + 1];
      }
      ApplyLast(table, ps[1..], bound, n, j - 1);
    }
  }

  /**
   * A member that may not be missing, whose key does not occur among the
   * pairs of the object, fails the decode with the missing-member error.
   */
  lemma AbsentRequiredMemberFails(schema: Schema, text: Text, parseInt: Text -> int, n: nat, k: nat, ps: seq<(Text, Text)>)
    requires n < |schema.members| && !schema.members[n].nullable
    requires ClassStart(text) == Ok(k) && Pairs(text, k) == Ok(ps)
    requires forall j :: 0 <= j < |ps| ==> ps[j].0 != schema.members[n].name
    ensures DecodeClass(schema, text, parseInt) == Err(MissingMember)
  {
    var table := MakeMap(schema);
    LocationsIsApply(table, text, k, Initial(table));
    forall j | 0 <= j < |ps|
      ensures FindName(table, ps[j].0) != Some(n)
    {
    }
    ApplyUntouched(table, ps, Initial(table), n);
    var slots := Apply(table, ps, Initial(table));
    assert !slots[n].Present();
  }

  /**
   * A member whose key occurs decodes from the span of the key's last
   * occurrence: when the decode succeeds, field `n` is the value decoder
   * applied to that span.
   */
  lemma LastOccurrenceDecoded(schema: Schema, text: Text, parseInt: Text -> int, n: nat, k: nat, ps: seq<(Text, Text)>, j: nat)
    requires n < |schema.members| && j < |ps|
    requires forall m :: 0 <= m < n ==> schema.members[m].name != schema.members[n].name
    requires ClassStart(text) == Ok(k) && Pairs(text, k) == Ok(ps)
    requires ps[j].0 == schema.members[n].name
    requires forall i :: j < i < |ps| ==> ps[i].0 != schema.members[n].name
    requires DecodeClass(schema, text, parseInt).Ok?
    ensures var v := DecodeValue(schema.members[n].kind, ValuePos(ps[j].1, schema.members[n].nullable), parseInt);
      v.Ok? && DecodeClass(schema, text, parseInt).value.fields[n] == v.value
  {
    var table := MakeMap(schema);
    LocationsIsApply(table, text, k, Initial(table));
    FindNameInMap(schema, ps[j].0, n);
    forall i | j < i < |ps|
      ensures FindName(table, ps[i].0) != Some(n)
    {
    }
    ApplyLast(table, ps, Initial(table), n, j);
    var slots := Apply(table, ps, Initial(table));
    assert slots[n] == ValuePos(ps[j].1, schema.members[n].nullable);
    ConstructField(schema, slots, parseInt, n);
  }

  /** When an object is constructed, field `n` is the value decoder applied to slot `n`. */
  lemma ConstructField(schema: Schema, slots: seq<ValuePos>, parseInt: Text -> int, n: nat)
    requires |slots| == |schema.members| && n < |slots|
    requires Construct(schema, slots, parseInt).Ok?
    ensures var v := DecodeValue(schema.members[n].kind, slots[n], parseInt);
      v.Ok? && Construct(schema, slots, parseInt).value.fields[n] == v.value
  {
    var members := DecodeMembers(schema, slots, 0, parseInt);
    assert members.Ok? && Construct(schema, slots, parseInt) == Ok(Object(members.value));
    MembersAt(schema, slots, 0, parseInt, n);
  }

  /** When the member values decode, value `n` is the decoder applied to slot `n`. */
  lemma {:induction false} MembersAt(schema: Schema, slots: seq<ValuePos>, k: nat, parseInt: Text -> int, n: nat)
    requires |slots| == |schema.members| && k <= n < |slots|
    requires DecodeMembers(schema, slots, k, parseInt).Ok?
    ensures var v := DecodeValue(schema.members[n].kind, slots[n], parseInt);
      v.Ok? && DecodeMembers(schema, slots, k, parseInt).value[n - k] == v.value
    decreases n - k
  {
    if k < n {
      MembersAt(schema, slots, k + 1, parseInt, n);
    }
  }

  // ---------------------------------------------------------------------
  // Examples
  // ---------------------------------------------------------------------

  /** The pairs read at `i` are the pair of one key and value followed by the pairs after them. */
  lemma PairsStep(text: Text, i: nat, name: Token, value: Token, ps: seq<(Text, Text)>)
    requires i < |text| && text[i] != '}'
    requires ParseName(text, i) == Ok(name) && ValueToken(text, name.next) == Ok(value)
    requires Pairs(text, value.next) == Ok(ps)
    ensures Pairs(text, i) == Ok([(name.span, value.span)] + ps)
  {
  }

  /** A decode is the construction from the pairs bound in order, once the start and the pairs are known. */
  lemma DecodeClassByPairs(schema: Schema, text: Text, parseInt: Text -> int, k: nat, ps: seq<(Text, Text)>)
    requires ClassStart(text) == Ok(k) && Pairs(text, k) == Ok(ps)
    ensures var table := MakeMap(schema);
      DecodeClass(schema, text, parseInt) == Construct(schema, Apply(table, ps, Initial(table)), parseInt)
  {
    var table := MakeMap(schema);
    LocationsIsApply(table, text, k, Initial(table));
  }

  /** A schema of two required integers `a` and `b`. */
  const AB := Schema([Member("a", Kind.Number(false), false), Member("b", Kind.Number(false), false)])

  /** The value of the unknown member: an object holding nested arrays. */
  const NestedValue: Text := "{\"nested\":[1,2,[3]]}"

  /** `{"a":1,"zzz":{"nested":[1,2,[3]]},"b":2}` */
  const UnknownMemberText: Text := "{\"a\":1,\"zzz\":" + NestedValue + ",\"b\":2}"

  /** The pairs its location loop reads. */
  const UnknownMemberPairList: seq<(Text, Text)> := [("a", "1"), ("zzz", NestedValue), ("b", "2")]

  /**
   * A member `"name":v` at `i` with a one-byte bare value, no white space,
   * and a separator right after the value.
   */
  predicate BareMember(text: Text, i: nat, name: Text, v: Byte) {
    && i + |name| + 5 <= |text| && '"' !in name
    && text[i] == '"' && text[i + 1..i + 1 + |name|] == name && text[i + 1 + |name|] == '"'
    && text[i + 2 + |name|] == ':' && text[i + 3 + |name|] == v
    && !IsSpace(v) && v !in Separators && v != '"' && v != '[' && v != '{'
    && text[i + 4 + |name|] in Separators
    && (i + |name| + 5 == |text| || !IsSpace(text[i + |name| + 5]))
  }

  /** Such a member is read as one pair, and the loop goes on just past its separator. */
  lemma BareMemberPairs(text: Text, i: nat, name: Text, v: Byte, ps: seq<(Text, Text)>)
    requires BareMember(text, i, name, v) && Pairs(text, i + |name| + 5) == Ok(ps)
    ensures Pairs(text, i) == Ok([(name, [v])] + ps)
  {
    BareMemberRead(text, i, name, v);
    var key := Token(name, i + |name| + 3);
    var value := Token([v], i + |name| + 5);
    assert text[i] == '"';
    PairsStep(text, i, key, value, ps);
  }

  lemma BareMemberRead(text: Text, i: nat, name: Text, v: Byte)
    requires BareMember(text, i, name, v)
    ensures ParseName(text, i) == Ok(Token(name, i + |name| + 3))
    ensures ValueToken(text, i + |name| + 3) == Ok(Token([v], i + |name| + 5))
  {
    KeyAt(text, i, name);
    BareValueAt(text, i + |name| + 3, [v]);
  }

  /** The bytes of the unknown-member example the decode looks at: the first member and the unknown key, */
  predicate HeadLayout(text: Text) {
    && |text| == 40 && text[0] == '{' && BareMember(text, 1, "a", '1')
    && text[7] == '"' && text[8..11] == "zzz" && text[11] == '"' && text[12] == ':'
  }

  /** the unknown member's value, */
  predicate NestedLayout(text: Text) {
    |text| == 40 && text[13..33] == NestedValue && text[33] == ','
  }

  /** and the last member with the closing brace. */
  predicate TailLayout(text: Text) {
    |text| == 40 && BareMember(text, 34, "b", '2')
  }

  lemma HeadLayoutHolds(text: Text)
    requires text == UnknownMemberText
    ensures HeadLayout(text)
  {
    SliceIs(text, 2, "a");
    SliceIs(text, 8, "zzz");
  }

  lemma NestedLayoutHolds(text: Text)
    requires text == UnknownMemberText
    ensures NestedLayout(text)
  {
    SliceIs(text, 13, NestedValue);
  }

  lemma TailLayoutHolds(text: Text)
    requires text == UnknownMemberText
    ensures TailLayout(text)
  {
    SliceIs(text, 35, "b");
  }

  /** The pairs of the unknown-member example, nested brackets of the unknown value included. */
  lemma UnknownMemberPairs(text: Text)
    requires HeadLayout(text) && NestedLayout(text) && TailLayout(text)
    ensures Pairs(text, 1) == Ok(UnknownMemberPairList)
  {
    var mid := UnknownMemberRest(text);
    BareMemberPairs(text, 1, "a", '1', mid);
    assert UnknownMemberPairList == [("a", "1")] + mid;
  }

  /** The example object starts at its first byte. */
  lemma UnknownMemberStart(text: Text)
    requires HeadLayout(text)
    ensures ClassStart(text) == Ok(1)
  {
    assert TrimLeft(text, 0) == 0 && TrimLeft(text, 1) == 1;
  }

  /** From the unknown key on, the pairs are the unknown member and `b`. */
  lemma UnknownMemberRest(text: Text) returns (mid: seq<(Text, Text)>)
    requires HeadLayout(text) && NestedLayout(text) && TailLayout(text)
    ensures mid == UnknownMemberPairList[1..]
    ensures Pairs(text, 7) == Ok(mid)
  {
    var last := UnknownMemberLast(text);
    KeyAt(text, 7, "zzz");
    UnknownMemberValue(text);
    PairsStep(text, 7, Token("zzz", 13), Token(NestedValue, 34), last);
    mid := [("zzz", NestedValue)] + last;
  }

  /** The last pair of the unknown-member example. */
  lemma UnknownMemberLast(text: Text) returns (last: seq<(Text, Text)>)
    requires TailLayout(text)
    ensures last == [("b", "2")] && Pairs(text, 34) == Ok(last)
  {
    assert Pairs(text, 40) == Ok([]);
    BareMemberPairs(text, 34, "b", '2', []);
    last := [("b", "2")];
    assert last + [] == last;
  }

  /** A key `"name":` at `i`, directly followed by a byte that is not white space. */
  lemma KeyAt(text: Text, i: nat, name: Text)
    requires i + |name| + 3 < |text| && '"' !in name
    requires text[i] == '"' && text[i + 1..i + 1 + |name|] == name && text[i + 1 + |name|] == '"'
    requires text[i + 2 + |name|] == ':' && !IsSpace(text[i + 3 + |name|])
    ensures ParseName(text, i) == Ok(Token(name, i + |name| + 3))
  {
    forall k | i + 1 <= k < i + 1 + |name|
      ensures text[k] != '"'
    {
      assert text[k] == text[i + 1..i + 1 + |name|][k - (i + 1)];
    }
    ScannerProps.ParseNameAt(text, i, i, |name|, i + |name| + 2, i + |name| + 3);
  }

  /** A one-byte bare value at `i`, followed by a separator and then a byte that is not white space (or the end). */
  lemma BareValueAt(text: Text, i: nat, v: Text)
    requires i + 1 < |text| && |v| == 1 && text[i] == v[0]
    requires !IsSpace(v[0]) && v[0] !in Separators && v[0] != '"' && v[0] != '[' && v[0] != '{'
    requires text[i + 1] in Separators && (i + 2 == |text| || !IsSpace(text[i + 2]))
    ensures ValueToken(text, i) == Ok(Token(v, i + 2))
  {
    assert TrimLeft(text, i) == i;
    assert FindFirstOf(text, i, Separators) == Some(i + 1);
    assert text[i..i + 1] == v;
    TrimLeftSkips(text, i + 2, 0);
  }

  /** The unknown member's value is skipped as one object, its inner brackets and quotes included. */
  lemma UnknownMemberValue(text: Text)
    requires NestedLayout(text) && TailLayout(text)
    ensures ValueToken(text, 13) == Ok(Token(NestedValue, 34))
  {
    var t := NestedValueGroup;
    NestedValueWellFormed();
    NestedValueTree();
    assert text[13] == NestedValue[0] == '{';
    TrimLeftSkips(text, 34, 0);
    assert text[33] in Separators;
    assert TrimLeft(text, 13) == 13;
    Nesting.BracketedTokenOfGroup(text, 13, t, '{', '}', InvalidClass);
  }

  /** The unknown member's value as a bracket tree: a quoted key and a plain run. */
  const NestedKey: Text := "nested"
  const NestedRun: Text := ":[1,2,[3]]"
  const NestedValueGroup := Nesting.Group([Nesting.Quoted(NestedKey), Nesting.Plain(NestedRun)])

  lemma NestedValueWellFormed()
    ensures Nesting.WellFormed(NestedValueGroup, '{', '}')
  {
    NestedRunInert();
    assert '"' !in NestedKey;
    var t := NestedValueGroup;
    assert Nesting.WellFormed(t.children[0], '{', '}');
    assert Nesting.WellFormed(t.children[1], '{', '}');
  }

  /** The plain run of the nested value holds neither brace, quote nor backslash (its square brackets are inert). */
  lemma NestedRunInert()
    ensures forall c :: c in NestedRun ==> Nesting.Inert(c, '{', '}')
  {
  }

  lemma NestedValueTree()
    ensures Nesting.Encode(NestedValueGroup, '{', '}') == NestedValue
  {
    var t := NestedValueGroup;
    assert |t.children| == 2;
    assert Nesting.Encode(t.children[1], '{', '}') == NestedRun;
    assert Nesting.Encode(t.children[0], '{', '}') == ['"'] + NestedKey + ['"'];
    assert Nesting.EncodeChildren(t, 2, '{', '}') == [];
    var last := Nesting.EncodeChildren(t, 1, '{', '}');
    assert last == NestedRun + [];
    assert last == NestedRun;
    var all := Nesting.EncodeChildren(t, 0, '{', '}');
    assert all == ['"'] + NestedKey + ['"'] + last;
    assert all == "\"nested\":[1,2,[3]]";
  }

  /** Under the example's layout the decode against `a` and `b` uses the spans "1" and "2". */
  lemma UnknownMemberDecode(text: Text, parseInt: Text -> int)
    requires HeadLayout(text) && NestedLayout(text) && TailLayout(text)
    ensures DecodeClass(AB, text, parseInt) == Ok(Object([Int(parseInt("1")), Int(parseInt("2"))]))
  {
    var table := MakeMap(AB);
    var ps := UnknownMemberPairList;
    UnknownMemberStart(text);
    UnknownMemberPairs(text);
    DecodeClassByPairs(AB, text, parseInt, 1, ps);
    var slots := ABSlots(table, ps);
    ABConstruct(slots, parseInt);
  }

  /** Both members of `AB` present as "1" and "2" construct the two integers in declaration order. */
  lemma ABConstruct(slots: seq<ValuePos>, parseInt: Text -> int)
    requires slots == [ValuePos("1", false), ValuePos("2", false)]
    ensures Construct(AB, slots, parseInt) == Ok(Object([Int(parseInt("1")), Int(parseInt("2"))]))
  {
    assert AllPresent(slots);
    var second := [Int(parseInt("2"))];
    assert DecodeMembers(AB, slots, 2, parseInt) == Ok([]);
    assert DecodeValue(AB.members[1].kind, slots[1], parseInt) == Ok(second[0]);
    assert second == [second[0]] + [];
    assert DecodeMembers(AB, slots, 1, parseInt) == Ok(second);
    assert DecodeValue(AB.members[0].kind, slots[0], parseInt) == Ok(Int(parseInt("1")));
    var both := [Int(parseInt("1"))] + second;
    assert DecodeMembers(AB, slots, 0, parseInt) == Ok(both);
    assert both == [Int(parseInt("1")), Int(parseInt("2"))];
  }

  /**
   * Unknown members are skipped: `{"a":1,"zzz":{"nested":[1,2,[3]]},"b":2}`
   * decodes against a schema of `a` and `b` alone, from the spans "1" and "2".
   */
  lemma UnknownMemberIgnored(parseInt: Text -> int)
    ensures DecodeClass(AB, UnknownMemberText, parseInt) == Ok(Object([Int(parseInt("1")), Int(parseInt("2"))]))
  {
    HeadLayoutHolds(UnknownMemberText);
    NestedLayoutHolds(UnknownMemberText);
    TailLayoutHolds(UnknownMemberText);
    UnknownMemberDecode(UnknownMemberText, parseInt);
  }

  lemma ABSlots(table: seq<Entry>, ps: seq<(Text, Text)>) returns (slots: seq<ValuePos>)
    requires table == MakeMap(AB)
    requires ps == UnknownMemberPairList
    ensures slots == Apply(table, ps, Initial(table)) == [ValuePos("1", false), ValuePos("2", false)]
  {
    FindNameInMap(AB, "a", 0);
    FindNameInMap(AB, "b", 1);
    assert FindName(table, "zzz") == None;
    var s0 := Initial(table);
    assert s0 == [ValuePos([], false), ValuePos([], false)];
    var s1 := Bind(table, "a", "1", s0);
    assert s1 == [ValuePos("1", false), ValuePos([], false)];
    var s2 := Bind(table, "zzz", NestedValue, s1);
    assert s2 == s1;
    var s3 := Bind(table, "b", "2", s2);
    assert s3 == [ValuePos("1", false), ValuePos("2", false)];
    assert Apply(table, ps, s0) == Apply(table, ps[1..], s1);
    assert ps[1..][0] == ps[1] && ps[1..][1..][0] == ps[2];
    assert Apply(table, ps[1..], s1) == Apply(table, ps[1..][1..], s2);
    assert Apply(table, ps[1..][1..], s2) == Apply(table, ps[1..][1..][1..], s3);
    assert ps[1..][1..][1..] == [];
    slots := s3;
  }

  const XSchema := Schema([Member("x", Kind.Number(false), false)])
  const NullableXSchema := Schema([Member("x", Kind.Number(false), true)])

  /** `{"y":1}` */
  const YText: Text := "{\"y\":1}"

  /** `{"y":1}` reads one pair, for a key neither schema declares. */
  lemma YPairs(text: Text)
    requires text == YText
    ensures ClassStart(text) == Ok(1)
    ensures Pairs(text, 1) == Ok([("y", "1")])
  {
    YLayout(text);
    YPairsOf(text);
  }

  lemma YLayout(text: Text)
    requires text == YText
    ensures |text| == 7 && text[0] == '{' && BareMember(text, 1, "y", '1')
  {
    SliceIs(text, 2, "y");
  }

  lemma YPairsOf(text: Text)
    requires |text| == 7 && text[0] == '{' && BareMember(text, 1, "y", '1')
    ensures ClassStart(text) == Ok(1)
    ensures Pairs(text, 1) == Ok([("y", "1")])
  {
    assert TrimLeft(text, 0) == 0 && TrimLeft(text, 1) == 1;
    assert Pairs(text, 7) == Ok([]);
    BareMemberPairs(text, 1, "y", '1', []);
    var one: seq<(Text, Text)> := [("y", "1")];
    assert one + [] == one;
  }

  /** A required member `x` missing from `{"y":1}` fails the decode. */
  lemma RequiredMemberMissing(parseInt: Text -> int)
    ensures DecodeClass(XSchema, YText, parseInt) == Err(MissingMember)
  {
    var text := YText;
    YPairs(text);
    AbsentRequiredMemberFails(XSchema, text, parseInt, 0, 1, [("y", "1")]);
  }

  /**
   * The same member marked nullable decodes from `{"y":1}`; its slot stays
   * empty, so the integer parser sees an empty span.
   */
  lemma NullableMemberMissing(parseInt: Text -> int)
    ensures DecodeClass(NullableXSchema, YText, parseInt) == Ok(Object([Int(parseInt([]))]))
  {
    var text := YText;
    var table := MakeMap(NullableXSchema);
    var ps: seq<(Text, Text)> := [("y", "1")];
    YPairs(text);
    DecodeClassByPairs(NullableXSchema, text, parseInt, 1, ps);
    var slots := NullableXSlots(table, ps);
    NullableXConstruct(slots, parseInt);
  }

  lemma NullableXSlots(table: seq<Entry>, ps: seq<(Text, Text)>) returns (slots: seq<ValuePos>)
    requires table == MakeMap(NullableXSchema) && ps == [("y", "1")]
    ensures slots == Apply(table, ps, Initial(table)) == [ValuePos([], true)]
  {
    assert FindName(table, "y") == None;
    assert Initial(table) == [ValuePos([], true)];
    assert ps[1..] == [];
    slots := Apply(table, ps, Initial(table));
  }

  /** An empty nullable integer slot is present and hands the parser the empty span. */
  lemma NullableXConstruct(slots: seq<ValuePos>, parseInt: Text -> int)
    requires slots == [ValuePos([], true)]
    ensures Construct(NullableXSchema, slots, parseInt) == Ok(Object([Int(parseInt([]))]))
  {
    assert AllPresent(slots);
    assert DecodeMembers(NullableXSchema, slots, 1, parseInt) == Ok([]);
    var field := [Int(parseInt([]))];
    assert field == [field[0]] + [];
    assert DecodeMembers(NullableXSchema, slots, 0, parseInt) == Ok(field);
  }

  /**
   * A missing nullable bool is not decoded as a default: the source's bool
   * decoder reads `front()` of the empty span, and the model fails there.
   */
  lemma NullableBoolMissingFails(parseInt: Text -> int)
    ensures DecodeClass(Schema([Member("b", Bool, true)]), "{}", parseInt) == Err(UnexpectedEnd)
  {
    var text: Text := "{}";
    var schema := Schema([Member("b", Bool, true)]);
    assert ClassStart(text) == Ok(1);
    var table := MakeMap(schema);
    assert Initial(table) == [ValuePos([], true)];
    assert Locations(table, text, 1, Initial(table)) == Ok([ValuePos([], true)]);
  }

  /** `{"s":""}` */
  const EmptyStringText: Text := "{\"s\":\"\"}"

  /** `{"s":""}` reads one pair whose value span is empty. */
  lemma EmptyStringPairs(text: Text)
    requires text == EmptyStringText
    ensures ClassStart(text) == Ok(1)
    ensures Pairs(text, 1) == Ok([("s", [])])
  {
    ScannerProps.ParseNameAt(text, 1, 1, 1, 4, 5);
    SliceIs(text, 2, "s");
    PopFrontAt(text, 6, '"', 0);
    assert FindFirstOf(text, 7, Separators) == Some(7);
    assert ValueToken(text, 5) == Ok(Token([], 8));
    assert Pairs(text, 8) == Ok([]);
    PairsStep(text, 1, Token("s", 5), Token([], 8), []);
    var one: seq<(Text, Text)> := [("s", [])];
    assert one + [] == one;
  }

  /** An empty string for a required string member is taken as missing: its span is empty. */
  lemma EmptyRequiredStringMissing(parseInt: Text -> int)
    ensures DecodeClass(Schema([Member("s", String, false)]), EmptyStringText, parseInt) == Err(MissingMember)
  {
    var schema := Schema([Member("s", String, false)]);
    var text := EmptyStringText;
    var ps: seq<(Text, Text)> := [("s", [])];
    EmptyStringPairs(text);
    DecodeClassByPairs(schema, text, parseInt, 1, ps);
    var table := MakeMap(schema);
    FindNameInMap(schema, "s", 0);
    assert ps[1..] == [];
    assert Apply(table, ps, Initial(table)) == [ValuePos([], false)];
  }
}
