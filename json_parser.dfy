/**
 * The object decoder of `daw_json_link_v3.h`: the per-type value decoders
 * (`parse_value`), the name table of `json_parser_t` (`get_item`,
 * `make_map`, `has_name`, `find_name`), the member-location loop
 * `get_locations` and `parse_json_class` / `from_json_t`.
 *
 * A C++ schema is a pack of member descriptions (`json_number`, `json_bool`,
 * `json_string`, `json_date`, `json_class`), each with a name, a parse type
 * and a nullability flag; here it is a value of type `Schema`.  A decoded
 * object is the sequence of its member values in declaration order, which is
 * what `construct_a<Result>` receives.
 */
module JsonParser {
  import opened Bytes
  import opened Scanner

  /**
   * `to_lower`: `c | ' '`, which sets bit 5 (the value 32) of the byte: a
   * byte with that bit set is unchanged, any other gains 32.
   */
  function ToLower(c: Byte): (r: Byte)
    ensures 'A' <= c <= 'Z' ==> r as int == c as int + 32
    ensures 'a' <= c <= 'z' ==> r == c
    ensures r as int == c as int || r as int == c as int + 32
  {
    if c as int % 64 >= 32 then c else (c as int + 32) as char
  }

  /** The arithmetic above is the bitwise `c | 0x20` of the source, for every byte `b`. */
  lemma ToLowerIsOr(b: bv8)
    ensures ToLower(b as int as char) as int == (b | 0x20) as int
  {
    OrBit5(b);
    Bit5(b);
  }

  /** Or-ing in bit 5 adds 32 exactly when the bit is clear. */
  lemma OrBit5(b: bv8)
    ensures (b | 0x20) as int == if b & 0x20 == 0 then b as int + 32 else b as int
  {
  }

  /** Bit 5 of a byte is its value modulo 64 reaching 32. */
  lemma Bit5(b: bv8)
    ensures (b & 0x20 == 0) == (b as int % 64 < 32)
  {
  }

  /** The bool decoder's test: only 't' and 'T' lower to 't'. */
  lemma ToLowerIsT(c: Byte)
    ensures ToLower(c) == 't' <==> c == 't' || c == 'T'
  {
  }

  /** `JsonParseTypes`: what a member is decoded as. */
  datatype JsonParseType = NumberType | BoolType | StringType | DateType | ClassType

  /**
   * A member's parse type together with what the type-level description
   * carries to the decoder: whether a number is floating point, and the
   * schema of a nested class.
   */
  datatype Kind =
    | Number(floating: bool)
    | Bool
    | String
    | Date
    | Class(schema: Schema)

  /** One member description: its JSON name, its parse type, and whether it may be missing. */
  datatype Member = Member(name: Text, kind: Kind, nullable: bool)

  /** The ordered member pack of a `json_parser_t`. */
  datatype Schema = Schema(members: seq<Member>)

  function TypeOf(k: Kind): JsonParseType {
    match k
    case Number(_) => NumberType
    case Bool => BoolType
    case String => StringType
    case Date => DateType
    case Class(_) => ClassType
  }

  /** `kv_t`: an entry of the name table. */
  datatype Entry = Entry(name: Text, expectedType: JsonParseType, nullable: bool, pos: nat)

  /** `value_pos`: the span found for a member (empty until found) and its nullability. */
  datatype ValuePos = ValuePos(valueStr: Text, isNullable: bool) {
    /**
     * `operator bool`: the member may be missing, or a non-empty value was
     * found for it.  A nullable member is always present; a required one
     * exactly when its span is not empty, so an empty span (an empty string
     * included) counts as missing.
     */
    predicate Present(): (r: bool)
      ensures isNullable ==> r
      ensures !isNullable ==> (r <==> |valueStr| > 0)
    {
      isNullable || valueStr != []
    }
  }

  /** A decoded value; an object holds its members' values in declaration order. */
  datatype Value =
    | Int(n: int)
    | Float(x: real)
    | Boolean(b: bool)
    | Str(s: Text)
    | DateValue
    | Object(fields: seq<Value>)

  // ---------------------------------------------------------------------
  // The name table
  // ---------------------------------------------------------------------

  /** `get_item<N>`: the table entry of the `N`-th member. */
  function GetItem(schema: Schema, n: nat): (e: Entry)
    requires n < |schema.members|
    ensures e.pos == n && e.name == schema.members[n].name
    ensures e.expectedType == TypeOf(schema.members[n].kind) && e.nullable == schema.members[n].nullable
  {
    var m := schema.members[n];
    Entry(m.name, TypeOf(m.kind), m.nullable, n)
  }

  /** `make_map`: one entry per member, entry `N` at index `N` with `pos == N`. */
  function MakeMap(schema: Schema): (table: seq<Entry>)
    ensures |table| == |schema.members|
    ensures forall n :: 0 <= n < |table| ==> table[n] == GetItem(schema, n)
  {
    seq(|schema.members|, n requires 0 <= n < |schema.members| => GetItem(schema, n))
  }

  /** `algorithm::find_if` over the table from index `k`: the first entry named `key`, or the end. */
  function FindIf(table: seq<Entry>, key: Text, k: nat): (r: nat)
    requires k <= |table|
    ensures k <= r <= |table|
    ensures r < |table| ==> table[r].name == key
    ensures forall j :: k <= j < r ==> table[j].name != key
    decreases |table| - k
  {
    if k == |table| then k
    else if table[k].name == key then k
    else FindIf(table, key, k + 1)
  }

  /** `has_name`: some entry is named `key`. */
  function HasName(table: seq<Entry>, key: Text): (r: bool)
    ensures r <==> exists j :: 0 <= j < |table| && table[j].name == key
  {
    FindIf(table, key, 0) != |table|
  }

  /**
   * `find_name`: the index of the first entry named `key`.  When there is
   * none the source calls `std::terminate`, which is `None` here.
   */
  function FindName(table: seq<Entry>, key: Text): (r: Option<nat>)
    ensures r.Some? <==> HasName(table, key)
    ensures r.Some? ==> r.value < |table| && table[r.value].name == key
    ensures r.Some? ==> forall j :: 0 <= j < r.value ==> table[j].name != key
  {
    var k := FindIf(table, key, 0);
    if k == |table| then None else Some(k)
  }

  /** On the table of a schema, `find_name` gives the position of the first member with that name. */
  lemma FindNameInMap(schema: Schema, key: Text, n: nat)
    requires n < |schema.members| && schema.members[n].name == key
    requires forall m :: 0 <= m < n ==> schema.members[m].name != key
    ensures FindName(MakeMap(schema), key) == Some(n)
    ensures MakeMap(schema)[n].pos == n
  {
    var table := MakeMap(schema);
    assert table[n].name == key;
  }

  // ---------------------------------------------------------------------
  // get_locations
  // ---------------------------------------------------------------------

  /** The slots `get_locations` starts from: an empty span and the member's nullability. */
  function Initial(table: seq<Entry>): (slots: seq<ValuePos>)
    ensures |slots| == |table|
    ensures forall n :: 0 <= n < |table| ==> slots[n].valueStr == [] && slots[n].isNullable == table[n].nullable
  {
    seq(|table|, n requires 0 <= n < |table| => ValuePos([], table[n].nullable))
  }

  /**
   * What the rest of the `get_locations` loop produces from cursor `i` and
   * slots `slots`: it stops at the end of the buffer or at '}'; otherwise
   * it reads a key, skips a value it does not know and stores the span of a
   * value it does in that member's slot.  Errors of the key reader and the
   * skippers end the decode.
   */
  function Locations(table: seq<Entry>, text: Text, i: nat, slots: seq<ValuePos>): (r: Result<seq<ValuePos>>)
    requires i <= |text| && |slots| == |table|
    ensures r.Ok? ==> |r.value| == |table|
    ensures r.Ok? ==> forall n :: 0 <= n < |table| ==> r.value[n].isNullable == slots[n].isNullable
    decreases |text| - i
  {
    if i == |text| || text[i] == '}' then Ok(slots)
    else match ParseName(text, i)
      case Err(e) => Err(e)
      case Ok(name) =>
        if !HasName(table, name.span) then
          match ValueToken(text, name.next)
          case Err(e) => Err(e)
          case Ok(skipped) => Locations(table, text, skipped.next, slots)
        else
          var pos := FindName(table, name.span).value;
          match ValueToken(text, name.next)
          case Err(e) => Err(e)
          case Ok(value) =>
            Locations(table, text, TrimLeft(text, value.next), slots[pos := slots[pos].(valueStr := value.span)])
  }

  /** `get_locations`, with the slots held in a fixed-size array as the source's `std::array`. */
  method GetLocations(table: seq<Entry>, text: Text, i: nat) returns (r: Result<seq<ValuePos>>)
    requires i <= |text|
    ensures r == Locations(table, text, i, Initial(table))
  {
    var result := new ValuePos[|table|](n requires 0 <= n < |table| => ValuePos([], table[n].nullable));
    assert result[..] == Initial(table);
    var cur := i;
    while cur < |text| && text[cur] != '}'
      invariant i <= cur <= |text| && result.Length == |table|
      invariant Locations(table, text, cur, result[..]) == Locations(table, text, i, Initial(table))
      decreases |text| - cur
    {
      var name := ParseName(text, cur);
      if name.Err? {
        return Err(name.error);
      }
      if !HasName(table, name.value.span) {
        var skipped := SkipValue(text, name.value.next);
        if skipped.Err? {
          return Err(skipped.error);
        }
        cur := skipped.value.next;
        continue;
      }
      var pos := FindName(table, name.value.span).value;
      var value := SkipValue(text, name.value.next);
      if value.Err? {
        return Err(value.error);
      }
      ghost var before := result[..];
      result[pos] := result[pos].(valueStr := value.value.span);
      assert result[..] == before[pos := before[pos].(valueStr := value.value.span)];
      cur := TrimLeft(text, value.value.next);
    }
    r := Ok(result[..]);
  }

  // ---------------------------------------------------------------------
  // Values and objects
  // ---------------------------------------------------------------------

  /** The `static_cast<T>(0.12345)` the floating-point branch returns for every input. */
  const FloatStub: real := 0.12345

  /** A decoded value has the shape its member description asks for; an object has one conforming value per member. */
  predicate Conforms(v: Value, k: Kind)
    decreases k
  {
    match k
    case Number(floating) => if floating then v.Float? else v.Int?
    case Bool => v.Boolean?
    case String => v.Str?
    case Date => v.DateValue?
    case Class(s) =>
      && v.Object? && |v.fields| == |s.members|
      && forall n :: 0 <= n < |s.members| ==> Conforms(v.fields[n], s.members[n].kind)
  }

  /**
   * Every slot is present: `all_of(locations, operator bool)`.  It fails
   * exactly when some required member's span is empty.
   */
  predicate AllPresent(slots: seq<ValuePos>): (r: bool)
    ensures r ==> forall n :: 0 <= n < |slots| && !slots[n].isNullable ==> slots[n].valueStr != []
    ensures !r ==> exists n :: 0 <= n < |slots| && !slots[n].isNullable && slots[n].valueStr == []
  {
    forall n :: 0 <= n < |slots| ==> slots[n].Present()
  }

  /**
   * `parse_value` for one member from its slot.  A number goes through the
   * integer parser `parseInt` unless it is floating point; a bool is true
   * when the first byte, lowered, is 't' (reading that byte from an empty
   * span fails); a string is the raw span; a date is the default value; a
   * nested class is decoded from its span with its own schema.
   */
  function DecodeValue(k: Kind, slot: ValuePos, parseInt: Text -> int): (r: Result<Value>)
    ensures r.Ok? ==> Conforms(r.value, k)
    ensures k.Number? && !k.floating ==> r == Ok(Int(parseInt(slot.valueStr)))
    ensures k.Number? && k.floating ==> r == Ok(Float(FloatStub))
    ensures k.Bool? ==> (r.Err? <==> slot.valueStr == [])
    ensures k.Bool? && slot.valueStr != [] ==> (r.value.b <==> slot.valueStr[0] in {'t', 'T'})
    ensures k.String? ==> r == Ok(Str(slot.valueStr))
    decreases k, 0, 0
  {
    match k
    case Number(floating) =>
      if floating then Ok(Float(FloatStub)) else Ok(Int(parseInt(slot.valueStr)))
    case Bool =>
      if slot.valueStr == [] then Err(UnexpectedEnd) else Ok(Boolean(ToLower(slot.valueStr[0]) == 't'))
    case String => Ok(Str(slot.valueStr))
    case Date => Ok(DateValue)
    case Class(s) => DecodeClass(s, slot.valueStr, parseInt)
  }

  /** The member values `parse_item<Is>(locations)...` from member `k` on, in declaration order. */
  function DecodeMembers(schema: Schema, slots: seq<ValuePos>, k: nat, parseInt: Text -> int): (r: Result<seq<Value>>)
    requires |slots| == |schema.members| && k <= |slots|
    ensures r.Ok? ==> |r.value| == |slots| - k
    ensures r.Ok? ==> forall n :: 0 <= n < |r.value| ==> Conforms(r.value[n], schema.members[k + n].kind)
    decreases schema, 0, |slots| - k
  {
    if k == |slots| then Ok([])
    else match DecodeValue(schema.members[k].kind, slots[k], parseInt)
      case Err(e) => Err(e)
      case Ok(v) =>
        match DecodeMembers(schema, slots, k + 1, parseInt)
        case Err(e) => Err(e)
        case Ok(vs) => Ok([v] + vs)
  }

  /**
   * The start of `parse_json_class`: after white space the object must start
   * with '{' (on an empty view, where the source reads `front()` unguarded,
   * the model fails); the members are
   * located from past '{' and white space.
   */
  function ClassStart(text: Text): (r: Result<nat>)
    ensures TrimLeft(text, 0) == |text| ==> r == Err(UnexpectedEnd)
    ensures TrimLeft(text, 0) < |text| && text[TrimLeft(text, 0)] != '{' ==> r == Err(InvalidClassStart)
    ensures TrimLeft(text, 0) < |text| && text[TrimLeft(text, 0)] == '{' ==>
      r == Ok(TrimLeft(text, TrimLeft(text, 0) + 1))
    ensures r.Ok? ==> r.value <= |text|
  {
    var j := TrimLeft(text, 0);
    if j == |text| then Err(UnexpectedEnd)
    else if text[j] != '{' then Err(InvalidClassStart)
    else Ok(TrimLeft(text, j + 1))
  }

  /**
   * The end of `parse_json_class`: every slot must be present, then
   * `construct_a` receives the member values in declaration order.
   */
  function Construct(schema: Schema, slots: seq<ValuePos>, parseInt: Text -> int): (r: Result<Value>)
    requires |slots| == |schema.members|
    ensures !AllPresent(slots) ==> r == Err(MissingMember)
    ensures r.Ok? ==> AllPresent(slots) && Conforms(r.value, Class(schema))
    decreases schema, 1, 0
  {
    if !AllPresent(slots) then Err(MissingMember)
    else match DecodeMembers(schema, slots, 0, parseInt)
      case Err(e) => Err(e)
      case Ok(fields) => Ok(Object(fields))
  }

  /**
   * `parse_json_class`, reached through `from_json_t` for a type whose
   * description is `schema`: find the start, locate the members, construct.
   */
  function DecodeClass(schema: Schema, text: Text, parseInt: Text -> int): (r: Result<Value>)
    ensures ClassStart(text).Err? ==> r == Err(ClassStart(text).error)
    ensures r.Ok? ==> Conforms(r.value, Class(schema))
    decreases schema, 2, 0
  {
    match ClassStart(text)
    case Err(e) => Err(e)
    case Ok(k) =>
      var table := MakeMap(schema);
      match Locations(table, text, k, Initial(table))
      case Err(e) => Err(e)
      case Ok(slots) => Construct(schema, slots, parseInt)
  }

  /** `parse_json_class`, calling the location loop. */
  method ParseJsonClass(schema: Schema, text: Text, parseInt: Text -> int) returns (r: Result<Value>)
    ensures r == DecodeClass(schema, text, parseInt)
  {
    var table := MakeMap(schema);
    var j := TrimLeft(text, 0);
    if j == |text| {
      return Err(UnexpectedEnd);
    }
    if text[j] != '{' {
      return Err(InvalidClassStart);
    }
    var start := TrimLeft(text, j + 1);
    assert ClassStart(text) == Ok(start);
    var locations := GetLocations(table, text, start);
    if locations.Err? {
      return Err(locations.error);
    }
    var slots := locations.value;
    if !AllPresent(slots) {
      return Err(MissingMember);
    }
    var fields := DecodeMembers(schema, slots, 0, parseInt);
    assert Construct(schema, slots, parseInt) == if fields.Err? then Err(fields.error) else Ok(Object(fields.value));
    if fields.Err? {
      return Err(fields.error);
    }
    r := Ok(Object(fields.value));
  }
}
