/**
 * The construction customisation points and the class-mapping predicates.
 *
 * The source states these as templates and compile-time constants over
 * types.  Here a type's relevant properties are values: which argument lists
 * a constructor accepts and what it returns, whether a class mapping carries
 * the exact-mapping or ignore-unknown-members trait, and the nullability of a
 * class and of a member that depends on it.  The iterator pairs handed to the
 * container constructors are index ranges `[first, last)` into a sequence.
 */
module Traits {

  /** A type, by name. */
  type TypeName = seq<char>

  /** How a member treats absence and `null`. */
  datatype Nullability = MustExist | Nullable | NullVisible

  /* ---------------------------------------------------------------------- */
  /* construction_result                                                     */
  /* ---------------------------------------------------------------------- */

  /**
   * A constructor as the argument lists it can be invoked with, each mapped
   * to the type the invocation returns (`std::invoke_result`).
   */
  type Constructor = map<seq<TypeName>, TypeName>

  /**
   * What `construction_result` selects: the type the construction yields, or
   * one of the two marker types that report a constructor that cannot be
   * invoked, with the argument list it was tried with.
   */
  datatype ConstructionResult =
    | Yields(result: TypeName)
    | NullableCannotBeInvoked(args: seq<TypeName>)
    | CannotBeInvoked(args: seq<TypeName>)

  /**
   * `construction_result<Nullable, Constructor, Args...>`.  For a nullable
   * member the constructor must accept `Args` and also no arguments at all,
   * and the result is that of the zero-argument call; otherwise it is the
   * result of the call with `Args`.
   *
   * So a type is selected exactly when the constructor accepts the arguments
   * and, for a nullable member, no arguments too; a failure is reported with
   * the marker of its kind and the arguments it was tried with: the empty
   * list when a nullable member's constructor accepts `Args` but not the
   * empty call, `Args` otherwise.
   */
  function SelectConstructionResult(nullable: bool, ctor: Constructor, args: seq<TypeName>): (r: ConstructionResult)
    ensures r.Yields? <==> args in ctor && (nullable ==> [] in ctor)
    ensures r.Yields? && nullable ==> r.result == ctor[[]]
    ensures r.Yields? && !nullable ==> r.result == ctor[args]
    ensures r.NullableCannotBeInvoked? <==> nullable && !(args in ctor && [] in ctor)
    ensures r.CannotBeInvoked? <==> !nullable && args !in ctor
    ensures r.NullableCannotBeInvoked? ==> r.args == (if args in ctor then [] else args)
    ensures r.CannotBeInvoked? ==> r.args == args
  {
    if nullable then
      if args in ctor then
        if [] in ctor then Yields(ctor[[]]) else NullableCannotBeInvoked([])
      else NullableCannotBeInvoked(args)
    else if args in ctor then Yields(ctor[args])
    else CannotBeInvoked(args)
  }

  /* ---------------------------------------------------------------------- */
  /* default_constructor<T>                                                  */
  /* ---------------------------------------------------------------------- */

  /** The ways `default_constructor<T>` can build a `T`. */
  datatype Construction =
    | ValueInitialise               // `T{ }`
    | Parenthesised(arity: nat)     // `T( args... )`
    | Braced(arity: nat)            // `T{ args... }`
    | NoOverload                    // no call operator is viable

  /**
   * The call operator of the generic `default_constructor<T>` that overload
   * resolution picks for `arity` arguments: no arguments value-initialise;
   * otherwise parentheses when `T` is constructible from the arguments, and
   * braces when it is not but is list-constructible from them.  The enabling
   * conditions of the two argument-taking overloads exclude each other, so at
   * most one is viable, and braces are used only for a type that parentheses
   * cannot build.
   */
  function SelectDefaultConstruction(arity: nat, constructible: bool, listConstructible: bool): (r: Construction)
    ensures r == ValueInitialise <==> arity == 0
    ensures r.Parenthesised? <==> arity > 0 && constructible
    ensures r.Braced? <==> arity > 0 && !constructible && listConstructible
    ensures r == NoOverload <==> arity > 0 && !constructible && !listConstructible
    ensures r.Parenthesised? || r.Braced? ==> r.arity == arity
  {
    if arity == 0 then ValueInitialise
    else if constructible then Parenthesised(arity)
    else if listConstructible then Braced(arity)
    else NoOverload
  }

  /* ---------------------------------------------------------------------- */
  /* construct_array_cleanup                                                 */
  /* ---------------------------------------------------------------------- */

  /**
   * The destructor of `construct_array_cleanup`: the iterator it refers to
   * moves one step, except at run time while an exception is propagating:
   * it advances exactly when it runs in a constant evaluation or no exception
   * is in flight, and otherwise stays.
   */
  function CleanupAdvance(it: nat, uncaughtExceptions: nat, constantEvaluated: bool): (r: nat)
    ensures r == it || r == it + 1
    ensures r == it + 1 <==> constantEvaluated || uncaughtExceptions == 0
  {
    if constantEvaluated || uncaughtExceptions == 0 then it + 1 else it
  }

  /* ---------------------------------------------------------------------- */
  /* default_constructor<std::array<T, Sz>>                                  */
  /* ---------------------------------------------------------------------- */

  /**
   * The `Sz` elements of the array built from the source elements `xs`:
   * element `i` is `xs[i]` while there is one, `T{ }` (here `zero`) after.
   */
  function ArrayOf<T>(xs: seq<T>, n: nat, zero: T): (r: seq<T>)
    ensures |r| == n
  {
    if n == 0 then []
    else ArrayOf(xs, n - 1, zero) + [if n - 1 < |xs| then xs[n - 1] else zero]
  }

  /** Element by element: the source element where there is one, `T{ }` after the source runs out. */
  lemma {:induction false} ArrayOfElements<T>(xs: seq<T>, n: nat, zero: T)
    ensures |ArrayOf(xs, n, zero)| == n
    ensures forall i :: 0 <= i < n ==> ArrayOf(xs, n, zero)[i] == if i < |xs| then xs[i] else zero
    decreases n
  {
    if n > 0 {
      ArrayOfElements(xs, n - 1, zero);
    }
  }

  /** A source with at least `Sz` elements gives its first `Sz`; a shorter one is padded with `T{ }`. */
  lemma ArrayOfPrefix<T>(xs: seq<T>, n: nat, zero: T)
    ensures n <= |xs| ==> ArrayOf(xs, n, zero) == xs[..n]
    ensures |xs| <= n ==> ArrayOf(xs, n, zero) == xs + seq(n - |xs|, _ => zero)
  {
    ArrayOfElements(xs, n, zero);
    if n <= |xs| {
      assert ArrayOf(xs, n, zero) == xs[..n];
    } else {
      assert ArrayOf(xs, n, zero) == xs + seq(n - |xs|, _ => zero);
    }
  }

  function Min(a: nat, b: nat): nat {
    if a < b then a else b
  }

  /**
   * `construct_array(first, last)` with `Sz` slots: the braced initialiser
   * calls `get_result` once per slot, in order, and each call takes the
   * element under the captured iterator and moves it on, or gives `T{ }`
   * once `first == last`.  A type that cannot be moved is returned by copy,
   * and `construct_array_cleanup` moves the iterator after the copy.
   * `it` is where the captured iterator ends.
   */
  method ConstructArray<T>(src: seq<T>, first: nat, last: nat, sz: nat, zero: T, moveConstructible: bool)
    returns (arr: seq<T>, it: nat)
    requires first <= last <= |src|
    ensures arr == ArrayOf(src[first..last], sz, zero)
    ensures it == first + Min(sz, last - first)
  {
    arr := [];
    it := first;
    var i := 0;
    while i < sz
      invariant i <= sz
      invariant it == first + Min(i, last - first)
      invariant arr == ArrayOf(src[first..last], i, zero)
    {
      var element: T;
      if it != last {
        element := src[it];
        if moveConstructible {
          it := it + 1;
        } else {
          it := CleanupAdvance(it, 0, false);
        }
      } else {
        element := zero;
      }
      arr := arr + [element];
      i := i + 1;
    }
  }

  /* ---------------------------------------------------------------------- */
  /* default_constructor<std::vector<T, Alloc>>                              */
  /* ---------------------------------------------------------------------- */

  /** A vector: its elements and the capacity reserved before they were assigned. */
  datatype Vector<T> = Vector(elems: seq<T>, reserved: nat)

  /** The reservation of the input-iterator branch: a 4096-byte page over `sizeof(T) * 8`, in unsigned division. */
  function ReserveAmount(elemSize: nat): (r: nat)
    requires elemSize > 0
    ensures r <= 512
  {
    QuotientIsNat(4096, elemSize * 8);
    4096 / (elemSize * 8)
  }

  lemma QuotientIsNat(a: nat, b: int)
    requires b > 0
    ensures a / b >= 0
  {
  }

  /**
   * The iterator-pair call of `default_constructor<std::vector<T, Alloc>>`.
   * With random-access iterators, or an allocator other than
   * `std::allocator`, the vector is built from the range directly; otherwise
   * an empty vector reserves `ReserveAmount` elements and then assigns the
   * range.
   */
  function ConstructVector<T>(src: seq<T>, first: nat, last: nat, randomAccess: bool, stdAllocator: bool, elemSize: nat): (v: Vector<T>)
    requires first <= last <= |src| && elemSize > 0
    ensures v.elems == src[first..last]
    ensures v.reserved == if randomAccess || !stdAllocator then 0 else ReserveAmount(elemSize)
  {
    if randomAccess || !stdAllocator then Vector(src[first..last], 0)
    else
      var result := Vector([], 0);
      var reserved := result.(reserved := ReserveAmount(elemSize));
      reserved.(elems := src[first..last])
  }

  /** Both branches hold the same elements, in the order of the range. */
  lemma VectorBranchesAgree<T>(src: seq<T>, first: nat, last: nat, elemSize: nat)
    requires first <= last <= |src| && elemSize > 0
    ensures ConstructVector(src, first, last, true, true, elemSize).elems
         == ConstructVector(src, first, last, false, true, elemSize).elems
    ensures forall i :: 0 <= i < last - first ==> ConstructVector(src, first, last, false, true, elemSize).elems[i] == src[first + i]
  {
  }

  /**
   * The reservation fits in a page, and is empty exactly for elements of
   * more than 512 bytes.
   */
  lemma ReserveAmountBounds(elemSize: nat)
    requires elemSize > 0
    ensures ReserveAmount(elemSize) * (elemSize * 8) <= 4096
    ensures ReserveAmount(elemSize) == 0 <==> elemSize > 512
  {
    var b, q := elemSize * 8, ReserveAmount(elemSize);
    assert q * b + 4096 % b == 4096;
    if q > 0 {
      assert q * b == (q - 1) * b + b;
      assert (q - 1) * b >= 0;
    }
  }

  /** A one-byte element reserves 512 slots, a four-byte one 128, an eight-byte one 64. */
  lemma ReserveAmountExamples()
    ensures ReserveAmount(1) == 512 && ReserveAmount(4) == 128 && ReserveAmount(8) == 64
  {
  }

  /* ---------------------------------------------------------------------- */
  /* nullable_constructor                                                    */
  /* ---------------------------------------------------------------------- */

  /** A readable (optional-like) value: empty, or built from constructor arguments. */
  datatype Readable<A> = ReadableEmpty | ReadableValue(args: seq<A>)

  /**
   * `nullable_constructor<T>` for a readable-value type: the zero-argument
   * call (a JSON null) builds the empty state, and a call with one or more
   * arguments builds a value from exactly those arguments.
   */
  function NullableConstruct<A>(args: seq<A>): (r: Readable<A>)
    ensures r.ReadableEmpty? <==> args == []
    ensures r.ReadableValue? ==> r.args == args
  {
    if |args| == 0 then ReadableEmpty else ReadableValue(args)
  }

  /* ---------------------------------------------------------------------- */
  /* Class-mapping predicates                                                */
  /* ---------------------------------------------------------------------- */

  /**
   * A variable template the user may specialise for a class: either the
   * primary definition applies, or a specialisation gives the value outright.
   */
  datatype Specialisation = Primary | SpecialisedTo(value: bool)

  /** What a class mapping says about members it does not name. */
  datatype ClassTraits = ClassTraits(
    ignoreUnknownSpecialised: bool,       // `ignore_unknown_members<T>` is true
    ignoreUnknownInContract: bool,        // the contract has a member type `ignore_unknown_members`
    exactSpecialisation: Specialisation,  // `is_exact_class_mapping_v<T>` specialised for the class, or not
    exactMappingInContract: bool          // the contract has a member type `exact_class_mapping`
  )

  /** `ignore_unknown_members_v<T>`: either route, the specialisation or the contract's member type, suffices. */
  predicate IgnoreUnknownMembers(t: ClassTraits): (r: bool)
    ensures t.ignoreUnknownSpecialised ==> r
    ensures t.ignoreUnknownInContract ==> r
    ensures r ==> t.ignoreUnknownSpecialised || t.ignoreUnknownInContract
  {
    t.ignoreUnknownSpecialised || t.ignoreUnknownInContract
  }

  /**
   * `is_exact_class_mapping_v<T>`.  There are two routes to an exact mapping:
   * specialising the variable for the class, whose value then replaces the
   * primary definition, or, with no specialisation, naming a member type
   * `exact_class_mapping` in the contract, which the primary definition
   * detects.  `ignore_unknown_members` plays no part here.
   */
  predicate IsExactClassMapping(t: ClassTraits): (r: bool)
    ensures t.exactSpecialisation == SpecialisedTo(true) ==> r
    ensures t.exactSpecialisation == Primary && t.exactMappingInContract ==> r
    ensures r ==>
      t.exactSpecialisation == SpecialisedTo(true) || (t.exactSpecialisation == Primary && t.exactMappingInContract)
  {
    match t.exactSpecialisation
    case SpecialisedTo(v) => v
    case Primary => t.exactMappingInContract
  }

  /**
   * `all_json_members_must_exist_v<T, ParseState>`.  Ignoring unknown
   * members, by either route, wins over any request for an exact mapping;
   * without it, the class is exact when it asks to be, by either route, or
   * the parse policy makes exactness the default.
   */
  predicate AllMembersMustExist(t: ClassTraits, exactByDefault: bool): (r: bool)
    ensures (t.ignoreUnknownSpecialised || t.ignoreUnknownInContract) ==> !r
    ensures !t.ignoreUnknownSpecialised && !t.ignoreUnknownInContract
        ==> (r <==>
               || t.exactSpecialisation == SpecialisedTo(true)
               || (t.exactSpecialisation == Primary && t.exactMappingInContract)
               || exactByDefault)
  {
    !IgnoreUnknownMembers(t) && (IsExactClassMapping(t) || exactByDefault)
  }

  /**
   * `is_nullability_compatable_v<ClassNullability, DependentNullability>`:
   * a member that must exist fits any class, and a nullable class accepts any
   * member; so the only incompatible pairs are a class that must exist with
   * a member that may be null.
   */
  predicate IsNullabilityCompatible(cls: Nullability, dep: Nullability): (r: bool)
    ensures !r <==> cls == MustExist && dep != MustExist
  {
    dep == MustExist || cls == Nullable || cls == NullVisible
  }
}
