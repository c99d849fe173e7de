/** The naming rules of `TypeNamingService`: how a reflected .NET type is named
    when it is imported, declared, or used as the type of a property. */
module TypeNaming {
  import opened Wrappers
  import opened Strings

  /** The verdicts of the type-classification helpers (`TypeUtils`) on one type. */
  datatype Traits = Traits(
    isString: bool,
    isNumber: bool,
    isDate: bool,
    isCollection: bool,
    isNullable: bool)

  /** The part of a reflected `System.Type` the naming rules read. */
  datatype ClrType = ClrType(
    name: string,                     // `Type.Name`, e.g. "List`1" or "Person[]"
    traits: Traits,
    isBool: bool,                     // the type is `typeof(bool)`
    elementType: Option<ClrType>,     // `GetElementType()`, present exactly for arrays
    isGenericType: bool,
    genericArguments: seq<ClrType>,   // `GetGenericArguments()`
    valueProperty: Option<ClrType>,   // type of the public `Value` property, if any
    isClass: bool,
    isEnum: bool)
  {
    predicate IsArray() {
      elementType.Some?
    }
  }

  /** The exceptions `GetPropertyTypeName` can raise, each naming the offending type. */
  datatype NamingError =
    | TooManyListArguments(typeName: string)       // collection with more than one generic argument
    | TooManyGenericArguments(typeName: string)    // other generic with more than one argument
    | NullableWithoutValue(typeName: string)       // nullable wrapper lacking a `Value` property
    | MissingGenericArgument(typeName: string)     // `FirstOrDefault()` of no arguments is null
    | UnsupportedPropertyType(typeName: string)

  /** The innermost element type of a (possibly nested) array type. */
  function Innermost(t: ClrType): (e: ClrType)
    ensures !e.IsArray()
  {
    match t.elementType
    case Some(el) => Innermost(el)
    case None => t
  }

  /** Name under which a type is imported: arrays name their element type,
      and the one-parameter arity marker is dropped. */
  function GetImportName(t: ClrType): string {
    match t.elementType
    case Some(el) => GetImportName(el)
    case None => Replace(t.name, ArityMarker, "")
  }

  /** Name under which a type is declared: like `GetImportName`, but the arity
      marker becomes the literal parameter list "<T>". */
  function GetDefinitionName(t: ClrType): string {
    match t.elementType
    case Some(el) => GetDefinitionName(el)
    case None => Replace(t.name, ArityMarker, "<T>")
  }

  /** Nested arrays reduce to their innermost element type, for both names. */
  lemma {:induction false} NamesOfInnermost(t: ClrType)
    ensures GetImportName(t) == Replace(Innermost(t).name, ArityMarker, "")
    ensures GetDefinitionName(t) == Replace(Innermost(t).name, ArityMarker, "<T>")
  {
    match t.elementType
    case Some(el) => NamesOfInnermost(el);
    case None =>
  }

  /** An array is named after its element type. */
  lemma ArrayNamedAfterElement(t: ClrType)
    requires t.IsArray()
    ensures GetImportName(t) == GetImportName(t.elementType.value)
    ensures GetDefinitionName(t) == GetDefinitionName(t.elementType.value)
    ensures Innermost(t) == Innermost(t.elementType.value)
  {
  }

  /** A non-array type whose name carries no arity marker keeps its name. */
  lemma PlainNamesUnchanged(t: ClrType)
    requires !t.IsArray() && !Contains(t.name, ArityMarker)
    ensures GetImportName(t) == t.name
    ensures GetDefinitionName(t) == t.name
  {
  }

  /** "X`1" is imported as "X" and declared as "X<T>". */
  lemma GenericNames(t: ClrType, x: string)
    requires !t.IsArray() && t.name == x + ArityMarker && !Contains(x, ArityMarker)
    ensures GetImportName(t) == x
    ensures GetDefinitionName(t) == x + "<T>"
  {
    ReplaceMarkerSuffix(x, "");
    ReplaceMarkerSuffix(x, "<T>");
    assert x + "" == x;
  }

  /** The optional marker TypeScript puts after a property name. */
  const OptionalMarker: string := "?"

  /** Property name: the casing conversion of the name, with the optional marker
      appended before conversion when the property's type is a nullable wrapper. */
  function GetPropertyName(propName: string, t: ClrType, casing: string -> string): string {
    if t.traits.isNullable then casing(propName + OptionalMarker) else casing(propName)
  }

  /** For a casing conversion that keeps a trailing marker exactly where one was,
      a property name ends with the marker exactly when its type is nullable. */
  lemma OptionalMarkerIffNullable(propName: string, t: ClrType, casing: string -> string)
    requires !IsSuffix(OptionalMarker, propName)
    requires forall s :: IsSuffix(OptionalMarker, casing(s)) <==> IsSuffix(OptionalMarker, s)
    ensures IsSuffix(OptionalMarker, GetPropertyName(propName, t, casing)) <==> t.traits.isNullable
  {
    var marked := propName + OptionalMarker;
    assert marked[|marked| - 1..] == OptionalMarker;
    assert IsSuffix(OptionalMarker, casing(marked));
  }

  /** The branches of `GetPropertyTypeName`, in the order the source tests them. */
  datatype Category =
    | StringLike | NumberLike | BooleanType | DateLike | Collection
    | NullableWrapper | GenericType | ClassOrEnum | Unmapped

  const Precedence: seq<Category> :=
    [StringLike, NumberLike, BooleanType, DateLike, Collection, NullableWrapper, GenericType, ClassOrEnum]

  /** The test guarding each branch, taken on its own. */
  predicate Matches(t: ClrType, c: Category) {
    match c
    case StringLike => t.traits.isString
    case NumberLike => t.traits.isNumber
    case BooleanType => t.isBool
    case DateLike => t.traits.isDate
    case Collection => t.traits.isCollection
    case NullableWrapper => t.traits.isNullable
    case GenericType => t.isGenericType
    case ClassOrEnum => t.isClass || t.isEnum
    case Unmapped => false
  }

  /** The first category of `cs` whose test holds, or `Unmapped` when none does. */
  function FirstMatch(t: ClrType, cs: seq<Category>): (c: Category)
    ensures c == Unmapped <==> forall i :: 0 <= i < |cs| ==> !Matches(t, cs[i])
    ensures c != Unmapped ==> exists i :: 0 <= i < |cs| && cs[i] == c && Matches(t, c)
                                           && forall j :: 0 <= j < i ==> !Matches(t, cs[j])
  {
    if |cs| == 0 then Unmapped
    else if Matches(t, cs[0]) then cs[0]
    else
      var c := FirstMatch(t, cs[1..]);
      assert forall i :: 1 <= i < |cs| ==> cs[i] == cs[1..][i - 1];
      c
  }

  /** The branch of `GetPropertyTypeName` a type takes: the first test that holds. */
  function Classify(t: ClrType): Category {
    FirstMatch(t, Precedence)
  }

  /** First match wins: the category a type is classified under is one whose
      test holds, and every test that precedes it fails. */
  lemma {:induction false} ClassifyFirstMatchWins(t: ClrType, i: nat)
    requires i < |Precedence| && Classify(t) == Precedence[i]
    ensures Matches(t, Precedence[i])
    ensures forall j :: 0 <= j < i ==> !Matches(t, Precedence[j])
  {
    var c := Classify(t);
    var k :| 0 <= k < |Precedence| && Precedence[k] == c && Matches(t, c)
             && forall j :: 0 <= j < k ==> !Matches(t, Precedence[j]);
    assert k == i;
  }

  /** The cascade of tests as `GetPropertyTypeName` writes it. */
  function Cascade(t: ClrType): Category {
    if t.traits.isString then StringLike
    else if t.traits.isNumber then NumberLike
    else if t.isBool then BooleanType
    else if t.traits.isDate then DateLike
    else if t.traits.isCollection then Collection
    else if t.traits.isNullable then NullableWrapper
    else if t.isGenericType then GenericType
    else if t.isClass || t.isEnum then ClassOrEnum
    else Unmapped
  }

  /** The written-out cascade agrees with the first match over `Precedence`. */
  lemma ClassifyIsCascade(t: ClrType)
    ensures Classify(t) == Cascade(t)
  {
    var c := Classify(t);
    var p := Precedence;
    assert p[0] == StringLike && p[1] == NumberLike && p[2] == BooleanType && p[3] == DateLike;
    assert p[4] == Collection && p[5] == NullableWrapper && p[6] == GenericType && p[7] == ClassOrEnum;
    if c == Unmapped {
      assert !Matches(t, p[0]) && !Matches(t, p[1]) && !Matches(t, p[2]) && !Matches(t, p[3]);
      assert !Matches(t, p[4]) && !Matches(t, p[5]) && !Matches(t, p[6]) && !Matches(t, p[7]);
    } else {
      var k :| 0 <= k < |p| && p[k] == c && Matches(t, c)
               && forall j :: 0 <= j < k ==> !Matches(t, p[j]);
      assert k < 8;
      assert 0 < k ==> !Matches(t, p[0]);
      assert 1 < k ==> !Matches(t, p[1]);
      assert 2 < k ==> !Matches(t, p[2]);
      assert 3 < k ==> !Matches(t, p[3]);
      assert 4 < k ==> !Matches(t, p[4]);
      assert 5 < k ==> !Matches(t, p[5]);
      assert 6 < k ==> !Matches(t, p[6]);
    }
  }

  /** Name of a collection type: an array's own name (it already ends in "[]"),
      otherwise its single generic argument followed by "[]". */
  function CollectionTypeName(t: ClrType): Result<string, NamingError> {
    if t.IsArray() then Ok(t.name)
    else if |t.genericArguments| > 1 then Err(TooManyListArguments(t.name))
    else if |t.genericArguments| == 0 then Err(MissingGenericArgument(t.name))
    else Ok(t.genericArguments[0].name + "[]")
  }

  /** Name of a non-collection generic type: the name without the arity marker,
      with its single generic argument between angle brackets. */
  function GenericTypeName(t: ClrType): Result<string, NamingError> {
    if |t.genericArguments| > 1 then Err(TooManyGenericArguments(t.name))
    else if |t.genericArguments| == 0 then Err(MissingGenericArgument(t.name))
    else Ok(Replace(t.name, ArityMarker, "") + "<" + t.genericArguments[0].name + ">")
  }

  /** TypeScript type of a property of type `t`, or the exception the source throws. */
  function GetPropertyTypeName(t: ClrType): (r: Result<string, NamingError>)
    ensures Classify(t) == StringLike ==> r == Ok("string")
    ensures Classify(t) == NumberLike ==> r == Ok("number")
    ensures Classify(t) == BooleanType ==> r == Ok("boolean")
    ensures Classify(t) == DateLike ==> r == Ok("Date")
    ensures Classify(t) == Collection ==> r == CollectionTypeName(t)
    ensures Classify(t) == GenericType ==> r == GenericTypeName(t)
    ensures Classify(t) == ClassOrEnum ==> r == Ok(t.name)
    ensures Classify(t) == Unmapped ==> r == Err(UnsupportedPropertyType(t.name))
    ensures Classify(t) == NullableWrapper && t.valueProperty.None?
            ==> r == Err(NullableWithoutValue(t.name))
  {
    ClassifyIsCascade(t);
    if t.traits.isString then Ok("string")
    else if t.traits.isNumber then Ok("number")
    else if t.isBool then Ok("boolean")
    else if t.traits.isDate then Ok("Date")
    else if t.traits.isCollection then CollectionTypeName(t)
    else if t.traits.isNullable then
      match t.valueProperty
      case None => Err(NullableWithoutValue(t.name))
      case Some(v) => GetPropertyTypeName(v)
    else if t.isGenericType then GenericTypeName(t)
    else if t.isClass || t.isEnum then Ok(t.name)
    else Err(UnsupportedPropertyType(t.name))
  }

  /** Strips the nullable wrappers the cascade unwraps, down to the wrapped type. */
  function Unwrapped(t: ClrType): (u: ClrType)
    ensures Classify(u) != NullableWrapper || u.valueProperty.None?
  {
    if Classify(t) == NullableWrapper && t.valueProperty.Some? then Unwrapped(t.valueProperty.value)
    else t
  }

  /** A nullable wrapper is named by the type it wraps: the property type name
      of any type is that of the type left after unwrapping. */
  lemma {:induction false} NullableNamedByWrappedType(t: ClrType)
    ensures GetPropertyTypeName(t) == GetPropertyTypeName(Unwrapped(t))
  {
    if Classify(t) == NullableWrapper && t.valueProperty.Some? {
      ClassifyIsCascade(t);
      NullableNamedByWrappedType(t.valueProperty.value);
    }
  }

  /** A string-like type is named "string" whatever else is true of it;
      in particular it never reaches the class branch. */
  lemma StringLikeNeverReachesClass(t: ClrType)
    requires t.traits.isString
    ensures GetPropertyTypeName(t) == Ok("string")
    ensures Classify(t) != ClassOrEnum
  {
    ClassifyIsCascade(t);
  }

  /** Collections: an array keeps its own name; a list with one generic argument
      is its argument's name plus "[]"; a list with more arguments is rejected. */
  lemma CollectionNames(t: ClrType)
    requires Classify(t) == Collection
    ensures t.IsArray() ==> GetPropertyTypeName(t) == Ok(t.name)
    ensures !t.IsArray() && |t.genericArguments| > 1
            ==> GetPropertyTypeName(t) == Err(TooManyListArguments(t.name))
    ensures !t.IsArray() && |t.genericArguments| == 1
            ==> GetPropertyTypeName(t) == Ok(t.genericArguments[0].name + "[]")
  {
  }

  /** A generic "X`1" with one argument A is named "X<A>"; more arguments are rejected. */
  lemma GenericTypeNames(t: ClrType, x: string)
    requires Classify(t) == GenericType
    ensures |t.genericArguments| > 1 ==> GetPropertyTypeName(t) == Err(TooManyGenericArguments(t.name))
    ensures |t.genericArguments| == 1 && t.name == x + ArityMarker && !Contains(x, ArityMarker)
            ==> GetPropertyTypeName(t) == Ok(x + "<" + t.genericArguments[0].name + ">")
  {
    if |t.genericArguments| == 1 && t.name == x + ArityMarker && !Contains(x, ArityMarker) {
      ReplaceMarkerSuffix(x, "");
      assert x + "" == x;
    }
  }
}
