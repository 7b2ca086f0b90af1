/** AtlasAbstractDefStoreV1: the checks every v1 typedef store applies
    before storing a type, and which vertex its deletes remove. */
module AtlasAbstractDefStoreV1 {
  import opened Wrappers

  const ALLOW_RESERVED_KEYWORDS := "atlas.types.allowReservedKeywords"

  predicate IsLetter(c: char) {
    'a' <= c <= 'z' || 'A' <= c <= 'Z'
  }

  predicate IsDigit(c: char) {
    '0' <= c <= '9'
  }

  /** A character the pattern allows after the first. */
  predicate IsNameChar(c: char) {
    IsLetter(c) || IsDigit(c) || c == '_' || c == ' '
  }

  /** The language of `[a-zA-Z][a-zA-Z0-9_ ]*`. */
  predicate InNameLanguage(s: string) {
    |s| > 0 && IsLetter(s[0]) && forall i :: 1 <= i < |s| ==> IsNameChar(s[i])
  }

  /** `isValidName`: `Matcher.matches` on the whole name, as a scan through
      the pattern's two states (before the first character, inside the
      name); a null name fails as the matcher would. */
  method IsValidName(typeName: Option<string>) returns (r: Result<bool>)
    ensures r.Failure? <==> typeName.None?
    ensures r.Failure? ==> r.error == NullPointer
    ensures r.Success? ==> (r.value <==> InNameLanguage(typeName.value))
  {
    if typeName.None? {
      return Failure(NullPointer);
    }
    var s := typeName.value;
    if |s| == 0 || !IsLetter(s[0]) {
      return Success(false);
    }
    var i := 1;
    while i < |s|
      invariant 1 <= i <= |s|
      invariant forall j :: 1 <= j < i ==> IsNameChar(s[j])
    {
      if !IsNameChar(s[i]) {
        return Success(false);
      }
      i := i + 1;
    }
    return Success(true);
  }

  /** Extending a valid name by an allowed character keeps it valid, and
      any other character makes every extension invalid. */
  lemma NameExtension(s: string, c: char, rest: string)
    requires InNameLanguage(s)
    ensures InNameLanguage(s + [c]) <==> IsNameChar(c)
    ensures !IsNameChar(c) ==> !InNameLanguage(s + [c] + rest)
  {
    assert (s + [c])[|s|] == c;
    assert (s + [c] + rest)[|s|] == c;
    if IsNameChar(c) {
      forall i | 1 <= i < |s + [c]|
        ensures IsNameChar((s + [c])[i])
      {
        if i < |s| {
          assert (s + [c])[i] == s[i];
        }
      }
    }
  }

  datatype TypeCategory = PRIMITIVE | OBJECT_ID_TYPE | ENUM | STRUCT | CLASSIFICATION | ENTITY | ARRAY | MAP | RELATIONSHIP | BUSINESS_METADATA

  /** A typedef: struct-like ones (`AtlasStructDef` and its subclasses)
      carry their attribute names, or null for the list. */
  datatype TypeDef = TypeDef(name: Option<string>, category: TypeCategory, isStructDef: bool, attributeNames: Option<seq<string>>)

  /** `ApplicationProperties.get()`: it may fail to load; a loaded
      configuration may leave the keyword switch unset. */
  datatype Configuration = LoadFailed | Loaded(allowReservedKeywords: Option<bool>)

  /** The switch, defaulting to allowing reserved keywords. */
  function AllowReservedKeywords(config: Configuration): (r: Result<bool>)
    ensures r.Failure? <==> config.LoadFailed?
    ensures r.Failure? ==> r.error == InternalError
    ensures config.Loaded? && config.allowReservedKeywords.None? ==> r == Success(true)
  {
    match config
    case LoadFailed => Failure(InternalError)
    case Loaded(allow) => Success(allow.GetOr(true))
  }

  /** The first attribute name that is a query-language keyword. */
  function FirstKeyword(names: seq<string>, isKeyword: string -> bool): (r: Option<nat>)
    ensures r.None? <==> forall i :: 0 <= i < |names| ==> !isKeyword(names[i])
    ensures r.Some? ==> r.value < |names| && isKeyword(names[r.value])
                        && forall i :: 0 <= i < r.value ==> !isKeyword(names[i])
  {
    if |names| == 0 then None
    else if isKeyword(names[0]) then Some(0)
    else
      var r := FirstKeyword(names[1..], isKeyword);
      assert forall i :: 1 <= i < |names| ==> names[i] == names[1..][i - 1];
      if r.Some? then Some(r.value + 1) else None
  }

  /** `validateType`: the name format first, then (only if it passes) the
      configuration, then, for a struct-like typedef when keywords are not
      allowed, every attribute name in order. */
  method ValidateType(typeDef: TypeDef, config: Configuration, isKeyword: string -> bool) returns (r: Outcome)
    ensures typeDef.name.None? ==> r == Fail(NullPointer)
    ensures typeDef.name.Some? && !InNameLanguage(typeDef.name.value) ==> r == Fail(TypeNameInvalidFormat)
    ensures typeDef.name.Some? && InNameLanguage(typeDef.name.value) && config.LoadFailed? ==> r == Fail(InternalError)
    ensures typeDef.name.Some? && InNameLanguage(typeDef.name.value) && config.Loaded? ==> (
      && (AllowReservedKeywords(config) == Success(true) || !typeDef.isStructDef ==> r == Pass)
      && (AllowReservedKeywords(config) == Success(false) && typeDef.isStructDef ==> (
        && (typeDef.attributeNames.None? ==> r == Fail(NullPointer))
        && (typeDef.attributeNames.Some? ==> (r == Fail(AttributeNameInvalid) <==> exists i :: 0 <= i < |typeDef.attributeNames.value| && isKeyword(typeDef.attributeNames.value[i])))
        && (typeDef.attributeNames.Some? ==> (r == Pass <==> forall i :: 0 <= i < |typeDef.attributeNames.value| ==> !isKeyword(typeDef.attributeNames.value[i]))))))
  {
    var valid := IsValidName(typeDef.name);
    if valid.Failure? {
      return Fail(valid.error);
    }
    if !valid.value {
      return Fail(TypeNameInvalidFormat);
    }
    var allow := AllowReservedKeywords(config);
    if allow.Failure? {
      return Fail(allow.error);
    }
    if !allow.value && typeDef.isStructDef {
      if typeDef.attributeNames.None? {
        return Fail(NullPointer);
      }
      if FirstKeyword(typeDef.attributeNames.value, isKeyword).Some? {
        return Fail(AttributeNameInvalid);
      }
    }
    return Pass;
  }

  /** `deleteByName` / `deleteByGuid`: the vertex the caller already
      looked up, else the store's own pre-delete lookup. */
  function VertexToDelete<V>(preDeleteResult: Option<V>, preDelete: () -> Result<V>): (r: Result<V>)
    ensures preDeleteResult.Some? ==> r == Success(preDeleteResult.value)
    ensures preDeleteResult.None? ==> r == preDelete()
  {
    match preDeleteResult
    case Some(v) => Success(v)
    case None => preDelete()
  }

  /** Given a vertex, the store lookup is never consulted, so a failing
      lookup cannot stop the delete. */
  lemma SuppliedVertexWins<V>(v: V, lookup1: () -> Result<V>, lookup2: () -> Result<V>)
    ensures VertexToDelete(Some(v), lookup1) == VertexToDelete(Some(v), lookup2) == Success(v)
  {
  }
}
