/**
 * Discovery and binding (`ModelBuilderExtensions.UseEncryption`): every
 * property marked for encryption by attribute or annotation, and without a
 * converter of its own, gets an encryption converter chosen by its CLR type
 * and requested storage format.
 */
module ModelBuilderExtensions {
  import opened Common
  import opened DataAnnotations
  import opened EncryptionConverter
  import opened Metadata

  /** The message of the `NotImplementedException` for an unsupported CLR type. */
  function UnsupportedMessage(typeName: string): string {
    "Type " + typeName + " does not support encryption."
  }

  /** The message holds the type name at a fixed place. */
  lemma UnsupportedMessageNamesType(typeName: string)
    ensures var m := UnsupportedMessage(typeName);
            |m| == |typeName| + 34 && m[5..|m| - 29] == typeName
  {
  }

  /** Different type names give different messages. */
  lemma UnsupportedMessagesDiffer(a: string, b: string)
    requires a != b
    ensures UnsupportedMessage(a) != UnsupportedMessage(b)
  {
    UnsupportedMessageNamesType(a);
    UnsupportedMessageNamesType(b);
  }

  /**
   * `GetValueConverter`: the converter for a property's CLR type and
   * requested format. Strings are stored as base64 text unless `Binary` is
   * asked for; byte arrays are stored as bytes unless `Base64` is asked for.
   */
  function GetValueConverter(clr: ClrType, source: ProviderSource, format: StorageFormat): (r: Result<Converter, BuildError>)
    ensures r.Err? <==> clr.OtherType?
    ensures clr.OtherType? ==> r == Err(NotImplemented(UnsupportedMessage(clr.name)))
    ensures r.Ok? ==> r.value.model == clr && r.value.source == source && Consistent(r.value)
    ensures r.Ok? ==>
      (r.value.format == Base64 <==> (clr == StringType && format != Binary) || (clr == ByteArrayType && format == Base64))
  {
    match clr
    case StringType =>
      (match format
       case Default | Base64 => Ok(Converter(StringType, StringType, Base64, source))
       case Binary => Ok(Converter(StringType, ByteArrayType, Binary, source)))
    case ByteArrayType =>
      (match format
       case Default | Binary => Ok(Converter(ByteArrayType, ByteArrayType, Binary, source))
       case Base64 => Ok(Converter(ByteArrayType, StringType, Base64, source)))
    case OtherType(name) => Err(NotImplemented(UnsupportedMessage(name)))
  }

  /** The `IsEncrypted` annotation is absent or `false`. */
  ghost predicate FlagClear(p: Property) {
    IsEncryptedKey !in p.annotations || p.annotations[IsEncryptedKey] == BoolValue(false)
  }

  /** The `IsEncrypted` annotation is `true`. */
  ghost predicate FlagSet(p: Property) {
    IsEncryptedKey in p.annotations && p.annotations[IsEncryptedKey] == BoolValue(true)
  }

  /** The `IsEncrypted` annotation holds `null`. */
  ghost predicate FlagNull(p: Property) {
    IsEncryptedKey in p.annotations && p.annotations[IsEncryptedKey] == NullValue
  }

  /** There is no `StorageFormat` annotation, or it holds `null`. */
  ghost predicate FormatMissing(p: Property) {
    StorageFormatKey !in p.annotations || p.annotations[StorageFormatKey] == NullValue
  }

  /** The `IsEncrypted` annotation is `true` and the `StorageFormat` annotation holds a format. */
  ghost predicate Annotated(p: Property) {
    FlagSet(p) && StorageFormatKey in p.annotations && p.annotations[StorageFormatKey].FormatValue?
  }

  /**
   * `EncryptedProperty.Create`: the storage format the property is to be
   * encrypted with, or `None` when it is not marked. The attribute gives a
   * format first; a `true` `IsEncrypted` annotation then replaces it by the
   * `StorageFormat` annotation.
   */
  function Create(p: Property): (r: Result<Option<StorageFormat>, BuildError>)
    ensures FlagClear(p) ==> r == Ok(p.attribute)
    ensures Annotated(p) ==> r == Ok(Some(p.annotations[StorageFormatKey].format))
    ensures r.Err? <==> !FlagClear(p) && !Annotated(p)
    ensures FlagNull(p) || (FlagSet(p) && FormatMissing(p)) ==> r == Err(NullReference)
    ensures r.Err? && !FlagNull(p) && !(FlagSet(p) && FormatMissing(p)) ==> r == Err(InvalidCast)
    ensures r.Ok? && r.value.Some? ==> p.attribute.Some? || FlagSet(p)
  {
    var fromAttribute := p.attribute;
    if IsEncryptedKey in p.annotations then
      match p.annotations[IsEncryptedKey]
      case NullValue => Err(NullReference)
      case BoolValue(flag) =>
        if flag then
          if StorageFormatKey !in p.annotations then Err(NullReference)
          else
            match p.annotations[StorageFormatKey]
            case NullValue => Err(NullReference)
            case FormatValue(f) => Ok(Some(f))
            case _ => Err(InvalidCast)
        else Ok(fromAttribute)
      case _ => Err(InvalidCast)
    else Ok(fromAttribute)
  }

  /** The property with `c` set as its value converter (`SetValueConverter`). */
  function WithConverter(p: Property, c: Converter): Property {
    p.(annotations := p.annotations[ValueConverterKey := ConverterValue(Encryption(c))])
  }

  /**
   * One pass of the inner loop of `UseEncryption` over one property: the
   * property afterwards, or the exception that ends the build.
   */
  function BindProperty(p: Property, source: ProviderSource): (r: Result<Property, BuildError>)
    ensures r.Ok? ==> SameButConverter(p, r.value)
    ensures Create(p) == Ok(None) ==> r == Ok(p)
    ensures Create(p).Ok? && HasConverter(p) ==> r == Ok(p)
    ensures r.Err? <==> Create(p).Err? || (Create(p).value.Some? && !HasConverter(p) && p.clrType.OtherType?)
    ensures r.Err? ==>
      r.error == (if Create(p).Err? then Create(p).error else NotImplemented(UnsupportedMessage(p.clrType.name)))
    ensures Create(p).Ok? && Create(p).value.Some? && !HasConverter(p) && !p.clrType.OtherType? ==>
      var c := GetValueConverter(p.clrType, source, Create(p).value.value).value;
      r.Ok? && HasConverter(r.value) && r.value.annotations[ValueConverterKey] == ConverterValue(Encryption(c))
  {
    match Create(p)
    case Err(e) => Err(e)
    case Ok(None) => Ok(p)
    case Ok(Some(f)) =>
      if HasConverter(p) then Ok(p)
      else
        match GetValueConverter(p.clrType, source, f)
        case Err(e) => Err(e)
        case Ok(c) => Ok(WithConverter(p, c))
  }

  /** The state a loop leaves, and the exception it stopped at, if any. */
  datatype Pass<T> = Pass(value: T, failure: Option<BuildError>)

  /** The inner loop over the properties of one entity type, stopping at the first exception. */
  function BindProperties(ps: seq<Property>, source: ProviderSource): (r: Pass<seq<Property>>)
    ensures |r.value| == |ps|
    decreases |ps|
  {
    if |ps| == 0 then Pass([], None)
    else
      match BindProperty(ps[0], source)
      case Err(e) => Pass(ps, Some(e))
      case Ok(q) =>
        var rest := BindProperties(ps[1..], source);
        Pass([q] + rest.value, rest.failure)
  }

  /** The outer loop over the entity types, stopping at the first exception. */
  function BindEntities(es: seq<EntityType>, source: ProviderSource): (r: Pass<seq<EntityType>>)
    ensures |r.value| == |es|
    decreases |es|
  {
    if |es| == 0 then Pass([], None)
    else
      var b := BindProperties(es[0].properties, source);
      var e := es[0].(properties := b.value);
      if b.failure.Some? then Pass([e] + es[1..], b.failure)
      else
        var rest := BindEntities(es[1..], source);
        Pass([e] + rest.value, rest.failure)
  }

  /** The first `j0` properties are bound as `BindProperty` says; the others are as they were. */
  ghost predicate BoundBefore(ps: seq<Property>, out: seq<Property>, source: ProviderSource, j0: nat) {
    && |out| == |ps| && j0 <= |ps|
    && (forall j :: 0 <= j < j0 ==> BindProperty(ps[j], source) == Ok(out[j]))
    && (forall j :: j0 <= j < |ps| ==> out[j] == ps[j])
  }

  /**
   * What the inner loop does: it binds every property when no exception is
   * thrown; when one is, it comes from the first property whose binding
   * fails, the properties before it are bound and the rest are untouched.
   */
  ghost predicate BindsPropertiesInOrder(ps: seq<Property>, source: ProviderSource) {
    var r := BindProperties(ps, source);
    && (r.failure.None? ==> BoundBefore(ps, r.value, source, |ps|))
    && (r.failure.Some? ==>
          exists j0 :: 0 <= j0 < |ps| && BindProperty(ps[j0], source) == Err(r.failure.value)
                                       && BoundBefore(ps, r.value, source, j0))
  }

  lemma {:induction false} BindPropertiesSpec(ps: seq<Property>, source: ProviderSource)
    ensures BindsPropertiesInOrder(ps, source)
    decreases |ps|
  {
    if |ps| > 0 {
      if BindProperty(ps[0], source).Err? {
        assert BoundBefore(ps, BindProperties(ps, source).value, source, 0);
      } else {
        BindPropertiesSpec(ps[1..], source);
        FirstPropertyBinds(ps, source);
      }
    }
  }

  /** `BindsPropertiesInOrder` when the first property binds and the others bind in order. */
  lemma FirstPropertyBinds(ps: seq<Property>, source: ProviderSource)
    requires |ps| > 0 && BindProperty(ps[0], source).Ok?
    requires BindsPropertiesInOrder(ps[1..], source)
    ensures BindsPropertiesInOrder(ps, source)
  {
    var q := BindProperty(ps[0], source).value;
    var rest := BindProperties(ps[1..], source);
    if rest.failure.None? {
      ShiftProperties(ps, q, rest.value, source, |ps| - 1);
    } else {
      var j1 :| 0 <= j1 < |ps| - 1 && BindProperty(ps[1..][j1], source) == Err(rest.failure.value)
                && BoundBefore(ps[1..], rest.value, source, j1);
      ShiftProperties(ps, q, rest.value, source, j1);
      assert ps[j1 + 1] == ps[1..][j1];
    }
  }

  /** Prepending a bound first property moves the bound position one property on. */
  lemma ShiftProperties(ps: seq<Property>, q: Property, out: seq<Property>, source: ProviderSource, j1: nat)
    requires |ps| > 0 && BindProperty(ps[0], source) == Ok(q)
    requires BoundBefore(ps[1..], out, source, j1)
    ensures BoundBefore(ps, [q] + out, source, j1 + 1)
  {
    var r := [q] + out;
    forall j | 0 < j < |ps| ensures r[j] == out[j - 1] && ps[j] == ps[1..][j - 1] {}
  }

  /**
   * Properties of the entity types at positions lexicographically before
   * `(i0, j0)` are bound as `BindProperty` says; all others are as they were;
   * entity names and property counts never change.
   */
  ghost predicate EntitiesBoundBefore(es: seq<EntityType>, out: seq<EntityType>, source: ProviderSource, i0: nat, j0: nat) {
    && |out| == |es|
    && (forall i :: 0 <= i < |es| ==> out[i].name == es[i].name && |out[i].properties| == |es[i].properties|)
    && (forall i :: 0 <= i < |es| && i < i0 ==> BoundBefore(es[i].properties, out[i].properties, source, |es[i].properties|))
    && (0 <= i0 < |es| ==> BoundBefore(es[i0].properties, out[i0].properties, source, j0))
    && (forall i :: 0 <= i < |es| && i > i0 ==> out[i].properties == es[i].properties)
  }

  /**
   * What the outer loop does: it binds every property of every entity type
   * when no exception is thrown; when one is, it comes from the first failing
   * property in visiting order, everything visited before it is bound, and
   * everything from it on is untouched.
   */
  ghost predicate BindsInOrder(es: seq<EntityType>, source: ProviderSource) {
    var r := BindEntities(es, source);
    && (r.failure.None? ==> EntitiesBoundBefore(es, r.value, source, |es|, 0))
    && (r.failure.Some? ==>
          exists i0, j0 :: 0 <= i0 < |es| && 0 <= j0 < |es[i0].properties|
                           && BindProperty(es[i0].properties[j0], source) == Err(r.failure.value)
                           && EntitiesBoundBefore(es, r.value, source, i0, j0))
  }

  lemma {:induction false} BindEntitiesSpec(es: seq<EntityType>, source: ProviderSource)
    ensures BindsInOrder(es, source)
    decreases |es|
  {
    if |es| > 0 {
      BindPropertiesSpec(es[0].properties, source);
      if BindProperties(es[0].properties, source).failure.Some? {
        FirstEntityFails(es, source);
      } else {
        BindEntitiesSpec(es[1..], source);
        FirstEntityBinds(es, source);
      }
    }
  }

  /** `BindsInOrder` when the exception comes from the first entity type. */
  lemma FirstEntityFails(es: seq<EntityType>, source: ProviderSource)
    requires |es| > 0
    requires var b := BindProperties(es[0].properties, source);
      b.failure.Some? &&
      exists j0 :: 0 <= j0 < |es[0].properties| && BindProperty(es[0].properties[j0], source) == Err(b.failure.value)
                   && BoundBefore(es[0].properties, b.value, source, j0)
    ensures BindsInOrder(es, source)
  {
    var r := BindEntities(es, source);
    var b := BindProperties(es[0].properties, source);
    var j0 :| 0 <= j0 < |es[0].properties| && BindProperty(es[0].properties[j0], source) == Err(b.failure.value)
              && BoundBefore(es[0].properties, b.value, source, j0);
    assert r.value == [es[0].(properties := b.value)] + es[1..];
    assert EntitiesBoundBefore(es, r.value, source, 0, j0) by {
      forall i | 0 <= i < |es| && i > 0 ensures r.value[i].properties == es[i].properties {
        assert r.value[i] == es[1..][i - 1];
      }
    }
  }

  /** `BindsInOrder` when the first entity type binds completely and the others bind in order. */
  lemma FirstEntityBinds(es: seq<EntityType>, source: ProviderSource)
    requires |es| > 0
    requires var b := BindProperties(es[0].properties, source);
      b.failure.None? && BoundBefore(es[0].properties, b.value, source, |es[0].properties|)
    requires BindsInOrder(es[1..], source)
    ensures BindsInOrder(es, source)
  {
    var b := BindProperties(es[0].properties, source);
    var rest := BindEntities(es[1..], source);
    if rest.failure.None? {
      ShiftBound(es, es[0].(properties := b.value), rest.value, source, |es| - 1, 0);
    } else {
      var i1, j1 :| 0 <= i1 < |es| - 1 && 0 <= j1 < |es[1..][i1].properties|
                    && BindProperty(es[1..][i1].properties[j1], source) == Err(rest.failure.value)
                    && EntitiesBoundBefore(es[1..], rest.value, source, i1, j1);
      ShiftBound(es, es[0].(properties := b.value), rest.value, source, i1, j1);
      assert es[i1 + 1] == es[1..][i1];
    }
  }

  /** Prepending a completely bound first entity type moves the bound position one entity type on. */
  lemma ShiftBound(es: seq<EntityType>, e: EntityType, out: seq<EntityType>, source: ProviderSource, i1: nat, j1: nat)
    requires |es| > 0 && e.name == es[0].name
    requires BoundBefore(es[0].properties, e.properties, source, |es[0].properties|)
    requires EntitiesBoundBefore(es[1..], out, source, i1, j1)
    ensures EntitiesBoundBefore(es, [e] + out, source, i1 + 1, j1)
  {
    var r := [e] + out;
    forall i | 0 < i < |es| ensures r[i] == out[i - 1] && es[i] == es[1..][i - 1] {}
  }

  /** The build succeeds exactly when every property of every entity type binds without an exception. */
  lemma BindEntitiesSucceeds(es: seq<EntityType>, source: ProviderSource)
    ensures BindEntities(es, source).failure.None? <==>
            forall i, j :: 0 <= i < |es| && 0 <= j < |es[i].properties| ==> BindProperty(es[i].properties[j], source).Ok?
  {
    BindEntitiesSpec(es, source);
  }

  /**
   * After a successful build, a marked property of a supported type that had
   * no converter carries the converter of the selection table; every other
   * property is exactly as it was.
   */
  lemma BoundPropertyOutcome(es: seq<EntityType>, source: ProviderSource, i: nat, j: nat)
    requires i < |es| && j < |es[i].properties|
    requires BindEntities(es, source).failure.None?
    ensures var out := BindEntities(es, source).value;
      && |out[i].properties| == |es[i].properties|
      && var p, q := es[i].properties[j], out[i].properties[j];
      && SameButConverter(p, q)
      && (HasConverter(p) || Create(p) == Ok(None) ==> q == p)
      && (!HasConverter(p) && Create(p).Ok? && Create(p).value.Some? ==>
            && !p.clrType.OtherType?
            && HasConverter(q)
            && q.annotations[ValueConverterKey]
               == ConverterValue(Encryption(GetValueConverter(p.clrType, source, Create(p).value.value).value)))
  {
    BindEntitiesSpec(es, source);
    var out := BindEntities(es, source).value;
    assert BoundBefore(es[i].properties, out[i].properties, source, |es[i].properties|);
    assert BindProperty(es[i].properties[j], source) == Ok(out[i].properties[j]);
  }

  /**
   * A marked property (by the attribute, the annotations or both) of a type
   * the converter table does not cover and without a converter makes the
   * build throw `NotImplementedException` naming that type, once every
   * property visited before it has bound.
   */
  lemma UnsupportedTypeFails(es: seq<EntityType>, source: ProviderSource, i: nat, j: nat)
    requires i < |es| && j < |es[i].properties|
    requires var p := es[i].properties[j];
             Create(p).Ok? && Create(p).value.Some? && p.clrType.OtherType? && !HasConverter(p)
    requires forall i', j' :: 0 <= i' < |es| && 0 <= j' < |es[i'].properties| && (i' < i || (i' == i && j' < j)) ==>
               BindProperty(es[i'].properties[j'], source).Ok?
    ensures BindEntities(es, source).failure == Some(NotImplemented(UnsupportedMessage(es[i].properties[j].clrType.name)))
  {
    var p := es[i].properties[j];
    var r := BindEntities(es, source);
    assert BindProperty(p, source) == Err(NotImplemented(UnsupportedMessage(p.clrType.name)));
    BindEntitiesSpec(es, source);
    BindEntitiesSucceeds(es, source);
    var i0, j0 :| 0 <= i0 < |es| && 0 <= j0 < |es[i0].properties|
                  && BindProperty(es[i0].properties[j0], source) == Err(r.failure.value)
                  && EntitiesBoundBefore(es, r.value, source, i0, j0);
    BoundPositionsBind(es, r.value, source, i0, j0);
    assert i0 == i && j0 == j;
  }

  /** Every property at a position before the bound position `(i0, j0)` binds. */
  lemma BoundPositionsBind(es: seq<EntityType>, out: seq<EntityType>, source: ProviderSource, i0: nat, j0: nat)
    requires EntitiesBoundBefore(es, out, source, i0, j0)
    ensures forall i, j :: 0 <= i < |es| && 0 <= j < |es[i].properties| && (i < i0 || (i == i0 && j < j0)) ==>
              BindProperty(es[i].properties[j], source).Ok?
  {
    forall i, j | 0 <= i < |es| && 0 <= j < |es[i].properties| && (i < i0 || (i == i0 && j < j0))
      ensures BindProperty(es[i].properties[j], source).Ok?
    {
      if i < i0 {
        assert BoundBefore(es[i].properties, out[i].properties, source, |es[i].properties|);
      }
    }
  }

  /** A model builder: the entity types of the model being built, with their properties. */
  class ModelBuilder {
    var entities: seq<EntityType>

    constructor (entities: seq<EntityType>)
      ensures this.entities == entities
    {
      this.entities := entities;
    }

    /**
     * The outer loop of `UseEncryption`: visit the entity types in order and
     * bind the properties of each; an exception stops the loop where it is.
     */
    method BindAll(source: ProviderSource) returns (failure: Option<BuildError>)
      modifies this
      ensures var b := BindEntities(old(entities), source); entities == b.value && failure == b.failure
    {
      ghost var orig := entities;
      OuterLoopStart(orig, source);
      failure := None;
      var i := 0;
      while i < |entities|
        invariant failure.None? && OuterLoop(orig, entities, i, source)
      {
        ghost var before := entities;
        failure := BindEntity(i, source);
        if failure.Some? {
          OuterLoopStop(orig, before, i, source);
          return;
        }
        OuterLoopAdvance(orig, before, i, source);
        i := i + 1;
      }
      OuterLoopEnd(orig, entities, source);
    }

    /**
     * The inner loop of `UseEncryption` over the properties of entity type
     * `i`: set the converter of each marked one that has none; an exception
     * stops the loop where it is.
     */
    method BindEntity(i: nat, source: ProviderSource) returns (failure: Option<BuildError>)
      requires i < |entities|
      modifies this
      ensures var b := BindProperties(old(entities)[i].properties, source);
              && entities == old(entities)[i := old(entities)[i].(properties := b.value)]
              && failure == b.failure
    {
      ghost var props := entities[i].properties;
      InnerLoopStart(props, source);
      var j := 0;
      while j < |entities[i].properties|
        invariant i < |entities| && entities == old(entities)[i := old(entities)[i].(properties := entities[i].properties)]
        invariant InnerLoop(props, entities[i].properties, j, source)
      {
        ghost var before := entities[i].properties;
        failure := BindOne(i, j, source);
        if failure.Some? {
          InnerLoopStop(props, before, j, source);
          return;
        }
        InnerLoopAdvance(props, before, j, entities[i].properties[j], source);
        j := j + 1;
      }
      InnerLoopEnd(props, entities[i].properties, source);
      return None;
    }

    /**
     * The body of the inner loop of `UseEncryption` for property `j` of
     * entity type `i`: find how it is marked and, when it is marked and has
     * no converter, select one by its CLR type and set it.
     */
    method BindOne(i: nat, j: nat, source: ProviderSource) returns (failure: Option<BuildError>)
      requires i < |entities| && j < |entities[i].properties|
      modifies this
      ensures var e := old(entities)[i];
              var r := BindProperty(e.properties[j], source);
              && (r.Ok? ==> failure.None? && entities == old(entities)[i := e.(properties := e.properties[j := r.value])])
              && (r.Err? ==> failure == Some(r.error) && entities == old(entities))
    {
      var p := entities[i].properties[j];
      assert entities[i].properties[j := p] == entities[i].properties;
      assert entities[i := entities[i].(properties := entities[i].properties[j := p])] == entities;
      match Create(p)
      case Err(e) =>
        return Some(e);
      case Ok(None) =>
        return None;
      case Ok(Some(format)) =>
        if HasConverter(p) {
          return None;
        }
        match GetValueConverter(p.clrType, source, format)
        case Err(e) =>
          return Some(e);
        case Ok(c) =>
          entities := entities[i := entities[i].(properties := entities[i].properties[j := WithConverter(p, c)])];
          return None;
    }
  }

  /**
   * The state of the inner loop over `props` before property `j`: the
   * properties `cur` so far followed by what the rest of the loop does give
   * what the whole loop does.
   */
  ghost predicate InnerLoop(props: seq<Property>, cur: seq<Property>, j: nat, source: ProviderSource) {
    && j <= |props| == |cur| && cur[j..] == props[j..]
    && BindProperties(props, source)
       == var rest := BindProperties(props[j..], source); Pass(cur[..j] + rest.value, rest.failure)
  }

  lemma InnerLoopStart(props: seq<Property>, source: ProviderSource)
    ensures InnerLoop(props, props, 0, source)
  {
    assert props[0..] == props && props[..0] + BindProperties(props, source).value == BindProperties(props, source).value;
  }

  /** Property `j` binds to `q`: the loop goes on with `q` in its place. */
  lemma InnerLoopAdvance(props: seq<Property>, cur: seq<Property>, j: nat, q: Property, source: ProviderSource)
    requires InnerLoop(props, cur, j, source) && j < |props| && BindProperty(cur[j], source) == Ok(q)
    ensures InnerLoop(props, cur[j := q], j + 1, source)
  {
    var next := cur[j := q];
    assert cur[j] == props[j] && props[j..][0] == props[j] && props[j..][1..] == props[j + 1..];
    var rest := BindProperties(props[j + 1..], source);
    assert BindProperties(props[j..], source) == Pass([q] + rest.value, rest.failure);
    assert next[..j + 1] == cur[..j] + [q];
    assert cur[..j] + ([q] + rest.value) == (cur[..j] + [q]) + rest.value;
    assert next[j + 1..] == cur[j + 1..];
  }

  /** Property `j` fails: the loop stops there with the properties as they are. */
  lemma InnerLoopStop(props: seq<Property>, cur: seq<Property>, j: nat, source: ProviderSource)
    requires InnerLoop(props, cur, j, source) && j < |props| && BindProperty(cur[j], source).Err?
    ensures BindProperties(props, source) == Pass(cur, Some(BindProperty(cur[j], source).error))
  {
    assert cur[j] == props[j] && props[j..][0] == props[j];
    assert cur[..j] + props[j..] == cur;
  }

  /** Every property is visited: the loop ends with the properties as they are. */
  lemma InnerLoopEnd(props: seq<Property>, cur: seq<Property>, source: ProviderSource)
    requires InnerLoop(props, cur, |props|, source)
    ensures BindProperties(props, source) == Pass(cur, None)
  {
    assert props[|props|..] == [] && cur[..|props|] == cur;
    assert BindProperties([], source) == Pass([], None);
    assert cur + [] == cur;
  }

  /**
   * The state of the outer loop over `es` before entity type `i`: the
   * entity types `cur` so far followed by what the rest of the loop does
   * give what the whole loop does.
   */
  ghost predicate OuterLoop(es: seq<EntityType>, cur: seq<EntityType>, i: nat, source: ProviderSource) {
    && i <= |es| == |cur| && cur[i..] == es[i..]
    && BindEntities(es, source)
       == var rest := BindEntities(es[i..], source); Pass(cur[..i] + rest.value, rest.failure)
  }

  lemma OuterLoopStart(es: seq<EntityType>, source: ProviderSource)
    ensures OuterLoop(es, es, 0, source)
  {
    assert es[0..] == es && es[..0] + BindEntities(es, source).value == BindEntities(es, source).value;
  }

  /** The properties of entity type `i` all bind: the loop goes on with them in place. */
  lemma OuterLoopAdvance(es: seq<EntityType>, cur: seq<EntityType>, i: nat, source: ProviderSource)
    requires OuterLoop(es, cur, i, source) && i < |es| && BindProperties(cur[i].properties, source).failure.None?
    ensures OuterLoop(es, cur[i := cur[i].(properties := BindProperties(cur[i].properties, source).value)], i + 1, source)
  {
    var e := cur[i].(properties := BindProperties(cur[i].properties, source).value);
    var next := cur[i := e];
    assert cur[i] == es[i] && es[i..][0] == es[i] && es[i..][1..] == es[i + 1..];
    var rest := BindEntities(es[i + 1..], source);
    assert BindEntities(es[i..], source) == Pass([e] + rest.value, rest.failure);
    assert next[..i + 1] == cur[..i] + [e];
    assert cur[..i] + ([e] + rest.value) == (cur[..i] + [e]) + rest.value;
    assert next[i + 1..] == cur[i + 1..];
  }

  /** A property of entity type `i` fails: the loop stops there with the entity types as they are. */
  lemma OuterLoopStop(es: seq<EntityType>, cur: seq<EntityType>, i: nat, source: ProviderSource)
    requires OuterLoop(es, cur, i, source) && i < |es| && BindProperties(cur[i].properties, source).failure.Some?
    ensures var b := BindProperties(cur[i].properties, source);
            BindEntities(es, source) == Pass(cur[i := cur[i].(properties := b.value)], b.failure)
  {
    var b := BindProperties(cur[i].properties, source);
    var e := cur[i].(properties := b.value);
    assert cur[i] == es[i] && es[i..][0] == es[i] && es[i..][1..] == es[i + 1..];
    assert BindEntities(es[i..], source) == Pass([e] + es[i + 1..], b.failure);
    assert cur[i + 1..] == es[i + 1..];
    assert cur[i := e] == cur[..i] + ([e] + cur[i + 1..]);
  }

  /** Every entity type is visited: the loop ends with the entity types as they are. */
  lemma OuterLoopEnd(es: seq<EntityType>, cur: seq<EntityType>, source: ProviderSource)
    requires OuterLoop(es, cur, |es|, source)
    ensures BindEntities(es, source) == Pass(cur, None)
  {
    assert es[|es|..] == [] && cur[..|es|] == cur;
    assert BindEntities([], source) == Pass([], None);
    assert cur + [] == cur;
  }

  /** `UseEncryption` with a provider instance. */
  method UseEncryption(modelBuilder: ModelBuilder?, encryptionProvider: Option<Provider>)
    returns (r: Result<ModelBuilder, BuildError>)
    modifies modelBuilder
    ensures modelBuilder == null ==> r == Err(ArgumentNull("modelBuilder"))
    ensures modelBuilder != null && encryptionProvider.None? ==>
      r == Err(ArgumentNull("encryptionProvider")) && modelBuilder.entities == old(modelBuilder.entities)
    ensures modelBuilder != null && encryptionProvider.Some? ==>
      var b := BindEntities(old(modelBuilder.entities), Eager(encryptionProvider.value));
      && modelBuilder.entities == b.value
      && (b.failure.None? ==> r.Ok? && r.value == modelBuilder)
      && (b.failure.Some? ==> r == Err(b.failure.value))
  {
    if modelBuilder == null {
      return Err(ArgumentNull("modelBuilder"));
    }
    if encryptionProvider.None? {
      return Err(ArgumentNull("encryptionProvider"));
    }
    var failure := modelBuilder.BindAll(Eager(encryptionProvider.value));
    if failure.Some? {
      return Err(failure.value);
    }
    return Ok(modelBuilder);
  }

  /** `UseEncryption` with a provider factory, which every conversion calls. */
  method UseEncryptionDeferred(modelBuilder: ModelBuilder?, encryptionProviderFunc: Option<Ambient -> Option<Provider>>)
    returns (r: Result<ModelBuilder, BuildError>)
    modifies modelBuilder
    ensures modelBuilder == null ==> r == Err(ArgumentNull("modelBuilder"))
    ensures modelBuilder != null && encryptionProviderFunc.None? ==>
      r == Err(ArgumentNull("encryptionProviderFunc")) && modelBuilder.entities == old(modelBuilder.entities)
    ensures modelBuilder != null && encryptionProviderFunc.Some? ==>
      var b := BindEntities(old(modelBuilder.entities), Deferred(encryptionProviderFunc.value));
      && modelBuilder.entities == b.value
      && (b.failure.None? ==> r.Ok? && r.value == modelBuilder)
      && (b.failure.Some? ==> r == Err(b.failure.value))
  {
    if modelBuilder == null {
      return Err(ArgumentNull("modelBuilder"));
    }
    if encryptionProviderFunc.None? {
      return Err(ArgumentNull("encryptionProviderFunc"));
    }
    var failure := modelBuilder.BindAll(Deferred(encryptionProviderFunc.value));
    if failure.Some? {
      return Err(failure.value);
    }
    return Ok(modelBuilder);
  }
}
