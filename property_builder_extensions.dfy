/**
 * Fluent configuration (`PropertyBuilderExtensions.IsEncrypted`): marking a
 * property for encryption by writing the two annotations that discovery
 * reads back.
 */
module PropertyBuilderExtensions {
  import opened Common
  import opened DataAnnotations
  import opened EncryptionConverter
  import opened Metadata
  import opened ModelBuilderExtensions

  /** The property as `IsEncrypted(storageFormat)` leaves it. */
  function MarkEncrypted(p: Property, storageFormat: StorageFormat): (r: Property)
    ensures r.name == p.name && r.clrType == p.clrType && r.attribute == p.attribute
    ensures IsEncryptedKey in r.annotations && r.annotations[IsEncryptedKey] == BoolValue(true)
    ensures StorageFormatKey in r.annotations && r.annotations[StorageFormatKey] == FormatValue(storageFormat)
    ensures r.annotations.Keys == p.annotations.Keys + {IsEncryptedKey, StorageFormatKey}
    ensures forall k :: k in p.annotations && k != IsEncryptedKey && k != StorageFormatKey ==>
                          r.annotations[k] == p.annotations[k]
  {
    p.(annotations := p.annotations[IsEncryptedKey := BoolValue(true)][StorageFormatKey := FormatValue(storageFormat)])
  }

  /** A property builder: the metadata of the one property it configures. */
  class PropertyBuilder {
    var metadata: Property

    constructor (metadata: Property)
      ensures this.metadata == metadata
    {
      this.metadata := metadata;
    }

    /** `HasAnnotation`: set an annotation, replacing a value already there. */
    method HasAnnotation(key: AnnotationKey, value: AnnotationValue)
      modifies this
      ensures metadata == old(metadata).(annotations := old(metadata).annotations[key := value])
    {
      metadata := metadata.(annotations := metadata.annotations[key := value]);
    }
  }

  /**
   * `IsEncrypted`: mark the property as encrypted with the given storage
   * format, `Default` when none is given, and return the same builder.
   */
  method IsEncrypted(builder: PropertyBuilder?, storageFormat: StorageFormat := Default)
    returns (r: Result<PropertyBuilder, BuildError>)
    modifies builder
    ensures builder == null ==> r == Err(ArgumentNull("builder"))
    ensures builder != null ==>
      r.Ok? && r.value == builder && builder.metadata == MarkEncrypted(old(builder.metadata), storageFormat)
  {
    if builder == null {
      return Err(ArgumentNull("builder"));
    }
    builder.HasAnnotation(IsEncryptedKey, BoolValue(true));
    builder.HasAnnotation(StorageFormatKey, FormatValue(storageFormat));
    return Ok(builder);
  }

  /** Discovery reads back the format `IsEncrypted` wrote, whatever the attribute says. */
  lemma MarkedIsDiscovered(p: Property, storageFormat: StorageFormat)
    ensures Create(MarkEncrypted(p, storageFormat)) == Ok(Some(storageFormat))
  {
    var q := MarkEncrypted(p, storageFormat);
    assert Annotated(q);
  }

  /**
   * A property of a supported type marked by `IsEncrypted` and without a
   * converter of its own is bound to the converter of the selection table
   * for its type and the format given.
   */
  lemma MarkedIsBound(p: Property, storageFormat: StorageFormat, source: ProviderSource)
    requires !p.clrType.OtherType? && !HasConverter(p)
    ensures var q := MarkEncrypted(p, storageFormat);
      var r := BindProperty(q, source);
      && r.Ok? && SameButConverter(q, r.value) && HasConverter(r.value)
      && r.value.annotations[ValueConverterKey]
         == ConverterValue(Encryption(GetValueConverter(p.clrType, source, storageFormat).value))
  {
    MarkedIsDiscovered(p, storageFormat);
  }

  /** Marking a property of a type the table does not cover makes the build fail with `NotImplementedException`. */
  lemma MarkedUnsupportedFails(p: Property, storageFormat: StorageFormat, source: ProviderSource)
    requires p.clrType.OtherType? && !HasConverter(p)
    ensures BindProperty(MarkEncrypted(p, storageFormat), source)
            == Err(NotImplemented(UnsupportedMessage(p.clrType.name)))
  {
    MarkedIsDiscovered(p, storageFormat);
  }

  /** Marking again replaces the format of an earlier mark: the last call wins. */
  lemma LastMarkWins(p: Property, first: StorageFormat, second: StorageFormat)
    ensures MarkEncrypted(MarkEncrypted(p, first), second) == MarkEncrypted(p, second)
  {
    var a, b := MarkEncrypted(MarkEncrypted(p, first), second), MarkEncrypted(p, second);
    assert a.annotations == b.annotations;
  }
}
