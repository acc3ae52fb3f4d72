/**
 * The slice of the host's model metadata that discovery and binding read
 * and write: properties with their CLR type, the `[Encrypted]` attribute on
 * the declaring member, and the property's annotation store.
 */
module Metadata {
  import opened Common
  import opened DataAnnotations
  import opened EncryptionConverter

  /**
   * Annotation names: the two keys of `PropertyAnnotations`, the host's own
   * value-converter key, and any other name.
   */
  datatype AnnotationKey = IsEncryptedKey | StorageFormatKey | ValueConverterKey | OtherKey(name: string)

  /** A converter attached to a property: one of ours, or someone else's. */
  datatype ValueConverter = Encryption(converter: Converter) | Foreign(description: string)

  /** An annotation value, by the runtime type it has; `NullValue` is a `null` value. */
  datatype AnnotationValue =
    | NullValue
    | BoolValue(flag: bool)
    | FormatValue(format: StorageFormat)
    | ConverterValue(converter: ValueConverter)
    | OtherValue(description: string)

  /**
   * An `IMutableProperty`: `attribute` is the format of an `[Encrypted]`
   * attribute on the CLR member, if there is one.
   */
  datatype Property = Property(
    name: string,
    clrType: ClrType,
    attribute: Option<StorageFormat>,
    annotations: map<AnnotationKey, AnnotationValue>)

  /** An `IMutableEntityType` with its properties in the order the host lists them. */
  datatype EntityType = EntityType(name: string, properties: seq<Property>)

  /** The exceptions thrown while the model is configured. */
  datatype BuildError =
    | ArgumentNull(paramName: string)
    | NotImplemented(message: string)
    | InvalidCast      // an annotation value of the wrong runtime type
    | NullReference    // a missing or null annotation value unboxed to bool or StorageFormat

  /** The property has a value converter already. */
  predicate HasConverter(p: Property) {
    ValueConverterKey in p.annotations
  }

  /** Two properties that differ at most in their value-converter annotation. */
  ghost predicate SameButConverter(p: Property, q: Property) {
    && p.name == q.name && p.clrType == q.clrType && p.attribute == q.attribute
    && p.annotations - {ValueConverterKey} == q.annotations - {ValueConverterKey}
  }
}
